/**
 * The entities of the freight-matching domain and the database state they live in.
 * Every relation is held as the id of the related row (a foreign key); a
 * repository is a map from id to row.
 */
module Domain {
  import opened Wrappers

  /** Instants as epoch milliseconds. */
  type Time = int

  type UserId = int
  type CarrierId = int
  type ShipperId = int
  type LoadId = int
  type BidId = int
  type TruckId = int
  type DriverId = int
  type ShipmentId = int

  datatype LatLng = LatLng(lat: real, lng: real)

  /** An origin or destination of a load. */
  datatype Place = Place(address: string, coordinates: LatLng)

  /** Units of a load; only the defaults the services name are distinguished. */
  datatype WeightUnit = Kilogram | OtherWeightUnit(name: string)
  datatype DimensionUnit = Meters | OtherDimensionUnit(name: string)
  datatype Dimensions = Dimensions(length: real, width: real, height: real, unit: DimensionUnit)

  datatype LoadStatus = Draft | Published | Accepted | Cancelled | Expired | InTransit | Delivered

  /** The stored value of a load status, as error messages print it. */
  function LoadStatusName(s: LoadStatus): string {
    match s
    case Draft => "draft"
    case Published => "published"
    case Accepted => "accepted"
    case Cancelled => "cancelled"
    case Expired => "expired"
    case InTransit => "in_transit"
    case Delivered => "delivered"
  }

  /** A shipper's transport request. */
  datatype Load = Load(
    shipperId: ShipperId,
    origin: Place,
    destination: Place,
    weight: real,
    weightUnit: WeightUnit,
    dimensions: Dimensions,
    cargoTypes: seq<string>,
    status: LoadStatus,
    pickupDate: Option<Time>,
    deliveryDeadline: Option<Time>,
    budget: real,
    description: Option<string>,
    acceptedBid: Option<BidId>,
    acceptedBidAmount: Option<real>)

  datatype BidStatus = Pending | Accepted | Rejected | Cancelled

  /** A carrier's priced, dated offer on a load with one of its trucks (the bid table has no notes column). */
  datatype Bid = Bid(
    loadId: LoadId,
    carrierId: CarrierId,
    truckId: TruckId,
    amount: real,
    status: BidStatus,
    pickup: Time,
    delivery: Time)

  /** A time window `[start, end)` reserved on a truck for a bid. */
  datatype Commitment = Commitment(start: Time, end: Time, loadId: LoadId, bidId: BidId)

  datatype TruckStatus = Available | InMaintenance | OutOfService

  datatype Truck = Truck(
    carrierId: CarrierId,
    licensePlate: string,
    capacity: real,
    status: TruckStatus,
    commitments: seq<Commitment>,
    currentDriver: Option<DriverId>,
    currentLocation: Option<LatLng>)

  /** A carrier's driver; `assignedTruck` is the field the truck service reads and writes. */
  datatype Driver = Driver(
    carrierId: CarrierId,
    userId: UserId,
    firstName: string,
    lastName: string,
    phone: string,
    assignedTruck: Option<TruckId>)

  datatype ShipmentStatus = Scheduled | InTransit | Delivered | Delayed | Cancelled

  /** The string value each shipment status is stored and reported as. */
  function ShipmentStatusName(s: ShipmentStatus): string {
    match s
    case Scheduled => "scheduled"
    case InTransit => "in_transit"
    case Delivered => "delivered"
    case Delayed => "delayed"
    case Cancelled => "cancelled"
  }

  /**
   * The executable unit created when a bid is accepted. The shipment table has no
   * column for the bid (its one-to-one relation has no join column) and none for
   * an actual start date, so neither is part of the stored row.
   */
  datatype Shipment = Shipment(
    loadId: LoadId,
    carrierId: CarrierId,
    truckId: TruckId,
    driverId: Option<DriverId>,
    status: ShipmentStatus,
    startDate: Time,
    estimatedDeliveryDate: Time,
    actualDeliveryDate: Option<Time>,
    currentLocation: Option<LatLng>,
    updatedAt: Time)

  /** One GPS reading as a driver reports it. */
  datatype Fix = Fix(lat: real, lng: real, accuracy: Option<real>, heading: Option<real>, speed: Option<real>)

  /** An append-only location-history row; `createdAt` is the insertion instant. */
  datatype LocationRow = LocationRow(
    shipmentId: ShipmentId,
    truckId: TruckId,
    location: Fix,
    recordedAt: Time,
    notes: Option<string>,
    createdAt: Time)

  /** A stored password: the hash of the plain text, treated as an uninterpreted injection. */
  datatype Secret = Hashed(plain: string)

  /** An account; `role` is the name of its role row, when it has one. */
  datatype User = User(email: string, password: Secret, role: Option<string>, isActive: bool)

  datatype Role = Role(id: int, name: string)

  datatype ResetToken = ResetToken(token: string, userId: UserId, expiresAt: Time, used: bool)

  datatype Carrier = Carrier(userId: UserId)
  datatype Shipper = Shipper(userId: UserId)

  /** The database: one repository per entity, plus the append-only tables. */
  datatype Db = Db(
    users: map<UserId, User>,
    roles: seq<Role>,
    carriers: map<CarrierId, Carrier>,
    shippers: map<ShipperId, Shipper>,
    loads: map<LoadId, Load>,
    bids: map<BidId, Bid>,
    trucks: map<TruckId, Truck>,
    drivers: map<DriverId, Driver>,
    shipments: map<ShipmentId, Shipment>,
    history: seq<LocationRow>,
    resetTokens: seq<ResetToken>)

  /** `findOne({ where: { user: { id } } })` on the carrier repository. */
  ghost function CarrierOfUser(db: Db, userId: UserId): (r: Option<CarrierId>)
    ensures r.Some? ==> r.value in db.carriers && db.carriers[r.value].userId == userId
    ensures r.None? <==> forall c :: c in db.carriers ==> db.carriers[c].userId != userId
  {
    CarrierIn(db.carriers, userId)
  }

  /** The lookup depends on the carrier table alone. */
  ghost function CarrierIn(carriers: map<CarrierId, Carrier>, userId: UserId): (r: Option<CarrierId>)
    ensures r.Some? ==> r.value in carriers && carriers[r.value].userId == userId
    ensures r.None? <==> forall c :: c in carriers ==> carriers[c].userId != userId
  {
    if exists c :: c in carriers && carriers[c].userId == userId then
      var c :| c in carriers && carriers[c].userId == userId;
      Some(c)
    else None
  }

  /** `findOne({ where: { user: { id } } })` on the shipper repository. */
  ghost function ShipperOfUser(db: Db, userId: UserId): (r: Option<ShipperId>)
    ensures r.Some? ==> r.value in db.shippers && db.shippers[r.value].userId == userId
    ensures r.None? <==> forall s :: s in db.shippers ==> db.shippers[s].userId != userId
  {
    ShipperIn(db.shippers, userId)
  }

  /** The lookup depends on the shipper table alone. */
  ghost function ShipperIn(shippers: map<ShipperId, Shipper>, userId: UserId): (r: Option<ShipperId>)
    ensures r.Some? ==> r.value in shippers && shippers[r.value].userId == userId
    ensures r.None? <==> forall s :: s in shippers ==> shippers[s].userId != userId
  {
    if exists s :: s in shippers && shippers[s].userId == userId then
      var s :| s in shippers && shippers[s].userId == userId;
      Some(s)
    else None
  }

  /** `findOne({ where: { user: { id } } })` on the driver repository; it depends on the driver table alone. */
  ghost function DriverIn(drivers: map<DriverId, Driver>, userId: UserId): (r: Option<DriverId>)
    ensures r.Some? ==> r.value in drivers && drivers[r.value].userId == userId
    ensures r.None? <==> forall d :: d in drivers ==> drivers[d].userId != userId
  {
    if exists d :: d in drivers && drivers[d].userId == userId then
      var d :| d in drivers && drivers[d].userId == userId;
      Some(d)
    else None
  }

  /** `findOne({ where: { email } })` on the user repository; it depends on the user table alone. */
  ghost function UserWithEmail(users: map<UserId, User>, email: string): (r: Option<UserId>)
    ensures r.Some? ==> r.value in users && users[r.value].email == email
    ensures r.None? <==> forall u :: u in users ==> users[u].email != email
  {
    if exists u :: u in users && users[u].email == email then
      var u :| u in users && users[u].email == email;
      Some(u)
    else None
  }

  /** The user table's email column is unique. */
  ghost predicate EmailsUnique(users: map<UserId, User>) {
    forall u1, u2 :: u1 in users && u2 in users && users[u1].email == users[u2].email ==> u1 == u2
  }

  /** The user id behind a carrier id, when the carrier row exists. */
  function CarrierUser(db: Db, carrierId: CarrierId): Option<UserId> {
    if carrierId in db.carriers then Some(db.carriers[carrierId].userId) else None
  }

  /** The user id behind a driver id, when the driver row exists. */
  function DriverUser(db: Db, driverId: DriverId): Option<UserId> {
    if driverId in db.drivers then Some(db.drivers[driverId].userId) else None
  }

  /** The user id of the shipper owning a load, when both rows exist. */
  function LoadShipperUser(db: Db, loadId: LoadId): Option<UserId> {
    if loadId in db.loads && db.loads[loadId].shipperId in db.shippers then
      Some(db.shippers[db.loads[loadId].shipperId].userId)
    else None
  }

  /** The carrier table's user column is one-to-one, hence unique. */
  ghost predicate CarrierUsersUnique(db: Db) {
    forall c1, c2 :: c1 in db.carriers && c2 in db.carriers && db.carriers[c1].userId == db.carriers[c2].userId ==> c1 == c2
  }

  /** With unique carrier users, the lookup by user finds the one carrier of that user. */
  lemma CarrierOfUserFinds(db: Db, carrierId: CarrierId)
    requires CarrierUsersUnique(db) && carrierId in db.carriers
    ensures CarrierOfUser(db, db.carriers[carrierId].userId) == Some(carrierId)
  {
  }

  /** The shipper table's user column is one-to-one, hence unique. */
  ghost predicate ShipperUsersUnique(db: Db) {
    forall s1, s2 :: s1 in db.shippers && s2 in db.shippers && db.shippers[s1].userId == db.shippers[s2].userId ==> s1 == s2
  }
}
