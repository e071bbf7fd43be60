/**
 * The carrier's driver roster (drivers/drivers.service.ts): creating a driver
 * together with the user account it logs in with, reading, updating and removing
 * it. Every driver belongs to one carrier, and every call is scoped to the
 * calling carrier.
 */
module Drivers {
  import opened Wrappers
  import opened Errors
  import opened Domain
  import Ids
  import Roles
  import Trucks

  /** The fields of a new driver that the model keeps. */
  datatype DriverInput = DriverInput(email: string, password: string, firstName: string, lastName: string, phone: string)

  /** A partial update; an absent field is left as it is. */
  datatype DriverPatch = DriverPatch(
    email: Option<string>,
    password: Option<string>,
    firstName: Option<string>,
    lastName: Option<string>,
    phone: Option<string>)

  /** The phone column is unique: another driver than `except` already has this number. */
  predicate PhoneTaken(drivers: map<DriverId, Driver>, phone: string, except: Option<DriverId>) {
    exists d :: d in drivers && drivers[d].phone == phone && Some(d) != except
  }

  /** A supplied string counts only when it is non-empty (the services test it for truthiness). */
  predicate Given(s: Option<string>) {
    s.Some? && s.value != ""
  }

  /**
   * `create`: refuses an email some user already has, an unknown carrier and a
   * missing driver role, in that order; then stores a new active user with the
   * driver role and the hashed password together with the driver row. A
   * duplicate phone number makes the insert fail and nothing is stored.
   */
  ghost function Create(db: Db, carrierId: CarrierId, input: DriverInput): (r: Result<(Db, DriverId), Error>)
    ensures UserWithEmail(db.users, input.email).Some? ==> r == Failure(Conflict("Email already registered"))
    ensures UserWithEmail(db.users, input.email).None? && carrierId !in db.carriers ==>
      r == Failure(NotFound("Carrier not found"))
    ensures UserWithEmail(db.users, input.email).None? && carrierId in db.carriers && Roles.FindByName(db.roles, "driver").None?
      ==> r == Failure(NotFound("Driver role not found"))
    ensures r.Success? <==>
      && UserWithEmail(db.users, input.email).None?
      && carrierId in db.carriers
      && Roles.FindByName(db.roles, "driver").Some?
      && !PhoneTaken(db.drivers, input.phone, None)
    ensures r.Failure? && r.error.Internal? ==> PhoneTaken(db.drivers, input.phone, None)
    ensures r.Success? ==> r.value.1 in r.value.0.drivers
    ensures r.Success? ==>
      var db2, id := r.value.0, r.value.1;
      var u := db2.drivers[id].userId;
      && id !in db.drivers && u !in db.users
      && db2 == db.(users := db2.users, drivers := db2.drivers)
      && db2.drivers == db.drivers[id := Driver(carrierId, u, input.firstName, input.lastName, input.phone, None)]
      && db2.users == db.users[u := User(input.email, Hashed(input.password), Some("driver"), true)]
  {
    if UserWithEmail(db.users, input.email).Some? then Failure(Conflict("Email already registered"))
    else if carrierId !in db.carriers then Failure(NotFound("Carrier not found"))
    else if Roles.FindByName(db.roles, "driver").None? then Failure(NotFound("Driver role not found"))
    else if PhoneTaken(db.drivers, input.phone, None) then
      Failure(Internal("duplicate key value violates unique constraint"))
    else
      var u := Ids.FreshId(db.users);
      var id := Ids.FreshId(db.drivers);
      var user := User(input.email, Hashed(input.password), Some("driver"), true);
      var driver := Driver(carrierId, u, input.firstName, input.lastName, input.phone, None);
      Success((db.(users := db.users[u := user], drivers := db.drivers[id := driver]), id))
  }

  /** `findOne`: the driver with this id, provided it belongs to the carrier. */
  function FindOne(db: Db, carrierId: CarrierId, id: DriverId): (r: Result<Driver, Error>)
    ensures r.Success? <==> id in db.drivers && db.drivers[id].carrierId == carrierId
    ensures r.Success? ==> r.value == db.drivers[id]
    ensures r.Failure? ==> r.error == NotFound("Driver not found")
  {
    if id in db.drivers && db.drivers[id].carrierId == carrierId then Success(db.drivers[id])
    else Failure(NotFound("Driver not found"))
  }

  /** `findAll`: the carrier's drivers. */
  ghost function FindAll(db: Db, carrierId: CarrierId): (ids: set<DriverId>)
    ensures forall id :: id in ids ==> id in db.drivers
  {
    set id | id in db.drivers && db.drivers[id].carrierId == carrierId
  }

  /** The list and the single read agree: a driver is listed exactly when it can be read. */
  lemma FindAllAgreesWithFindOne(db: Db, carrierId: CarrierId, id: DriverId)
    ensures id in FindAll(db, carrierId) <==> FindOne(db, carrierId, id).Success?
  {
  }

  /** A created driver and its account: found by its carrier, and the account's email taken from then on. */
  lemma CreateThenFind(db: Db, carrierId: CarrierId, input: DriverInput, other: DriverInput)
    requires Create(db, carrierId, input).Success?
    requires other.email == input.email
    ensures var res := Create(db, carrierId, input).value;
      var db2, id := res.0, res.1;
      && FindOne(db2, carrierId, id) == Success(db2.drivers[id])
      && id in FindAll(db2, carrierId)
      && Create(db2, carrierId, other) == Failure(Conflict("Email already registered"))
  {
    var res := Create(db, carrierId, input).value;
    var db2, id := res.0, res.1;
    var u := db2.drivers[id].userId;
    assert db2.users[u].email == other.email;
  }

  /** Creating a driver keeps the email column unique. */
  lemma CreateKeepsEmailsUnique(db: Db, carrierId: CarrierId, input: DriverInput)
    requires EmailsUnique(db.users)
    requires Create(db, carrierId, input).Success?
    ensures EmailsUnique(Create(db, carrierId, input).value.0.users)
  {
  }

  /**
   * The roles service alone seeds no driver role, so on a role table it alone
   * filled, creating a driver fails.
   */
  lemma CreateNeedsInitializedRoles(db: Db, carrierId: CarrierId, input: DriverInput, roles: seq<Role>)
    requires "driver" !in Roles.Names(roles)
    requires db.roles == Roles.SeedRoles(roles)
    requires UserWithEmail(db.users, input.email).None? && carrierId in db.carriers
    ensures Create(db, carrierId, input) == Failure(NotFound("Driver role not found"))
  {
    Roles.SeedRolesNames(roles);
  }

  /** The driver with the supplied name and phone fields copied over (`Object.assign`). */
  function ApplyPatch(d: Driver, p: DriverPatch): Driver {
    d.(firstName := p.firstName.GetOr(d.firstName),
       lastName := p.lastName.GetOr(d.lastName),
       phone := p.phone.GetOr(d.phone))
  }

  /** The account with a new, different email and a new password applied when supplied. */
  function ApplyAccountPatch(user: User, p: DriverPatch): User {
    var withEmail := if Given(p.email) && p.email.value != user.email then user.(email := p.email.value) else user;
    if Given(p.password) then withEmail.(password := Hashed(p.password.value)) else withEmail
  }

  /**
   * `update`: the carrier's driver is read with its account; a new email that
   * another user has is refused; then the account is saved and the driver row is
   * saved. The two saves are separate, so when the driver save fails on a
   * duplicate phone the account change stays written. The result pairs the
   * database after the call with the outcome.
   */
  ghost function Update(db: Db, carrierId: CarrierId, id: DriverId, patch: DriverPatch): (out: (Db, Result<Driver, Error>))
    ensures FindOne(db, carrierId, id).Failure? ==> out == (db, Failure(NotFound("Driver not found")))
    ensures out.1.Failure? && !out.1.error.Internal? ==> out.0 == db
    ensures FindOne(db, carrierId, id).Success? && db.drivers[id].userId in db.users
            && Given(patch.email) && patch.email.value != db.users[db.drivers[id].userId].email
            && UserWithEmail(db.users, patch.email.value).Some? ==>
              out == (db, Failure(Conflict("Email already registered")))
    ensures out.1.Success? <==>
      && FindOne(db, carrierId, id).Success?
      && db.drivers[id].userId in db.users
      && !(Given(patch.email) && patch.email.value != db.users[db.drivers[id].userId].email
           && UserWithEmail(db.users, patch.email.value).Some?)
      && !PhoneTaken(db.drivers, ApplyPatch(db.drivers[id], patch).phone, Some(id))
    ensures out.1.Success? ==>
      var u := db.drivers[id].userId;
      && out.1.value == ApplyPatch(db.drivers[id], patch)
      && out.0 == db.(users := db.users[u := ApplyAccountPatch(db.users[u], patch)],
                      drivers := db.drivers[id := out.1.value])
  {
    match FindOne(db, carrierId, id)
    case Failure(e) => (db, Failure(e))
    case Success(driver) =>
      if driver.userId !in db.users then
        (db, Failure(Internal("Cannot read properties of undefined (reading 'email')")))
      else
        var user := db.users[driver.userId];
        if Given(patch.email) && patch.email.value != user.email
           && UserWithEmail(db.users, patch.email.value).Some?
        then
          (db, Failure(Conflict("Email already registered")))
        else
          var saved := db.(users := db.users[driver.userId := ApplyAccountPatch(user, patch)]);
          var patched := ApplyPatch(driver, patch);
          if PhoneTaken(db.drivers, patched.phone, Some(id)) then
            (saved, Failure(Internal("duplicate key value violates unique constraint")))
          else
            (saved.(drivers := db.drivers[id := patched]), Success(patched))
  }

  /**
   * The email check is what keeps the email column unique: any update, whether
   * it succeeds or fails half-way, leaves it unique.
   */
  lemma UpdateKeepsEmailsUnique(db: Db, carrierId: CarrierId, id: DriverId, patch: DriverPatch)
    requires EmailsUnique(db.users)
    ensures EmailsUnique(Update(db, carrierId, id, patch).0.users)
  {
    var out := Update(db, carrierId, id, patch);
    if out.0 != db {
      var u := db.drivers[id].userId;
      var user := db.users[u];
      var user2 := ApplyAccountPatch(user, patch);
      assert out.0.users == db.users[u := user2];
      forall u1, u2 | u1 in out.0.users && u2 in out.0.users && out.0.users[u1].email == out.0.users[u2].email
        ensures u1 == u2
      {
        if user2.email != user.email {
          assert UserWithEmail(db.users, user2.email).None?;
        }
      }
    }
  }

  /** The update fails half-way, with the account written and the driver row not, only on a duplicate phone. */
  lemma UpdatePartialWrite(db: Db, carrierId: CarrierId, id: DriverId, patch: DriverPatch)
    requires Update(db, carrierId, id, patch).1.Failure? && Update(db, carrierId, id, patch).0 != db
    ensures PhoneTaken(db.drivers, ApplyPatch(db.drivers[id], patch).phone, Some(id))
    ensures Update(db, carrierId, id, patch).0.drivers == db.drivers
  {
  }

  /** A row that still points at the driver: a shipment it drives or a truck it is paired with. */
  predicate DriverReferenced(db: Db, id: DriverId) {
    || (exists s :: s in db.shipments && db.shipments[s].driverId == Some(id))
    || (exists t :: t in db.trucks && db.trucks[t].currentDriver == Some(id))
  }

  /** A row that still points at the user: a carrier, shipper or driver profile. */
  predicate UserReferenced(db: Db, u: UserId) {
    || (exists c :: c in db.carriers && db.carriers[c].userId == u)
    || (exists s :: s in db.shippers && db.shippers[s].userId == u)
    || (exists d :: d in db.drivers && db.drivers[d].userId == u)
  }

  /** The reset tokens that survive the deletion of a user (that key cascades). */
  function DropUserTokens(tokens: seq<ResetToken>, u: UserId): (r: seq<ResetToken>)
    ensures forall t :: t in r <==> t in tokens && t.userId != u
  {
    if |tokens| == 0 then []
    else (if tokens[0].userId == u then [] else [tokens[0]]) + DropUserTokens(tokens[1..], u)
  }

  /**
   * `remove`: the carrier's driver row is deleted, then its account, if there is
   * one. A foreign key still pointing at either row makes that delete fail; the
   * two deletes are separate, so a failing account delete leaves the driver row deleted.
   */
  function Remove(db: Db, carrierId: CarrierId, id: DriverId): (out: (Db, Outcome<Error>)) {
    match FindOne(db, carrierId, id)
    case Failure(e) => (db, Fail(e))
    case Success(driver) =>
      if DriverReferenced(db, id) then
        (db, Fail(Internal("update or delete on table \"driver\" violates foreign key constraint")))
      else
        var without := db.(drivers := db.drivers - {id});
        if driver.userId !in db.users then (without, Pass)
        else if UserReferenced(without, driver.userId) then
          (without, Fail(Internal("update or delete on table \"user\" violates foreign key constraint")))
        else
          (without.(users := db.users - {driver.userId},
                    resetTokens := DropUserTokens(db.resetTokens, driver.userId)), Pass)
  }

  /** A driver that cannot be read, or that a row still points at, is kept and nothing is written. */
  lemma RemoveRefused(db: Db, carrierId: CarrierId, id: DriverId)
    requires FindOne(db, carrierId, id).Failure? || DriverReferenced(db, id)
    ensures Remove(db, carrierId, id).0 == db
    ensures FindOne(db, carrierId, id).Failure? ==> Remove(db, carrierId, id).1 == Fail(NotFound("Driver not found"))
    ensures FindOne(db, carrierId, id).Success? ==> Remove(db, carrierId, id).1.error.Internal?
  {
  }

  /**
   * Otherwise the driver row is gone whatever happens next, and when the call
   * succeeds with an account present, the account and its reset tokens are gone too.
   */
  lemma RemoveDeletes(db: Db, carrierId: CarrierId, id: DriverId)
    requires FindOne(db, carrierId, id).Success? && !DriverReferenced(db, id)
    ensures Remove(db, carrierId, id).0.drivers == db.drivers - {id}
    ensures Remove(db, carrierId, id).0.trucks == db.trucks
    ensures FindOne(Remove(db, carrierId, id).0, carrierId, id).Failure?
    ensures var res := Remove(db, carrierId, id);
      var db2, o := res.0, res.1; var u := db.drivers[id].userId;
      o.Pass? && u in db.users ==>
        && db2.users == db.users - {u}
        && (forall t :: t in db2.resetTokens <==> t in db.resetTokens && t.userId != u)
  {
    var u := db.drivers[id].userId;
    var without := db.(drivers := db.drivers - {id});
    assert Remove(db, carrierId, id) ==
      if u !in db.users then (without, Pass)
      else if UserReferenced(without, u) then
        (without, Fail(Internal("update or delete on table \"user\" violates foreign key constraint")))
      else (without.(users := db.users - {u}, resetTokens := DropUserTokens(db.resetTokens, u)), Pass);
  }

  /** Dropping a driver no truck points at keeps the pairing consistent, whatever else changes. */
  lemma PairingWithoutDriver(db: Db, db2: Db, id: DriverId)
    requires Trucks.Pairing(db)
    requires forall t :: t in db.trucks ==> db.trucks[t].currentDriver != Some(id)
    requires db2.trucks == db.trucks && db2.drivers == db.drivers - {id}
    ensures Trucks.Pairing(db2)
  {
    forall t | t in db2.trucks && db2.trucks[t].currentDriver.Some?
      ensures db2.trucks[t].currentDriver.value in db2.drivers
      ensures db2.drivers[db2.trucks[t].currentDriver.value].assignedTruck == Some(t)
    {
      assert db.trucks[t].currentDriver != Some(id);
    }
    forall d | d in db2.drivers && db2.drivers[d].assignedTruck.Some?
      ensures db2.drivers[d].assignedTruck.value in db2.trucks
      ensures db2.trucks[db2.drivers[d].assignedTruck.value].currentDriver == Some(d)
    {
      assert db2.drivers[d] == db.drivers[d];
    }
  }

  /** Removing a driver keeps the truck–driver pairing consistent, because a paired driver is refused. */
  lemma RemoveKeepsPairing(db: Db, carrierId: CarrierId, id: DriverId)
    requires Trucks.Pairing(db)
    ensures Trucks.Pairing(Remove(db, carrierId, id).0)
  {
    var db2 := Remove(db, carrierId, id).0;
    if FindOne(db, carrierId, id).Success? && !DriverReferenced(db, id) {
      RemoveDeletes(db, carrierId, id);
      assert forall t :: t in db.trucks ==> db.trucks[t].currentDriver != Some(id);
      PairingWithoutDriver(db, db2, id);
    } else {
      RemoveRefused(db, carrierId, id);
    }
  }
}
