/**
 * The live-tracking socket gateway (tracking/tracking.gateway.ts): it keeps a
 * registry of authenticated connections with the shipments each one follows,
 * puts each following connection in the shipment's room, and relays drivers'
 * location reports to the room. The token verifier is the parameter `verify`;
 * what the gateway sends is returned as a list of emissions instead of being sent.
 */
module Gateway {
  import opened Wrappers
  import opened Domain
  import Text
  import RolesGuard
  import ExceptionFilter
  import Tracking
  import Trucks

  /** A socket's connection id. */
  type ConnId = string

  /** The verified token's claims: the user id (`sub`) and the role name. */
  datatype Claims = Claims(sub: UserId, role: string)

  /** What a socket presents: the `auth.token` field and the `authorization` header. */
  datatype Handshake = Handshake(authToken: Option<string>, authorization: Option<string>)

  /** A registry entry. */
  datatype Client = Client(userId: UserId, role: string, shipmentIds: seq<ShipmentId>)

  /** The registry and the socket server's rooms, one room per followed shipment. */
  datatype State = State(clients: map<ConnId, Client>, rooms: map<ShipmentId, set<ConnId>>)

  datatype Payload =
    | Message(text: string)
    | Connected(userId: UserId, role: string)
    | ShipmentRef(shipmentId: ShipmentId)
    | ShipmentAt(shipmentId: ShipmentId, timestamp: Time)
    | LocationUpdated(shipmentId: ShipmentId, truckId: TruckId, location: Fix, timestamp: Time, notes: Option<string>)
    | TruckLocation(truckId: TruckId, lat: real, lng: real, timestamp: Time)
    | Status(info: Tracking.TrackingInfo)

  /** One emission: to a single socket, to a shipment's room, or to every socket. */
  datatype Emission =
    | ToClient(conn: ConnId, event: string, payload: Payload)
    | ToRoom(room: ShipmentId, event: string, payload: Payload)
    | ToAll(event: string, payload: Payload)

  /**
   * A message handler's answer to the sender. A refusing guard makes the framework
   * answer with its `exception` event carrying the refusal's message.
   */
  datatype Reply = Reply(event: string, data: Payload)

  // ---------------------------------------------------------------- the token

  /**
   * `auth.token || authorization?.split(' ')[1]`: the auth field when non-empty,
   * else the second space-separated word of the header; an empty result counts as none.
   */
  function ExtractToken(hs: Handshake): (t: Option<string>)
    ensures t.Some? ==> t.value != ""
    ensures hs.authToken.Some? && hs.authToken.value != "" ==> t == hs.authToken
    ensures (hs.authToken.None? || hs.authToken.value == "") && hs.authorization.None? ==> t.None?
  {
    if hs.authToken.Some? && hs.authToken.value != "" then hs.authToken
    else if hs.authorization.Some? then
      var words := Text.Split(hs.authorization.value, ' ');
      if |words| >= 2 && words[1] != "" then Some(words[1]) else None
    else None
  }

  /** A `<scheme> <token>` header yields the token, for any scheme and token without spaces. */
  lemma BearerHeaderYieldsToken(scheme: string, token: string)
    requires ' ' !in scheme && ' ' !in token && token != ""
    ensures ExtractToken(Handshake(None, Some(scheme + [' '] + token))) == Some(token)
  {
    Text.SplitAtSep(scheme, token, ' ');
    Text.SplitNoSep(scheme, ' ');
    Text.SplitNoSep(token, ' ');
  }

  /** A header without a space holds no token. */
  lemma HeaderWithoutSpaceYieldsNothing(header: string)
    requires ' ' !in header
    ensures ExtractToken(Handshake(None, Some(header))) == None
  {
    Text.SplitNoSep(header, ' ');
  }

  // ---------------------------------------------------------------- connection

  /** `handleDisconnect`, and the socket server leaving every room. */
  function Disconnect(g: State, conn: ConnId): (r: State)
    ensures r.clients.Keys == g.clients.Keys - {conn}
    ensures forall c :: c in r.clients ==> r.clients[c] == g.clients[c]
    ensures r.rooms.Keys == g.rooms.Keys
    ensures forall s :: s in r.rooms ==> r.rooms[s] == g.rooms[s] - {conn}
  {
    State(g.clients - {conn}, map s | s in g.rooms :: g.rooms[s] - {conn})
  }

  /**
   * `handleConnection`: a socket without a token, or whose token does not verify,
   * is told so and disconnected; otherwise it is registered with no shipments and
   * greeted. The third component says whether the socket was disconnected.
   */
  function HandleConnection(g: State, conn: ConnId, hs: Handshake, verify: string -> Option<Claims>): (out: (State, seq<Emission>, bool))
    ensures out.2 <==> ExtractToken(hs).None? || verify(ExtractToken(hs).value).None?
    ensures out.2 ==> out.0 == Disconnect(g, conn) && |out.1| == 1 && out.1[0].ToClient? && out.1[0].event == "error"
    ensures !out.2 ==>
      var claims := verify(ExtractToken(hs).value).value;
      && out.0 == g.(clients := g.clients[conn := Client(claims.sub, claims.role, [])])
      && out.1 == [ToClient(conn, "connected", Connected(claims.sub, claims.role))]
  {
    match ExtractToken(hs)
    case None =>
      (Disconnect(g, conn), [ToClient(conn, "error", Message("Authentication failed - no token provided"))], true)
    case Some(token) =>
      match verify(token)
      case None => (Disconnect(g, conn), [ToClient(conn, "error", Message("Authentication failed"))], true)
      case Some(claims) =>
        (g.(clients := g.clients[conn := Client(claims.sub, claims.role, [])]),
         [ToClient(conn, "connected", Connected(claims.sub, claims.role))], false)
  }

  // ---------------------------------------------------------------- the guards

  /** The socket token guard: the same token rule, checked again on every message. */
  function TokenGuard(hs: Handshake, verify: string -> Option<Claims>): (r: Result<Claims, string>)
    ensures r.Success? <==> ExtractToken(hs).Some? && verify(ExtractToken(hs).value).Some?
    ensures r.Success? ==> r.value == verify(ExtractToken(hs).value).value
  {
    match ExtractToken(hs)
    case None => Failure("Token not provided")
    case Some(token) =>
      match verify(token)
      case None => Failure("Invalid or expired token")
      case Some(claims) => Success(claims)
  }

  /**
   * The guards a message passes as the gateway declares them: the token guard,
   * then the role guard. The role guard reads `request.user`, and on a socket the
   * "request" is the socket itself, which has no `user`: the guard sees no user.
   */
  function GuardsAsWritten(hs: Handshake, verify: string -> Option<Claims>, required: Option<seq<string>>): (r: Result<Claims, string>)
    ensures r.Success? <==> TokenGuard(hs, verify).Success? && required.None?
  {
    var claims :- TokenGuard(hs, verify);
    if RolesGuard.CanActivate(required, None, None) then Success(claims) else Failure("Forbidden resource")
  }

  /** The role check the gateway evidently intends: the role claim of the verified token. */
  function GuardsFixed(hs: Handshake, verify: string -> Option<Claims>, required: Option<seq<string>>): (r: Result<Claims, string>)
    ensures r.Success? <==>
      TokenGuard(hs, verify).Success? && (required.None? || TokenGuard(hs, verify).value.role in required.value)
  {
    var claims :- TokenGuard(hs, verify);
    if required.None? || RolesGuard.AnyMatches(required.value, Some(claims.role)) then Success(claims)
    else Failure("Forbidden resource")
  }

  /** On a message that names no roles the two agree. */
  lemma GuardsAgreeWithoutRoles(hs: Handshake, verify: string -> Option<Claims>)
    ensures GuardsAsWritten(hs, verify, None) == GuardsFixed(hs, verify, None)
  {
  }

  // ---------------------------------------------------------------- following shipments

  /** The registry and room changes of a subscription: listed once, and in the room. */
  function Join(g: State, conn: ConnId, shipmentId: ShipmentId): (r: State)
    requires conn in g.clients
    ensures r.clients.Keys == g.clients.Keys && r.rooms.Keys == g.rooms.Keys + {shipmentId}
    ensures forall c :: c in g.clients && c != conn ==> r.clients[c] == g.clients[c]
    ensures forall s :: s in g.rooms && s != shipmentId ==> r.rooms[s] == g.rooms[s]
    ensures r.rooms[shipmentId] == (if shipmentId in g.rooms then g.rooms[shipmentId] else {}) + {conn}
    ensures var ids := g.clients[conn].shipmentIds;
      r.clients[conn] == g.clients[conn].(shipmentIds := if shipmentId in ids then ids else ids + [shipmentId])
  {
    var c := g.clients[conn];
    var ids := if shipmentId in c.shipmentIds then c.shipmentIds else c.shipmentIds + [shipmentId];
    var members := if shipmentId in g.rooms then g.rooms[shipmentId] else {};
    State(g.clients[conn := c.(shipmentIds := ids)], g.rooms[shipmentId := members + {conn}])
  }

  /** `shipmentIds.filter(id => id !== shipmentId)`. */
  function Without(ids: seq<ShipmentId>, shipmentId: ShipmentId): (r: seq<ShipmentId>)
    ensures forall x :: x in r <==> x in ids && x != shipmentId
    ensures |r| <= |ids|
    ensures shipmentId !in ids ==> r == ids
  {
    if |ids| == 0 then []
    else (if ids[0] == shipmentId then [] else [ids[0]]) + Without(ids[1..], shipmentId)
  }

  /** The registry and room changes of an unsubscription. */
  function Leave(g: State, conn: ConnId, shipmentId: ShipmentId): (r: State)
    requires conn in g.clients
    ensures r.clients.Keys == g.clients.Keys && r.rooms.Keys == g.rooms.Keys
    ensures forall c :: c in g.clients && c != conn ==> r.clients[c] == g.clients[c]
    ensures r.clients[conn] == g.clients[conn].(shipmentIds := Without(g.clients[conn].shipmentIds, shipmentId))
    ensures forall s :: s in g.rooms && s != shipmentId ==> r.rooms[s] == g.rooms[s]
    ensures shipmentId in g.rooms ==> r.rooms[shipmentId] == g.rooms[shipmentId] - {conn}
  {
    var c := g.clients[conn];
    var rooms := if shipmentId in g.rooms then g.rooms[shipmentId := g.rooms[shipmentId] - {conn}] else g.rooms;
    State(g.clients[conn := c.(shipmentIds := Without(c.shipmentIds, shipmentId))], rooms)
  }

  /**
   * `subscribeToShipment`: past the guards, an unregistered socket is refused,
   * and so is a user the tracking read would refuse; otherwise the socket joins
   * the shipment's room and lists the shipment.
   */
  function Subscribe(db: Db, g: State, conn: ConnId, hs: Handshake, verify: string -> Option<Claims>,
                     shipmentId: ShipmentId, distanceKm: real): (out: (State, Reply))
    ensures out.1.event == "subscribed" <==>
      && TokenGuard(hs, verify).Success?
      && conn in g.clients
      && shipmentId in db.shipments
      && Tracking.MayTrack(db, db.shipments[shipmentId], g.clients[conn].role, g.clients[conn].userId)
    ensures out.1.event == "subscribed" ==> out == (Join(g, conn, shipmentId), Reply("subscribed", ShipmentRef(shipmentId)))
    ensures out.1.event != "subscribed" ==> out.0 == g
    ensures TokenGuard(hs, verify).Success? && conn !in g.clients ==>
      out.1 == Reply("error", Message("Client not properly authenticated"))
  {
    match GuardsAsWritten(hs, verify, None)
    case Failure(m) => (g, Reply("exception", Message(m)))
    case Success(_) =>
      if conn !in g.clients then (g, Reply("error", Message("Client not properly authenticated")))
      else
        var c := g.clients[conn];
        Tracking.GetTrackingInfoSpec(db, shipmentId, c.role, c.userId, distanceKm);
        if Tracking.GetTrackingInfo(db, shipmentId, c.role, c.userId, distanceKm).Failure? then
          (g, Reply("error", Message("Access denied to this shipment")))
        else
          (Join(g, conn, shipmentId), Reply("subscribed", ShipmentRef(shipmentId)))
  }

  /** `unsubscribeFromShipment`: past the guards, a registered socket leaves the room and drops the shipment. */
  function Unsubscribe(g: State, conn: ConnId, hs: Handshake, verify: string -> Option<Claims>, shipmentId: ShipmentId): (out: (State, Reply))
    ensures out.1.event == "unsubscribed" <==> TokenGuard(hs, verify).Success? && conn in g.clients
    ensures out.1.event == "unsubscribed" ==> out == (Leave(g, conn, shipmentId), Reply("unsubscribed", ShipmentRef(shipmentId)))
    ensures out.1.event != "unsubscribed" ==> out.0 == g
  {
    match GuardsAsWritten(hs, verify, None)
    case Failure(m) => (g, Reply("exception", Message(m)))
    case Success(_) =>
      if conn !in g.clients then (g, Reply("error", Message("Client not properly authenticated")))
      else (Leave(g, conn, shipmentId), Reply("unsubscribed", ShipmentRef(shipmentId)))
  }

  /** Subscribing twice is subscribing once: the shipment is listed once and the reply is the same. */
  lemma SubscribeIdempotent(db: Db, g: State, conn: ConnId, hs: Handshake, verify: string -> Option<Claims>,
                            shipmentId: ShipmentId, distanceKm: real)
    ensures var res := Subscribe(db, g, conn, hs, verify, shipmentId, distanceKm);
      var g1, r1 := res.0, res.1;
      Subscribe(db, g1, conn, hs, verify, shipmentId, distanceKm) == (g1, r1)
  {
    var res := Subscribe(db, g, conn, hs, verify, shipmentId, distanceKm);
    var g1, r1 := res.0, res.1;
    if r1.event == "subscribed" {
      assert g1.clients[conn].role == g.clients[conn].role && g1.clients[conn].userId == g.clients[conn].userId;
      assert shipmentId in g1.clients[conn].shipmentIds;
      assert Join(g1, conn, shipmentId) == g1;
    }
  }

  /** Unsubscribing after a first subscription gives back the socket's list of shipments. */
  lemma UnsubscribeUndoesSubscribe(db: Db, g: State, conn: ConnId, hs: Handshake, verify: string -> Option<Claims>,
                                   shipmentId: ShipmentId, distanceKm: real)
    requires conn in g.clients && shipmentId !in g.clients[conn].shipmentIds
    requires Subscribe(db, g, conn, hs, verify, shipmentId, distanceKm).1.event == "subscribed"
    ensures var g1 := Subscribe(db, g, conn, hs, verify, shipmentId, distanceKm).0;
      Unsubscribe(g1, conn, hs, verify, shipmentId).0.clients == g.clients
  {
    var g1 := Subscribe(db, g, conn, hs, verify, shipmentId, distanceKm).0;
    var ids := g.clients[conn].shipmentIds;
    WithoutAppended(ids, shipmentId);
    var g2 := Unsubscribe(g1, conn, hs, verify, shipmentId).0;
    assert g2.clients[conn] == g.clients[conn];
  }

  /** Filtering out an id just appended to a list without it gives the list back. */
  lemma {:induction false} WithoutAppended(ids: seq<ShipmentId>, shipmentId: ShipmentId)
    requires shipmentId !in ids
    ensures Without(ids + [shipmentId], shipmentId) == ids
    decreases |ids|
  {
    if |ids| == 0 {
      assert Without([shipmentId], shipmentId) == [] + Without([], shipmentId);
    } else {
      assert (ids + [shipmentId])[1..] == ids[1..] + [shipmentId];
      WithoutAppended(ids[1..], shipmentId);
      assert ids == [ids[0]] + ids[1..];
    }
  }

  // ---------------------------------------------------------------- the registry invariant

  /** No id is listed twice. */
  ghost predicate NoDuplicates(ids: seq<ShipmentId>) {
    forall i, j :: 0 <= i < j < |ids| ==> ids[i] != ids[j]
  }

  /**
   * The registry and the rooms agree: a socket is in a shipment's room exactly
   * when it is registered and lists the shipment, and no list has a repeat.
   */
  ghost predicate Consistent(g: State) {
    && (forall c :: c in g.clients ==> NoDuplicates(g.clients[c].shipmentIds))
    && (forall s, c :: s in g.rooms && c in g.rooms[s] ==> c in g.clients && s in g.clients[c].shipmentIds)
    && (forall c, s :: c in g.clients && s in g.clients[c].shipmentIds ==> s in g.rooms && c in g.rooms[s])
  }

  /** Who receives an emission. */
  function Recipients(g: State, e: Emission): set<ConnId> {
    match e
    case ToClient(conn, _, _) => {conn}
    case ToRoom(s, _, _) => if s in g.rooms then g.rooms[s] else {}
    case ToAll(_, _) => g.clients.Keys
  }

  /** With a consistent state, a room message reaches exactly the registered sockets that follow the shipment. */
  lemma RoomReachesFollowers(g: State, shipmentId: ShipmentId, event: string, payload: Payload, conn: ConnId)
    requires Consistent(g)
    ensures conn in Recipients(g, ToRoom(shipmentId, event, payload))
      <==> conn in g.clients && shipmentId in g.clients[conn].shipmentIds
  {
  }

  /** A fresh socket registering keeps the state consistent. */
  lemma ConnectionKeepsConsistent(g: State, conn: ConnId, hs: Handshake, verify: string -> Option<Claims>)
    requires Consistent(g) && conn !in g.clients
    ensures Consistent(HandleConnection(g, conn, hs, verify).0)
  {
    var g2 := HandleConnection(g, conn, hs, verify).0;
    if g2 != Disconnect(g, conn) {
      forall s, c | s in g2.rooms && c in g2.rooms[s]
        ensures c in g2.clients && s in g2.clients[c].shipmentIds
      {
        assert c != conn;
      }
    } else {
      DisconnectKeepsConsistent(g, conn);
    }
  }

  /** A disconnecting socket leaves both the registry and every room. */
  lemma DisconnectKeepsConsistent(g: State, conn: ConnId)
    requires Consistent(g)
    ensures Consistent(Disconnect(g, conn))
  {
  }

  /** Joining keeps the state consistent. */
  lemma JoinKeepsConsistent(g: State, conn: ConnId, shipmentId: ShipmentId)
    requires Consistent(g) && conn in g.clients
    ensures Consistent(Join(g, conn, shipmentId))
  {
    var g2 := Join(g, conn, shipmentId);
    var ids := g.clients[conn].shipmentIds;
    forall c | c in g2.clients
      ensures NoDuplicates(g2.clients[c].shipmentIds)
    {
      if c == conn && shipmentId !in ids {
        assert g2.clients[c].shipmentIds == ids + [shipmentId];
      }
    }
    forall s, c | s in g2.rooms && c in g2.rooms[s]
      ensures c in g2.clients && s in g2.clients[c].shipmentIds
    {
      if c == conn {
        assert s in ids || s == shipmentId;
      }
    }
    forall c, s | c in g2.clients && s in g2.clients[c].shipmentIds
      ensures s in g2.rooms && c in g2.rooms[s]
    {
      if c == conn {
        assert s in ids || s == shipmentId;
      }
    }
  }

  /** Filtering keeps a list free of repeats. */
  lemma {:induction false} WithoutKeepsNoDuplicates(ids: seq<ShipmentId>, shipmentId: ShipmentId)
    requires NoDuplicates(ids)
    ensures NoDuplicates(Without(ids, shipmentId))
    decreases |ids|
  {
    if |ids| > 0 {
      var rest := Without(ids[1..], shipmentId);
      WithoutKeepsNoDuplicates(ids[1..], shipmentId);
      if ids[0] != shipmentId {
        assert ids[0] !in ids[1..];
        assert ids[0] !in rest;
        var r := [ids[0]] + rest;
        forall i, j | 0 <= i < j < |r|
          ensures r[i] != r[j]
        {
          if i == 0 {
            assert r[j] == rest[j - 1] && r[j] in rest;
          } else {
            assert r[i] == rest[i - 1] && r[j] == rest[j - 1];
          }
        }
      }
    }
  }

  /** Leaving keeps the state consistent. */
  lemma LeaveKeepsConsistent(g: State, conn: ConnId, shipmentId: ShipmentId)
    requires Consistent(g) && conn in g.clients
    ensures Consistent(Leave(g, conn, shipmentId))
  {
    var g2 := Leave(g, conn, shipmentId);
    forall c | c in g2.clients
      ensures NoDuplicates(g2.clients[c].shipmentIds)
    {
      if c == conn {
        WithoutKeepsNoDuplicates(g.clients[conn].shipmentIds, shipmentId);
      }
    }
    forall s, c | s in g2.rooms && c in g2.rooms[s]
      ensures c in g2.clients && s in g2.clients[c].shipmentIds
    {
      assert c in g.rooms[s];
    }
    forall c, s | c in g2.clients && s in g2.clients[c].shipmentIds
      ensures s in g2.rooms && c in g2.rooms[s]
    {
      assert s in g.clients[c].shipmentIds;
    }
  }

  /** Every message handler that changes the state keeps it consistent. */
  lemma HandlersKeepConsistent(db: Db, g: State, conn: ConnId, hs: Handshake, verify: string -> Option<Claims>,
                               shipmentId: ShipmentId, distanceKm: real)
    requires Consistent(g)
    ensures Consistent(Subscribe(db, g, conn, hs, verify, shipmentId, distanceKm).0)
    ensures Consistent(Unsubscribe(g, conn, hs, verify, shipmentId).0)
  {
    if Subscribe(db, g, conn, hs, verify, shipmentId, distanceKm).1.event == "subscribed" {
      JoinKeepsConsistent(g, conn, shipmentId);
    }
    if Unsubscribe(g, conn, hs, verify, shipmentId).1.event == "unsubscribed" {
      LeaveKeepsConsistent(g, conn, shipmentId);
    }
  }

  // ---------------------------------------------------------------- location reports

  /**
   * The body of `updateLocation` for the verified `claims`: a user without a
   * driver row is told so; a report the tracking service refuses is answered with
   * its message; an accepted report is relayed to the shipment's room, the truck
   * position to every socket, and a confirmation to the sender.
   */
  ghost function HandleUpdateLocation(db: Db, conn: ConnId, claims: Claims, u: Tracking.LocationUpdate, now: Time): (out: (Db, seq<Emission>, Reply))
    ensures out.2.event == "success" <==>
      Trucks.FindDriverByUserId(db, claims.sub).Some? && Tracking.UpdateLocation(db, u, claims.sub, now).Success?
    ensures out.2.event == "success" ==> out.0 == Tracking.UpdateLocation(db, u, claims.sub, now).value.0
    ensures out.2.event != "success" ==> out.0 == db && |out.1| == 1 && out.1[0].ToClient? && out.1[0].conn == conn
    ensures forall e :: e in out.1 && e.ToRoom? ==> out.2.event == "success" && e.room == u.shipmentId
  {
    if Trucks.FindDriverByUserId(db, claims.sub).None? then
      (db, [ToClient(conn, "error", Message("No driver entity found for this user."))],
       Reply("error", Message("No driver entity found for this user.")))
    else
      match Tracking.UpdateLocation(db, u, claims.sub, now)
      case Failure(e) =>
        (db, [ToClient(conn, "error", Message(ExceptionFilter.OrDefault(e.message, "Failed to update location")))],
         Reply("error", Message(ExceptionFilter.OrDefault(e.message, "Internal server error"))))
      case Success((db2, row)) =>
        var fix := Fix(u.lat, u.lng, u.accuracy, u.heading, u.speed);
        (db2,
         [ToRoom(u.shipmentId, "locationUpdated", LocationUpdated(u.shipmentId, u.truckId, fix, row.createdAt, u.notes)),
          ToAll("truckLocationUpdated", TruckLocation(u.truckId, u.lat, u.lng, row.createdAt)),
          ToClient(conn, "locationUpdateSuccess", ShipmentAt(u.shipmentId, row.createdAt))],
         Reply("success", Message("Location updated successfully.")))
  }

  /** The roles the location message is declared for. */
  const DriverOnly: Option<seq<string>> := Some(["driver"])

  /** `updateLocation` as declared: behind the token guard and the role guard for drivers. */
  ghost function UpdateLocationMessage(db: Db, conn: ConnId, hs: Handshake, verify: string -> Option<Claims>,
                                       u: Tracking.LocationUpdate, now: Time): (out: (Db, seq<Emission>, Reply))
    ensures out.2.event != "success"
  {
    match GuardsAsWritten(hs, verify, DriverOnly)
    case Failure(m) => (db, [], Reply("exception", Message(m)))
    case Success(claims) => HandleUpdateLocation(db, conn, claims, u, now)
  }

  /**
   * As declared, the role guard finds no user on a socket, so no location report
   * sent over the socket is ever accepted: nothing is written and nothing relayed.
   */
  lemma UpdateLocationAlwaysRefused(db: Db, conn: ConnId, hs: Handshake, verify: string -> Option<Claims>,
                                    u: Tracking.LocationUpdate, now: Time)
    ensures var res := UpdateLocationMessage(db, conn, hs, verify, u, now);
      var db2, emitted, reply := res.0, res.1, res.2;
      && db2 == db && emitted == [] && reply.event == "exception"
      && (TokenGuard(hs, verify).Success? ==> reply.data == Message("Forbidden resource"))
  {
  }

  /** `updateLocation` with the role check reading the token's role claim. */
  ghost function UpdateLocationMessageFixed(db: Db, conn: ConnId, hs: Handshake, verify: string -> Option<Claims>,
                                            u: Tracking.LocationUpdate, now: Time): (out: (Db, seq<Emission>, Reply))
    ensures GuardsFixed(hs, verify, DriverOnly).Failure? ==> out.0 == db && out.1 == [] && out.2.event == "exception"
    ensures GuardsFixed(hs, verify, DriverOnly).Success? ==>
      out == HandleUpdateLocation(db, conn, GuardsFixed(hs, verify, DriverOnly).value, u, now)
  {
    match GuardsFixed(hs, verify, DriverOnly)
    case Failure(m) => (db, [], Reply("exception", Message(m)))
    case Success(claims) => HandleUpdateLocation(db, conn, claims, u, now)
  }

  /**
   * With the fix, a report is accepted exactly when the token carries the driver
   * role and the tracking service accepts it for the token's user; the relayed
   * room message reaches exactly the sockets following the shipment.
   */
  lemma FixedUpdateLocationAccepts(db: Db, g: State, conn: ConnId, hs: Handshake, verify: string -> Option<Claims>,
                                   u: Tracking.LocationUpdate, now: Time, follower: ConnId)
    requires Consistent(g)
    ensures var res := UpdateLocationMessageFixed(db, conn, hs, verify, u, now);
      var db2, emitted, reply := res.0, res.1, res.2;
      && (reply.event == "success" <==>
            && TokenGuard(hs, verify).Success?
            && TokenGuard(hs, verify).value.role == "driver"
            && Trucks.FindDriverByUserId(db, TokenGuard(hs, verify).value.sub).Some?
            && Tracking.UpdateLocation(db, u, TokenGuard(hs, verify).value.sub, now).Success?)
      && (reply.event == "success" ==>
            && emitted[0].ToRoom?
            && (follower in Recipients(g, emitted[0]) <==>
                  follower in g.clients && u.shipmentId in g.clients[follower].shipmentIds))
  {
    var claims := TokenGuard(hs, verify);
    if claims.Success? {
      assert RolesGuard.AnyMatches(["driver"], Some(claims.value.role)) <==> claims.value.role == "driver";
    }
  }

  // ---------------------------------------------------------------- status reads

  /** `getShipmentStatus`: past the guards, a registered socket gets the tracking view the service would give its user. */
  function GetShipmentStatus(db: Db, g: State, conn: ConnId, hs: Handshake, verify: string -> Option<Claims>,
                             shipmentId: ShipmentId, distanceKm: real): (reply: Reply)
    ensures reply.event == "shipmentStatus" <==>
      && TokenGuard(hs, verify).Success?
      && conn in g.clients
      && Tracking.GetTrackingInfo(db, shipmentId, g.clients[conn].role, g.clients[conn].userId, distanceKm).Success?
    ensures reply.event == "shipmentStatus" ==>
      reply.data == Status(Tracking.GetTrackingInfo(db, shipmentId, g.clients[conn].role, g.clients[conn].userId, distanceKm).value)
  {
    match GuardsAsWritten(hs, verify, None)
    case Failure(m) => Reply("exception", Message(m))
    case Success(_) =>
      if conn !in g.clients then Reply("error", Message("Client not properly authenticated"))
      else
        var c := g.clients[conn];
        match Tracking.GetTrackingInfo(db, shipmentId, c.role, c.userId, distanceKm)
        case Failure(e) => Reply("error", Message(ExceptionFilter.OrDefault(e.message, "Failed to get shipment status")))
        case Success(info) => Reply("shipmentStatus", Status(info))
  }

  /** A socket that could subscribe to a shipment can also read its status, and the reverse. */
  lemma StatusReadableIffSubscribable(db: Db, g: State, conn: ConnId, hs: Handshake, verify: string -> Option<Claims>,
                                      shipmentId: ShipmentId, distanceKm: real)
    ensures GetShipmentStatus(db, g, conn, hs, verify, shipmentId, distanceKm).event == "shipmentStatus"
      <==> Subscribe(db, g, conn, hs, verify, shipmentId, distanceKm).1.event == "subscribed"
  {
    if conn in g.clients {
      Tracking.GetTrackingInfoSpec(db, shipmentId, g.clients[conn].role, g.clients[conn].userId, distanceKm);
    }
  }

  /** `emitShipmentNotification` and `emitShipmentStatusChange`: a message to the shipment's room. */
  function Notify(shipmentId: ShipmentId, event: string, payload: Payload): (e: Emission)
    ensures forall g: State :: Recipients(g, e) == (if shipmentId in g.rooms then g.rooms[shipmentId] else {})
  {
    ToRoom(shipmentId, event, payload)
  }
}
