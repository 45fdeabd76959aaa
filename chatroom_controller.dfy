/** The room handlers (discord/controller/chatroomController.js). As with the
    message handlers, each handler's checks are a pure verdict and each state
    change a commit method over the loaded room document. The requester `me`
    is the authenticated `req.user._id`, `now` is `Date.now()`. */
module ChatroomController {
  import opened Text
  import opened Ids
  import opened Collections
  import opened Lookup
  import opened ChatRoomModel
  import opened Database
  import opened AsyncHandler
  import opened ErrorHandler
  import MessageController

  // ----- createChatRoom -----

  /** A private room listing both users. With `me == other` this holds for
      every private room of `me`: `$all: [me, me]` asks for one user only. */
  predicate PrivateWith(room: Room, me: UserId, other: UserId) {
    room.roomType == Private && IsParticipant(room.participants, me) && IsParticipant(room.participants, other)
  }

  /** `ChatRoom.findOne({type: 'private', 'participants.user': {$all: [me, other]}})`
      from position `from` on: the first such room in storage order, active
      or not. */
  function ExistingPrivate(rooms: seq<Room>, me: UserId, other: UserId, from: nat): (r: Option<RoomId>)
    requires from <= |rooms|
    ensures r.Some? ==> from <= r.value < |rooms| && PrivateWith(rooms[r.value], me, other)
    ensures r.Some? ==> forall id :: from <= id < r.value ==> !PrivateWith(rooms[id], me, other)
    ensures r.None? ==> forall id :: from <= id < |rooms| ==> !PrivateWith(rooms[id], me, other)
    decreases |rooms| - from
  {
    if from == |rooms| then None
    else if PrivateWith(rooms[from], me, other) then Some(from)
    else ExistingPrivate(rooms, me, other, from + 1)
  }

  /** The input checks of `createChatRoom`, in order: a missing or blank
      name 400; a private room (the default type) needs exactly one other
      participant, else 400. */
  function CreateVerdict(name: Option<string>, roomType: RoomType, participants: seq<UserId>): (v: Verdict)
    ensures v == Allowed <==> name.Some? && !IsBlank(name.value) && (roomType == Private ==> |participants| == 1)
    ensures v != Allowed ==> v == Refused(400)
  {
    if name.None? || IsBlank(name.value) then Refused(400)
    else if roomType == Private && |participants| != 1 then Refused(400)
    else Allowed
  }

  /** Every requested participant is a stored user. */
  predicate AllUsers(participants: seq<UserId>, n: nat) {
    forall k :: 0 <= k < |participants| ==> participants[k] < n
  }

  /** The entries of a new room: the creator as admin, then each requested
      user as a member, in request order. */
  function InitialParticipants(me: UserId, participants: seq<UserId>, now: int): (r: seq<Participant>)
    ensures |r| == |participants| + 1 && r[0] == Participant(me, Admin, now, now)
    ensures forall i :: 0 <= i < |participants| ==> r[i + 1] == Participant(participants[i], Member, now, now)
  {
    [Participant(me, Admin, now, now)]
    + seq(|participants|, i requires 0 <= i < |participants| => Participant(participants[i], Member, now, now))
  }

  /** A new room's creator is its admin; its members are exactly the
      creator and the requested users (a creator who also lists themself
      appears twice), and every role is storable. */
  lemma InitialParticipantsRoles(me: UserId, participants: seq<UserId>, now: int)
    ensures var r := InitialParticipants(me, participants, now);
            RoleOf(r, me) == Some(Admin) && HasAdmin(r) && RolesStorable(r)
    ensures forall u :: IsParticipant(InitialParticipants(me, participants, now), u) <==> u == me || u in participants
  {
    var r := InitialParticipants(me, participants, now);
    FindParticipantFirst(r, me, 0);
    RolesStorableIff(r);
    assert r[0].role == Admin;
    forall u ensures IsParticipant(r, u) <==> u == me || u in participants {
      if u in participants {
        var i :| 0 <= i < |participants| && participants[i] == u;
        assert r[i + 1].user == u;
      }
      if IsParticipant(r, u) && u != me {
        var i :| 0 <= i < |r| && r[i].user == u;
        assert participants[i - 1] == u;
      }
    }
  }

  /** What the schema demands of a new room beyond a non-blank name: the
      lengths it allows for the trimmed name and description, and a type
      from its enum. */
  predicate RoomFits(name: string, description: Option<string>, roomType: RoomType) {
    && |Trim(name)| <= MaxNameLength
    && (description.Some? ==> |Trim(description.value)| <= MaxDescriptionLength)
    && ListedRoomType(roomType)
  }

  /** `ChatRoom.create({...})`: trimmed name and description, created by
      `me`, no message yet, active, every date `now`. */
  function NewRoom(name: string, description: Option<string>, roomType: RoomType, me: UserId,
                   participants: seq<UserId>, now: int): (r: Room)
    ensures r.name == Trim(name) && r.roomType == roomType && r.createdBy == me
    ensures r.description == (if description.Some? then Some(Trim(description.value)) else None)
    ensures r.participants == InitialParticipants(me, participants, now)
    ensures r.lastMessage.None? && r.lastActivity == now && r.isActive && r.createdAt == now && r.avatar.None?
    ensures !IsBlank(name) ==> (SchemaValid(r) <==> RoomFits(name, description, roomType))
  {
    TrimmedIffFixedPoint(name);
    TrimmedIffFixedPoint(if description.Some? then description.value else "");
    InitialParticipantsRoles(me, participants, now);
    Room(Trim(name), if description.Some? then Some(Trim(description.value)) else None, roomType,
         InitialParticipants(me, participants, now), me, None, now, None, true, now)
  }

  /** `type = 'private'` in the body's destructuring. */
  function TypeOrDefault(roomType: Option<RoomType>): RoomType {
    if roomType.Some? then roomType.value else Private
  }

  /** `participants = []` in the body's destructuring. */
  function ListOrEmpty(participants: Option<seq<UserId>>): seq<UserId> {
    if participants.Some? then participants.value else []
  }

  /** The second half of `createChatRoom`, once no existing private room
      answers: every participant must be a stored user, named once (else
      400), and the room must pass its schema (else the create throws). */
  method CreateNew(db: Store, me: UserId, name: string, description: Option<string>, t: RoomType,
                   ps: seq<UserId>, now: int) returns (o: Outcome<Room>)
    requires db.Valid() && !IsBlank(name)
    modifies db`rooms
    ensures db.Valid()
    ensures !(NoDup(ps) && AllUsers(ps, |db.users|)) ==> RaisedWith(o, 400) && db.rooms == old(db.rooms)
    ensures !(NoDup(ps) && AllUsers(ps, |db.users|)) ==> RaisedWithText(o, 400, "Some participants don't exist")
    ensures NoDup(ps) && AllUsers(ps, |db.users|) && !RoomFits(name, description, t) ==>
              Crashed(o) && db.rooms == old(db.rooms)
    ensures NoDup(ps) && AllUsers(ps, |db.users|) && RoomFits(name, description, t) ==>
              && db.rooms == old(db.rooms) + [NewRoom(name, description, t, me, ps, now)]
              && o == Send(201, NewRoom(name, description, t, me, ps, now), "Chat room created successfully")
  {
    SelectInComplete(ps, |db.users|);
    if |SelectIn(ps, |db.users|)| != |ps| {
      return Throw(400, "Some participants don't exist");
    }
    var room := NewRoom(name, description, t, me, ps, now);
    if !SchemaValid(room) {
      return Raised(Fault(None, "ChatRoom validation failed"));
    }
    var id := db.InsertRoom(room);
    o := Send(201, room, "Chat room created successfully");
  }

  /** `POST /chatrooms` with `{name, description, type, participants}`; the
      type defaults to private and the participants to none. An existing
      private room for the pair is returned (200) instead of a new one;
      otherwise every participant must exist, and then exactly one room is
      created (201), unless the schema rejects it. */
  method CreateChatRoom(db: Store, me: UserId, name: Option<string>, description: Option<string>,
                        roomType: Option<RoomType>, participants: Option<seq<UserId>>, now: int)
    returns (o: Outcome<Room>)
    requires db.Valid()
    modifies db`rooms
    ensures db.Valid()
    ensures CreateVerdict(name, TypeOrDefault(roomType), ListOrEmpty(participants)) == Refused(400) ==>
              RaisedWith(o, 400) && db.rooms == old(db.rooms)
    ensures name.None? || IsBlank(name.value) ==> RaisedWithText(o, 400, "Room name is required")
    ensures name.Some? && !IsBlank(name.value) && TypeOrDefault(roomType) == Private && |ListOrEmpty(participants)| != 1 ==>
              RaisedWithText(o, 400, "Private rooms must have exactly 2 participants")
    ensures CreateVerdict(name, TypeOrDefault(roomType), ListOrEmpty(participants)) == Allowed ==>
              var t, ps := TypeOrDefault(roomType), ListOrEmpty(participants);
              t == Private && ExistingPrivate(old(db.rooms), me, ps[0], 0).Some? ==>
                && db.rooms == old(db.rooms)
                && o == Send(200, old(db.rooms)[ExistingPrivate(old(db.rooms), me, ps[0], 0).value], "Private room already exists")
    ensures CreateVerdict(name, TypeOrDefault(roomType), ListOrEmpty(participants)) == Allowed ==>
              var t, ps := TypeOrDefault(roomType), ListOrEmpty(participants);
              (t == Private ==> ExistingPrivate(old(db.rooms), me, ps[0], 0).None?) ==>
                && (!(NoDup(ps) && AllUsers(ps, |db.users|)) ==> RaisedWith(o, 400) && db.rooms == old(db.rooms))
                && (!(NoDup(ps) && AllUsers(ps, |db.users|)) ==> RaisedWithText(o, 400, "Some participants don't exist"))
                && (NoDup(ps) && AllUsers(ps, |db.users|) && !RoomFits(name.value, description, t) ==>
                      Crashed(o) && db.rooms == old(db.rooms))
                && (NoDup(ps) && AllUsers(ps, |db.users|) && RoomFits(name.value, description, t) ==>
                      && db.rooms == old(db.rooms) + [NewRoom(name.value, description, t, me, ps, now)]
                      && o == Send(201, NewRoom(name.value, description, t, me, ps, now), "Chat room created successfully"))
  {
    var t, ps := TypeOrDefault(roomType), ListOrEmpty(participants);
    var v := CreateVerdict(name, t, ps);
    if v != Allowed {
      return Throw(400, if name.None? || IsBlank(name.value) then "Room name is required"
                        else "Private rooms must have exactly 2 participants");
    }
    if t == Private {
      var existing := ExistingPrivate(db.rooms, me, ps[0], 0);
      if existing.Some? {
        return Send(200, db.rooms[existing.value], "Private room already exists");
      }
    }
    o := CreateNew(db, me, name.value, description, t, ps, now);
  }

  // ----- getUserChatRooms, getChatRoom -----

  /** `GET /chatrooms`: the requester's active rooms, most recently active
      first (`ChatRoom.findByUser`). */
  method GetUserChatRooms(db: Store, me: UserId) returns (o: Outcome<seq<RoomId>>)
    ensures o.Sent? && o.reply.status == 200 && o.reply.body.Envelope?
    ensures var r := o.reply.body.response.data;
            && (forall id :: id in r <==> 0 <= id < |db.rooms| && db.rooms[id].isActive && IsParticipant(db.rooms[id].participants, me))
            && NoDup(r)
            && (forall k :: 0 <= k < |r| ==> r[k] < |db.rooms|)
            && (forall i, j :: 0 <= i < j < |r| ==> db.rooms[r[i]].lastActivity >= db.rooms[r[j]].lastActivity)
  {
    o := Send(200, FindByUser(db.rooms, me), "Chat rooms retrieved successfully");
  }

  /** A room after `updateLastSeen(me)`. */
  function Seen(room: Room, me: UserId, now: int): (r: Room)
    ensures r.lastActivity == now && r.participants == Touched(room.participants, me, now)
    ensures SchemaValid(room) ==> SchemaValid(r)
  {
    RolesStorableIff(room.participants);
    RolesStorableIff(Touched(room.participants, me, now));
    room.(lastActivity := now, participants := Touched(room.participants, me, now))
  }

  /** `GET /chatrooms/:roomId`: unknown room 404, not a participant 403;
      otherwise the visit is recorded and the room returned. */
  method GetChatRoom(db: Store, me: UserId, roomId: RoomId, now: int) returns (o: Outcome<Room>)
    requires db.Valid()
    modifies db`rooms
    ensures db.Valid()
    ensures MessageController.RoomVerdict(old(db.rooms), me, roomId).Refused? ==>
              RaisedWith(o, MessageController.RoomVerdict(old(db.rooms), me, roomId).status) && db.rooms == old(db.rooms)
    ensures MessageController.RoomVerdict(old(db.rooms), me, roomId) == Refused(404) ==>
              RaisedWithText(o, 404, "Chat room not found")
    ensures MessageController.RoomVerdict(old(db.rooms), me, roomId) == Refused(403) ==>
              RaisedWithText(o, 403, "You are not a participant of this chat room")
    ensures MessageController.RoomVerdict(old(db.rooms), me, roomId) == Allowed ==>
              && db.rooms == old(db.rooms)[roomId := Seen(old(db.rooms)[roomId], me, now)]
              && o == Send(200, Seen(old(db.rooms)[roomId], me, now), "Chat room retrieved successfully")
  {
    var v := MessageController.RoomVerdict(db.rooms, me, roomId);
    if v.Refused? {
      return Throw(v.status, if v.status == 404 then "Chat room not found"
                             else "You are not a participant of this chat room");
    }
    db.RoomValid(roomId);
    var doc := new ChatRoomDocument.Load(db.rooms[roomId]);
    doc.UpdateLastSeen(me, now);
    assert doc.Snapshot() == Seen(old(db.rooms)[roomId], me, now);
    db.WriteRoom(roomId, doc.Snapshot());
    o := Send(200, doc.Snapshot(), "Chat room retrieved successfully");
  }

  // ----- addParticipant, removeParticipant -----

  /** The error `activeUsers.get(userId)` throws: the name is not defined in
      this module, so both handlers fail after their change is saved. */
  const UndefinedActiveUsers: Thrown := Fault(None, "activeUsers is not defined")

  /** The checks of `addParticipant`, in order: unknown room 404, requester
      neither admin nor moderator 403, private room 400, unknown user 404. */
  function AddVerdict(rooms: seq<Room>, nUsers: nat, me: UserId, roomId: RoomId, userId: UserId): (v: Verdict)
    ensures v == Allowed <==> roomId < |rooms| && IsManager(RoleOf(rooms[roomId].participants, me))
                               && rooms[roomId].roomType != Private && userId < nUsers
    ensures v != Crash
    ensures v == Refused(403) <==> roomId < |rooms| && !IsManager(RoleOf(rooms[roomId].participants, me))
    ensures v == Refused(400) <==> roomId < |rooms| && IsManager(RoleOf(rooms[roomId].participants, me))
                                    && rooms[roomId].roomType == Private
  {
    if roomId >= |rooms| then Refused(404)
    else if !IsManager(RoleOf(rooms[roomId].participants, me)) then Refused(403)
    else if rooms[roomId].roomType == Private then Refused(400)
    else if userId >= nUsers then Refused(404)
    else Allowed
  }

  /** A room after `addParticipant(u, role)`. */
  function Joined(room: Room, u: UserId, role: Role, now: int): (r: Room)
    ensures r.participants == WithParticipant(room.participants, u, role, now) && IsParticipant(r.participants, u)
    ensures r.name == room.name && r.roomType == room.roomType && r.isActive == room.isActive
    ensures SchemaValid(room) && StorableRole(role) ==> SchemaValid(r)
  {
    StorableAfterChange(room.participants, u, role, now);
    room.(participants := WithParticipant(room.participants, u, role, now))
  }

  /** The state change of an addition: add the user (a member unless the
      caller says otherwise) and save. */
  method CommitJoin(db: Store, roomId: RoomId, userId: UserId, role: Role, now: int)
    requires db.Valid() && roomId < |db.rooms| && StorableRole(role)
    modifies db`rooms
    ensures db.Valid()
    ensures db.rooms == old(db.rooms)[roomId := Joined(old(db.rooms)[roomId], userId, role, now)]
  {
    db.RoomValid(roomId);
    var doc := new ChatRoomDocument.Load(db.rooms[roomId]);
    doc.AddParticipant(userId, role, now);
    assert doc.Snapshot() == Joined(old(db.rooms)[roomId], userId, role, now);
    db.WriteRoom(roomId, doc.Snapshot());
  }

  /** `POST /chatrooms/:roomId/participants` with `{userId}`: after the
      checks the user is added as a member and saved, and then the handler
      throws on the undefined `activeUsers`, so the client gets a 500 for a
      change that took place. */
  method AddParticipant(db: Store, me: UserId, roomId: RoomId, userId: UserId, now: int) returns (o: Outcome<Room>)
    requires db.Valid()
    modifies db`rooms
    ensures db.Valid()
    ensures AddVerdict(old(db.rooms), |db.users|, me, roomId, userId).Refused? ==>
              RaisedWith(o, AddVerdict(old(db.rooms), |db.users|, me, roomId, userId).status) && db.rooms == old(db.rooms)
    ensures var v := AddVerdict(old(db.rooms), |db.users|, me, roomId, userId);
            && (roomId >= |old(db.rooms)| ==> RaisedWithText(o, 404, "Chat room not found"))
            && (v == Refused(403) ==> RaisedWithText(o, 403, "Only admins and moderators can add participants"))
            && (v == Refused(400) ==> RaisedWithText(o, 400, "Cannot add participants to private rooms"))
            && (v == Refused(404) && roomId < |old(db.rooms)| ==> RaisedWithText(o, 404, "User not found"))
    ensures AddVerdict(old(db.rooms), |db.users|, me, roomId, userId) == Allowed ==>
              && db.rooms == old(db.rooms)[roomId := Joined(old(db.rooms)[roomId], userId, Member, now)]
              && o == Raised(UndefinedActiveUsers) && Crashed(o)
  {
    var v := AddVerdict(db.rooms, |db.users|, me, roomId, userId);
    if v.Refused? {
      return Throw(v.status, if v.status == 403 then "Only admins and moderators can add participants"
                             else if v.status == 400 then "Cannot add participants to private rooms"
                             else if roomId >= |db.rooms| then "Chat room not found"
                             else "User not found");
    }
    CommitJoin(db, roomId, userId, Member, now);
    o := Raised(UndefinedActiveUsers);
  }

  /** The checks of `removeParticipant`, in order: unknown room 404; a
      requester who is neither admin nor moderator may only remove
      themself, else 403; private room 400. The removed user need not be a
      participant, nor exist. */
  function RemoveVerdict(rooms: seq<Room>, me: UserId, roomId: RoomId, userId: UserId): (v: Verdict)
    ensures v == Allowed <==> roomId < |rooms| && (IsManager(RoleOf(rooms[roomId].participants, me)) || me == userId)
                               && rooms[roomId].roomType != Private
    ensures v != Crash
    ensures v == Refused(404) <==> roomId >= |rooms|
    ensures v == Refused(403) <==> roomId < |rooms| && !IsManager(RoleOf(rooms[roomId].participants, me)) && me != userId
  {
    if roomId >= |rooms| then Refused(404)
    else if !IsManager(RoleOf(rooms[roomId].participants, me)) && me != userId then Refused(403)
    else if rooms[roomId].roomType == Private then Refused(400)
    else Allowed
  }

  /** A room after `removeParticipant(u)`. */
  function Dropped(room: Room, u: UserId): (r: Room)
    ensures r.participants == WithoutParticipant(room.participants, u) && !IsParticipant(r.participants, u)
    ensures forall v :: v != u ==> (IsParticipant(r.participants, v) <==> IsParticipant(room.participants, v))
    ensures r.name == room.name && r.roomType == room.roomType && r.isActive == room.isActive
    ensures SchemaValid(room) ==> SchemaValid(r)
  {
    StorableAfterChange(room.participants, u, Member, 0);
    forall v | v != u
      ensures IsParticipant(WithoutParticipant(room.participants, u), v) <==> IsParticipant(room.participants, v)
    {
      WithoutParticipantOthers(room.participants, u, v);
    }
    room.(participants := WithoutParticipant(room.participants, u))
  }

  /** The state change of a removal: drop every entry of the user and save. */
  method CommitDrop(db: Store, roomId: RoomId, userId: UserId)
    requires db.Valid() && roomId < |db.rooms|
    modifies db`rooms
    ensures db.Valid()
    ensures db.rooms == old(db.rooms)[roomId := Dropped(old(db.rooms)[roomId], userId)]
  {
    db.RoomValid(roomId);
    var doc := new ChatRoomDocument.Load(db.rooms[roomId]);
    doc.RemoveParticipant(userId);
    assert doc.Snapshot() == Dropped(old(db.rooms)[roomId], userId);
    db.WriteRoom(roomId, doc.Snapshot());
  }

  /** `DELETE /chatrooms/:roomId/participants` with `{userId}`: after the
      checks every entry of the user is removed and saved, and then the
      handler throws on the undefined `activeUsers`. */
  method RemoveParticipant(db: Store, me: UserId, roomId: RoomId, userId: UserId) returns (o: Outcome<Room>)
    requires db.Valid()
    modifies db`rooms
    ensures db.Valid()
    ensures RemoveVerdict(old(db.rooms), me, roomId, userId).Refused? ==>
              RaisedWith(o, RemoveVerdict(old(db.rooms), me, roomId, userId).status) && db.rooms == old(db.rooms)
    ensures var v := RemoveVerdict(old(db.rooms), me, roomId, userId);
            && (v == Refused(404) ==> RaisedWithText(o, 404, "Chat room not found"))
            && (v == Refused(403) ==> RaisedWithText(o, 403, "You don't have permission to remove this participant"))
            && (v == Refused(400) ==> RaisedWithText(o, 400, "Cannot remove participants from private rooms"))
    ensures RemoveVerdict(old(db.rooms), me, roomId, userId) == Allowed ==>
              && db.rooms == old(db.rooms)[roomId := Dropped(old(db.rooms)[roomId], userId)]
              && o == Raised(UndefinedActiveUsers) && Crashed(o)
  {
    var v := RemoveVerdict(db.rooms, me, roomId, userId);
    if v.Refused? {
      return Throw(v.status, if v.status == 404 then "Chat room not found"
                             else if v.status == 403 then "You don't have permission to remove this participant"
                             else "Cannot remove participants from private rooms");
    }
    CommitDrop(db, roomId, userId);
    o := Raised(UndefinedActiveUsers);
  }

  // ----- updateChatRoom -----

  /** A body field that may be missing, `null`, or a string. */
  datatype Field = Missing | NullField | Given(value: string)

  /** The checks of `updateChatRoom`: unknown room 404, requester neither
      admin nor moderator 403. */
  function ManageVerdict(rooms: seq<Room>, me: UserId, roomId: RoomId): (v: Verdict)
    ensures v == Allowed <==> roomId < |rooms| && IsManager(RoleOf(rooms[roomId].participants, me))
    ensures v == Refused(404) <==> roomId >= |rooms|
    ensures v == Refused(403) <==> roomId < |rooms| && !IsManager(RoleOf(rooms[roomId].participants, me))
  {
    if roomId >= |rooms| then Refused(404)
    else if !IsManager(RoleOf(rooms[roomId].participants, me)) then Refused(403)
    else Allowed
  }

  /** The room after the assignments: a non-empty name is trimmed and set
      (an all-blank one leaves an empty name the save rejects); a present
      description is trimmed and set, a `null` one removed. */
  function Renamed(room: Room, name: Option<string>, description: Field): (r: Room)
    ensures r.name == (if name.Some? && name.value != "" then Trim(name.value) else room.name)
    ensures description.Missing? ==> r.description == room.description
    ensures description.NullField? ==> r.description.None?
    ensures description.Given? ==> r.description == Some(Trim(description.value))
    ensures r.participants == room.participants && r.roomType == room.roomType && r.isActive == room.isActive
  {
    var named := if name.Some? && name.value != "" then room.(name := Trim(name.value)) else room;
    match description
    case Missing => named
    case NullField => named.(description := None)
    case Given(d) => named.(description := Some(Trim(d)))
  }

  /** When the save succeeds: the new name, if any, is not blank and fits,
      and the new description fits. */
  lemma RenamedValid(room: Room, name: Option<string>, description: Field)
    requires SchemaValid(room)
    ensures SchemaValid(Renamed(room, name, description)) <==>
              && (name.Some? && name.value != "" ==> !IsBlank(name.value) && |Trim(name.value)| <= MaxNameLength)
              && (description.Given? ==> |Trim(description.value)| <= MaxDescriptionLength)
  {
    if name.Some? { TrimmedIffFixedPoint(name.value); }
    if description.Given? { TrimmedIffFixedPoint(description.value); }
  }

  /** The handler's two assignments on the loaded document. */
  method ApplyUpdate(doc: ChatRoomDocument, name: Option<string>, description: Field)
    modifies doc
    ensures doc.Snapshot() == Renamed(old(doc.Snapshot()), name, description)
  {
    if name.Some? && name.value != "" {
      doc.name := Trim(name.value);
    }
    match description {
      case Missing =>
      case NullField => doc.description := None;
      case Given(d) => doc.description := Some(Trim(d));
    }
  }

  /** `PUT /chatrooms/:roomId` with `{name, description}`: only an admin or
      a moderator; a save the schema rejects crashes and changes nothing. */
  method UpdateChatRoom(db: Store, me: UserId, roomId: RoomId, name: Option<string>, description: Field)
    returns (o: Outcome<Room>)
    requires db.Valid()
    modifies db`rooms
    ensures db.Valid()
    ensures ManageVerdict(old(db.rooms), me, roomId).Refused? ==>
              RaisedWith(o, ManageVerdict(old(db.rooms), me, roomId).status) && db.rooms == old(db.rooms)
    ensures ManageVerdict(old(db.rooms), me, roomId) == Refused(404) ==> RaisedWithText(o, 404, "Chat room not found")
    ensures ManageVerdict(old(db.rooms), me, roomId) == Refused(403) ==>
              RaisedWithText(o, 403, "Only admins and moderators can update room details")
    ensures ManageVerdict(old(db.rooms), me, roomId) == Allowed ==>
              var r := Renamed(old(db.rooms)[roomId], name, description);
              && (!SchemaValid(r) ==> Crashed(o) && db.rooms == old(db.rooms))
              && (SchemaValid(r) ==> db.rooms == old(db.rooms)[roomId := r]
                                     && o == Send(200, r, "Chat room updated successfully"))
  {
    var v := ManageVerdict(db.rooms, me, roomId);
    if v.Refused? {
      return Throw(v.status, if v.status == 404 then "Chat room not found"
                             else "Only admins and moderators can update room details");
    }
    var doc := new ChatRoomDocument.Load(db.rooms[roomId]);
    ApplyUpdate(doc, name, description);
    var r := doc.Snapshot();
    if !SchemaValid(r) {
      return Raised(Fault(None, "ChatRoom validation failed"));
    }
    db.WriteRoom(roomId, r);
    o := Send(200, r, "Chat room updated successfully");
  }

  // ----- leaveChatRoom -----

  /** The checks of `leaveChatRoom`, in order: unknown room 404, private
      room 400, not a participant 400. */
  function LeaveVerdict(rooms: seq<Room>, me: UserId, roomId: RoomId): (v: Verdict)
    ensures v == Allowed <==> roomId < |rooms| && rooms[roomId].roomType != Private
                               && IsParticipant(rooms[roomId].participants, me)
    ensures v != Crash
    ensures v == Refused(404) <==> roomId >= |rooms|
  {
    if roomId >= |rooms| then Refused(404)
    else if rooms[roomId].roomType == Private then Refused(400)
    else if !IsParticipant(rooms[roomId].participants, me) then Refused(400)
    else Allowed
  }

  /** `participants.find(p => p.role === role)`, as a position. */
  function FindRole(ps: seq<Participant>, role: Role): (r: Option<nat>)
    ensures r.None? <==> forall i :: 0 <= i < |ps| ==> ps[i].role != role
    ensures r.Some? ==> r.value < |ps| && ps[r.value].role == role
    ensures r.Some? ==> forall j :: 0 <= j < r.value ==> ps[j].role != role
  {
    if ps == [] then None
    else if ps[0].role == role then Some(0)
    else
      var rest := FindRole(ps[1..], role);
      assert forall j :: 1 <= j < |ps| ==> ps[j] == ps[1..][j - 1];
      if rest.None? then None else Some(rest.value + 1)
  }

  /** The fallback promotion: when the leaver was an admin and no admin
      remains, the first member becomes admin. */
  function Promoted(ps: seq<Participant>, leaverRole: Option<Role>): (r: seq<Participant>)
    ensures |r| == |ps| && forall i :: 0 <= i < |ps| ==> r[i].user == ps[i].user
    ensures forall i :: 0 <= i < |ps| && r[i] != ps[i] ==> ps[i].role == Member && r[i] == ps[i].(role := Admin)
    ensures RolesStorable(ps) ==> RolesStorable(r)
  {
    RolesStorableIff(ps);
    if leaverRole == Some(Admin) && !HasAdmin(ps) then
      match FindRole(ps, Member)
      case None => ps
      case Some(i) =>
        var r := ps[i := ps[i].(role := Admin)];
        RolesStorableIff(r);
        r
    else ps
  }

  /** The room, read again after the removal was saved: deactivated when
      nobody is left, otherwise given the fallback promotion. */
  function Settled(room: Room, leaverRole: Option<Role>): (r: Room)
    ensures r.participants == (if room.participants == [] then [] else Promoted(room.participants, leaverRole))
    ensures r.isActive == (room.isActive && room.participants != [])
    ensures r.name == room.name && r.roomType == room.roomType && r.createdBy == room.createdBy
    ensures SchemaValid(room) ==> SchemaValid(r)
  {
    if room.participants == [] then room.(isActive := false)
    else room.(participants := Promoted(room.participants, leaverRole))
  }

  /** The room after `me` leaves: every entry of `me` removed, then settled
      with the role `me` had. */
  function AfterLeave(room: Room, me: UserId): Room {
    Settled(Dropped(room, me), RoleOf(room.participants, me))
  }

  /** Leaving removes the leaver and nobody else, changes no other name,
      and keeps every role storable. */
  lemma LeaveMembership(room: Room, me: UserId, v: UserId)
    requires SchemaValid(room)
    ensures !IsParticipant(AfterLeave(room, me).participants, me)
    ensures v != me ==> (IsParticipant(AfterLeave(room, me).participants, v) <==> IsParticipant(room.participants, v))
    ensures SchemaValid(AfterLeave(room, me))
  {
    var rest := WithoutParticipant(room.participants, me);
    var after := AfterLeave(room, me).participants;
    StorableAfterChange(room.participants, me, Member, 0);
    if v != me { WithoutParticipantOthers(room.participants, me, v); }
    forall u ensures IsParticipant(after, u) <==> IsParticipant(rest, u) {
      if IsParticipant(after, u) {
        var i :| 0 <= i < |after| && after[i].user == u;
        assert rest[i].user == u;
      }
      if IsParticipant(rest, u) && rest != [] {
        var i :| 0 <= i < |rest| && rest[i].user == u;
        assert after[i].user == u;
      }
    }
  }

  /** A leaving admin never leaves an occupied room without an admin: if no
      other admin remains, the first member is promoted. Every remaining
      role is admin or member, so a member exists whenever no admin does. */
  lemma LeaveKeepsAdmin(room: Room, me: UserId)
    requires SchemaValid(room) && RoleOf(room.participants, me) == Some(Admin)
    requires WithoutParticipant(room.participants, me) != []
    ensures HasAdmin(AfterLeave(room, me).participants)
  {
    var rest := WithoutParticipant(room.participants, me);
    StorableAfterChange(room.participants, me, Member, 0);
    if !HasAdmin(rest) {
      RolesStorableIff(rest);
      assert rest[0].role == Member;
      var i := FindRole(rest, Member).value;
      assert Promoted(rest, Some(Admin))[i].role == Admin;
    }
  }

  /** The second half of a leave: read the room again and deactivate it or
      promote a member, then save. */
  method CommitSettle(db: Store, roomId: RoomId, leaverRole: Option<Role>)
    requires db.Valid() && roomId < |db.rooms|
    modifies db`rooms
    ensures db.Valid()
    ensures db.rooms == old(db.rooms)[roomId := Settled(old(db.rooms)[roomId], leaverRole)]
  {
    db.RoomValid(roomId);
    var doc := new ChatRoomDocument.Load(db.rooms[roomId]);
    if |doc.participants| == 0 {
      doc.isActive := false;
    } else if leaverRole == Some(Admin) && !HasAdmin(doc.participants) {
      var first := FindRole(doc.participants, Member);
      if first.Some? {
        var i := first.value;
        doc.participants := doc.participants[i := doc.participants[i].(role := Admin)];
      }
    }
    assert doc.Snapshot() == Settled(old(db.rooms)[roomId], leaverRole);
    db.WriteRoom(roomId, doc.Snapshot());
  }

  /** `DELETE /chatrooms/:roomId/leave`: after the checks, the removal is
      saved; the room is read again and either deactivated (nobody left) or
      given a new admin when needed, and saved once more. */
  method LeaveChatRoom(db: Store, me: UserId, roomId: RoomId) returns (o: Outcome<Null>)
    requires db.Valid()
    modifies db`rooms
    ensures db.Valid()
    ensures LeaveVerdict(old(db.rooms), me, roomId).Refused? ==>
              RaisedWith(o, LeaveVerdict(old(db.rooms), me, roomId).status) && db.rooms == old(db.rooms)
    ensures LeaveVerdict(old(db.rooms), me, roomId) == Refused(404) ==> RaisedWithText(o, 404, "Chat room not found")
    ensures roomId < |old(db.rooms)| && old(db.rooms)[roomId].roomType == Private ==>
              RaisedWithText(o, 400, "Cannot leave private rooms")
    ensures roomId < |old(db.rooms)| && old(db.rooms)[roomId].roomType != Private
            && !IsParticipant(old(db.rooms)[roomId].participants, me) ==>
              RaisedWithText(o, 400, "User is not a participant in this room")
    ensures LeaveVerdict(old(db.rooms), me, roomId) == Allowed ==>
              && db.rooms == old(db.rooms)[roomId := AfterLeave(old(db.rooms)[roomId], me)]
              && o == Send(200, Null, "Left chat room successfully")
  {
    var v := LeaveVerdict(db.rooms, me, roomId);
    if v.Refused? {
      return Throw(v.status, if v.status == 404 then "Chat room not found"
                             else if db.rooms[roomId].roomType == Private then "Cannot leave private rooms"
                             else "User is not a participant in this room");
    }
    var doc := new ChatRoomDocument.Load(db.rooms[roomId]);
    var leavingRole := doc.GetParticipantRole(me);
    CommitDrop(db, roomId, me);
    ghost var dropped := db.rooms;
    CommitSettle(db, roomId, leavingRole);
    assert db.rooms == dropped[roomId := Settled(dropped[roomId], leavingRole)];
    o := Send(200, Null, "Left chat room successfully");
  }

}
