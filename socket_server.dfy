/** The socket.io server (discord/sockets/socket.js): the presence maps
    `activeUsers` and `userSockets`, and the event handlers of a connection
    that the handshake (module SocketAuth) has let in. A handler's
    emits are returned in the order the handler makes them; which sockets
    have joined which socket.io room is transport state and is not
    modelled, so an emit names its audience as the handler does. */
module SocketServer {
  import opened Text
  import opened Ids
  import opened Collections
  import opened Lookup
  import opened MessageModel
  import opened ChatRoomModel
  import opened UserModel
  import opened Database
  import opened AsyncHandler
  import opened MessageController
  import opened ChatroomController

  // ----- presence: activeUsers and userSockets -----

  /** The two module-level maps: the socket each online user was last seen
      on, and the user of each socket that has not disconnected. */
  datatype Presence = Presence(active: map<UserId, SocketId>, sockets: map<SocketId, UserId>)

  /** Each online user's socket is live and belongs to that user. */
  predicate Consistent(p: Presence) {
    forall u :: u in p.active ==> p.active[u] in p.sockets && p.sockets[p.active[u]] == u
  }

  /** The maps after socket `s` of user `u` connects. */
  function Connected(p: Presence, s: SocketId, u: UserId): (r: Presence)
    ensures u in r.active && r.active[u] == s && s in r.sockets && r.sockets[s] == u
    ensures forall v :: v != u ==> (v in r.active <==> v in p.active) && (v in p.active ==> r.active[v] == p.active[v])
    ensures Consistent(p) && s !in p.sockets ==> Consistent(r)
  {
    Presence(p.active[u := s], p.sockets[s := u])
  }

  /** The maps after socket `s` of user `u` disconnects: the user goes
      offline whichever socket the user was last seen on. */
  function Disconnected(p: Presence, s: SocketId, u: UserId): (r: Presence)
    ensures u !in r.active && s !in r.sockets
    ensures forall v :: v != u ==> (v in r.active <==> v in p.active) && (v in p.active ==> r.active[v] == p.active[v])
    ensures Consistent(p) && s in p.sockets && p.sockets[s] == u ==> Consistent(r)
  {
    Presence(p.active - {u}, p.sockets - {s})
  }

  /** A user with two tabs who closes the older one shows as offline while
      the newer socket is still connected. */
  lemma StaleDisconnect(p: Presence, s1: SocketId, s2: SocketId, u: UserId)
    requires s1 != s2
    ensures var q := Disconnected(Connected(Connected(p, s1, u), s2, u), s1, u);
            u !in q.active && s2 in q.sockets && q.sockets[s2] == u
  {
  }

  /** Closing the tabs in the order they were opened is the same as never
      having opened them, as far as `activeUsers` can tell. */
  lemma ConnectDisconnect(p: Presence, s: SocketId, u: UserId)
    requires u !in p.active && s !in p.sockets
    ensures Disconnected(Connected(p, s, u), s, u) == p
  {
    assert p.active[u := s] - {u} == p.active;
    assert p.sockets[s := u] - {s} == p.sockets;
  }

  /** An authenticated connection: its socket and the user it was bound to. */
  datatype Conn = Conn(socket: SocketId, user: UserId)

  /** Where an emit goes: one socket (`socket.emit`, `io.to(socketId)`), a
      socket.io room (`io.to('room_' + id)`), that room without the sender
      (`socket.to(...)`), or every socket but the sender's
      (`socket.broadcast`). */
  datatype Audience = ToSocket(socket: SocketId) | ToRoom(room: RoomId) | ToRoomExcept(room: RoomId, except: SocketId)
                    | ToAllExcept(except: SocketId)

  /** The events the handlers emit; populated documents are given by id or
      as the stored record. */
  datatype Event =
    | ErrorEvent(message: string)
    | UserOnline(user: UserId)
    | UserOffline(user: UserId)
    | UserRooms(rooms: seq<RoomId>)
    | JoinedRoom(room: RoomId)
    | UserJoinedRoom(user: UserId, room: RoomId)
    | NewMessageEvent(id: MessageId, doc: Message)
    | MessageEdited(id: MessageId, content: string, editedAt: int)
    | MessageDeleted(id: MessageId, forEveryone: bool)
    | MessagesRead(user: UserId, ids: seq<MessageId>, room: RoomId)
    | MessagesForwarded(ids: seq<MessageId>, targets: seq<RoomId>, copies: seq<Message>)
    | RoomCreated(created: Room)
    | NewRoomEvent(roomId: RoomId, created: Room)
    | OnlineUsers(online: set<UserId>)
    | OnlineUsersInRoom(room: RoomId, users: seq<UserId>, count: nat)
    | RemovedFromRoom(room: RoomId)
    | UserRemoved(user: UserId, room: RoomId)
    | UserPromoted(user: UserId)
    | UserDemoted(user: UserId)

  datatype Emit = Emit(to: Audience, event: Event)

  /** `socket.emit('error', {message})` */
  function Fail(c: Conn, message: string): seq<Emit> {
    [Emit(ToSocket(c.socket), ErrorEvent(message))]
  }

  // ----- what the handlers compute -----

  /** The users `send_message` marks as delivered to: every entry of the
      room, in order, naming someone other than the sender who is online. */
  function Recipients(ps: seq<Participant>, me: UserId, online: set<UserId>): (r: seq<UserId>)
    ensures forall u :: u in r <==> IsParticipant(ps, u) && u != me && u in online
  {
    if ps == [] then []
    else
      var rest := Recipients(ps[1..], me, online);
      assert forall u :: IsParticipant(ps, u) <==> ps[0].user == u || IsParticipant(ps[1..], u) by {
        assert forall j :: 1 <= j < |ps| ==> ps[j] == ps[1..][j - 1];
      }
      (if ps[0].user != me && ps[0].user in online then [ps[0].user] else []) + rest
  }

  /** A message after `markAsDelivered(u)` for each `u` of `us` in turn:
      every one of them but the sender gains a delivery receipt, and nothing
      else about the message changes. */
  function Delivered(m: Message, us: seq<UserId>, now: int): (r: Message)
    ensures r == m.(deliveredTo := r.deliveredTo)
    ensures forall u :: HasReceipt(r.deliveredTo, u) <==> HasReceipt(m.deliveredTo, u) || (u in us && u != m.sender)
  {
    if us == [] then m
    else
      var front := Delivered(m, us[..|us| - 1], now);
      assert forall u :: u in us <==> u in us[..|us| - 1] || u == us[|us| - 1] by {
        assert us == us[..|us| - 1] + [us[|us| - 1]];
      }
      Stamped(front, Delivery, us[|us| - 1], now)
  }

  /** A message sent over the socket ends up delivered to exactly the other
      participants who are online when it is sent. */
  lemma SentMessageDeliveries(me: UserId, roomId: RoomId, content: string, messageType: MessageType,
                              replyTo: Option<MessageId>, now: int, ps: seq<Participant>, online: set<UserId>)
    ensures var m := Delivered(NewMessage(me, roomId, content, messageType, replyTo, None, now), Recipients(ps, me, online), now);
            forall u :: HasReceipt(m.deliveredTo, u) <==> IsParticipant(ps, u) && u != me && u in online
  {
  }

  /** A message after `$addToSet: {deletedFor: u}`: `u` is in the list once
      it was not, nobody else's entry changes, and the message is otherwise
      as it was (others still see it). */
  function HiddenFor(m: Message, u: UserId): (r: Message)
    ensures u in r.deletedFor && m.deletedFor <= r.deletedFor
    ensures forall v :: v != u ==> (v in r.deletedFor <==> v in m.deletedFor)
    ensures r == m.(deletedFor := r.deletedFor)
    ensures NoDup(m.deletedFor) ==> NoDup(r.deletedFor)
  {
    if u in m.deletedFor then m else m.(deletedFor := m.deletedFor + [u])
  }

  /** Hiding a message twice is hiding it once. */
  lemma HiddenForIdempotent(m: Message, u: UserId)
    ensures HiddenFor(HiddenFor(m, u), u) == HiddenFor(m, u)
  {
  }

  /** The entries of a room whose user is online, in order, a user listed
      twice appearing twice. */
  function OnlineEntries(ps: seq<Participant>, online: set<UserId>): (r: seq<UserId>)
    ensures |r| <= |ps|
    ensures forall u :: u in r <==> IsParticipant(ps, u) && u in online
  {
    if ps == [] then []
    else
      var rest := OnlineEntries(ps[1..], online);
      assert forall u :: IsParticipant(ps, u) <==> ps[0].user == u || IsParticipant(ps[1..], u) by {
        assert forall j :: 1 <= j < |ps| ==> ps[j] == ps[1..][j - 1];
      }
      (if ps[0].user in online then [ps[0].user] else []) + rest
  }

  /** Every entry of the room names a stored user; an entry that does not
      makes `populate` leave `null`, and reading its `_id` throws. */
  predicate EntriesStored(ps: seq<Participant>, nUsers: nat) {
    forall i :: 0 <= i < |ps| ==> ps[i].user < nUsers
  }

  /** `new_room` to the socket of every requested participant who is
      online, in request order. */
  function Announce(ps: seq<UserId>, online: map<UserId, SocketId>, id: RoomId, room: Room): (r: seq<Emit>)
    ensures |r| <= |ps|
    ensures forall k :: 0 <= k < |r| ==> r[k].event == NewRoomEvent(id, room)
    ensures forall u :: u in ps && u in online ==> Emit(ToSocket(online[u]), NewRoomEvent(id, room)) in r
    ensures forall k :: 0 <= k < |r| ==> r[k].to.ToSocket? && r[k].to.socket in online.Values
  {
    if ps == [] then []
    else
      var rest := Announce(ps[1..], online, id, room);
      assert forall u :: u in ps <==> u == ps[0] || u in ps[1..];
      (if ps[0] in online then [Emit(ToSocket(online[ps[0]]), NewRoomEvent(id, room))] else []) + rest
  }

  /** The emits of a forward that went through: `new_message` to each
      target room for each copy, in creation order, then
      `messages_forwarded` to the sender. */
  function ForwardEmits(c: Conn, first: MessageId, copies: seq<Message>, ids: seq<MessageId>, targets: seq<RoomId>): (r: seq<Emit>)
    ensures |r| == |copies| + 1
    ensures forall k :: 0 <= k < |copies| ==> r[k] == Emit(ToRoom(copies[k].chatRoom), NewMessageEvent(first + k, copies[k]))
    ensures r[|copies|] == Emit(ToSocket(c.socket), MessagesForwarded(ids, targets, copies))
  {
    seq(|copies|, k requires 0 <= k < |copies| => Emit(ToRoom(copies[k].chatRoom), NewMessageEvent(first + k, copies[k])))
    + [Emit(ToSocket(c.socket), MessagesForwarded(ids, targets, copies))]
  }

  /** The error `remove_user_from_room` reports before changing anything,
      or `None`: unknown room; a requester neither admin nor moderator; no
      `userIdToRemove` (`getParticipantRole(undefined)` throws on the
      requester's own entry); an admin target for a requester who is not
      an admin. */
  function RemovalRefusal(rooms: seq<Room>, me: UserId, roomId: RoomId, target: Option<UserId>): (e: Option<string>)
    ensures e.None? <==> roomId < |rooms| && IsManager(RoleOf(rooms[roomId].participants, me)) && target.Some?
                         && (RoleOf(rooms[roomId].participants, target.value) == Some(Admin)
                             ==> RoleOf(rooms[roomId].participants, me) == Some(Admin))
    ensures target.None? ==> e.Some?
  {
    if roomId >= |rooms| then Some("Room not found")
    else
      var ps := rooms[roomId].participants;
      if !IsManager(RoleOf(ps, me)) then Some("Not authorized to remove users")
      else if target.None? then Some("Failed to remove user")
      else if RoleOf(ps, target.value) == Some(Admin) && RoleOf(ps, me) != Some(Admin) then
        Some("Cannot remove another admin unless you are admin")
      else None
  }

  /** A room whose first entry for `u` has its role set. */
  function Reroled(room: Room, u: UserId, role: Role): (r: Room)
    ensures r.participants == WithRole(room.participants, u, role)
    ensures ChatRoomModel.SchemaValid(room) && StorableRole(role) ==> ChatRoomModel.SchemaValid(r)
  {
    StorableAfterChange(room.participants, u, role, 0);
    room.(participants := WithRole(room.participants, u, role))
  }

  /** Promoting a member and then revoking the promotion gives back the
      room's entries as they were. */
  lemma PromoteRevoke(ps: seq<Participant>, u: UserId)
    requires RoleOf(ps, u) == Some(Member)
    ensures RoleOf(WithRole(ps, u, Admin), u) == Some(Admin)
    ensures WithRole(WithRole(ps, u, Admin), u, Member) == ps
  {
    var i := FindParticipant(ps, u).value;
    var a := WithRole(ps, u, Admin);
    FindParticipantFirst(a, u, i);
    var b := WithRole(a, u, Member);
    assert b[i] == ps[i];
    assert forall k :: 0 <= k < |ps| ==> b[k] == ps[k];
  }

  /** An admin may revoke their own rights, leaving a room with no admin. */
  lemma SelfRevokeLeavesNoAdmin(me: UserId, other: UserId, t: int)
    requires me != other
    ensures var ps := [Participant(me, Admin, t, t), Participant(other, Member, t, t)];
            RoleOf(ps, me) == Some(Admin) && !HasAdmin(WithRole(ps, me, Member))
  {
    var ps := [Participant(me, Admin, t, t), Participant(other, Member, t, t)];
    FindParticipantFirst(ps, me, 0);
    var r := WithRole(ps, me, Member);
    assert r[0].role == Member && r[1] == ps[1];
  }

  // ----- the server and its handlers -----

  /** The socket.io server: the presence maps every handler reads. Each
      handler takes the connection it runs for, changes the store as its
      source does, and returns what it emits. */
  class Server {
    var activeUsers: map<UserId, SocketId>
    var userSockets: map<SocketId, UserId>

    function State(): Presence
      reads this
    {
      Presence(activeUsers, userSockets)
    }

    /** `initializeSocket(server)`: nobody online yet. */
    constructor ()
      ensures activeUsers == map[] && userSockets == map[]
      ensures Consistent(State())
    {
      activeUsers, userSockets := map[], map[];
    }

    /** `io.on('connection')`: record the socket, tell every other socket
        the user is online, and send the user their rooms. */
    method Connect(db: Store, c: Conn) returns (emits: seq<Emit>)
      modifies this
      ensures State() == Connected(old(State()), c.socket, c.user)
      ensures emits == [Emit(ToAllExcept(c.socket), UserOnline(c.user)),
                        Emit(ToSocket(c.socket), UserRooms(FindByUser(db.rooms, c.user)))]
    {
      activeUsers := activeUsers[c.user := c.socket];
      userSockets := userSockets[c.socket := c.user];
      emits := [Emit(ToAllExcept(c.socket), UserOnline(c.user)),
                Emit(ToSocket(c.socket), UserRooms(FindByUser(db.rooms, c.user)))];
    }

    /** `disconnect`: forget the user and the socket, and tell every other
        socket the user is offline. */
    method Disconnect(c: Conn) returns (emits: seq<Emit>)
      modifies this
      ensures State() == Disconnected(old(State()), c.socket, c.user)
      ensures emits == [Emit(ToAllExcept(c.socket), UserOffline(c.user))]
    {
      activeUsers := activeUsers - {c.user};
      userSockets := userSockets - {c.socket};
      emits := [Emit(ToAllExcept(c.socket), UserOffline(c.user))];
    }

    /** `join_room`: the room must exist and list the user; the visit is
        recorded, the user told, and the room's other sockets told. */
    method OnJoinRoom(db: Store, c: Conn, roomId: RoomId, now: int) returns (emits: seq<Emit>)
      requires db.Valid()
      modifies db`rooms
      ensures db.Valid()
      ensures RoomVerdict(old(db.rooms), c.user, roomId) == Refused(404) ==>
                emits == Fail(c, "Room not found") && db.rooms == old(db.rooms)
      ensures RoomVerdict(old(db.rooms), c.user, roomId) == Refused(403) ==>
                emits == Fail(c, "Not authorized to join this room") && db.rooms == old(db.rooms)
      ensures RoomVerdict(old(db.rooms), c.user, roomId) == Allowed ==>
                && db.rooms == old(db.rooms)[roomId := Seen(old(db.rooms)[roomId], c.user, now)]
                && emits == [Emit(ToSocket(c.socket), JoinedRoom(roomId)),
                             Emit(ToRoomExcept(roomId, c.socket), UserJoinedRoom(c.user, roomId))]
    {
      var v := RoomVerdict(db.rooms, c.user, roomId);
      if v.Refused? {
        return Fail(c, if v.status == 404 then "Room not found" else "Not authorized to join this room");
      }
      db.RoomValid(roomId);
      var doc := new ChatRoomDocument.Load(db.rooms[roomId]);
      doc.UpdateLastSeen(c.user, now);
      assert doc.Snapshot() == Seen(old(db.rooms)[roomId], c.user, now);
      db.WriteRoom(roomId, doc.Snapshot());
      emits := [Emit(ToSocket(c.socket), JoinedRoom(roomId)),
                Emit(ToRoomExcept(roomId, c.socket), UserJoinedRoom(c.user, roomId))];
    }

    /** `send_message`: the checks of the HTTP handler with the socket's
        messages; then the message is created and the room updated as
        there, the message goes to the room, and it is marked delivered to
        each other participant online at that moment. A message the schema
        refuses (too long, or a type outside the enum) creates nothing. */
    method OnSendMessage(db: Store, c: Conn, roomId: RoomId, content: string, messageType: MessageType,
                         replyTo: Option<MessageId>, now: int) returns (emits: seq<Emit>)
      requires db.Valid()
      modifies db
      ensures db.Valid() && db.users == old(db.users)
      ensures SendVerdict(old(db.rooms), c.user, roomId, content).Refused? ==>
                && emits == Fail(c, SocketSendRefusal(SendVerdict(old(db.rooms), c.user, roomId, content).status))
                && db.messages == old(db.messages) && db.rooms == old(db.rooms)
      ensures SendVerdict(old(db.rooms), c.user, roomId, content) == Allowed && !SendFits(content, messageType) ==>
                emits == Fail(c, "Failed to send message") && db.messages == old(db.messages) && db.rooms == old(db.rooms)
      ensures SendVerdict(old(db.rooms), c.user, roomId, content) == Allowed && SendFits(content, messageType) ==>
                var sent := NewMessage(c.user, roomId, content, messageType, replyTo, None, now);
                var id := |old(db.messages)|;
                && db.messages == old(db.messages)
                     + [Delivered(sent, Recipients(old(db.rooms)[roomId].participants, c.user, activeUsers.Keys), now)]
                && db.rooms == old(db.rooms)[roomId := AfterSend(old(db.rooms)[roomId], id, c.user, now)]
                && emits == [Emit(ToRoom(roomId), NewMessageEvent(id, sent))]
    {
      var v := SendVerdict(db.rooms, c.user, roomId, content);
      if v.Refused? {
        return Fail(c, SocketSendRefusal(v.status));
      }
      if !SendFits(content, messageType) {
        return Fail(c, "Failed to send message");
      }
      var recipients := Recipients(db.rooms[roomId].participants, c.user, activeUsers.Keys);
      var id := CommitSend(db, c.user, roomId, content, messageType, replyTo, now);
      var sent := db.messages[id];
      emits := [Emit(ToRoom(roomId), NewMessageEvent(id, sent))];
      DeliverAll(db, id, recipients, now);
    }

    /** `edit_message`: the checks of the HTTP handler with the socket's
        messages (no room check, as there); then the text is replaced and
        the edit goes to the message's room. */
    method OnEditMessage(db: Store, c: Conn, messageId: MessageId, content: string, now: int) returns (emits: seq<Emit>)
      requires db.Valid()
      modifies db`messages
      ensures db.Valid()
      ensures EditVerdict(old(db.messages), c.user, messageId, content, now).Refused? ==>
                && emits == Fail(c, SocketEditRefusal(EditVerdict(old(db.messages), c.user, messageId, content, now), content))
                && db.messages == old(db.messages)
      ensures EditVerdict(old(db.messages), c.user, messageId, content, now) == Allowed && !ContentOk(Trim(content)) ==>
                emits == Fail(c, "Failed to edit message") && db.messages == old(db.messages)
      ensures EditVerdict(old(db.messages), c.user, messageId, content, now) == Allowed && ContentOk(Trim(content)) ==>
                && db.messages == old(db.messages)[messageId := Edited(old(db.messages)[messageId], content, now)]
                && emits == [Emit(ToRoom(old(db.messages)[messageId].chatRoom), MessageEdited(messageId, Trim(content), now))]
    {
      var v := EditVerdict(db.messages, c.user, messageId, content, now);
      if v.Refused? {
        return Fail(c, SocketEditRefusal(v, content));
      }
      if !ContentOk(Trim(content)) {
        return Fail(c, "Failed to edit message");
      }
      var room := db.messages[messageId].chatRoom;
      CommitEdit(db, messageId, content, now);
      emits := [Emit(ToRoom(room), MessageEdited(messageId, Trim(content), now))];
    }

    /** `delete_message`: an unknown message is reported; a message whose
        room is gone throws in either mode. For everyone: only the sender,
        an admin or a moderator, and the tombstone goes to the room. For
        oneself: anyone, even outside the room, and only the requester is
        told. */
    method OnDeleteMessage(db: Store, c: Conn, messageId: MessageId, forEveryone: bool, now: int) returns (emits: seq<Emit>)
      requires db.Valid()
      modifies db`messages
      ensures db.Valid()
      ensures DeleteVerdict(old(db.messages), db.rooms, c.user, messageId) == Refused(404) ==>
                emits == Fail(c, "Message not found") && db.messages == old(db.messages)
      ensures DeleteVerdict(old(db.messages), db.rooms, c.user, messageId) == Crash ==>
                emits == Fail(c, "Failed to delete message") && db.messages == old(db.messages)
      ensures forEveryone && DeleteVerdict(old(db.messages), db.rooms, c.user, messageId) == Refused(403) ==>
                emits == Fail(c, "You don't have permission to delete this message") && db.messages == old(db.messages)
      ensures forEveryone && DeleteVerdict(old(db.messages), db.rooms, c.user, messageId) == Allowed ==>
                && db.messages == old(db.messages)[messageId := Tombstoned(old(db.messages)[messageId], now)]
                && emits == [Emit(ToRoom(old(db.messages)[messageId].chatRoom), MessageDeleted(messageId, true))]
      ensures !forEveryone && messageId < |old(db.messages)| && old(db.messages)[messageId].chatRoom < |db.rooms| ==>
                && db.messages == old(db.messages)[messageId := HiddenFor(old(db.messages)[messageId], c.user)]
                && emits == [Emit(ToSocket(c.socket), MessageDeleted(messageId, false))]
    {
      var v := DeleteVerdict(db.messages, db.rooms, c.user, messageId);
      if v == Refused(404) {
        return Fail(c, "Message not found");
      }
      if v == Crash {
        return Fail(c, "Failed to delete message");
      }
      if forEveryone {
        if v.Refused? {
          return Fail(c, "You don't have permission to delete this message");
        }
        var room := db.messages[messageId].chatRoom;
        CommitDelete(db, messageId, now);
        emits := [Emit(ToRoom(room), MessageDeleted(messageId, true))];
      } else {
        CommitHide(db, messageId, c.user);
        emits := [Emit(ToSocket(c.socket), MessageDeleted(messageId, false))];
      }
    }

    /** `mark_as_read`: ids are required and the requester must be in the
        room (one message for both failures); then every listed message of
        the room is read by the requester, and the room's other sockets are
        told, with the ids as sent. */
    method OnMarkAsRead(db: Store, c: Conn, roomId: RoomId, messageIds: Option<seq<MessageId>>, now: int)
      returns (emits: seq<Emit>)
      requires db.Valid()
      modifies db`messages
      ensures db.Valid()
      ensures messageIds.None? ==> emits == Fail(c, "Message IDs array is required") && db.messages == old(db.messages)
      ensures messageIds.Some? && RoomVerdict(db.rooms, c.user, roomId).Refused? ==>
                emits == Fail(c, "Not authorized") && db.messages == old(db.messages)
      ensures messageIds.Some? && RoomVerdict(db.rooms, c.user, roomId) == Allowed ==>
                && db.messages == StampAll(old(db.messages), InRoom(old(db.messages), messageIds.value, roomId), Reading, c.user, now)
                && emits == [Emit(ToRoomExcept(roomId, c.socket), MessagesRead(c.user, messageIds.value, roomId))]
    {
      if messageIds.None? {
        return Fail(c, "Message IDs array is required");
      }
      if RoomVerdict(db.rooms, c.user, roomId).Refused? {
        return Fail(c, "Not authorized");
      }
      StampMessages(db, InRoom(db.messages, messageIds.value, roomId), Reading, c.user, now);
      emits := [Emit(ToRoomExcept(roomId, c.socket), MessagesRead(c.user, messageIds.value, roomId))];
    }

    /** `forward_messages`: the checks of the HTTP handler with the
        socket's messages; a text that fails validation throws at the
        first copy, before anything is created; otherwise the copies are
        made as there, each goes to its room, and the sender gets them
        all. */
    method OnForwardMessages(db: Store, c: Conn, messageIds: Option<seq<MessageId>>, targetRoomIds: Option<seq<RoomId>>,
                             content: string, now: int) returns (emits: seq<Emit>)
      requires db.Valid()
      modifies db`messages, db`rooms
      ensures db.Valid()
      ensures ForwardRefusal(old(db.messages), old(db.rooms), c.user, messageIds, targetRoomIds).Some? ==>
                && emits == Fail(c, ForwardRefusal(old(db.messages), old(db.rooms), c.user, messageIds, targetRoomIds).value)
                && db.messages == old(db.messages) && db.rooms == old(db.rooms)
      ensures ForwardRefusal(old(db.messages), old(db.rooms), c.user, messageIds, targetRoomIds).None? && !TextOk(content) ==>
                emits == Fail(c, "Failed to forward messages") && db.messages == old(db.messages) && db.rooms == old(db.rooms)
      ensures ForwardRefusal(old(db.messages), old(db.rooms), c.user, messageIds, targetRoomIds).None? && TextOk(content) ==>
                var mids := SelectIn(messageIds.value, |old(db.messages)|);
                var targets := SelectIn(targetRoomIds.value, |old(db.rooms)|);
                var copies := Copies(old(db.messages), mids, targets, c.user, content, now);
                && (forall x :: x in mids <==> x in messageIds.value)
                && (forall x :: x in targets <==> x in targetRoomIds.value)
                && db.messages == old(db.messages) + copies
                && |targets| <= |db.messages| && db.rooms == Pointed(old(db.rooms), targets, |db.messages|, now)
                && emits == ForwardEmits(c, |old(db.messages)|, copies, messageIds.value, targetRoomIds.value)
    {
      var refusal := ForwardRefusal(db.messages, db.rooms, c.user, messageIds, targetRoomIds);
      if refusal.Some? {
        return Fail(c, refusal.value);
      }
      if !TextOk(content) {
        return Fail(c, "Failed to forward messages");
      }
      var mids := SelectIn(messageIds.value, |db.messages|);
      var targets := SelectIn(targetRoomIds.value, |db.rooms|);
      SelectInComplete(messageIds.value, |db.messages|);
      SelectInComplete(targetRoomIds.value, |db.rooms|);
      var msgs := db.messages;
      CommitForward(db, mids, targets, c.user, content, now);
      emits := ForwardEmits(c, |msgs|, Copies(msgs, mids, targets, c.user, content, now), messageIds.value, targetRoomIds.value);
    }

    /** `create_room`: the type defaults to group here (the HTTP handler
        defaults to private). The checks and the room created are those of
        the HTTP handler; an existing private room for the pair is sent
        back instead; each requested participant who is online is sent the
        new room, and then the creator. */
    method OnCreateRoom(db: Store, c: Conn, name: Option<string>, description: Option<string>,
                        roomType: Option<RoomType>, participants: Option<seq<UserId>>, now: int) returns (emits: seq<Emit>)
      requires db.Valid()
      modifies db`rooms
      ensures db.Valid()
      ensures var t, ps := SocketRoomType(roomType), ListOrEmpty(participants);
              CreateVerdict(name, t, ps) != Allowed ==>
                && emits == Fail(c, if name.None? || IsBlank(name.value) then "Room name is required"
                                    else "Private rooms must have exactly 2 participants")
                && db.rooms == old(db.rooms)
      ensures var t, ps := SocketRoomType(roomType), ListOrEmpty(participants);
              CreateVerdict(name, t, ps) == Allowed && t == Private && ExistingPrivate(old(db.rooms), c.user, ps[0], 0).Some? ==>
                && db.rooms == old(db.rooms)
                && emits == [Emit(ToSocket(c.socket), RoomCreated(old(db.rooms)[ExistingPrivate(old(db.rooms), c.user, ps[0], 0).value]))]
      ensures var t, ps := SocketRoomType(roomType), ListOrEmpty(participants);
              CreateVerdict(name, t, ps) == Allowed && (t == Private ==> ExistingPrivate(old(db.rooms), c.user, ps[0], 0).None?) ==>
                && (!(NoDup(ps) && AllUsers(ps, |db.users|)) ==>
                      emits == Fail(c, "Some participants don't exist") && db.rooms == old(db.rooms))
                && (NoDup(ps) && AllUsers(ps, |db.users|) && !RoomFits(name.value, description, t) ==>
                      emits == Fail(c, "Failed to create room") && db.rooms == old(db.rooms))
                && (NoDup(ps) && AllUsers(ps, |db.users|) && RoomFits(name.value, description, t) ==>
                      var room := NewRoom(name.value, description, t, c.user, ps, now);
                      && db.rooms == old(db.rooms) + [room]
                      && emits == Announce(ps, activeUsers, |old(db.rooms)|, room) + [Emit(ToSocket(c.socket), RoomCreated(room))])
    {
      var t, ps := SocketRoomType(roomType), ListOrEmpty(participants);
      if CreateVerdict(name, t, ps) != Allowed {
        return Fail(c, if name.None? || IsBlank(name.value) then "Room name is required"
                       else "Private rooms must have exactly 2 participants");
      }
      if t == Private {
        var existing := ExistingPrivate(db.rooms, c.user, ps[0], 0);
        if existing.Some? {
          return [Emit(ToSocket(c.socket), RoomCreated(db.rooms[existing.value]))];
        }
      }
      var found := NoDup(ps) && AllUsers(ps, |db.users|);
      var fits := RoomFits(name.value, description, t);
      var id := |db.rooms|;
      var o := CreateNew(db, c.user, name.value, description, t, ps, now);
      if !found {
        return Fail(c, "Some participants don't exist");
      }
      if !fits {
        return Fail(c, "Failed to create room");
      }
      var room := NewRoom(name.value, description, t, c.user, ps, now);
      emits := Announce(ps, activeUsers, id, room) + [Emit(ToSocket(c.socket), RoomCreated(room))];
    }

    /** `get_online_users`: the ids of everyone online. */
    method OnGetOnlineUsers(c: Conn) returns (emits: seq<Emit>)
      ensures emits == [Emit(ToSocket(c.socket), OnlineUsers(activeUsers.Keys))]
      ensures forall u :: u in emits[0].event.online <==> u in State().active
    {
      emits := [Emit(ToSocket(c.socket), OnlineUsers(activeUsers.Keys))];
    }

    /** `get_online_users_in_room`: the room must exist; an entry whose
        user is gone makes the populated room throw; the requester must be
        in the room; then the online entries and their count. */
    method OnGetOnlineUsersInRoom(db: Store, c: Conn, roomId: RoomId) returns (emits: seq<Emit>)
      ensures roomId >= |db.rooms| ==> emits == Fail(c, "Room not found")
      ensures roomId < |db.rooms| && !EntriesStored(db.rooms[roomId].participants, |db.users|) ==>
                emits == Fail(c, "Failed to get online users")
      ensures roomId < |db.rooms| && EntriesStored(db.rooms[roomId].participants, |db.users|)
              && !IsParticipant(db.rooms[roomId].participants, c.user) ==>
                emits == Fail(c, "Not authorized to view this room")
      ensures roomId < |db.rooms| && EntriesStored(db.rooms[roomId].participants, |db.users|)
              && IsParticipant(db.rooms[roomId].participants, c.user) ==>
                && |emits| == 1 && emits[0].to == ToSocket(c.socket) && emits[0].event.OnlineUsersInRoom?
                && emits[0].event.room == roomId && emits[0].event.count == |emits[0].event.users|
                && forall u :: u in emits[0].event.users <==>
                                 IsParticipant(db.rooms[roomId].participants, u) && u in activeUsers
    {
      if roomId >= |db.rooms| {
        return Fail(c, "Room not found");
      }
      var ps := db.rooms[roomId].participants;
      if !EntriesStored(ps, |db.users|) {
        return Fail(c, "Failed to get online users");
      }
      if !IsParticipant(ps, c.user) {
        return Fail(c, "Not authorized to view this room");
      }
      var users := OnlineEntries(ps, activeUsers.Keys);
      emits := [Emit(ToSocket(c.socket), OnlineUsersInRoom(roomId, users, |users|))];
    }

    /** `remove_user_from_room`: after the checks every entry of the target
        is dropped and saved; the target's socket, if online, is told, and
        then the room. */
    method OnRemoveUserFromRoom(db: Store, c: Conn, roomId: RoomId, target: Option<UserId>) returns (emits: seq<Emit>)
      requires db.Valid()
      modifies db`rooms
      ensures db.Valid()
      ensures RemovalRefusal(old(db.rooms), c.user, roomId, target).Some? ==>
                emits == Fail(c, RemovalRefusal(old(db.rooms), c.user, roomId, target).value) && db.rooms == old(db.rooms)
      ensures RemovalRefusal(old(db.rooms), c.user, roomId, target).None? ==>
                && db.rooms == old(db.rooms)[roomId := Dropped(old(db.rooms)[roomId], target.value)]
                && emits == (if target.value in activeUsers then [Emit(ToSocket(activeUsers[target.value]), RemovedFromRoom(roomId))] else [])
                            + [Emit(ToRoom(roomId), UserRemoved(target.value, roomId))]
    {
      var refusal := RemovalRefusal(db.rooms, c.user, roomId, target);
      if refusal.Some? {
        return Fail(c, refusal.value);
      }
      CommitDrop(db, roomId, target.value);
      emits := (if target.value in activeUsers then [Emit(ToSocket(activeUsers[target.value]), RemovedFromRoom(roomId))] else [])
               + [Emit(ToRoom(roomId), UserRemoved(target.value, roomId))];
    }

    /** `make_admin`: the room must exist and the requester be its admin;
        a participant's first entry becomes admin and the room is told; a
        user not in the room changes nothing. */
    method OnMakeAdmin(db: Store, c: Conn, roomId: RoomId, u: UserId) returns (emits: seq<Emit>)
      requires db.Valid()
      modifies db`rooms
      ensures db.Valid()
      ensures roomId >= |old(db.rooms)| ==> emits == Fail(c, "Room not found") && db.rooms == old(db.rooms)
      ensures roomId < |old(db.rooms)| && RoleOf(old(db.rooms)[roomId].participants, c.user) != Some(Admin) ==>
                emits == Fail(c, "Only admins can promote others") && db.rooms == old(db.rooms)
      ensures roomId < |old(db.rooms)| && RoleOf(old(db.rooms)[roomId].participants, c.user) == Some(Admin) ==>
                if IsParticipant(old(db.rooms)[roomId].participants, u) then
                  && db.rooms == old(db.rooms)[roomId := Reroled(old(db.rooms)[roomId], u, Admin)]
                  && emits == [Emit(ToRoom(roomId), UserPromoted(u))]
                else emits == [] && db.rooms == old(db.rooms)
    {
      if roomId >= |db.rooms| {
        return Fail(c, "Room not found");
      }
      if RoleOf(db.rooms[roomId].participants, c.user) != Some(Admin) {
        return Fail(c, "Only admins can promote others");
      }
      if !IsParticipant(db.rooms[roomId].participants, u) {
        return [];
      }
      CommitRole(db, roomId, u, Admin);
      emits := [Emit(ToRoom(roomId), UserPromoted(u))];
    }

    /** `revoke_admin`: as `make_admin`, for a participant whose first entry
        is an admin, who becomes a member; the requester may be that
        participant. */
    method OnRevokeAdmin(db: Store, c: Conn, roomId: RoomId, u: UserId) returns (emits: seq<Emit>)
      requires db.Valid()
      modifies db`rooms
      ensures db.Valid()
      ensures roomId >= |old(db.rooms)| ==> emits == Fail(c, "Room not found") && db.rooms == old(db.rooms)
      ensures roomId < |old(db.rooms)| && RoleOf(old(db.rooms)[roomId].participants, c.user) != Some(Admin) ==>
                emits == Fail(c, "Only admins can revoke admin rights") && db.rooms == old(db.rooms)
      ensures roomId < |old(db.rooms)| && RoleOf(old(db.rooms)[roomId].participants, c.user) == Some(Admin) ==>
                if RoleOf(old(db.rooms)[roomId].participants, u) == Some(Admin) then
                  && db.rooms == old(db.rooms)[roomId := Reroled(old(db.rooms)[roomId], u, Member)]
                  && emits == [Emit(ToRoom(roomId), UserDemoted(u))]
                else emits == [] && db.rooms == old(db.rooms)
    {
      if roomId >= |db.rooms| {
        return Fail(c, "Room not found");
      }
      if RoleOf(db.rooms[roomId].participants, c.user) != Some(Admin) {
        return Fail(c, "Only admins can revoke admin rights");
      }
      if RoleOf(db.rooms[roomId].participants, u) != Some(Admin) {
        return [];
      }
      CommitRole(db, roomId, u, Member);
      emits := [Emit(ToRoom(roomId), UserDemoted(u))];
    }
  }

  /** `type = 'group'` in the socket's destructuring. */
  function SocketRoomType(roomType: Option<RoomType>): RoomType {
    if roomType.Some? then roomType.value else Group
  }

  /** The socket's messages for the send checks. */
  function SocketSendRefusal(status: int): string {
    if status == 400 then "Message content is required"
    else if status == 404 then "Room not found"
    else "Not authorized to send message to this room"
  }

  /** The socket's messages for the edit checks; the two 400s are told
      apart by the content. */
  function SocketEditRefusal(v: Verdict, content: string): string {
    if v == Refused(404) then "Message not found"
    else if v == Refused(403) then "You can only edit your own messages"
    else if IsBlank(content) then "Message content is required"
    else "Message is too old to edit"
  }

  /** `message.updateOne({$addToSet: {deletedFor: u}})`. */
  method CommitHide(db: Store, messageId: MessageId, u: UserId)
    requires db.Valid() && messageId < |db.messages|
    modifies db`messages
    ensures db.Valid()
    ensures db.messages == old(db.messages)[messageId := HiddenFor(old(db.messages)[messageId], u)]
  {
    db.MessageValid(messageId);
    db.WriteMessage(messageId, HiddenFor(db.messages[messageId], u));
  }

  /** The role of a participant's first entry set and the room saved. */
  method CommitRole(db: Store, roomId: RoomId, u: UserId, role: Role)
    requires db.Valid() && roomId < |db.rooms| && StorableRole(role)
    modifies db`rooms
    ensures db.Valid()
    ensures db.rooms == old(db.rooms)[roomId := Reroled(old(db.rooms)[roomId], u, role)]
  {
    db.RoomValid(roomId);
    var doc := new ChatRoomDocument.Load(db.rooms[roomId]);
    doc.UpdateParticipantRole(u, role);
    assert doc.Snapshot() == Reroled(old(db.rooms)[roomId], u, role);
    db.WriteRoom(roomId, doc.Snapshot());
  }

  /** `markAsDelivered(u)` on one message for each `u` in turn, each saved. */
  method DeliverAll(db: Store, id: MessageId, us: seq<UserId>, now: int)
    requires db.Valid() && id < |db.messages|
    modifies db`messages
    ensures db.Valid()
    ensures db.messages == old(db.messages)[id := Delivered(old(db.messages)[id], us, now)]
  {
    var m := db.messages[id];
    var k := 0;
    while k < |us|
      invariant 0 <= k <= |us|
      invariant db.Valid()
      invariant db.messages == old(db.messages)[id := Delivered(m, us[..k], now)]
    {
      StampMessage(db, id, Delivery, us[k], now);
      assert us[..k + 1][..k] == us[..k];
      k := k + 1;
    }
    assert us[..k] == us;
  }
}
