/** The message handlers (discord/controller/messageController.js). Each
    handler's checks are a pure verdict, shared with the socket handlers
    that repeat them; each state change is a commit method the socket
    handlers reuse. The requester `me` is the authenticated `req.user._id`,
    `now` is `Date.now()`. */
module MessageController {
  import opened Text
  import opened Ids
  import opened Collections
  import opened Lookup
  import opened MessageModel
  import opened ChatRoomModel
  import opened Database
  import opened AsyncHandler
  import opened ErrorHandler

  /** The edit window: 15 minutes in milliseconds. */
  const EditWindow: int := 15 * 60 * 1000

  /** The server's test `!(createdAt < now - 15 min)`: a message exactly 15
      minutes old may still be edited. */
  predicate WithinEditWindow(createdAt: int, now: int) {
    !(createdAt < now - EditWindow)
  }

  lemma EditWindowBoundary(createdAt: int, now: int)
    ensures WithinEditWindow(createdAt, now) <==> now - createdAt <= EditWindow
    ensures WithinEditWindow(now - EditWindow, now) && !WithinEditWindow(now - EditWindow - 1, now)
  {
  }

  // ----- sendMessage -----

  /** The checks of `sendMessage`, in order: blank content 400, unknown room
      404, not a participant 403. */
  function SendVerdict(rooms: seq<Room>, me: UserId, roomId: RoomId, content: string): (v: Verdict)
    ensures v == Allowed <==> !IsBlank(content) && roomId < |rooms| && IsParticipant(rooms[roomId].participants, me)
    ensures v != Crash
    ensures IsBlank(content) ==> v == Refused(400)
    ensures !IsBlank(content) && roomId >= |rooms| ==> v == Refused(404)
    ensures v == Refused(403) <==> !IsBlank(content) && roomId < |rooms| && !IsParticipant(rooms[roomId].participants, me)
  {
    if IsBlank(content) then Refused(400)
    else if roomId >= |rooms| then Refused(404)
    else if !IsParticipant(rooms[roomId].participants, me) then Refused(403)
    else Allowed
  }

  /** The room after a message `id` from `me` arrives: it is the last
      message, activity is now, and the sender's `lastSeen` is now. */
  function AfterSend(room: Room, id: MessageId, me: UserId, now: int): (r: Room)
    ensures r.lastMessage == Some(id) && r.lastActivity == now
    ensures r.participants == Touched(room.participants, me, now)
    ensures r.name == room.name && r.description == room.description && r.roomType == room.roomType
    ensures r.isActive == room.isActive && r.createdBy == room.createdBy
    ensures ChatRoomModel.SchemaValid(room) ==> ChatRoomModel.SchemaValid(r)
  {
    RolesStorableIff(room.participants);
    RolesStorableIff(Touched(room.participants, me, now));
    room.(lastMessage := Some(id), lastActivity := now, participants := Touched(room.participants, me, now))
  }

  /** What the schema demands of a new message beyond non-blank content:
      the trimmed text fits and the type is one of the enum's. */
  predicate SendFits(content: string, messageType: MessageType) {
    ContentOk(Trim(content)) && ListedMessageType(messageType)
  }

  /** The state change of a send, shared with `send_message`: create the
      message, then update the room and the sender's `lastSeen`. */
  method CommitSend(db: Store, me: UserId, roomId: RoomId, content: string, messageType: MessageType,
                    replyTo: Option<MessageId>, now: int) returns (id: MessageId)
    requires db.Valid() && roomId < |db.rooms|
    requires SendFits(content, messageType)
    modifies db
    ensures db.Valid()
    ensures id == |old(db.messages)|
    ensures db.messages == old(db.messages) + [NewMessage(me, roomId, content, messageType, replyTo, None, now)]
    ensures db.rooms == old(db.rooms)[roomId := AfterSend(old(db.rooms)[roomId], id, me, now)]
    ensures db.users == old(db.users)
  {
    var m := NewMessage(me, roomId, content, messageType, replyTo, None, now);
    id := db.InsertMessage(m);
    db.RoomValid(roomId);
    var room := new ChatRoomDocument.Load(db.rooms[roomId]);
    room.lastMessage := Some(id);
    room.lastActivity := now;
    room.UpdateLastSeen(me, now);
    assert room.Snapshot() == AfterSend(old(db.rooms)[roomId], id, me, now);
    db.WriteRoom(roomId, room.Snapshot());
  }

  /** `POST /messages`: nothing changes unless every check passes and the
      new message fits the schema; then exactly one message is created,
      trimmed, and the room points at it. */
  method SendMessage(db: Store, me: UserId, roomId: RoomId, content: string, messageType: MessageType,
                     replyTo: Option<MessageId>, now: int) returns (o: Outcome<Message>)
    requires db.Valid()
    modifies db
    ensures db.Valid()
    ensures SendVerdict(old(db.rooms), me, roomId, content).Refused? ==>
              RaisedWith(o, SendVerdict(old(db.rooms), me, roomId, content).status)
    ensures var v := SendVerdict(old(db.rooms), me, roomId, content);
            && (v == Refused(400) ==> RaisedWithText(o, 400, "Message content is required"))
            && (v == Refused(404) ==> RaisedWithText(o, 404, "Chat room not found"))
            && (v == Refused(403) ==> RaisedWithText(o, 403, "You are not a participant of this chat room"))
    ensures SendVerdict(old(db.rooms), me, roomId, content) == Allowed && !SendFits(content, messageType) ==> Crashed(o)
    ensures o.Raised? ==> unchanged(db)
    ensures SendVerdict(old(db.rooms), me, roomId, content) == Allowed && SendFits(content, messageType) ==>
              && o.Sent? && o.reply.status == 201
              && db.messages == old(db.messages) + [NewMessage(me, roomId, content, messageType, replyTo, None, now)]
              && db.rooms == old(db.rooms)[roomId := AfterSend(old(db.rooms)[roomId], |old(db.messages)|, me, now)]
  {
    var v := SendVerdict(db.rooms, me, roomId, content);
    if v.Refused? {
      return Throw(v.status, SendRefusal(v.status));
    }
    if !SendFits(content, messageType) {
      return Raised(Fault(None, "Message validation failed"));
    }
    var id := CommitSend(db, me, roomId, content, messageType, replyTo, now);
    o := Send(201, db.messages[id], "Message sent successfully");
  }

  function SendRefusal(status: int): string {
    if status == 400 then "Message content is required"
    else if status == 404 then "Chat room not found"
    else "You are not a participant of this chat room"
  }

  // ----- editMessage -----

  /** The checks of `editMessage`, in order: blank content 400, unknown
      message 404, not the sender 403, older than 15 minutes 400. */
  function EditVerdict(messages: seq<Message>, me: UserId, messageId: MessageId, content: string, now: int): (v: Verdict)
    ensures v == Allowed <==> !IsBlank(content) && messageId < |messages| && messages[messageId].sender == me
                               && WithinEditWindow(messages[messageId].createdAt, now)
    ensures v != Crash
    ensures v == Refused(403) <==> !IsBlank(content) && messageId < |messages| && messages[messageId].sender != me
    ensures v == Refused(404) <==> !IsBlank(content) && messageId >= |messages|
    ensures v == Refused(400) <==> IsBlank(content) || (messageId < |messages| && messages[messageId].sender == me
                                                        && !WithinEditWindow(messages[messageId].createdAt, now))
  {
    if IsBlank(content) then Refused(400)
    else if messageId >= |messages| then Refused(404)
    else if messages[messageId].sender != me then Refused(403)
    else if !WithinEditWindow(messages[messageId].createdAt, now) then Refused(400)
    else Allowed
  }

  /** A message after an edit: new trimmed text, marked edited at `now`;
      nothing else changes (a deleted message can be edited too). */
  function Edited(m: Message, content: string, now: int): (r: Message)
    ensures r.content == Trim(content) && r.isEdited && r.editedAt == Some(now)
    ensures r.sender == m.sender && r.chatRoom == m.chatRoom && r.createdAt == m.createdAt
    ensures r.readBy == m.readBy && r.deliveredTo == m.deliveredTo && r.isDeleted == m.isDeleted
    ensures r.messageType == m.messageType
  {
    m.(content := Trim(content), isEdited := true, editedAt := Some(now))
  }

  /** The state change of an edit, shared with `edit_message`. */
  method CommitEdit(db: Store, messageId: MessageId, content: string, now: int)
    requires db.Valid() && messageId < |db.messages| && ContentOk(Trim(content))
    modifies db`messages
    ensures db.Valid()
    ensures db.messages == old(db.messages)[messageId := Edited(old(db.messages)[messageId], content, now)]
  {
    db.MessageValid(messageId);
    var doc := new MessageDocument.Load(db.messages[messageId]);
    doc.content := Trim(content);
    doc.isEdited := true;
    doc.editedAt := Some(now);
    db.WriteMessage(messageId, doc.Snapshot());
  }

  /** `PUT /messages/:id`: only the sender, only within the window; the
      trimmed text must fit the schema (else the save throws). */
  method EditMessage(db: Store, me: UserId, messageId: MessageId, content: string, now: int) returns (o: Outcome<Message>)
    requires db.Valid()
    modifies db`messages
    ensures db.Valid()
    ensures EditVerdict(old(db.messages), me, messageId, content, now).Refused? ==>
              RaisedWith(o, EditVerdict(old(db.messages), me, messageId, content, now).status)
    ensures var v := EditVerdict(old(db.messages), me, messageId, content, now);
            && (v == Refused(400) && IsBlank(content) ==> RaisedWithText(o, 400, "Message content is required"))
            && (v == Refused(404) ==> RaisedWithText(o, 404, "Message not found"))
            && (v == Refused(403) ==> RaisedWithText(o, 403, "You can only edit your own messages"))
            && (v == Refused(400) && !IsBlank(content) ==> RaisedWithText(o, 400, "Message is too old to edit"))
    ensures EditVerdict(old(db.messages), me, messageId, content, now) == Allowed && !ContentOk(Trim(content)) ==> Crashed(o)
    ensures o.Raised? ==> db.messages == old(db.messages)
    ensures EditVerdict(old(db.messages), me, messageId, content, now) == Allowed && ContentOk(Trim(content)) ==>
              && o.Sent? && o.reply.status == 200
              && db.messages == old(db.messages)[messageId := Edited(old(db.messages)[messageId], content, now)]
  {
    var v := EditVerdict(db.messages, me, messageId, content, now);
    if v.Refused? {
      return Throw(v.status, if v.status == 404 then "Message not found"
                             else if v.status == 403 then "You can only edit your own messages"
                             else if IsBlank(content) then "Message content is required"
                             else "Message is too old to edit");
    }
    if !ContentOk(Trim(content)) {
      return Raised(Fault(None, "Message validation failed"));
    }
    CommitEdit(db, messageId, content, now);
    o := Send(200, db.messages[messageId], "Message edited successfully");
  }

  // ----- deleteMessage -----

  /** The checks of `deleteMessage`: unknown message 404; a message whose
      room is gone crashes on `chatRoom.getParticipantRole`; otherwise the
      sender, an admin or a moderator of the room may delete, others get 403. */
  function DeleteVerdict(messages: seq<Message>, rooms: seq<Room>, me: UserId, messageId: MessageId): (v: Verdict)
    ensures v == Allowed <==> messageId < |messages| && messages[messageId].chatRoom < |rooms|
                               && (messages[messageId].sender == me
                                   || IsManager(RoleOf(rooms[messages[messageId].chatRoom].participants, me)))
    ensures v == Refused(404) <==> messageId >= |messages|
    ensures v == Crash <==> messageId < |messages| && messages[messageId].chatRoom >= |rooms|
  {
    if messageId >= |messages| then Refused(404)
    else if messages[messageId].chatRoom >= |rooms| then Crash
    else if messages[messageId].sender != me
            && !IsManager(RoleOf(rooms[messages[messageId].chatRoom].participants, me)) then Refused(403)
    else Allowed
  }

  /** A message deleted for everyone: flagged, stamped, and its text replaced
      by the tombstone; receipts and provenance stay. */
  function Tombstoned(m: Message, now: int): (r: Message)
    ensures r.isDeleted && r.deletedAt == Some(now) && r.content == Tombstone
    ensures ContentOk(r.content) && r.messageType == m.messageType
    ensures MessageModel.SchemaValid(m) ==> MessageModel.SchemaValid(r)
    ensures r.sender == m.sender && r.chatRoom == m.chatRoom && r.createdAt == m.createdAt
    ensures r.readBy == m.readBy && r.deliveredTo == m.deliveredTo && r.deletedFor == m.deletedFor
  {
    TombstoneValid();
    m.(isDeleted := true, deletedAt := Some(now), content := Tombstone)
  }

  /** Deleting twice leaves the same text and flag; only the stamp moves. */
  lemma TombstonedTwice(m: Message, t1: int, t2: int)
    ensures Tombstoned(Tombstoned(m, t1), t2) == Tombstoned(m, t2)
  {
  }

  /** The state change of a delete for everyone, shared with `delete_message`. */
  method CommitDelete(db: Store, messageId: MessageId, now: int)
    requires db.Valid() && messageId < |db.messages|
    modifies db`messages
    ensures db.Valid()
    ensures db.messages == old(db.messages)[messageId := Tombstoned(old(db.messages)[messageId], now)]
  {
    db.MessageValid(messageId);
    var doc := new MessageDocument.Load(db.messages[messageId]);
    doc.isDeleted := true;
    doc.deletedAt := Some(now);
    doc.content := Tombstone;
    db.WriteMessage(messageId, doc.Snapshot());
  }

  /** `DELETE /messages/:id` */
  method DeleteMessage(db: Store, me: UserId, messageId: MessageId, now: int) returns (o: Outcome<Null>)
    requires db.Valid()
    modifies db`messages
    ensures db.Valid()
    ensures DeleteVerdict(old(db.messages), db.rooms, me, messageId).Refused? ==>
              RaisedWith(o, DeleteVerdict(old(db.messages), db.rooms, me, messageId).status)
    ensures var v := DeleteVerdict(old(db.messages), db.rooms, me, messageId);
            && (v == Refused(404) ==> RaisedWithText(o, 404, "Message not found"))
            && (v == Refused(403) ==> RaisedWithText(o, 403, "You don't have permission to delete this message"))
    ensures DeleteVerdict(old(db.messages), db.rooms, me, messageId) == Crash ==> Crashed(o)
    ensures o.Raised? ==> db.messages == old(db.messages)
    ensures DeleteVerdict(old(db.messages), db.rooms, me, messageId) == Allowed ==>
              && o.Sent? && o.reply.status == 200
              && db.messages == old(db.messages)[messageId := Tombstoned(old(db.messages)[messageId], now)]
  {
    var v := DeleteVerdict(db.messages, db.rooms, me, messageId);
    if v.Refused? {
      return Throw(v.status, if v.status == 404 then "Message not found"
                             else "You don't have permission to delete this message");
    }
    if v == Crash {
      return Raised(Fault(None, "Cannot read properties of null (reading 'getParticipantRole')"));
    }
    CommitDelete(db, messageId, now);
    o := Send(200, Null, "Message deleted successfully");
  }

  // ----- receipts: getMessages, markAsRead, getUnreadCount -----

  /** The room checks shared by the room-scoped handlers: unknown room 404,
      not a participant 403. */
  function RoomVerdict(rooms: seq<Room>, me: UserId, roomId: RoomId): (v: Verdict)
    ensures v == Allowed <==> roomId < |rooms| && IsParticipant(rooms[roomId].participants, me)
    ensures v == Refused(404) <==> roomId >= |rooms|
    ensures v == Refused(403) <==> roomId < |rooms| && !IsParticipant(rooms[roomId].participants, me)
  {
    if roomId >= |rooms| then Refused(404)
    else if !IsParticipant(rooms[roomId].participants, me) then Refused(403)
    else Allowed
  }

  /** Which receipt a handler records. */
  datatype ReceiptKind = Delivery | Reading

  /** One message after `me` fetched it (a delivery receipt, unless `me`
      sent it) or marked it read (a read receipt, own messages included). */
  function Stamped(m: Message, kind: ReceiptKind, me: UserId, now: int): (r: Message)
    ensures kind == Delivery && m.sender != me ==> HasReceipt(r.deliveredTo, me)
    ensures kind == Reading ==> HasReceipt(r.readBy, me)
    ensures r.content == m.content && r.sender == m.sender && r.chatRoom == m.chatRoom
    ensures r.isDeleted == m.isDeleted && r.createdAt == m.createdAt
    ensures kind == Delivery ==> r.readBy == m.readBy
    ensures kind == Reading ==> r.deliveredTo == m.deliveredTo
  {
    match kind
    case Delivery => if m.sender != me then m.(deliveredTo := Marked(m.deliveredTo, me, now)) else m
    case Reading => m.(readBy := Marked(m.readBy, me, now))
  }

  /** A second receipt of the same kind changes nothing. */
  lemma StampedIdempotent(m: Message, kind: ReceiptKind, me: UserId, t1: int, t2: int)
    ensures Stamped(Stamped(m, kind, me, t1), kind, me, t2) == Stamped(m, kind, me, t1)
  {
    MarkedIdempotent(m.deliveredTo, me, t1, t2);
    MarkedIdempotent(m.readBy, me, t1, t2);
  }

  predicate AllBelow(ids: seq<MessageId>, n: nat) {
    forall k :: 0 <= k < |ids| ==> ids[k] < n
  }

  /** The messages after the handler's loop over `ids`, one save per id. */
  function StampAll(msgs: seq<Message>, ids: seq<MessageId>, kind: ReceiptKind, me: UserId, now: int): (r: seq<Message>)
    requires AllBelow(ids, |msgs|)
    ensures |r| == |msgs|
  {
    if ids == [] then msgs
    else
      var before := StampAll(msgs, ids[..|ids| - 1], kind, me, now);
      var id := ids[|ids| - 1];
      before[id := Stamped(before[id], kind, me, now)]
  }

  /** The loop's effect message by message: every listed message carries the
      receipt, every other message is untouched, whatever the order of the
      list and however often an id repeats. */
  lemma {:induction false} StampAllPointwise(msgs: seq<Message>, ids: seq<MessageId>, kind: ReceiptKind, me: UserId, now: int)
    requires AllBelow(ids, |msgs|)
    ensures forall k :: 0 <= k < |msgs| ==>
              StampAll(msgs, ids, kind, me, now)[k] == (if k in ids then Stamped(msgs[k], kind, me, now) else msgs[k])
  {
    if ids != [] {
      var init := ids[..|ids| - 1];
      var id := ids[|ids| - 1];
      StampAllPointwise(msgs, init, kind, me, now);
      assert ids == init + [id];
      forall k | 0 <= k < |msgs|
        ensures StampAll(msgs, ids, kind, me, now)[k] == (if k in ids then Stamped(msgs[k], kind, me, now) else msgs[k])
      {
        if k == id && k in init {
          StampedIdempotent(msgs[k], kind, me, now, now);
        }
      }
    }
  }

  /** One message document loaded, stamped by its instance method and saved. */
  method StampMessage(db: Store, id: MessageId, kind: ReceiptKind, me: UserId, now: int)
    requires db.Valid() && id < |db.messages|
    modifies db`messages
    ensures db.Valid()
    ensures db.messages == old(db.messages)[id := Stamped(old(db.messages)[id], kind, me, now)]
  {
    var m := db.messages[id];
    db.MessageValid(id);
    var doc := new MessageDocument.Load(m);
    if kind == Reading {
      doc.MarkAsRead(me, now);
    } else if doc.sender != me {
      doc.MarkAsDelivered(me, now);
    }
    db.WriteMessage(id, doc.Snapshot());
  }

  /** The loop over `ids`, shared with the socket handlers. */
  method StampMessages(db: Store, ids: seq<MessageId>, kind: ReceiptKind, me: UserId, now: int)
    requires db.Valid() && AllBelow(ids, |db.messages|)
    modifies db`messages
    ensures db.Valid()
    ensures db.messages == StampAll(old(db.messages), ids, kind, me, now)
  {
    var i := 0;
    while i < |ids|
      invariant 0 <= i <= |ids|
      invariant db.Valid() && |db.messages| == |old(db.messages)|
      invariant db.messages == StampAll(old(db.messages), ids[..i], kind, me, now)
    {
      assert ids[..i + 1][..i] == ids[..i];
      StampMessage(db, ids[i], kind, me, now);
      i := i + 1;
    }
    assert ids[..i] == ids;
  }

  /** The room's visible history: its messages not deleted for everyone,
      newest first (`find({chatRoom, isDeleted: false}).sort({createdAt: -1})`;
      equal timestamps keep storage order). */
  function History(msgs: seq<Message>, roomId: RoomId): (r: seq<MessageId>)
    ensures forall id: MessageId :: id in r <==> id < |msgs| && msgs[id].chatRoom == roomId && !msgs[id].isDeleted
    ensures NoDup(r) && AllBelow(r, |msgs|)
    ensures forall i, j :: 0 <= i < j < |r| ==> msgs[r[i]].createdAt >= msgs[r[j]].createdAt
  {
    var found := Visible(msgs, roomId, 0);
    SortedHistory(msgs, found);
    SortDesc<MessageId>(found, CreatedKey(msgs))
  }

  function CreatedKey(msgs: seq<Message>): MessageId -> real {
    (id: MessageId) => if id < |msgs| then msgs[id].createdAt as real else 0.0
  }

  /** The room's undeleted messages from position `from` on, in storage order. */
  function Visible(msgs: seq<Message>, roomId: RoomId, from: nat): (r: seq<MessageId>)
    requires from <= |msgs|
    ensures forall id :: id in r <==> from <= id < |msgs| && msgs[id].chatRoom == roomId && !msgs[id].isDeleted
    ensures forall i, j :: 0 <= i < j < |r| ==> r[i] < r[j]
    ensures forall k :: 0 <= k < |r| ==> from <= r[k] < |msgs|
    decreases |msgs| - from
  {
    if from == |msgs| then []
    else
      var rest := Visible(msgs, roomId, from + 1);
      if msgs[from].chatRoom == roomId && !msgs[from].isDeleted then [from] + rest else rest
  }

  /** Sorting the found ids by creation time keeps them, once each, and
      orders them newest first. */
  lemma SortedHistory(msgs: seq<Message>, found: seq<MessageId>)
    requires forall i, j :: 0 <= i < j < |found| ==> found[i] < found[j]
    requires AllBelow(found, |msgs|)
    ensures var r := SortDesc<MessageId>(found, CreatedKey(msgs));
      && (forall id :: id in r <==> id in found)
      && NoDup(r) && AllBelow(r, |msgs|)
      && forall i, j :: 0 <= i < j < |r| ==> msgs[r[i]].createdAt >= msgs[r[j]].createdAt
  {
    var key := CreatedKey(msgs);
    var r := SortDesc<MessageId>(found, key);
    assert forall id :: id in r <==> id in found by {
      forall id ensures id in r <==> id in found {
        assert id in r <==> id in multiset(r);
        assert id in found <==> id in multiset(found);
      }
    }
    assert NoDup(found);
    PermutationNoDup(found, r);
    forall k | 0 <= k < |r| ensures r[k] < |msgs| {
      assert r[k] in found;
    }
    forall i, j | 0 <= i < j < |r| ensures msgs[r[i]].createdAt >= msgs[r[j]].createdAt {
      assert key(r[i]) >= key(r[j]);
    }
  }

  /** Mongo's `skip(n).limit(k)`: drop `n`, then keep `|k|` of the rest, or
      all of them when `k` is 0 (a negative limit means the same count). */
  function Page(ids: seq<MessageId>, skip: nat, limit: int): (r: seq<MessageId>)
    ensures skip <= |ids| ==> r <= ids[skip..]
    ensures skip >= |ids| ==> r == []
    ensures limit == 0 ==> r == (if skip <= |ids| then ids[skip..] else [])
    ensures limit != 0 ==> |r| == Min(Abs(limit), if skip <= |ids| then |ids| - skip else 0)
  {
    var rest := if skip <= |ids| then ids[skip..] else [];
    if limit == 0 || Abs(limit) >= |rest| then rest else rest[..Abs(limit)]
  }

  /** A page of ids below `n` holds only ids below `n`. */
  lemma PageBelow(ids: seq<MessageId>, skip: nat, limit: int, n: nat)
    requires AllBelow(ids, n)
    ensures AllBelow(Page(ids, skip, limit), n)
  {
    var r := Page(ids, skip, limit);
    if r != [] {
      forall k | 0 <= k < |r| ensures r[k] < n {
        assert r[k] == ids[skip..][k] == ids[skip + k];
      }
    }
  }

  function Abs(x: int): nat { if x < 0 then -x else x }
  function Min(a: nat, b: nat): nat { if a <= b then a else b }

  function Reversed(s: seq<Message>): (r: seq<Message>)
    ensures |r| == |s| && forall k :: 0 <= k < |s| ==> r[k] == s[|s| - 1 - k]
  {
    if s == [] then [] else Reversed(s[1..]) + [s[0]]
  }

  /** The documents a query returned, in the order of its ids. */
  function Fetch(msgs: seq<Message>, ids: seq<MessageId>): (r: seq<Message>)
    requires AllBelow(ids, |msgs|)
    ensures |r| == |ids| && forall k :: 0 <= k < |ids| ==> r[k] == msgs[ids[k]]
  {
    seq(|ids|, k requires 0 <= k < |ids| => msgs[ids[k]])
  }

  /** `GET /messages/:roomId?page&limit`: the requested page of the
      history, answered oldest first; every message on it that `me` did not
      send now carries `me`'s delivery receipt, and no other message changes.
      A page before the first (`page < 1`) makes the skip negative, which the
      database refuses. */
  method GetMessages(db: Store, me: UserId, roomId: RoomId, page: int, limit: int, now: int) returns (o: Outcome<seq<Message>>)
    requires db.Valid()
    modifies db`messages
    ensures db.Valid()
    ensures RoomVerdict(db.rooms, me, roomId).Refused? ==> RaisedWith(o, RoomVerdict(db.rooms, me, roomId).status)
    ensures RoomVerdict(db.rooms, me, roomId) == Refused(404) ==> RaisedWithText(o, 404, "Chat room not found")
    ensures RoomVerdict(db.rooms, me, roomId) == Refused(403) ==>
              RaisedWithText(o, 403, "You are not a participant of this chat room")
    ensures RoomVerdict(db.rooms, me, roomId) == Allowed && (page - 1) * limit < 0 ==> Crashed(o)
    ensures o.Raised? ==> db.messages == old(db.messages)
    ensures RoomVerdict(db.rooms, me, roomId) == Allowed && (page - 1) * limit >= 0 ==>
              var shown := Page(History(old(db.messages), roomId), (page - 1) * limit, limit);
              && AllBelow(shown, |old(db.messages)|)
              && db.messages == StampAll(old(db.messages), shown, Delivery, me, now)
              && o == Send(200, Reversed(Fetch(db.messages, shown)), "Messages retrieved successfully")
  {
    var v := RoomVerdict(db.rooms, me, roomId);
    if v.Refused? {
      return Throw(v.status, if v.status == 404 then "Chat room not found"
                             else "You are not a participant of this chat room");
    }
    var skip := (page - 1) * limit;
    if skip < 0 {
      return Raised(Fault(None, "BSON field 'skip' value must be >= 0"));
    }
    var history := History(db.messages, roomId);
    var shown := Page(history, skip, limit);
    PageBelow(history, skip, limit, |db.messages|);
    StampMessages(db, shown, Delivery, me, now);
    o := Send(200, Reversed(Fetch(db.messages, shown)), "Messages retrieved successfully");
  }

  /** The listed messages that exist and belong to the room, each once, in
      storage order (`find({_id: {$in: ids}, chatRoom})`). */
  function InRoom(msgs: seq<Message>, ids: seq<MessageId>, roomId: RoomId): (r: seq<MessageId>)
    ensures forall id: MessageId :: id in r <==> id < |msgs| && id in ids && msgs[id].chatRoom == roomId
    ensures AllBelow(r, |msgs|)
  {
    KeepRoom(msgs, SelectIn(ids, |msgs|), roomId)
  }

  function KeepRoom(msgs: seq<Message>, sel: seq<MessageId>, roomId: RoomId): (r: seq<MessageId>)
    requires AllBelow(sel, |msgs|)
    ensures forall id :: id in r <==> id in sel && msgs[id].chatRoom == roomId
    ensures AllBelow(r, |msgs|)
  {
    if sel == [] then []
    else
      var rest := KeepRoom(msgs, sel[1..], roomId);
      assert forall id :: id in sel <==> id == sel[0] || id in sel[1..];
      if msgs[sel[0]].chatRoom == roomId then [sel[0]] + rest else rest
  }

  /** `PUT /messages/:roomId/read` with `{messageIds}` (`None` when the field
      is missing or not an array): after the checks, every listed message of
      this room carries `me`'s read receipt; ids of other rooms and unknown
      ids are skipped. */
  method MarkAsRead(db: Store, me: UserId, roomId: RoomId, messageIds: Option<seq<MessageId>>, now: int) returns (o: Outcome<Null>)
    requires db.Valid()
    modifies db`messages
    ensures db.Valid()
    ensures messageIds.None? ==> RaisedWith(o, 400)
    ensures messageIds.None? ==> RaisedWithText(o, 400, "Message IDs array is required")
    ensures messageIds.Some? && RoomVerdict(db.rooms, me, roomId).Refused? ==>
              RaisedWith(o, RoomVerdict(db.rooms, me, roomId).status)
    ensures messageIds.Some? && RoomVerdict(db.rooms, me, roomId) == Refused(404) ==>
              RaisedWithText(o, 404, "Chat room not found")
    ensures messageIds.Some? && RoomVerdict(db.rooms, me, roomId) == Refused(403) ==>
              RaisedWithText(o, 403, "You are not a participant of this chat room")
    ensures o.Raised? ==> db.messages == old(db.messages)
    ensures messageIds.Some? && RoomVerdict(db.rooms, me, roomId) == Allowed ==>
              && o == Send(200, Null, "Messages marked as read")
              && db.messages == StampAll(old(db.messages), InRoom(old(db.messages), messageIds.value, roomId), Reading, me, now)
  {
    if messageIds.None? {
      return Throw(400, "Message IDs array is required");
    }
    var v := RoomVerdict(db.rooms, me, roomId);
    if v.Refused? {
      return Throw(v.status, if v.status == 404 then "Chat room not found"
                             else "You are not a participant of this chat room");
    }
    StampMessages(db, InRoom(db.messages, messageIds.value, roomId), Reading, me, now);
    o := Send(200, Null, "Messages marked as read");
  }

  /** The room's messages `me` has still to read: sent by someone else, not
      deleted for everyone, without `me`'s read receipt; from `from` on. */
  function UnreadFrom(msgs: seq<Message>, roomId: RoomId, me: UserId, from: nat): (r: seq<MessageId>)
    requires from <= |msgs|
    ensures forall id :: id in r <==> from <= id < |msgs| && IsUnread(msgs[id], roomId, me)
    ensures NoDup(r)
    decreases |msgs| - from
  {
    if from == |msgs| then []
    else
      var rest := UnreadFrom(msgs, roomId, me, from + 1);
      if IsUnread(msgs[from], roomId, me) then [from] + rest else rest
  }

  predicate IsUnread(m: Message, roomId: RoomId, me: UserId) {
    m.chatRoom == roomId && m.sender != me && !HasReceipt(m.readBy, me) && !m.isDeleted
  }

  function Unread(msgs: seq<Message>, roomId: RoomId, me: UserId): (r: seq<MessageId>)
    ensures forall id: MessageId :: id in r <==> id < |msgs| && IsUnread(msgs[id], roomId, me)
    ensures NoDup(r)
  {
    UnreadFrom(msgs, roomId, me, 0)
  }

  /** Marking messages read removes exactly those from the unread ones:
      after reading every unread message the count is zero. */
  lemma ReadingClearsUnread(msgs: seq<Message>, ids: seq<MessageId>, roomId: RoomId, me: UserId, now: int)
    requires AllBelow(ids, |msgs|)
    ensures forall id: MessageId :: id in Unread(StampAll(msgs, ids, Reading, me, now), roomId, me)
              <==> id in Unread(msgs, roomId, me) && id !in ids
    ensures (forall id :: id in Unread(msgs, roomId, me) ==> id in ids) ==>
              |Unread(StampAll(msgs, ids, Reading, me, now), roomId, me)| == 0
  {
    StampAllPointwise(msgs, ids, Reading, me, now);
    var after := Unread(StampAll(msgs, ids, Reading, me, now), roomId, me);
    if after != [] {
      assert after[0] in after;
    }
  }

  /** `GET /messages/:roomId/unread`: the number of unread messages; nothing
      changes. */
  method GetUnreadCount(db: Store, me: UserId, roomId: RoomId) returns (o: Outcome<nat>)
    requires db.Valid()
    ensures RoomVerdict(db.rooms, me, roomId).Refused? ==> RaisedWith(o, RoomVerdict(db.rooms, me, roomId).status)
    ensures RoomVerdict(db.rooms, me, roomId) == Refused(404) ==> RaisedWithText(o, 404, "Chat room not found")
    ensures RoomVerdict(db.rooms, me, roomId) == Refused(403) ==>
              RaisedWithText(o, 403, "You are not a participant of this chat room")
    ensures RoomVerdict(db.rooms, me, roomId) == Allowed ==>
              o == Send(200, |Unread(db.messages, roomId, me)|, "Unread count retrieved successfully")
  {
    var v := RoomVerdict(db.rooms, me, roomId);
    if v.Refused? {
      return Throw(v.status, if v.status == 404 then "Chat room not found"
                             else "You are not a participant of this chat room");
    }
    o := Send(200, |Unread(db.messages, roomId, me)|, "Unread count retrieved successfully");
  }

  // ----- ForwardMessage -----

  /** Every listed id exists, each listed once: what `find({_id: {$in}})`
      returning as many documents as ids were listed amounts to. */
  predicate AllFound(ids: seq<nat>, n: nat) {
    |SelectIn(ids, n)| == |ids|
  }

  /** The first of the target rooms (in storage order) that `me` is not in. */
  function Outsider(rooms: seq<Room>, sel: seq<RoomId>, me: UserId): (r: Option<RoomId>)
    requires AllBelow(sel, |rooms|)
    ensures r.None? <==> forall x :: x in sel ==> x < |rooms| && IsParticipant(rooms[x].participants, me)
    ensures r.Some? ==> r.value < |rooms| && r.value in sel && !IsParticipant(rooms[r.value].participants, me)
    ensures r.Some? ==> exists k :: 0 <= k < |sel| && sel[k] == r.value &&
                          forall j :: 0 <= j < k ==> IsParticipant(rooms[sel[j]].participants, me)
  {
    if sel == [] then None
    else if !IsParticipant(rooms[sel[0]].participants, me) then Some(sel[0])
    else
      assert forall x :: x in sel <==> x == sel[0] || x in sel[1..];
      Outsider(rooms, sel[1..], me)
  }

  /** Both id lists are present and non-empty. */
  predicate BothListed(messageIds: Option<seq<MessageId>>, targetRoomIds: Option<seq<RoomId>>) {
    messageIds.Some? && messageIds.value != [] && targetRoomIds.Some? && targetRoomIds.value != []
  }

  /** The checks of `ForwardMessage`, in order: no message ids 400, no target
      rooms 400, a missing or repeated message id 404, a missing or repeated
      room id 404, a target room without `me` 403. */
  function ForwardVerdict(msgs: seq<Message>, rooms: seq<Room>, me: UserId,
                          messageIds: Option<seq<MessageId>>, targetRoomIds: Option<seq<RoomId>>): (v: Verdict)
    ensures v != Crash
    ensures messageIds.None? || messageIds == Some([]) ==> v == Refused(400)
    ensures v == Refused(400) <==> !BothListed(messageIds, targetRoomIds)
    ensures v == Refused(404) <==>
              && BothListed(messageIds, targetRoomIds)
              && !(NoDup(messageIds.value) && AllBelow(messageIds.value, |msgs|)
                   && NoDup(targetRoomIds.value) && AllBelow(targetRoomIds.value, |rooms|))
    ensures v == Refused(403) <==>
              && BothListed(messageIds, targetRoomIds)
              && NoDup(messageIds.value) && AllBelow(messageIds.value, |msgs|)
              && NoDup(targetRoomIds.value) && AllBelow(targetRoomIds.value, |rooms|)
              && exists k :: 0 <= k < |targetRoomIds.value| &&
                   !IsParticipant(rooms[targetRoomIds.value[k]].participants, me)
    ensures v == Allowed <==>
              && messageIds.Some? && messageIds.value != [] && targetRoomIds.Some? && targetRoomIds.value != []
              && NoDup(messageIds.value) && AllBelow(messageIds.value, |msgs|)
              && NoDup(targetRoomIds.value) && AllBelow(targetRoomIds.value, |rooms|)
              && forall k :: 0 <= k < |targetRoomIds.value| ==>
                   IsParticipant(rooms[targetRoomIds.value[k]].participants, me)
  {
    if messageIds.None? || messageIds.value == [] then Refused(400)
    else if targetRoomIds.None? || targetRoomIds.value == [] then Refused(400)
    else if !AllFound(messageIds.value, |msgs|) then
      SelectInComplete(messageIds.value, |msgs|);
      Refused(404)
    else if !AllFound(targetRoomIds.value, |rooms|) then
      SelectInComplete(targetRoomIds.value, |rooms|);
      Refused(404)
    else
      SelectInComplete(messageIds.value, |msgs|);
      SelectInComplete(targetRoomIds.value, |rooms|);
      var sel := SelectIn(targetRoomIds.value, |rooms|);
      var out := Outsider(rooms, sel, me);
      assert forall x :: x in sel <==> x in targetRoomIds.value;
      if out.Some? then Refused(403) else Allowed
  }

  /** The message each refusal of a forward carries, over HTTP and over the
      socket alike, or `None` when every check passes; the 403 names the
      first target room (in storage order) without the sender. */
  function ForwardRefusal(msgs: seq<Message>, rooms: seq<Room>, me: UserId,
                          messageIds: Option<seq<MessageId>>, targetRoomIds: Option<seq<RoomId>>): (e: Option<string>)
    ensures e.None? <==> ForwardVerdict(msgs, rooms, me, messageIds, targetRoomIds) == Allowed
    ensures e == Some("Message IDs array is required") <==> messageIds.None? || messageIds.value == []
    ensures messageIds.Some? && messageIds.value != [] && (targetRoomIds.None? || targetRoomIds.value == []) ==>
              e == Some("Target room IDs array is required")
    ensures BothListed(messageIds, targetRoomIds) && !(NoDup(messageIds.value) && AllBelow(messageIds.value, |msgs|)) ==>
              e == Some("Some messages not found")
    ensures BothListed(messageIds, targetRoomIds) && NoDup(messageIds.value) && AllBelow(messageIds.value, |msgs|)
            && !(NoDup(targetRoomIds.value) && AllBelow(targetRoomIds.value, |rooms|)) ==>
              e == Some("Some target rooms not found")
    ensures ForwardVerdict(msgs, rooms, me, messageIds, targetRoomIds) == Refused(403) ==>
              exists r :: && r in targetRoomIds.value && r < |rooms| && !IsParticipant(rooms[r].participants, me)
                          && (forall x :: x in targetRoomIds.value && x < r ==> IsParticipant(rooms[x].participants, me))
                          && e == Some("You are not a participant of room: " + rooms[r].name)
  {
    var v := ForwardVerdict(msgs, rooms, me, messageIds, targetRoomIds);
    if v == Allowed then None
    else if messageIds.None? || messageIds.value == [] then Some("Message IDs array is required")
    else if targetRoomIds.None? || targetRoomIds.value == [] then Some("Target room IDs array is required")
    else if !AllFound(messageIds.value, |msgs|) then
      SelectInComplete(messageIds.value, |msgs|);
      Some("Some messages not found")
    else if !AllFound(targetRoomIds.value, |rooms|) then
      SelectInComplete(messageIds.value, |msgs|);
      SelectInComplete(targetRoomIds.value, |rooms|);
      Some("Some target rooms not found")
    else
      SelectInComplete(messageIds.value, |msgs|);
      SelectInComplete(targetRoomIds.value, |rooms|);
      Some("You are not a participant of room: " + rooms[FirstOutsider(rooms, targetRoomIds.value, me)].name)
  }

  /** The first target room (in storage order, as `find` returns them) that
      `me` is not in. */
  function FirstOutsider(rooms: seq<Room>, ids: seq<RoomId>, me: UserId): (r: RoomId)
    requires AllBelow(ids, |rooms|)
    requires exists k :: 0 <= k < |ids| && !IsParticipant(rooms[ids[k]].participants, me)
    ensures r in ids && r < |rooms| && !IsParticipant(rooms[r].participants, me)
    ensures forall x :: x in ids && x < r ==> IsParticipant(rooms[x].participants, me)
  {
    var sel := SelectIn(ids, |rooms|);
    var out := Outsider(rooms, sel, me);
    assert out.Some? by {
      var k :| 0 <= k < |ids| && !IsParticipant(rooms[ids[k]].participants, me);
      assert ids[k] in sel;
    }
    FirstOutsiderLeast(rooms, ids, me, sel, out.value);
    out.value
  }

  /** In the ascending selection, every room before the outsider found holds `me`. */
  lemma FirstOutsiderLeast(rooms: seq<Room>, ids: seq<RoomId>, me: UserId, sel: seq<RoomId>, r: RoomId)
    requires sel == SelectIn(ids, |rooms|)
    requires exists k :: 0 <= k < |sel| && sel[k] == r &&
                         forall j :: 0 <= j < k ==> IsParticipant(rooms[sel[j]].participants, me)
    ensures forall x :: x in ids && x < r ==> IsParticipant(rooms[x].participants, me)
  {
    var k :| 0 <= k < |sel| && sel[k] == r &&
             forall j :: 0 <= j < k ==> IsParticipant(rooms[sel[j]].participants, me);
    forall x | x in ids && x < r
      ensures IsParticipant(rooms[x].participants, me)
    {
      assert x < |rooms|;
      assert x in sel;
      var j :| 0 <= j < |sel| && sel[j] == x;
    }
  }

  /** The copy of message `orig` (id `origId`) that `me` forwards into room
      `target`: sent by `me`, typed like the original, marked forwarded with
      its provenance; the text is `content` when one is given (non-empty),
      else the original's. */
  function ForwardedCopy(orig: Message, origId: MessageId, target: RoomId, me: UserId, content: string, now: int): (r: Message)
    ensures r.sender == me && r.chatRoom == target && r.messageType == orig.messageType
    ensures r.isForwarded && r.forwardedFrom == Some(Forwarding(origId, orig.sender, orig.chatRoom, me, now))
  {
    NewMessage(me, target, if content != "" then content else orig.content, orig.messageType, None,
               Some(Forwarding(origId, orig.sender, orig.chatRoom, me, now)), now)
  }

  /** The copy's text: the given text trimmed, else the original's text
      unchanged; either way the copy passes validation. */
  lemma ForwardedCopyValid(orig: Message, origId: MessageId, target: RoomId, me: UserId, content: string, now: int)
    requires MessageModel.SchemaValid(orig) && TextOk(content)
    ensures ForwardedCopy(orig, origId, target, me, content, now).content
            == (if content != "" then Trim(content) else orig.content)
    ensures MessageModel.SchemaValid(ForwardedCopy(orig, origId, target, me, content, now))
  {
    var copy := ForwardedCopy(orig, origId, target, me, content, now);
    if content == "" {
      assert copy.content == Trim(orig.content);
      TrimmedIffFixedPoint(orig.content);
    } else {
      assert copy.content == Trim(content);
    }
  }

  /** A forwarding text passes validation: none given, or one that trims
      to valid content. */
  predicate TextOk(content: string) {
    content != "" ==> ContentOk(Trim(content))
  }

  /** The copies of one message into each target room, in order. */
  function Row(msgs: seq<Message>, mid: MessageId, targets: seq<RoomId>, me: UserId, content: string, now: int): (r: seq<Message>)
    requires mid < |msgs|
    ensures |r| == |targets|
    ensures forall j :: 0 <= j < |targets| ==> r[j] == ForwardedCopy(msgs[mid], mid, targets[j], me, content, now)
  {
    seq(|targets|, j requires 0 <= j < |targets| => ForwardedCopy(msgs[mid], mid, targets[j], me, content, now))
  }

  lemma RowSnoc(msgs: seq<Message>, mid: MessageId, targets: seq<RoomId>, me: UserId, content: string, now: int, j: nat)
    requires mid < |msgs| && j < |targets|
    ensures Row(msgs, mid, targets[..j + 1], me, content, now)
            == Row(msgs, mid, targets[..j], me, content, now) + [ForwardedCopy(msgs[mid], mid, targets[j], me, content, now)]
  {
    var front := Row(msgs, mid, targets[..j], me, content, now);
    var a := Row(msgs, mid, targets[..j + 1], me, content, now);
    var b := front + [ForwardedCopy(msgs[mid], mid, targets[j], me, content, now)];
    assert |a| == |b|;
    forall k | 0 <= k < |a| ensures a[k] == b[k] {
      var t := targets[k];
      assert targets[..j + 1][k] == t;
      assert a[k] == ForwardedCopy(msgs[mid], mid, t, me, content, now);
      if k < j {
        assert targets[..j][k] == t;
        assert b[k] == front[k];
      } else {
        assert b[k] == ForwardedCopy(msgs[mid], mid, targets[j], me, content, now);
      }
    }
  }

  /** Every copy the nested loops create, in creation order: message by
      message, room by room. */
  function Copies(msgs: seq<Message>, mids: seq<MessageId>, targets: seq<RoomId>, me: UserId, content: string, now: int): (r: seq<Message>)
    requires AllBelow(mids, |msgs|)
    ensures |r| == Offset(|mids|, |targets|)
  {
    if mids == [] then []
    else
      Copies(msgs, mids[..|mids| - 1], targets, me, content, now)
      + Row(msgs, mids[|mids| - 1], targets, me, content, now)
  }

  /** `i * n`, by repeated addition (where the `i`-th row of copies starts). */
  function Offset(i: nat, n: nat): nat {
    if i == 0 then 0 else Offset(i - 1, n) + n
  }

  lemma {:induction false} OffsetIsProduct(i: nat, n: nat)
    ensures Offset(i, n) == i * n
  {
    if i > 0 {
      OffsetIsProduct(i - 1, n);
      assert (i - 1) * n + n == i * n;
    }
  }

  /** One more message handled by the outer loop. */
  lemma CopiesSnoc(msgs: seq<Message>, mids: seq<MessageId>, targets: seq<RoomId>, me: UserId, content: string, now: int, i: nat)
    requires AllBelow(mids, |msgs|) && i < |mids|
    ensures AllBelow(mids[..i], |msgs|) && AllBelow(mids[..i + 1], |msgs|)
    ensures Copies(msgs, mids[..i + 1], targets, me, content, now)
            == Copies(msgs, mids[..i], targets, me, content, now) + Row(msgs, mids[i], targets, me, content, now)
  {
    assert mids[..i + 1][..i] == mids[..i];
  }

  /** Copy number `i * n + j` is message `i` forwarded to room `j`. */
  lemma CopiesLayout(msgs: seq<Message>, mids: seq<MessageId>, targets: seq<RoomId>, me: UserId, content: string, now: int, i: nat, j: nat)
    requires AllBelow(mids, |msgs|) && i < |mids| && j < |targets|
    ensures Offset(i, |targets|) + j < |Copies(msgs, mids, targets, me, content, now)|
    ensures Copies(msgs, mids, targets, me, content, now)[Offset(i, |targets|) + j]
            == ForwardedCopy(msgs[mids[i]], mids[i], targets[j], me, content, now)
  {
    RowsLayout(msgs, mids, targets, me, content, now, i, j);
  }

  lemma {:induction false} RowsLayout(msgs: seq<Message>, mids: seq<MessageId>, targets: seq<RoomId>, me: UserId, content: string, now: int, i: nat, j: nat)
    requires AllBelow(mids, |msgs|) && i < |mids| && j < |targets|
    ensures Offset(i, |targets|) + j < |Copies(msgs, mids, targets, me, content, now)|
    ensures Copies(msgs, mids, targets, me, content, now)[Offset(i, |targets|) + j]
            == Row(msgs, mids[i], targets, me, content, now)[j]
  {
    var n := |targets|;
    var init := mids[..|mids| - 1];
    OffsetGrows(i, |mids| - 1, n);
    if i < |mids| - 1 {
      RowsLayout(msgs, init, targets, me, content, now, i, j);
      assert init[i] == mids[i];
    }
  }

  lemma {:induction false} OffsetGrows(i: nat, m: nat, n: nat)
    requires i <= m
    ensures Offset(i, n) <= Offset(m, n)
    ensures i < m ==> Offset(i, n) + n <= Offset(m, n)
    decreases m
  {
    if i < m {
      OffsetGrows(i, m - 1, n);
    }
  }

  /** The rooms after each target room was pointed at its copy (and
      marked active now), one target after the other, the copies being the
      `|targets|` messages just below id `end`: target `j` gets copy
      `end - |targets| + j`. */
  function Pointed(rooms: seq<Room>, targets: seq<RoomId>, end: nat, now: int): (r: seq<Room>)
    requires AllBelow(targets, |rooms|) && |targets| <= end
    ensures |r| == |rooms|
  {
    if targets == [] then rooms
    else
      var before := Pointed(rooms, targets[..|targets| - 1], end - 1, now);
      var t := targets[|targets| - 1];
      before[t := before[t].(lastMessage := Some(end - 1), lastActivity := now)]
  }

  /** One more target room handled by the inner loop. */
  lemma PointedSnoc(rooms: seq<Room>, targets: seq<RoomId>, j: nat, end: nat, now: int)
    requires AllBelow(targets, |rooms|) && j < |targets| && j <= end
    ensures AllBelow(targets[..j], |rooms|) && AllBelow(targets[..j + 1], |rooms|)
    ensures var before := Pointed(rooms, targets[..j], end, now);
            Pointed(rooms, targets[..j + 1], end + 1, now)
            == before[targets[j] := before[targets[j]].(lastMessage := Some(end), lastActivity := now)]
  {
    assert targets[..j + 1][..j] == targets[..j];
  }

  /** Target `j` points at copy `end - |targets| + j` and is active now. */
  lemma {:induction false} PointedAt(rooms: seq<Room>, targets: seq<RoomId>, end: nat, now: int, j: nat)
    requires AllBelow(targets, |rooms|) && |targets| <= end && NoDup(targets) && j < |targets|
    ensures Pointed(rooms, targets, end, now)[targets[j]]
            == rooms[targets[j]].(lastMessage := Some(end - |targets| + j), lastActivity := now)
  {
    var n := |targets|;
    if j < n - 1 {
      var init := targets[..n - 1];
      assert init[j] == targets[j] != targets[n - 1];
      assert NoDup(init) by {
        forall a, b | 0 <= a < b < |init| ensures init[a] != init[b] {
          assert init[a] == targets[a] && init[b] == targets[b];
        }
      }
      PointedAt(rooms, init, end - 1, now, j);
    } else {
      var init := targets[..n - 1];
      PointedElsewhere(rooms, init, end - 1, now, targets[j]);
    }
  }

  /** A room that is not a target is untouched. */
  lemma {:induction false} PointedElsewhere(rooms: seq<Room>, targets: seq<RoomId>, end: nat, now: int, k: nat)
    requires AllBelow(targets, |rooms|) && |targets| <= end && k < |rooms| && k !in targets
    ensures Pointed(rooms, targets, end, now)[k] == rooms[k]
  {
    var n := |targets|;
    if n > 0 {
      var init := targets[..n - 1];
      assert k != targets[n - 1];
      PointedElsewhere(rooms, init, end - 1, now, k);
    }
  }

  /** Room by room: target `j` points at copy `end - |targets| + j` and is
      active now; every other room is untouched. */
  lemma PointedPointwise(rooms: seq<Room>, targets: seq<RoomId>, end: nat, now: int)
    requires AllBelow(targets, |rooms|) && |targets| <= end && NoDup(targets)
    ensures forall j :: 0 <= j < |targets| ==>
              Pointed(rooms, targets, end, now)[targets[j]]
              == rooms[targets[j]].(lastMessage := Some(end - |targets| + j), lastActivity := now)
    ensures forall k :: 0 <= k < |rooms| && k !in targets ==> Pointed(rooms, targets, end, now)[k] == rooms[k]
  {
    forall j | 0 <= j < |targets|
      ensures Pointed(rooms, targets, end, now)[targets[j]]
              == rooms[targets[j]].(lastMessage := Some(end - |targets| + j), lastActivity := now)
    {
      PointedAt(rooms, targets, end, now, j);
    }
    forall k | 0 <= k < |rooms| && k !in targets ensures Pointed(rooms, targets, end, now)[k] == rooms[k] {
      PointedElsewhere(rooms, targets, end, now, k);
    }
  }

  /** Only the last round of `lastMessage` updates shows in the rooms. */
  lemma PointedTwice(rooms: seq<Room>, targets: seq<RoomId>, a: nat, b: nat, now: int)
    requires AllBelow(targets, |rooms|) && |targets| <= a && |targets| <= b && NoDup(targets)
    ensures Pointed(Pointed(rooms, targets, a, now), targets, b, now) == Pointed(rooms, targets, b, now)
  {
    var once := Pointed(rooms, targets, a, now);
    PointedPointwise(rooms, targets, a, now);
    PointedPointwise(once, targets, b, now);
    PointedPointwise(rooms, targets, b, now);
    var x, y := Pointed(once, targets, b, now), Pointed(rooms, targets, b, now);
    forall k | 0 <= k < |rooms| ensures x[k] == y[k] {
      if k in targets {
        var j :| 0 <= j < |targets| && targets[j] == k;
      }
    }
  }

  /** The messages after one more copy of the inner loop. */
  lemma RowStep(m0: seq<Message>, m1: seq<Message>, m2: seq<Message>, msgs: seq<Message>, mid: MessageId,
                targets: seq<RoomId>, me: UserId, content: string, now: int, j: nat)
    requires mid < |msgs| && j < |targets|
    requires m1 == m0 + Row(msgs, mid, targets[..j], me, content, now)
    requires m2 == m1 + [ForwardedCopy(msgs[mid], mid, targets[j], me, content, now)]
    ensures |m1| == |m0| + j
    ensures m2 == m0 + Row(msgs, mid, targets[..j + 1], me, content, now)
  {
    RowSnoc(msgs, mid, targets, me, content, now, j);
    AppendAssoc(m0, Row(msgs, mid, targets[..j], me, content, now), [ForwardedCopy(msgs[mid], mid, targets[j], me, content, now)]);
  }

  /** The rooms after one more `lastMessage` update of the inner loop: the room is
      pointed at message `id`, the copy just made, so the copies now end
      below `end == id + 1`. */
  lemma PointedStep(r0: seq<Room>, r1: seq<Room>, r2: seq<Room>, targets: seq<RoomId>, j: nat, id: nat, end: nat, now: int)
    requires AllBelow(targets, |r0|) && j < |targets| && j <= id && end == id + 1
    requires AllBelow(targets[..j], |r0|) && r1 == Pointed(r0, targets[..j], id, now)
    requires r2 == r1[targets[j] := r1[targets[j]].(lastMessage := Some(id), lastActivity := now)]
    ensures AllBelow(targets[..j + 1], |r0|) && r2 == Pointed(r0, targets[..j + 1], end, now)
  {
    PointedSnoc(r0, targets, j, id, now);
  }

  /** The messages after one more round of the outer loop. */
  lemma CopiesStep(msgs: seq<Message>, m1: seq<Message>, m2: seq<Message>, mids: seq<MessageId>,
                   targets: seq<RoomId>, me: UserId, content: string, now: int, i: nat)
    requires AllBelow(mids, |msgs|) && i < |mids|
    requires AllBelow(mids[..i], |msgs|) && m1 == msgs + Copies(msgs, mids[..i], targets, me, content, now)
    requires m2 == m1 + Row(msgs, mids[i], targets, me, content, now)
    ensures |m1| == |msgs| + Offset(i, |targets|)
    ensures AllBelow(mids[..i + 1], |msgs|) && m2 == msgs + Copies(msgs, mids[..i + 1], targets, me, content, now)
  {
    CopiesSnoc(msgs, mids, targets, me, content, now, i);
    AppendAssoc(msgs, Copies(msgs, mids[..i], targets, me, content, now), Row(msgs, mids[i], targets, me, content, now));
  }

  /** The rooms after one more round of the outer loop: only the newest
      round's `lastMessage` updates remain. */
  lemma RoundStep(r0: seq<Room>, r1: seq<Room>, r2: seq<Room>, targets: seq<RoomId>, later: bool, prev: nat, end: nat, now: int)
    requires AllBelow(targets, |r0|) && NoDup(targets) && |r1| == |r0| && |targets| <= end
    requires !later ==> r1 == r0
    requires later ==> |targets| <= prev && r1 == Pointed(r0, targets, prev, now)
    requires r2 == Pointed(r1, targets, end, now)
    ensures r2 == Pointed(r0, targets, end, now)
  {
    if later {
      PointedTwice(r0, targets, prev, end, now);
    }
  }

  /** One copy created, then its target room pointed at it and saved. */
  method ForwardStep(db: Store, copy: Message, target: RoomId, now: int)
    requires db.Valid() && MessageModel.SchemaValid(copy) && target < |db.rooms|
    modifies db`messages, db`rooms
    ensures db.Valid()
    ensures db.messages == old(db.messages) + [copy]
    ensures db.rooms == old(db.rooms)[target := old(db.rooms)[target].(lastMessage := Some(|old(db.messages)|), lastActivity := now)]
  {
    var id := db.InsertMessage(copy);
    var room := db.rooms[target];
    db.RoomValid(target);
    db.WriteRoom(target, room.(lastMessage := Some(id), lastActivity := now));
  }

  /** One pass of the inner loop: the copies of message `mid` into each
      target room, each room pointed at its copy. */
  method ForwardOne(db: Store, msgs: seq<Message>, mid: MessageId, targets: seq<RoomId>, me: UserId, content: string, now: int)
    requires db.Valid() && mid < |msgs| && MessageModel.SchemaValid(msgs[mid])
    requires AllBelow(targets, |db.rooms|) && TextOk(content)
    modifies db`messages, db`rooms
    ensures db.Valid()
    ensures db.messages == old(db.messages) + Row(msgs, mid, targets, me, content, now)
    ensures |targets| <= |db.messages| && db.rooms == Pointed(old(db.rooms), targets, |db.messages|, now)
  {
    var j := 0;
    while j < |targets|
      invariant 0 <= j <= |targets|
      invariant db.Valid()
      invariant db.messages == old(db.messages) + Row(msgs, mid, targets[..j], me, content, now)
      invariant j <= |db.messages| && db.rooms == Pointed(old(db.rooms), targets[..j], |db.messages|, now)
    {
      var copy := ForwardedCopy(msgs[mid], mid, targets[j], me, content, now);
      ForwardedCopyValid(msgs[mid], mid, targets[j], me, content, now);
      ghost var m1, r1 := db.messages, db.rooms;
      ForwardStep(db, copy, targets[j], now);
      RowStep(old(db.messages), m1, db.messages, msgs, mid, targets, me, content, now, j);
      PointedStep(old(db.rooms), r1, db.rooms, targets, j, |m1|, |db.messages|, now);
      j := j + 1;
    }
    assert targets[..j] == targets;
  }

  /** The store after the first `i` rounds of the outer loop: the copies
      of `mids[..i]` appended, and (after at least one round) each target
      room pointing at its copy from the latest round, which are the last
      `|targets|` messages. */
  ghost predicate Forwarded(ms: seq<Message>, rs: seq<Room>, msgs: seq<Message>, r0: seq<Room>, mids: seq<MessageId>,
                            targets: seq<RoomId>, me: UserId, content: string, now: int, i: nat) {
    && i <= |mids| && AllBelow(mids, |msgs|) && AllBelow(targets, |r0|)
    && AllBelow(mids[..i], |msgs|) && ms == msgs + Copies(msgs, mids[..i], targets, me, content, now)
    && |rs| == |r0|
    && (i == 0 ==> rs == r0)
    && (i > 0 ==> |targets| <= |ms| && rs == Pointed(r0, targets, |ms|, now))
  }

  /** One round of the outer loop: the copies of message `mids[i]`. */
  method ForwardRound(db: Store, msgs: seq<Message>, ghost r0: seq<Room>, mids: seq<MessageId>, targets: seq<RoomId>,
                      me: UserId, content: string, now: int, i: nat)
    requires db.Valid() && i < |mids| && NoDup(targets) && TextOk(content)
    requires Forwarded(db.messages, db.rooms, msgs, r0, mids, targets, me, content, now, i)
    modifies db`messages, db`rooms
    ensures db.Valid() && Forwarded(db.messages, db.rooms, msgs, r0, mids, targets, me, content, now, i + 1)
  {
    assert db.messages[mids[i]] == msgs[mids[i]];
    db.MessageValid(mids[i]);
    ghost var m1, r1 := db.messages, db.rooms;
    ForwardOne(db, msgs, mids[i], targets, me, content, now);
    NextRound(m1, r1, db.messages, db.rooms, msgs, r0, mids, targets, me, content, now, i);
  }

  /** One round of the outer loop takes the store from round `i` to round
      `i + 1`. */
  lemma NextRound(m1: seq<Message>, r1: seq<Room>, m2: seq<Message>, r2: seq<Room>, msgs: seq<Message>, r0: seq<Room>,
                  mids: seq<MessageId>, targets: seq<RoomId>, me: UserId, content: string, now: int, i: nat)
    requires i < |mids| && NoDup(targets)
    requires Forwarded(m1, r1, msgs, r0, mids, targets, me, content, now, i)
    requires m2 == m1 + Row(msgs, mids[i], targets, me, content, now)
    requires |targets| <= |m2| && r2 == Pointed(r1, targets, |m2|, now)
    ensures Forwarded(m2, r2, msgs, r0, mids, targets, me, content, now, i + 1)
  {
    CopiesStep(msgs, m1, m2, mids, targets, me, content, now, i);
    RoundStep(r0, r1, r2, targets, i > 0, |m1|, |m2|, now);
  }

  /** The state change of a forward, shared with `forward_messages`: for
      each message in storage order and each target room in storage order,
      create the copy, then point the room at it. */
  method CommitForward(db: Store, mids: seq<MessageId>, targets: seq<RoomId>, me: UserId, content: string, now: int)
    requires db.Valid() && AllBelow(mids, |db.messages|) && AllBelow(targets, |db.rooms|) && NoDup(targets)
    requires TextOk(content)
    modifies db`messages, db`rooms
    ensures db.Valid()
    ensures db.messages == old(db.messages) + Copies(old(db.messages), mids, targets, me, content, now)
    ensures mids == [] ==> db.rooms == old(db.rooms)
    ensures mids != [] ==> |targets| <= |db.messages| && db.rooms == Pointed(old(db.rooms), targets, |db.messages|, now)
  {
    var msgs := db.messages;
    var i := 0;
    assert mids[..0] == [];
    while i < |mids|
      invariant db.Valid()
      invariant Forwarded(db.messages, db.rooms, msgs, old(db.rooms), mids, targets, me, content, now, i)
    {
      ForwardRound(db, msgs, old(db.rooms), mids, targets, me, content, now, i);
      i := i + 1;
    }
    assert mids[..i] == mids;
  }

  /** `POST /messages/forward` with `{messageIds, targetRoomIds, content}`:
      after the checks, one copy per message and target room, created
      message by message; each target room ends pointing at the copy of the
      last message forwarded into it. A given text replaces every copy's
      text; a blank one fails validation before anything is created. */
  method ForwardMessage(db: Store, me: UserId, messageIds: Option<seq<MessageId>>, targetRoomIds: Option<seq<RoomId>>,
                        content: string, now: int) returns (o: Outcome<seq<Message>>)
    requires db.Valid()
    modifies db`messages, db`rooms
    ensures db.Valid()
    ensures ForwardVerdict(old(db.messages), old(db.rooms), me, messageIds, targetRoomIds).Refused? ==>
              RaisedWith(o, ForwardVerdict(old(db.messages), old(db.rooms), me, messageIds, targetRoomIds).status)
    ensures ForwardVerdict(old(db.messages), old(db.rooms), me, messageIds, targetRoomIds).Refused? ==>
              ForwardRefusal(old(db.messages), old(db.rooms), me, messageIds, targetRoomIds).Some? &&
              o == Throw(ForwardVerdict(old(db.messages), old(db.rooms), me, messageIds, targetRoomIds).status,
                         ForwardRefusal(old(db.messages), old(db.rooms), me, messageIds, targetRoomIds).value)
    ensures ForwardVerdict(old(db.messages), old(db.rooms), me, messageIds, targetRoomIds) == Allowed ==>
              !TextOk(content) ==> Crashed(o)
    ensures o.Raised? ==> db.messages == old(db.messages) && db.rooms == old(db.rooms)
    ensures ForwardVerdict(old(db.messages), old(db.rooms), me, messageIds, targetRoomIds) == Allowed ==>
            TextOk(content) ==>
              var mids := SelectIn(messageIds.value, |old(db.messages)|);
              var targets := SelectIn(targetRoomIds.value, |old(db.rooms)|);
              var copies := Copies(old(db.messages), mids, targets, me, content, now);
              && |mids| == |messageIds.value| && |targets| == |targetRoomIds.value|
              && (forall x :: x in mids <==> x in messageIds.value)
              && (forall x :: x in targets <==> x in targetRoomIds.value)
              && o == Send(201, copies, "Messages forwarded successfully")
              && db.messages == old(db.messages) + copies
              && |targets| <= |db.messages| && db.rooms == Pointed(old(db.rooms), targets, |db.messages|, now)
  {
    var v := ForwardVerdict(db.messages, db.rooms, me, messageIds, targetRoomIds);
    if v.Refused? {
      return Throw(v.status, ForwardRefusal(db.messages, db.rooms, me, messageIds, targetRoomIds).value);
    }
    if !TextOk(content) {
      return Raised(Fault(None, "Message validation failed"));
    }
    var mids := SelectIn(messageIds.value, |db.messages|);
    var targets := SelectIn(targetRoomIds.value, |db.rooms|);
    SelectInComplete(messageIds.value, |db.messages|);
    SelectInComplete(targetRoomIds.value, |db.rooms|);
    assert NoDup(targets);
    var msgs := db.messages;
    CommitForward(db, mids, targets, me, content, now);
    o := Send(201, Copies(msgs, mids, targets, me, content, now), "Messages forwarded successfully");
  }

  /** Among the last `|targets|` messages after a forward, the `j`-th is the
      copy of the last forwarded message into target room `j`: the message
      that room now points at. */
  lemma LastCopy(msgs: seq<Message>, mids: seq<MessageId>, targets: seq<RoomId>, me: UserId, content: string, now: int, j: nat)
    requires AllBelow(mids, |msgs|) && mids != [] && j < |targets|
    ensures var created := msgs + Copies(msgs, mids, targets, me, content, now);
            var k := |created| - |targets| + j;
            && |msgs| <= k < |created|
            && created[k] == ForwardedCopy(msgs[mids[|mids| - 1]], mids[|mids| - 1], targets[j], me, content, now)
  {
    var i := |mids| - 1;
    CopiesLayout(msgs, mids, targets, me, content, now, i, j);
    var copies := Copies(msgs, mids, targets, me, content, now);
    assert |copies| == Offset(i, |targets|) + |targets|;
    assert (msgs + copies)[|msgs| + Offset(i, |targets|) + j] == copies[Offset(i, |targets|) + j];
  }

  /** After a forward, which leaves `end` messages, target room `j` points
      at the copy of the last forwarded message made for it, and shows
      activity at `now`. */
  lemma ForwardTargetPointsAtLastCopy(msgs: seq<Message>, r0: seq<Room>, mids: seq<MessageId>, targets: seq<RoomId>,
                                      me: UserId, content: string, now: int, end: nat, j: nat)
    requires AllBelow(mids, |msgs|) && mids != [] && AllBelow(targets, |r0|) && NoDup(targets) && j < |targets|
    requires end == |msgs + Copies(msgs, mids, targets, me, content, now)|
    ensures |targets| <= end
    ensures var room := Pointed(r0, targets, end, now)[targets[j]];
            && room.lastActivity == now
            && room.lastMessage == Some(end - |targets| + j)
            && (msgs + Copies(msgs, mids, targets, me, content, now))[end - |targets| + j]
               == ForwardedCopy(msgs[mids[|mids| - 1]], mids[|mids| - 1], targets[j], me, content, now)
  {
    assert Offset(|mids|, |targets|) == Offset(|mids| - 1, |targets|) + |targets|;
    LastCopy(msgs, mids, targets, me, content, now, j);
    PointedAt(r0, targets, end, now, j);
  }
}
