/** The state of the chat-room screen, discord-frontend/src/components/chat/ChatRoom.tsx:
    the message list, the typing list and the message selection, the socket
    event updaters that change them, the automatic `mark_as_read` request
    and the grouping of messages by day. The day label of a timestamp
    (`getMessageDate`, locale and clock dependent) is a parameter. */
module ChatRoomView {
  import opened Text
  import opened Collections

  /** One entry of a message's `readBy` array as the screen holds it. The
      component declares the array as user ids (`IdEntry`); the server sends
      the stored receipts, `{user, readAt}` objects (`ReceiptEntry`), and both
      the history load and `new_message` keep them as they arrive. */
  datatype ReadEntry = IdEntry(id: string) | ReceiptEntry(user: string, readAt: string)

  /** A message as the screen holds it. `sender` is the sender's id. */
  datatype ClientMessage = ClientMessage(
    id: string, sender: string, content: string, timestamp: string,
    isOwn: bool, edited: bool, readBy: Option<seq<ReadEntry>>, isDeleted: bool)

  /** The payload of a `new_message` event. */
  datatype IncomingMessage = IncomingMessage(
    id: string, sender: string, content: string, createdAt: Option<string>,
    readBy: Option<seq<ReadEntry>>, isDeleted: bool)

  /** The text a deleted-for-everyone message shows. */
  const DeletedText: string := "This message was deleted"

  /** The ids of a message list, in order. */
  function Ids(ms: seq<ClientMessage>): (r: seq<string>)
    ensures |r| == |ms| && forall i :: 0 <= i < |ms| ==> r[i] == ms[i].id
  {
    MapSeq(ms, (m: ClientMessage) => m.id)
  }

  // ----- new_message -----

  /** The entry a `new_message` event adds: the payload, stamped with its
      `createdAt` (or the current ISO time when that is missing or empty),
      and owned exactly when its sender is the signed-in user. */
  function Received(m: IncomingMessage, me: Option<string>, nowIso: string): (r: ClientMessage)
    ensures r.id == m.id && r.sender == m.sender && r.content == m.content
    ensures r.isOwn <==> me == Some(m.sender)
    ensures r.timestamp == (if m.createdAt.Some? && m.createdAt.value != "" then m.createdAt.value else nowIso)
    ensures !r.edited && r.readBy == m.readBy && r.isDeleted == m.isDeleted
  {
    ClientMessage(m.id, m.sender, m.content,
                  if m.createdAt.Some? && m.createdAt.value != "" then m.createdAt.value else nowIso,
                  me.Some? && m.sender == me.value, false, m.readBy, m.isDeleted)
  }

  // ----- message_edited -----

  /** One entry after a `message_edited` event. */
  function EditedOne(m: ClientMessage, id: string, content: string, editedAt: string): ClientMessage {
    if m.id == id then m.(content := content, edited := true, timestamp := editedAt) else m
  }

  /** The list after a `message_edited` event: the entries with that id get
      the new content, the edited mark and the edit time; every other entry,
      and the length and order of the list, stay. */
  function Edited(ms: seq<ClientMessage>, id: string, content: string, editedAt: string): (r: seq<ClientMessage>)
    ensures |r| == |ms| && Ids(r) == Ids(ms)
    ensures forall i :: 0 <= i < |ms| && ms[i].id != id ==> r[i] == ms[i]
    ensures forall i :: 0 <= i < |ms| && ms[i].id == id ==>
              r[i].content == content && r[i].edited && r[i].timestamp == editedAt
              && r[i].sender == ms[i].sender && r[i].isDeleted == ms[i].isDeleted && r[i].readBy == ms[i].readBy
  {
    seq(|ms|, i requires 0 <= i < |ms| => EditedOne(ms[i], id, content, editedAt))
  }

  /** A repeated edit event changes nothing more. */
  lemma EditedIdempotent(ms: seq<ClientMessage>, id: string, content: string, editedAt: string)
    ensures Edited(Edited(ms, id, content, editedAt), id, content, editedAt) == Edited(ms, id, content, editedAt)
  {
    var once := Edited(ms, id, content, editedAt);
    assert forall i :: 0 <= i < |ms| ==> EditedOne(once[i], id, content, editedAt) == once[i];
  }

  // ----- message_deleted -----

  /** One entry after a `message_deleted` event for everyone. */
  function TombstonedOne(m: ClientMessage, id: string): ClientMessage {
    if m.id == id then m.(content := DeletedText, isDeleted := true) else m
  }

  /** The list after a deletion for everyone: the entries with that id keep
      their place but show the deletion text; nothing else changes. */
  function Tombstoned(ms: seq<ClientMessage>, id: string): (r: seq<ClientMessage>)
    ensures |r| == |ms| && Ids(r) == Ids(ms)
    ensures forall i :: 0 <= i < |ms| && ms[i].id != id ==> r[i] == ms[i]
    ensures forall i :: 0 <= i < |ms| && ms[i].id == id ==>
              r[i].isDeleted && r[i].content == DeletedText
              && r[i].sender == ms[i].sender && r[i].timestamp == ms[i].timestamp && r[i].edited == ms[i].edited
  {
    seq(|ms|, i requires 0 <= i < |ms| => TombstonedOne(ms[i], id))
  }

  /** The list after a deletion for the requester only: the entries with
      that id are dropped, the others kept in order. */
  function Dropped(ms: seq<ClientMessage>, id: string): (r: seq<ClientMessage>)
    ensures forall m :: m in r ==> m in ms && m.id != id
    ensures forall m :: m in ms && m.id != id ==> m in r
    ensures |r| <= |ms|
  {
    if ms == [] then []
    else if ms[0].id == id then Dropped(ms[1..], id)
    else [ms[0]] + Dropped(ms[1..], id)
  }

  /** Dropping by id does to the id list exactly what removing the id does:
      the surviving entries keep their relative order. */
  lemma {:induction false} DroppedIds(ms: seq<ClientMessage>, id: string)
    ensures Ids(Dropped(ms, id)) == RemoveAll(Ids(ms), id)
  {
    if ms != [] {
      var m, tail := ms[0], ms[1..];
      assert ms == [m] + tail;
      DroppedIds(tail, id);
      IdsCons(m, tail);
      RemoveAllCons(m.id, Ids(tail), id);
      if m.id != id {
        IdsCons(m, Dropped(tail, id));
      }
    }
  }

  lemma IdsCons(m: ClientMessage, ms: seq<ClientMessage>)
    ensures Ids([m] + ms) == [m.id] + Ids(ms)
  {
  }

  // ----- user_typing / user_stop_typing -----

  /** `prev.includes(name) ? prev : [...prev, name]` */
  function WithTyper(typers: seq<string>, name: string): (r: seq<string>)
    ensures name in r && forall n :: n != name ==> (n in r <==> n in typers)
  {
    if name in typers then typers else typers + [name]
  }

  /** Adding a typer never creates a duplicate. */
  lemma WithTyperNoDup(typers: seq<string>, name: string)
    requires NoDup(typers)
    ensures NoDup(WithTyper(typers, name))
  {
  }

  /** A user who starts and stops typing leaves the list as it was, when
      they were not already in it. */
  lemma TypingStartStop(typers: seq<string>, name: string)
    requires name !in typers
    ensures RemoveAll(WithTyper(typers, name), name) == typers
  {
    RemoveAppendAbsent(typers, name);
  }

  // ----- automatic mark_as_read -----

  /** `Array.isArray(m.readBy) && !m.readBy.includes(me)`. `includes`
      compares with `===`, so only an entry that is the id string itself
      matches; a receipt object never equals a string. */
  predicate UnreadBy(m: ClientMessage, me: string) {
    m.readBy.Some? && IdEntry(me) !in m.readBy.value
  }

  /** Every entry of the message's `readBy` is a receipt object, as the
      server sends them. */
  predicate ReceiptsOnly(m: ClientMessage) {
    m.readBy.Some? ==> forall e :: e in m.readBy.value ==> e.ReceiptEntry?
  }

  /** The ids of the messages unread by `me`, in list order. */
  function UnreadIds(ms: seq<ClientMessage>, me: string): (r: seq<string>)
    ensures |r| <= |ms|
  {
    if ms == [] then []
    else (if UnreadBy(ms[0], me) then [ms[0].id] else []) + UnreadIds(ms[1..], me)
  }

  /** An id is requested exactly when some message with that id is unread. */
  lemma {:induction false} UnreadIdsExact(ms: seq<ClientMessage>, me: string)
    ensures forall x :: x in UnreadIds(ms, me) <==> exists i :: 0 <= i < |ms| && ms[i].id == x && UnreadBy(ms[i], me)
  {
    if ms != [] {
      UnreadIdsExact(ms[1..], me);
      assert forall i :: 1 <= i < |ms| ==> ms[1..][i - 1] == ms[i];
      forall x | exists i :: 0 <= i < |ms| && ms[i].id == x && UnreadBy(ms[i], me)
        ensures x in UnreadIds(ms, me)
      {
        var i :| 0 <= i < |ms| && ms[i].id == x && UnreadBy(ms[i], me);
        if i > 0 {
          assert ms[1..][i - 1].id == x;
        }
      }
    }
  }

  /** On messages as the server sends them the reader is never found in
      `readBy`: every message carrying a receipt array is requested, those
      the reader has already read included, and whoever the reader is. */
  lemma ReceiptsNeverMatch(ms: seq<ClientMessage>, me: string)
    requires forall i :: 0 <= i < |ms| ==> ReceiptsOnly(ms[i])
    ensures forall x :: x in UnreadIds(ms, me) <==> exists i :: 0 <= i < |ms| && ms[i].id == x && ms[i].readBy.Some?
  {
    UnreadIdsExact(ms, me);
    forall i | 0 <= i < |ms| && ms[i].readBy.Some?
      ensures UnreadBy(ms[i], me)
    {
      assert ReceiptsOnly(ms[i]);
      if IdEntry(me) in ms[i].readBy.value {
        assert false;
      }
    }
  }

  /** The automatic request names a message its reader has already read:
      a loaded message whose receipts list the signed-in user is sent in
      `mark_as_read` again, on every change of the list. */
  lemma ReadMessageRequestedAgain(id: string, me: string, readAt: string, m: ClientMessage)
    requires me != "" && m.id == id && m.readBy == Some([ReceiptEntry(me, readAt)])
    ensures MarkAsReadRequest(true, [m], Some(me)) == Some([id])
  {
    assert UnreadBy(m, me);
    assert [m][1..] == [];
    assert UnreadIds([m], me) == [id] + UnreadIds([], me);
    assert UnreadIds([m], me) == [id];
    assert [m] != [];
  }

  /** The effect after every change of the list: nothing without a socket,
      messages or a signed-in user with an id; otherwise a `mark_as_read`
      request for the unread ids, and only when there are any. */
  function MarkAsReadRequest(socketUp: bool, ms: seq<ClientMessage>, me: Option<string>): (r: Option<seq<string>>)
    ensures r.Some? ==> socketUp && ms != [] && me.Some? && me.value != ""
    ensures r.Some? ==> r.value == UnreadIds(ms, me.value) && r.value != []
    ensures socketUp && me.Some? && me.value != "" && UnreadIds(ms, me.value) != [] ==> r.Some?
  {
    if !socketUp || ms == [] || me.None? || me.value == "" then None
    else
      var unread := UnreadIds(ms, me.value);
      if unread == [] then None else Some(unread)
  }

  // ----- groupedMessages -----

  /** The messages whose day label is `k`, in list order. */
  function OnDay(ms: seq<ClientMessage>, day: ClientMessage -> string, k: string): (r: seq<ClientMessage>)
    ensures forall m :: m in r ==> m in ms && day(m) == k
    ensures forall m :: m in ms && day(m) == k ==> m in r
  {
    if ms == [] then []
    else OnDay(ms[..|ms| - 1], day, k) + (if day(ms[|ms| - 1]) == k then [ms[|ms| - 1]] else [])
  }

  /** The filter keeps list order: the messages of a day in a list made of
      two parts are that day's messages of the first part, then those of
      the second. */
  lemma {:induction false} OnDayAppend(a: seq<ClientMessage>, b: seq<ClientMessage>, day: ClientMessage -> string, k: string)
    ensures OnDay(a + b, day, k) == OnDay(a, day, k) + OnDay(b, day, k)
    decreases |b|
  {
    if b != [] {
      var init, last := b[..|b| - 1], b[|b| - 1];
      assert (a + b)[..|a + b| - 1] == a + init;
      OnDayAppend(a, init, day, k);
    } else {
      assert a + b == a;
    }
  }

  /** `messages.reduce(...)` into an object keyed by day label, each message
      pushed onto its day's list. */
  function Grouped(ms: seq<ClientMessage>, day: ClientMessage -> string): map<string, seq<ClientMessage>> {
    if ms == [] then map[]
    else
      var groups := Grouped(ms[..|ms| - 1], day);
      var last := ms[|ms| - 1];
      var k := day(last);
      groups[k := (if k in groups then groups[k] else []) + [last]]
  }

  /** Some message carries the label `k`. */
  predicate Labelled(ms: seq<ClientMessage>, day: ClientMessage -> string, k: string) {
    exists i :: 0 <= i < |ms| && day(ms[i]) == k
  }

  /** The grouping has a group for exactly the labels that occur. */
  lemma {:induction false} GroupedKeys(ms: seq<ClientMessage>, day: ClientMessage -> string)
    ensures forall k :: k in Grouped(ms, day) <==> Labelled(ms, day, k)
  {
    if ms != [] {
      var init, last := ms[..|ms| - 1], ms[|ms| - 1];
      GroupedKeys(init, day);
      forall k ensures Labelled(ms, day, k) <==> Labelled(init, day, k) || day(last) == k {
        if Labelled(ms, day, k) && day(last) != k {
          var i :| 0 <= i < |ms| && day(ms[i]) == k;
          assert init[i] == ms[i];
        }
        if Labelled(init, day, k) {
          var i :| 0 <= i < |init| && day(init[i]) == k;
          assert init[i] == ms[i];
        }
      }
    }
  }

  /** Each group is the list filtered to its label, in list order: the
      grouping partitions the messages by day. */
  lemma {:induction false} GroupedByDay(ms: seq<ClientMessage>, day: ClientMessage -> string)
    ensures forall k :: k in Grouped(ms, day) ==> Grouped(ms, day)[k] == OnDay(ms, day, k)
  {
    if ms != [] {
      var init, last := ms[..|ms| - 1], ms[|ms| - 1];
      GroupedByDay(init, day);
      var g0 := Grouped(init, day);
      var g := Grouped(ms, day);
      forall k | k in g
        ensures g[k] == OnDay(ms, day, k)
      {
        assert OnDay(ms, day, k) == OnDay(init, day, k) + (if day(last) == k then [last] else []);
        if k == day(last) && k !in g0 {
          GroupedKeys(init, day);
          assert !Labelled(init, day, k);
          NoneOnDay(init, day, k);
        }
      }
    }
  }

  /** A label no message carries has an empty filter. */
  lemma {:induction false} NoneOnDay(ms: seq<ClientMessage>, day: ClientMessage -> string, k: string)
    requires forall i :: 0 <= i < |ms| ==> day(ms[i]) != k
    ensures OnDay(ms, day, k) == []
  {
    if ms != [] {
      NoneOnDay(ms[..|ms| - 1], day, k);
    }
  }

  // ----- the component state -----

  /** The state the socket events update, each through its setter. */
  class ChatRoomScreen {
    var messages: seq<ClientMessage>
    var typingUsers: seq<string>
    var selectedMessageIds: seq<string>

    constructor ()
      ensures messages == [] && typingUsers == [] && selectedMessageIds == []
    {
      messages := [];
      typingUsers := [];
      selectedMessageIds := [];
    }

    /** `new_message`: the received entry goes at the end. */
    method OnNewMessage(m: IncomingMessage, me: Option<string>, nowIso: string)
      modifies this`messages
      ensures messages == old(messages) + [Received(m, me, nowIso)]
    {
      messages := messages + [Received(m, me, nowIso)];
    }

    /** `message_edited` */
    method OnMessageEdited(id: string, content: string, editedAt: string)
      modifies this`messages
      ensures messages == Edited(old(messages), id, content, editedAt)
    {
      messages := Edited(messages, id, content, editedAt);
    }

    /** `user_typing` */
    method OnUserTyping(name: string)
      modifies this`typingUsers
      ensures typingUsers == WithTyper(old(typingUsers), name)
      ensures NoDup(old(typingUsers)) ==> NoDup(typingUsers)
    {
      if NoDup(typingUsers) {
        WithTyperNoDup(typingUsers, name);
      }
      typingUsers := WithTyper(typingUsers, name);
    }

    /** `user_stop_typing`: every occurrence of the name goes. */
    method OnUserStopTyping(name: string)
      modifies this`typingUsers
      ensures typingUsers == RemoveAll(old(typingUsers), name)
    {
      typingUsers := RemoveAll(typingUsers, name);
    }

    /** `message_deleted`: a tombstone for everyone, removal otherwise. */
    method OnMessageDeleted(id: string, forEveryone: bool)
      modifies this`messages
      ensures messages == if forEveryone then Tombstoned(old(messages), id) else Dropped(old(messages), id)
    {
      if forEveryone {
        messages := Tombstoned(messages, id);
      } else {
        messages := Dropped(messages, id);
      }
    }

    /** `toggleMessageSelection(id)` */
    method ToggleMessageSelection(id: string)
      modifies this`selectedMessageIds
      ensures selectedMessageIds == Toggle(old(selectedMessageIds), id)
    {
      selectedMessageIds := Toggle(selectedMessageIds, id);
    }
  }
}
