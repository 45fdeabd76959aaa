/** The Message document (discord/models/messageModel.js): its fields and
    defaults, the schema's content rule, and the read/delivered receipts. */
module MessageModel {
  import opened Text
  import opened Ids

  /** A message's `messageType`: the enum's 'text', 'image', 'file' and
      'system', or any other text a request carries, which the schema
      refuses. */
  datatype MessageType = TextMessage | Image | FileMessage | SystemMessage | OtherMessageType(text: string)

  /** A type the schema's enum accepts. */
  predicate ListedMessageType(t: MessageType) {
    !t.OtherMessageType?
  }

  /** One `readBy` or `deliveredTo` entry: who, and when. */
  datatype Receipt = Receipt(user: UserId, at: int)

  /** The `forwardedFrom` sub-document of a forwarded copy. */
  datatype Forwarding = Forwarding(
    originalMessage: MessageId,
    originalSender: UserId,
    originalRoom: RoomId,
    forwardedBy: UserId,
    forwardedAt: int)

  /** A stored message. Times are milliseconds; `updatedAt` is not modelled. */
  datatype Message = Message(
    content: string,
    sender: UserId,
    chatRoom: RoomId,
    messageType: MessageType,
    isForwarded: bool,
    forwardedFrom: Option<Forwarding>,
    isEdited: bool,
    editedAt: Option<int>,
    replyTo: Option<MessageId>,
    readBy: seq<Receipt>,
    deliveredTo: seq<Receipt>,
    isDeleted: bool,
    deletedAt: Option<int>,
    deletedFor: seq<UserId>,
    createdAt: int)

  const MaxContentLength: nat := 1000

  /** What delete-for-everyone leaves in place of the text. */
  const Tombstone: string := "This message was deleted"

  /** Content as the schema stores it: the `trim` setter has run, the
      `required` validator refuses the empty string and `maxlength` caps the
      length at 1000. */
  predicate ContentOk(c: string) {
    IsTrimmed(c) && 0 < |c| <= MaxContentLength
  }

  /** The document passes schema validation: its content and its type. */
  predicate SchemaValid(m: Message) {
    ContentOk(m.content) && ListedMessageType(m.messageType)
  }

  /** The tombstone is itself valid content, so a deletion always saves. */
  lemma TombstoneValid()
    ensures ContentOk(Tombstone)
  {
    assert Tombstone[0] == 'T' && Tombstone[|Tombstone| - 1] == 'd';
  }

  /** Trimmed text of length 1..1000 saves; the setter makes any text its own
      trim, so the only content that fails is blank or too long. */
  lemma TrimmedContentOk(c: string)
    ensures ContentOk(Trim(c)) <==> !IsBlank(c) && |Trim(c)| <= MaxContentLength
  {
    TrimmedIffFixedPoint(c);
  }

  /** `new Message({...})`: the given fields, the trimmed content, and the
      schema defaults for everything else — not edited, not deleted, not read,
      not delivered, no reply unless one is given, type as given. */
  function NewMessage(
    sender: UserId, room: RoomId, content: string, messageType: MessageType,
    replyTo: Option<MessageId>, forwardedFrom: Option<Forwarding>, now: int): (m: Message)
    ensures m.content == Trim(content) && m.sender == sender && m.chatRoom == room
    ensures m.messageType == messageType && m.replyTo == replyTo && m.createdAt == now
    ensures m.isForwarded <==> forwardedFrom.Some?
    ensures m.forwardedFrom == forwardedFrom
    ensures !m.isEdited && m.editedAt.None? && !m.isDeleted && m.deletedAt.None?
    ensures m.readBy == [] && m.deliveredTo == [] && m.deletedFor == []
  {
    Message(Trim(content), sender, room, messageType, forwardedFrom.Some?, forwardedFrom,
            false, None, replyTo, [], [], false, None, [], now)
  }

  /** `receipts.some(r => r.user == u)` */
  predicate HasReceipt(rs: seq<Receipt>, u: UserId) {
    exists i :: 0 <= i < |rs| && rs[i].user == u
  }

  /** How many entries name `u`. */
  function ReceiptCount(rs: seq<Receipt>, u: UserId): nat {
    if rs == [] then 0
    else ReceiptCount(rs[..|rs| - 1], u) + (if rs[|rs| - 1].user == u then 1 else 0)
  }

  /** The receipt list after `markAsRead(u)` / `markAsDelivered(u)` at time
      `now`: it gains an entry for `u` only when it has none; existing entries
      keep their place. */
  function Marked(rs: seq<Receipt>, u: UserId, now: int): (r: seq<Receipt>)
    ensures HasReceipt(r, u)
    ensures rs <= r && |r| <= |rs| + 1
    ensures HasReceipt(rs, u) ==> r == rs
    ensures forall v :: v != u ==> (HasReceipt(r, v) <==> HasReceipt(rs, v))
  {
    if HasReceipt(rs, u) then rs
    else
      assert (rs + [Receipt(u, now)])[|rs|].user == u;
      rs + [Receipt(u, now)]
  }

  /** Marking twice is marking once, whatever the two times. */
  lemma MarkedIdempotent(rs: seq<Receipt>, u: UserId, t1: int, t2: int)
    ensures Marked(Marked(rs, u, t1), u, t2) == Marked(rs, u, t1)
  {
  }

  /** A list has an entry for `u` exactly when it counts at least one. */
  lemma {:induction false} HasReceiptIffCount(rs: seq<Receipt>, u: UserId)
    ensures HasReceipt(rs, u) <==> ReceiptCount(rs, u) > 0
    decreases |rs|
  {
    if rs != [] {
      var init := rs[..|rs| - 1];
      HasReceiptIffCount(init, u);
      if HasReceipt(init, u) {
        var i :| 0 <= i < |init| && init[i].user == u;
        assert rs[i].user == u;
      }
      if HasReceipt(rs, u) && rs[|rs| - 1].user != u {
        var i :| 0 <= i < |rs| && rs[i].user == u;
        assert init[i].user == u;
      }
    }
  }

  /** Starting from at most one entry for `u` (as every list built by marking
      does), marking leaves exactly one, however often it is repeated. */
  lemma MarkedCountOne(rs: seq<Receipt>, u: UserId, now: int)
    requires ReceiptCount(rs, u) <= 1
    ensures ReceiptCount(Marked(rs, u, now), u) == 1
  {
    HasReceiptIffCount(rs, u);
    if !HasReceipt(rs, u) {
      var r := rs + [Receipt(u, now)];
      assert r[..|r| - 1] == rs;
    }
  }

  /** A loaded message document. `save()` is the store's business; these
      methods only change the document. */
  class MessageDocument {
    var content: string
    var sender: UserId
    var chatRoom: RoomId
    var messageType: MessageType
    var isForwarded: bool
    var forwardedFrom: Option<Forwarding>
    var isEdited: bool
    var editedAt: Option<int>
    var replyTo: Option<MessageId>
    var readBy: seq<Receipt>
    var deliveredTo: seq<Receipt>
    var isDeleted: bool
    var deletedAt: Option<int>
    var deletedFor: seq<UserId>
    var createdAt: int

    /** The document as a record. */
    function Snapshot(): Message
      reads this
    {
      Message(content, sender, chatRoom, messageType, isForwarded, forwardedFrom, isEdited,
              editedAt, replyTo, readBy, deliveredTo, isDeleted, deletedAt, deletedFor, createdAt)
    }

    /** `findById`: the document holding a stored record. */
    constructor Load(m: Message)
      ensures Snapshot() == m
    {
      content, sender, chatRoom, messageType := m.content, m.sender, m.chatRoom, m.messageType;
      isForwarded, forwardedFrom, isEdited, editedAt := m.isForwarded, m.forwardedFrom, m.isEdited, m.editedAt;
      replyTo, readBy, deliveredTo := m.replyTo, m.readBy, m.deliveredTo;
      isDeleted, deletedAt, deletedFor, createdAt := m.isDeleted, m.deletedAt, m.deletedFor, m.createdAt;
    }

    /** `markAsRead(u)`: push a receipt unless `u` already has one. Only
        `readBy` may change. */
    method MarkAsRead(u: UserId, now: int)
      modifies this`readBy
      ensures readBy == Marked(old(readBy), u, now)
    {
      if !HasReceipt(readBy, u) {
        readBy := readBy + [Receipt(u, now)];
      }
    }

    /** `markAsDelivered(u)`: the same on `deliveredTo`; `readBy` is untouched. */
    method MarkAsDelivered(u: UserId, now: int)
      modifies this`deliveredTo
      ensures deliveredTo == Marked(old(deliveredTo), u, now)
    {
      if !HasReceipt(deliveredTo, u) {
        deliveredTo := deliveredTo + [Receipt(u, now)];
      }
    }
  }
}
