/** The three MongoDB collections as one in-memory store. A document's id is
    its position in its collection; creation appends. A save is
    validate-then-write: the write methods demand a document that passes its
    schema, and the handlers test validity first and throw when it fails,
    as Mongoose's `save()`/`create()` reject with a ValidationError. */
module Database {
  import opened Ids
  import MessageModel
  import ChatRoomModel
  import UserModel

  class Store {
    var users: seq<UserModel.User>
    var rooms: seq<ChatRoomModel.Room>
    var messages: seq<MessageModel.Message>

    /** Every stored message and room passes its schema. Saves validate,
        so every handler keeps this. */
    ghost predicate Valid()
      reads this
    {
      (forall id :: MessageStored(messages, id)) && (forall id :: RoomStored(rooms, id))
    }

    /** A stored message passes its schema. */
    lemma MessageValid(id: MessageId)
      requires Valid() && id < |messages|
      ensures MessageModel.SchemaValid(messages[id])
    {
      assert MessageStored(messages, id);
    }

    /** A stored room passes its schema. */
    lemma RoomValid(id: RoomId)
      requires Valid() && id < |rooms|
      ensures ChatRoomModel.SchemaValid(rooms[id])
    {
      assert RoomStored(rooms, id);
    }

    /** An empty database. */
    constructor ()
      ensures users == [] && rooms == [] && messages == []
      ensures Valid()
    {
      users, rooms, messages := [], [], [];
    }

    /** `Message.create` once validation has passed. */
    method InsertMessage(m: MessageModel.Message) returns (id: MessageId)
      requires Valid() && MessageModel.SchemaValid(m)
      modifies this`messages
      ensures Valid()
      ensures id == |old(messages)| && messages == old(messages) + [m]
    {
      var ms := messages + [m];
      forall k ensures MessageStored(ms, k) {
        assert MessageStored(messages, k);
      }
      id := |messages|;
      messages := ms;
    }

    /** `message.save()` once validation has passed. */
    method WriteMessage(id: MessageId, m: MessageModel.Message)
      requires Valid() && id < |messages| && MessageModel.SchemaValid(m)
      modifies this`messages
      ensures Valid()
      ensures messages == old(messages)[id := m]
    {
      var ms := messages[id := m];
      forall k ensures MessageStored(ms, k) {
        assert MessageStored(messages, k);
      }
      messages := ms;
    }

    /** `ChatRoom.create` once validation has passed. */
    method InsertRoom(r: ChatRoomModel.Room) returns (id: RoomId)
      requires Valid() && ChatRoomModel.SchemaValid(r)
      modifies this`rooms
      ensures Valid()
      ensures id == |old(rooms)| && rooms == old(rooms) + [r]
    {
      var rs := rooms + [r];
      forall k ensures RoomStored(rs, k) {
        assert RoomStored(rooms, k);
      }
      id := |rooms|;
      rooms := rs;
    }

    /** `chatRoom.save()` once validation has passed. */
    method WriteRoom(id: RoomId, r: ChatRoomModel.Room)
      requires Valid() && id < |rooms| && ChatRoomModel.SchemaValid(r)
      modifies this`rooms
      ensures Valid()
      ensures rooms == old(rooms)[id := r]
    {
      var rs := rooms[id := r];
      forall k ensures RoomStored(rs, k) {
        assert RoomStored(rooms, k);
      }
      rooms := rs;
    }

    /** `new User(...).save()`; user validation (the e-mail format check) is
        not modelled. */
    method InsertUser(u: UserModel.User) returns (id: UserId)
      requires Valid()
      modifies this`users
      ensures Valid()
      ensures id == |old(users)| && users == old(users) + [u]
    {
      id := |users|;
      users := users + [u];
    }

    /** `user.save()` */
    method WriteUser(id: UserId, u: UserModel.User)
      requires Valid() && id < |users|
      modifies this`users
      ensures Valid()
      ensures users == old(users)[id := u]
    {
      users := users[id := u];
    }
  }

  /** Message `id`, if stored, passes its schema. Validity is stated one
      id at a time, so the solver looks at a stored document only when a
      proof names its id. */
  ghost predicate MessageStored(ms: seq<MessageModel.Message>, id: int) {
    0 <= id < |ms| ==> MessageModel.SchemaValid(ms[id])
  }

  /** Room `id`, if stored, passes its schema. */
  ghost predicate RoomStored(rs: seq<ChatRoomModel.Room>, id: int) {
    0 <= id < |rs| ==> ChatRoomModel.SchemaValid(rs[id])
  }
}
