/** The ChatRoom document (discord/models/chatRoomModel.js): the participant
    list with roles, and the model's instance methods and `findByUser`. */
module ChatRoomModel {
  import opened Text
  import opened Ids
  import opened Collections

  /** A room's `type`: the enum's 'private', 'group' and 'Public'
      (capitalised), or any other text a request carries, which the schema
      refuses. */
  datatype RoomType = Private | Group | Public | OtherRoomType(text: string)

  /** A type the schema's enum accepts. */
  predicate ListedRoomType(t: RoomType) {
    !t.OtherRoomType?
  }

  /** Roles the controllers test for. The schema's role enum holds only
      'admin' and 'member': a `Moderator` can be compared against but never
      saved (see `StorableRole`). */
  datatype Role = Admin | Moderator | Member

  datatype Participant = Participant(user: UserId, role: Role, joinedAt: int, lastSeen: int)

  /** A stored room. `settings` (two fields no code reads) and `updatedAt`
      are not modelled. */
  datatype Room = Room(
    name: string,
    description: Option<string>,
    roomType: RoomType,
    participants: seq<Participant>,
    createdBy: UserId,
    lastMessage: Option<MessageId>,
    lastActivity: int,
    avatar: Option<string>,
    isActive: bool,
    createdAt: int)

  const MaxNameLength: nat := 50
  const MaxDescriptionLength: nat := 500

  /** A role the schema's enum accepts. */
  predicate StorableRole(r: Role) {
    r == Admin || r == Member
  }

  /** The document passes schema validation: a trimmed non-empty name of at
      most 50 characters, a trimmed description of at most 500, and only
      enum type and roles. */
  predicate SchemaValid(room: Room) {
    && IsTrimmed(room.name) && 0 < |room.name| <= MaxNameLength
    && ListedRoomType(room.roomType)
    && (room.description.Some? ==>
          IsTrimmed(room.description.value)
          && |room.description.value| <= MaxDescriptionLength)
    && RolesStorable(room.participants)
  }

  /** Every entry's role is one the enum accepts. */
  predicate RolesStorable(ps: seq<Participant>) {
    ps == [] || (StorableRole(ps[0].role) && RolesStorable(ps[1..]))
  }

  lemma {:induction false} RolesStorableIff(ps: seq<Participant>)
    ensures RolesStorable(ps) <==> forall i :: 0 <= i < |ps| ==> StorableRole(ps[i].role)
  {
    if ps != [] {
      RolesStorableIff(ps[1..]);
      assert forall i :: 1 <= i < |ps| ==> ps[i] == ps[1..][i - 1];
    }
  }

  /** The list operations keep every role storable, given a storable role. */
  lemma StorableAfterChange(ps: seq<Participant>, u: UserId, role: Role, now: int)
    ensures RolesStorable(ps) && StorableRole(role) ==> RolesStorable(WithParticipant(ps, u, role, now))
    ensures RolesStorable(ps) ==> RolesStorable(WithoutParticipant(ps, u))
    ensures RolesStorable(ps) && StorableRole(role) ==> RolesStorable(WithRole(ps, u, role))
  {
    RolesStorableIff(ps);
    var a, b, c := WithParticipant(ps, u, role, now), WithoutParticipant(ps, u), WithRole(ps, u, role);
    RolesStorableIff(a);
    RolesStorableIff(b);
    RolesStorableIff(c);
    if RolesStorable(ps) {
      forall i | 0 <= i < |b| ensures StorableRole(b[i].role) {
        assert b[i] in ps;
      }
    }
  }

  /** `isParticipant(u)`: some entry names `u`. */
  predicate IsParticipant(ps: seq<Participant>, u: UserId) {
    exists i :: 0 <= i < |ps| && ps[i].user == u
  }

  /** `participants.find(p => p.user == u)`, as a position. */
  function FindParticipant(ps: seq<Participant>, u: UserId): (r: Option<nat>)
    ensures r.None? <==> !IsParticipant(ps, u)
    ensures r.Some? ==> r.value < |ps| && ps[r.value].user == u
    ensures r.Some? ==> forall j :: 0 <= j < r.value ==> ps[j].user != u
  {
    if ps == [] then None
    else if ps[0].user == u then Some(0)
    else
      var rest := FindParticipant(ps[1..], u);
      assert forall j :: 1 <= j < |ps| ==> ps[j] == ps[1..][j - 1];
      if rest.None? then None else Some(rest.value + 1)
  }

  /** `find` returns the first entry naming `u`, whichever that is. */
  lemma FindParticipantFirst(ps: seq<Participant>, u: UserId, i: nat)
    requires i < |ps| && ps[i].user == u
    requires forall j :: 0 <= j < i ==> ps[j].user != u
    ensures FindParticipant(ps, u) == Some(i)
  {
    var f := FindParticipant(ps, u);
    assert ps[f.value].user == u;
  }

  /** `getParticipantRole(u)`: null for a non-participant, otherwise the role
      of the first entry naming `u`. */
  function RoleOf(ps: seq<Participant>, u: UserId): (r: Option<Role>)
    ensures r.None? <==> !IsParticipant(ps, u)
    ensures r.Some? ==> exists i :: 0 <= i < |ps| && ps[i].user == u && ps[i].role == r.value
                         && forall j :: 0 <= j < i ==> ps[j].user != u
  {
    match FindParticipant(ps, u)
    case None => None
    case Some(i) => Some(ps[i].role)
  }

  /** The role test the controllers share, `['admin', 'moderator'].includes(role)`. */
  predicate IsManager(role: Option<Role>) {
    role == Some(Admin) || role == Some(Moderator)
  }

  /** Every user appears in at most one entry. */
  predicate UniqueUsers(ps: seq<Participant>) {
    forall i, j :: 0 <= i < j < |ps| ==> ps[i].user != ps[j].user
  }

  /** The list after `addParticipant(u, role)`: unchanged when `u` is already
      in it, else one new entry at the end. */
  function WithParticipant(ps: seq<Participant>, u: UserId, role: Role, now: int): (r: seq<Participant>)
    ensures IsParticipant(r, u)
    ensures ps <= r && |r| <= |ps| + 1
    ensures IsParticipant(ps, u) ==> r == ps
    ensures !IsParticipant(ps, u) ==> r[|ps|] == Participant(u, role, now, now)
    ensures UniqueUsers(ps) ==> UniqueUsers(r)
  {
    if IsParticipant(ps, u) then ps
    else
      var r := ps + [Participant(u, role, now, now)];
      assert r[|ps|].user == u;
      r
  }

  /** The list after `removeParticipant(u)`: the filter that drops every entry
      naming `u`. */
  function WithoutParticipant(ps: seq<Participant>, u: UserId): (r: seq<Participant>)
    ensures !IsParticipant(r, u)
    ensures forall p :: p in r <==> p in ps && p.user != u
    ensures |r| <= |ps|
    ensures !IsParticipant(ps, u) ==> r == ps
  {
    if ps == [] then []
    else
      var rest := WithoutParticipant(ps[1..], u);
      assert ps == [ps[0]] + ps[1..];
      if ps[0].user == u then rest
      else
        assert forall j :: 1 <= j < |[ps[0]] + rest| ==> ([ps[0]] + rest)[j] == rest[j - 1];
        [ps[0]] + rest
  }

  /** Removal keeps everybody else, and in the same order: it distributes over
      concatenation. */
  lemma {:induction false} WithoutParticipantAppend(a: seq<Participant>, b: seq<Participant>, u: UserId)
    ensures WithoutParticipant(a + b, u) == WithoutParticipant(a, u) + WithoutParticipant(b, u)
  {
    if a == [] {
      assert a + b == b;
    } else {
      assert (a + b)[0] == a[0] && (a + b)[1..] == a[1..] + b;
      WithoutParticipantAppend(a[1..], b, u);
    }
  }

  /** Removal keeps every other user a participant, and no duplicates arise. */
  lemma {:induction false} WithoutParticipantOthers(ps: seq<Participant>, u: UserId, v: UserId)
    requires v != u
    ensures IsParticipant(WithoutParticipant(ps, u), v) <==> IsParticipant(ps, v)
  {
    var r := WithoutParticipant(ps, u);
    if IsParticipant(ps, v) {
      var i :| 0 <= i < |ps| && ps[i].user == v;
      assert ps[i] in r;
      var k :| 0 <= k < |r| && r[k] == ps[i];
    }
    if IsParticipant(r, v) {
      var k :| 0 <= k < |r| && r[k].user == v;
      assert r[k] in ps;
      var i :| 0 <= i < |ps| && ps[i] == r[k];
    }
  }

  /** The list after `updateParticipantRole(u, role)`: the first entry naming
      `u` takes the new role; everything else is as it was. */
  function WithRole(ps: seq<Participant>, u: UserId, role: Role): (r: seq<Participant>)
    ensures |r| == |ps|
    ensures forall i :: 0 <= i < |ps| ==> r[i].user == ps[i].user
    ensures !IsParticipant(ps, u) ==> r == ps
    ensures IsParticipant(ps, u) ==> RoleOf(r, u) == Some(role)
    ensures IsParticipant(ps, u) ==>
              forall i :: 0 <= i < |ps| && i != FindParticipant(ps, u).value ==> r[i] == ps[i]
  {
    match FindParticipant(ps, u)
    case None => ps
    case Some(i) =>
      var r := ps[i := ps[i].(role := role)];
      FindParticipantFirst(r, u, i);
      r
  }

  /** The list after `updateLastSeen(u)`: the first entry naming `u` gets
      `lastSeen = now`; everything else is as it was. */
  function Touched(ps: seq<Participant>, u: UserId, now: int): (r: seq<Participant>)
    ensures |r| == |ps|
    ensures forall i :: 0 <= i < |ps| ==> r[i].user == ps[i].user && r[i].role == ps[i].role
    ensures !IsParticipant(ps, u) ==> r == ps
    ensures IsParticipant(ps, u) ==>
              var i := FindParticipant(ps, u).value;
              r[i].lastSeen == now && forall j :: 0 <= j < |ps| && j != i ==> r[j] == ps[j]
  {
    match FindParticipant(ps, u)
    case None => ps
    case Some(i) => ps[i := ps[i].(lastSeen := now)]
  }

  /** Some participant holds the admin role. */
  predicate HasAdmin(ps: seq<Participant>) {
    exists i :: 0 <= i < |ps| && ps[i].role == Admin
  }

  /** Touching a participant changes no membership and no role. */
  lemma TouchedKeepsRoles(ps: seq<Participant>, u: UserId, now: int, v: UserId)
    ensures IsParticipant(Touched(ps, u, now), v) <==> IsParticipant(ps, v)
    ensures RoleOf(Touched(ps, u, now), v) == RoleOf(ps, v)
  {
    var r := Touched(ps, u, now);
    var b := FindParticipant(ps, v);
    if b.Some? {
      FindParticipantFirst(r, v, b.value);
    } else {
      assert forall i :: 0 <= i < |r| ==> r[i].user == ps[i].user;
    }
  }

  /** `ChatRoom.findByUser(u)`: the ids of the active rooms that list `u`, in
      store order, before sorting. */
  function RoomsOf(rooms: seq<Room>, u: UserId, from: nat): (r: seq<RoomId>)
    requires from <= |rooms|
    ensures forall id :: id in r <==> from <= id < |rooms| && rooms[id].isActive && IsParticipant(rooms[id].participants, u)
    ensures forall k :: 0 <= k < |r| ==> from <= r[k] < |rooms|
    ensures NoDup(r)
    decreases |rooms| - from
  {
    if from == |rooms| then []
    else
      var rest := RoomsOf(rooms, u, from + 1);
      if rooms[from].isActive && IsParticipant(rooms[from].participants, u) then
        assert from !in rest;
        assert forall j :: 1 <= j < |[from] + rest| ==> ([from] + rest)[j] == rest[j - 1];
        [from] + rest
      else rest
  }

  /** The sort key of `sort({ lastActivity: -1 })`. */
  function ActivityKey(rooms: seq<Room>): RoomId -> real {
    (id: RoomId) => if id < |rooms| then rooms[id].lastActivity as real else 0.0
  }

  /** `findByUser(u)`: exactly the active rooms containing `u`, each once,
      most recently active first. */
  function FindByUser(rooms: seq<Room>, u: UserId): (r: seq<RoomId>)
    ensures forall id :: id in r <==> 0 <= id < |rooms| && rooms[id].isActive && IsParticipant(rooms[id].participants, u)
    ensures NoDup(r)
    ensures forall k :: 0 <= k < |r| ==> r[k] < |rooms|
    ensures forall i, j :: 0 <= i < j < |r| ==> rooms[r[i]].lastActivity >= rooms[r[j]].lastActivity
  {
    var found := RoomsOf(rooms, u, 0);
    var sorted := SortDesc<RoomId>(found, ActivityKey(rooms));
    SortedRooms(rooms, found);
    assert forall id :: id in sorted <==> id in found;
    sorted
  }

  lemma SortedRooms(rooms: seq<Room>, found: seq<RoomId>)
    requires NoDup(found) && forall k :: 0 <= k < |found| ==> found[k] < |rooms|
    ensures forall id :: id in SortDesc<RoomId>(found, ActivityKey(rooms)) <==> id in found
    ensures NoDup(SortDesc<RoomId>(found, ActivityKey(rooms)))
    ensures forall k :: 0 <= k < |SortDesc<RoomId>(found, ActivityKey(rooms))| ==> SortDesc<RoomId>(found, ActivityKey(rooms))[k] < |rooms|
    ensures var r := SortDesc<RoomId>(found, ActivityKey(rooms));
      forall i, j :: 0 <= i < j < |r| ==> rooms[r[i]].lastActivity >= rooms[r[j]].lastActivity
  {
    var key := ActivityKey(rooms);
    var r := SortDesc<RoomId>(found, key);
    assert forall id :: id in r <==> id in found by {
      forall id ensures id in r <==> id in found {
        assert id in r <==> id in multiset(r);
        assert id in found <==> id in multiset(found);
      }
    }
    PermutationNoDup(found, r);
    forall k | 0 <= k < |r| ensures r[k] < |rooms| {
      assert r[k] in found;
    }
    forall i, j | 0 <= i < j < |r| ensures rooms[r[i]].lastActivity >= rooms[r[j]].lastActivity {
      assert key(r[i]) >= key(r[j]);
    }
  }

  /** A loaded room document with its instance methods. */
  class ChatRoomDocument {
    var name: string
    var description: Option<string>
    var roomType: RoomType
    var participants: seq<Participant>
    var createdBy: UserId
    var lastMessage: Option<MessageId>
    var lastActivity: int
    var avatar: Option<string>
    var isActive: bool
    var createdAt: int

    /** The document as a record. */
    function Snapshot(): Room
      reads this
    {
      Room(name, description, roomType, participants, createdBy, lastMessage, lastActivity,
           avatar, isActive, createdAt)
    }

    /** `findById`: the document holding a stored record. */
    constructor Load(r: Room)
      ensures Snapshot() == r
    {
      name, description, roomType, participants := r.name, r.description, r.roomType, r.participants;
      createdBy, lastMessage, lastActivity := r.createdBy, r.lastMessage, r.lastActivity;
      avatar, isActive, createdAt := r.avatar, r.isActive, r.createdAt;
    }

    /** `isParticipant(u)` */
    predicate HasParticipant(u: UserId)
      reads this
    {
      IsParticipant(participants, u)
    }

    /** `getParticipantRole(u)` */
    function GetParticipantRole(u: UserId): Option<Role>
      reads this
    {
      RoleOf(participants, u)
    }

    /** `addParticipant(u, role)`: push an entry unless `u` is already in. */
    method AddParticipant(u: UserId, role: Role, now: int)
      modifies this`participants
      ensures participants == WithParticipant(old(participants), u, role, now)
    {
      if !IsParticipant(participants, u) {
        participants := participants + [Participant(u, role, now, now)];
      }
    }

    /** `removeParticipant(u)`: reassign the filtered list. */
    method RemoveParticipant(u: UserId)
      modifies this`participants
      ensures participants == WithoutParticipant(old(participants), u)
    {
      participants := WithoutParticipant(participants, u);
    }

    /** `updateParticipantRole(u, role)`: set the role of the entry `find`
        returns, if any. */
    method UpdateParticipantRole(u: UserId, role: Role)
      modifies this`participants
      ensures participants == WithRole(old(participants), u, role)
    {
      var found := FindParticipant(participants, u);
      if found.Some? {
        var i := found.value;
        participants := participants[i := participants[i].(role := role)];
      }
    }

    /** `updateLastSeen(u)`: the entry's `lastSeen` if `u` is in the room,
        and the room's `lastActivity` in any case. */
    method UpdateLastSeen(u: UserId, now: int)
      modifies this`participants, this`lastActivity
      ensures participants == Touched(old(participants), u, now)
      ensures lastActivity == now
    {
      var found := FindParticipant(participants, u);
      if found.Some? {
        var i := found.value;
        participants := participants[i := participants[i].(lastSeen := now)];
      }
      lastActivity := now;
    }
  }
}
