/** The participant picker, discord-frontend/src/components/chat/SelectParticipantsModal.tsx:
    the selection `addUser` and `removeUser` maintain, the `canCreate` rule
    and its message, the search results it offers, and `handleCreate`, which
    emits `create_room`. The search request itself is left to the network. */
module SelectParticipants {
  import opened Text
  import opened Collections

  /** The room type the picker is opened for (the lower-cased choice of the
      create-room dialog). */
  datatype PickKind = PickPrivate | PickGroup | PickPublic

  /** A user as the search returns it. */
  datatype Candidate = Candidate(id: string, name: string)

  /** The `create_room` payload. */
  datatype CreateRoomEmit = CreateRoomEmit(name: string, kind: PickKind, participants: seq<string>)

  /** The ids of a user list, in order. */
  function CandidateIds(us: seq<Candidate>): (r: seq<string>)
    ensures |r| == |us| && forall i :: 0 <= i < |us| ==> r[i] == us[i].id
  {
    MapSeq(us, (u: Candidate) => u.id)
  }

  lemma CandidateIdsCons(u: Candidate, us: seq<Candidate>)
    ensures CandidateIds([u] + us) == [u.id] + CandidateIds(us)
  {
  }

  /** `selectedUsers.filter(u => u._id !== userId)` */
  function WithoutUser(selected: seq<Candidate>, userId: string): (r: seq<Candidate>)
    ensures forall u :: u in r <==> u in selected && u.id != userId
  {
    if selected == [] then []
    else if selected[0].id == userId then WithoutUser(selected[1..], userId)
    else [selected[0]] + WithoutUser(selected[1..], userId)
  }

  /** Removing a user does to the id list what removing the id does: the
      others stay, in order. */
  lemma {:induction false} WithoutUserIds(selected: seq<Candidate>, userId: string)
    ensures CandidateIds(WithoutUser(selected, userId)) == RemoveAll(CandidateIds(selected), userId)
  {
    if selected != [] {
      var u, tail := selected[0], selected[1..];
      assert selected == [u] + tail;
      WithoutUserIds(tail, userId);
      CandidateIdsCons(u, tail);
      RemoveAllCons(u.id, CandidateIds(tail), userId);
      if u.id != userId {
        CandidateIdsCons(u, WithoutUser(tail, userId));
      }
    }
  }

  /** `filteredUsers`: the search results not yet selected, in result order. */
  function Unselected(results: seq<Candidate>, selected: seq<Candidate>): (r: seq<Candidate>)
    ensures forall u :: u in r <==> u in results && u.id !in CandidateIds(selected)
    ensures |r| <= |results|
  {
    if results == [] then []
    else
      var rest := Unselected(results[1..], selected);
      if results[0].id in CandidateIds(selected) then rest else [results[0]] + rest
  }

  /** The filter keeps result order: the offered users of a result list
      made of two parts are those of the first part, then those of the
      second. */
  lemma {:induction false} UnselectedAppend(a: seq<Candidate>, b: seq<Candidate>, selected: seq<Candidate>)
    ensures Unselected(a + b, selected) == Unselected(a, selected) + Unselected(b, selected)
  {
    if a == [] {
      assert a + b == b;
    } else {
      assert (a + b)[1..] == a[1..] + b;
      UnselectedAppend(a[1..], b, selected);
    }
  }

  /** `canCreate()`: exactly one participant for a private room, at least one
      for a group, any number for a public room. */
  predicate CanCreate(kind: PickKind, count: nat) {
    match kind
    case PickPrivate => count == 1
    case PickGroup => count >= 1
    case PickPublic => true
  }

  /** `getValidationMessage()` */
  function ValidationMessage(kind: PickKind, count: nat): string {
    match kind
    case PickPrivate =>
      if count == 0 then "Select exactly 1 participant for private chat"
      else if count > 1 then "Private chats can only have 1 participant"
      else ""
    case PickGroup => if count == 0 then "Select at least 1 participant to create group" else ""
    case PickPublic => ""
  }

  /** The message is empty exactly when creation is allowed. */
  lemma MessageEmptyIffCanCreate(kind: PickKind, count: nat)
    ensures ValidationMessage(kind, count) == "" <==> CanCreate(kind, count)
  {
  }

  /** The picker's state for one room type. */
  class ParticipantPicker {
    const kind: PickKind
    var selectedUsers: seq<Candidate>
    var searchQuery: string

    /** No user is selected twice, and a private room never has more than
        one. */
    predicate Valid()
      reads this
    {
      NoDup(CandidateIds(selectedUsers)) && (kind == PickPrivate ==> |selectedUsers| <= 1)
    }

    constructor (kind: PickKind)
      ensures Valid() && this.kind == kind && selectedUsers == [] && searchQuery == ""
    {
      this.kind := kind;
      selectedUsers := [];
      searchQuery := "";
    }

    /** `addUser(user)`: ignored for a private room that already has its
        participant, and for a user already selected; otherwise appended. */
    method AddUser(user: Candidate)
      requires Valid()
      modifies this`selectedUsers
      ensures Valid()
      ensures selectedUsers == if (kind == PickPrivate && |old(selectedUsers)| >= 1) || user.id in CandidateIds(old(selectedUsers))
                               then old(selectedUsers) else old(selectedUsers) + [user]
    {
      if kind == PickPrivate && |selectedUsers| >= 1 {
        return;
      }
      if user.id in CandidateIds(selectedUsers) {
        return;
      }
      var before := selectedUsers;
      selectedUsers := selectedUsers + [user];
      assert CandidateIds(selectedUsers) == CandidateIds(before) + [user.id];
    }

    /** `removeUser(userId)` */
    method RemoveUser(userId: string)
      requires Valid()
      modifies this`selectedUsers
      ensures Valid()
      ensures selectedUsers == WithoutUser(old(selectedUsers), userId)
    {
      WithoutUserIds(selectedUsers, userId);
      RemoveAllNoDup(CandidateIds(selectedUsers), userId);
      selectedUsers := WithoutUser(selectedUsers, userId);
    }

    /** `handleCreate()`: nothing unless creation is allowed; then the
        `create_room` event with the selected ids in order, the selection
        and the search text are cleared, and the parent's `onClose` is
        called (`closes`). */
    method HandleCreate(roomName: string) returns (emit: Option<CreateRoomEmit>, closes: bool)
      requires Valid()
      modifies this`selectedUsers, this`searchQuery
      ensures Valid()
      ensures emit.Some? <==> CanCreate(kind, |old(selectedUsers)|)
      ensures closes <==> emit.Some?
      ensures emit.Some? ==> emit.value == CreateRoomEmit(roomName, kind, CandidateIds(old(selectedUsers)))
                             && selectedUsers == [] && searchQuery == ""
      ensures emit.None? ==> selectedUsers == old(selectedUsers) && searchQuery == old(searchQuery)
    {
      if !CanCreate(kind, |selectedUsers|) {
        return None, false;
      }
      emit := Some(CreateRoomEmit(roomName, kind, CandidateIds(selectedUsers)));
      selectedUsers := [];
      searchQuery := "";
      closes := true;
    }
  }
}
