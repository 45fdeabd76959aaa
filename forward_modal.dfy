/** The forwarding dialog, discord-frontend/src/components/chat/ForwardMessageModal.tsx:
    the room list it offers, the two selections (JavaScript `Set`s, which
    keep insertion order, modelled as duplicate-free sequences), and the
    guards and reset of `handleForward`. The request itself goes over the
    network; whether it succeeded is a parameter. */
module ForwardModal {
  import opened Text
  import opened Collections

  /** A room as the dialog lists it. */
  datatype RoomEntry = RoomEntry(id: string, name: string, roomType: string)

  /** A room as the room list request returns it; its type may be missing. */
  datatype FetchedRoom = FetchedRoom(id: string, name: string, roomType: Option<string>)

  /** The body of the forward request. An empty custom text is sent as
      absent. */
  datatype ForwardRequest = ForwardRequest(messageIds: seq<string>, targetRoomIds: seq<string>, content: Option<string>)

  /** A call the dialog makes into its parent: `onForward(roomIds,
      messageIds)` or `onClose()`. */
  datatype ParentCall = OnForward(roomIds: seq<string>, messageIds: seq<string>) | OnClose

  /** `new Set(xs)`: the distinct values, each at its first occurrence. */
  function Distinct(xs: seq<string>): (r: seq<string>)
    ensures NoDup(r)
    ensures forall x :: x in r <==> x in xs
    ensures |r| <= |xs|
  {
    if xs == [] then []
    else
      var d := Distinct(xs[..|xs| - 1]);
      var x := xs[|xs| - 1];
      if x in d then d else d + [x]
  }

  /** One fetched room, its type defaulting to 'group'. */
  function Listed(f: FetchedRoom): RoomEntry {
    RoomEntry(f.id, f.name, if f.roomType.Some? && f.roomType.value != "" then f.roomType.value else "group")
  }

  /** The rooms the dialog offers: the fetched rooms, without the current
      room when one is given, in fetched order. */
  function Offered(fetched: seq<FetchedRoom>, currentRoomId: Option<string>): (r: seq<RoomEntry>)
    ensures currentRoomId.Some? && currentRoomId.value != "" ==> forall e :: e in r ==> e.id != currentRoomId.value
    ensures forall f :: f in fetched && !(currentRoomId.Some? && currentRoomId.value != "" && f.id == currentRoomId.value)
                     ==> Listed(f) in r
    ensures forall e :: e in r ==> exists f :: f in fetched && Listed(f) == e
  {
    if fetched == [] then []
    else
      var rest := Offered(fetched[1..], currentRoomId);
      var f := fetched[0];
      assert forall e :: e in rest ==> exists g :: g in fetched && Listed(g) == e by {
        forall e | e in rest ensures exists g :: g in fetched && Listed(g) == e {
          var g :| g in fetched[1..] && Listed(g) == e;
          assert g in fetched;
        }
      }
      if currentRoomId.Some? && currentRoomId.value != "" && f.id == currentRoomId.value then rest
      else [Listed(f)] + rest
  }

  /** Every fetched room as listed, in fetched order. */
  function ListedAll(fetched: seq<FetchedRoom>): (r: seq<RoomEntry>)
    ensures |r| == |fetched| && forall i :: 0 <= i < |fetched| ==> r[i] == Listed(fetched[i])
  {
    if fetched == [] then [] else [Listed(fetched[0])] + ListedAll(fetched[1..])
  }

  /** Without a current room, every fetched room is offered, in order. */
  lemma {:induction false} OfferedAll(fetched: seq<FetchedRoom>)
    ensures Offered(fetched, None) == ListedAll(fetched)
  {
    if fetched != [] {
      var f, tail := fetched[0], fetched[1..];
      OfferedAll(tail);
      assert Offered(fetched, None) == [Listed(f)] + Offered(tail, None);
      assert ListedAll(fetched) == [Listed(f)] + ListedAll(tail);
    }
  }

  /** The toast `handleForward` shows instead of sending: no room first,
      then no message. */
  function ForwardRefusal(rooms: seq<string>, messages: seq<string>): (r: Option<string>)
    ensures r.None? <==> rooms != [] && messages != []
  {
    if rooms == [] then Some("Please select at least one room")
    else if messages == [] then Some("Please select at least one message")
    else None
  }

  /** The sample rooms the dialog falls back to when the room list request
      fails. Their ids are the digits 1 to 5, not room ObjectIds. */
  const SampleRooms: seq<RoomEntry> := [
    RoomEntry("1", "Marketing Team", "group"),
    RoomEntry("2", "John Doe", "private"),
    RoomEntry("3", "Product Development", "group"),
    RoomEntry("4", "Sarah Chen", "private"),
    RoomEntry("5", "Customer Support", "group")]

  /** The Forward button's `disabled`. */
  predicate ForwardDisabled(rooms: seq<string>, messages: seq<string>, isLoading: bool) {
    |rooms| == 0 || |messages| == 0 || isLoading
  }

  /** The button is enabled, when nothing is loading, exactly when the
      handler would send. */
  lemma ButtonMatchesGuard(rooms: seq<string>, messages: seq<string>)
    ensures !ForwardDisabled(rooms, messages, false) <==> ForwardRefusal(rooms, messages).None?
  {
  }

  /** The dialog's state. */
  class ForwardDialog {
    var selectedRooms: seq<string>
    var selectedMessages: seq<string>
    var customContent: string
    var isLoading: bool
    var rooms: seq<RoomEntry>

    predicate Valid()
      reads this
    {
      NoDup(selectedRooms) && NoDup(selectedMessages)
    }

    constructor (availableRooms: seq<RoomEntry>)
      ensures Valid() && selectedRooms == [] && selectedMessages == [] && customContent == ""
      ensures !isLoading && rooms == availableRooms
    {
      selectedRooms := [];
      selectedMessages := [];
      customContent := "";
      isLoading := false;
      rooms := availableRooms;
    }

    /** When messages are handed in, every one of them starts selected. */
    method SelectProvided(messageIds: seq<string>)
      requires Valid()
      modifies this`selectedMessages
      ensures Valid()
      ensures selectedMessages == if messageIds != [] then Distinct(messageIds) else old(selectedMessages)
    {
      if |messageIds| > 0 {
        selectedMessages := Distinct(messageIds);
      }
    }

    /** The fetched room list replaces the offered rooms. */
    method RoomsLoaded(fetched: seq<FetchedRoom>, currentRoomId: Option<string>)
      modifies this`rooms
      ensures rooms == Offered(fetched, currentRoomId)
    {
      rooms := Offered(fetched, currentRoomId);
    }

    /** A failed room list request: the toast, and the sample rooms in place
        of the offered ones, the current room not filtered out. */
    method RoomsFailed() returns (toast: string)
      modifies this`rooms
      ensures toast == "Failed to load available rooms"
      ensures rooms == SampleRooms
    {
      toast := "Failed to load available rooms";
      rooms := SampleRooms;
    }

    /** `handleRoomToggle` */
    method ToggleRoom(roomId: string)
      requires Valid()
      modifies this`selectedRooms
      ensures Valid() && selectedRooms == Toggle(old(selectedRooms), roomId)
    {
      ToggleNoDup(selectedRooms, roomId);
      selectedRooms := Toggle(selectedRooms, roomId);
    }

    /** `handleMessageToggle` */
    method ToggleMessage(messageId: string)
      requires Valid()
      modifies this`selectedMessages
      ensures Valid() && selectedMessages == Toggle(old(selectedMessages), messageId)
    {
      ToggleNoDup(selectedMessages, messageId);
      selectedMessages := Toggle(selectedMessages, messageId);
    }

    /** `handleForward`: a refusal sends nothing and changes nothing;
        otherwise the selections and the custom text (absent when empty) are
        sent, and after a successful request the parent's `onForward` (when
        there is one) is called with the same room and message ids, then its
        `onClose`, and both selections and the text are cleared. Loading is
        over either way. */
    method HandleForward(succeeded: bool, hasOnForward: bool)
      returns (request: Option<ForwardRequest>, refusal: Option<string>, calls: seq<ParentCall>)
      requires Valid()
      modifies this
      ensures Valid()
      ensures refusal == ForwardRefusal(old(selectedRooms), old(selectedMessages))
      ensures request.Some? <==> refusal.None?
      ensures request.Some? ==> request.value == ForwardRequest(old(selectedMessages), old(selectedRooms),
                                                               if old(customContent) == "" then None else Some(old(customContent)))
      ensures request.Some? && succeeded ==> selectedRooms == [] && selectedMessages == [] && customContent == ""
      ensures request.None? || !succeeded ==>
                selectedRooms == old(selectedRooms) && selectedMessages == old(selectedMessages) && customContent == old(customContent)
      ensures request.Some? ==> !isLoading
      ensures request.None? ==> isLoading == old(isLoading)
      ensures rooms == old(rooms)
      ensures calls == if request.Some? && succeeded
                       then (if hasOnForward then [OnForward(old(selectedRooms), old(selectedMessages))] else []) + [OnClose]
                       else []
      ensures request.Some? && succeeded && hasOnForward ==>
                calls[0] == OnForward(request.value.targetRoomIds, request.value.messageIds)
    {
      refusal := ForwardRefusal(selectedRooms, selectedMessages);
      if refusal.Some? {
        return None, refusal, [];
      }
      isLoading := true;
      request := Some(ForwardRequest(selectedMessages, selectedRooms, if customContent == "" then None else Some(customContent)));
      calls := [];
      if succeeded {
        calls := (if hasOnForward then [OnForward(selectedRooms, selectedMessages)] else []) + [OnClose];
        selectedRooms := [];
        selectedMessages := [];
        customContent := "";
      }
      isLoading := false;
    }
  }
}
