/** The chat shell, discord-frontend/src/components/chat/ChatLayout.tsx: the
    sidebar's room list, the selected room, the sidebar toggle and the
    navigations the handlers start. */
module ChatLayout {
  import opened Text
  import opened Collections

  /** A room as the sidebar lists it. */
  datatype SidebarRoom = SidebarRoom(id: string, name: string)

  /** The ids of a room list, in order. */
  function RoomIds(rooms: seq<SidebarRoom>): (r: seq<string>)
    ensures |r| == |rooms| && forall i :: 0 <= i < |rooms| ==> r[i] == rooms[i].id
  {
    MapSeq(rooms, (room: SidebarRoom) => room.id)
  }

  /** The list after `new_room`: the room in front, unless a room with its
      id is already listed. */
  function WithNewRoom(rooms: seq<SidebarRoom>, room: SidebarRoom): (r: seq<SidebarRoom>)
    ensures room.id in RoomIds(rooms) ==> r == rooms
    ensures room.id !in RoomIds(rooms) ==> r == [room] + rooms
  {
    if room.id in RoomIds(rooms) then rooms else [room] + rooms
  }

  /** `new_room` never lists an id twice, and afterwards the id is listed
      exactly once. */
  lemma NewRoomNoDup(rooms: seq<SidebarRoom>, room: SidebarRoom)
    requires NoDup(RoomIds(rooms))
    ensures NoDup(RoomIds(WithNewRoom(rooms, room)))
    ensures multiset(RoomIds(WithNewRoom(rooms, room)))[room.id] == 1
  {
    var r := WithNewRoom(rooms, room);
    if room.id !in RoomIds(rooms) {
      assert RoomIds(r) == [room.id] + RoomIds(rooms);
    } else {
      NoDupCount(RoomIds(rooms), room.id);
    }
  }

  /** `handleRoomCreated` prepends without looking: a room that `new_room`
      already listed is then listed twice. The sequence is hard to reach as
      the components stand: a room created over HTTP (`createChatRoom`)
      emits no `new_room`, and a room created over the socket reaches
      `handleRoomCreated` only if the modal's `onCreateRoom` is called, which
      the participant picker's own `onCreateRoom` never does. */
  lemma CreatedAfterNewRoomDuplicates(rooms: seq<SidebarRoom>, room: SidebarRoom)
    requires room.id !in RoomIds(rooms)
    ensures multiset(RoomIds([room] + WithNewRoom(rooms, room)))[room.id] == 2
  {
    var r := [room] + WithNewRoom(rooms, room);
    assert RoomIds(r) == [room.id, room.id] + RoomIds(rooms);
    assert multiset(RoomIds(rooms))[room.id] == 0;
  }

  /** The shell's state. */
  class Layout {
    var rooms: seq<SidebarRoom>
    var selectedRoomId: Option<string>
    var sidebarOpen: bool
    var navigations: seq<string>

    constructor ()
      ensures rooms == [] && selectedRoomId.None? && !sidebarOpen && navigations == []
    {
      rooms := [];
      selectedRoomId := None;
      sidebarOpen := false;
      navigations := [];
    }

    /** `handleNewRoom(room)` for the signed-in user `me`: the room is listed
        once, and selected and opened only when `me` created it. */
    method HandleNewRoom(room: SidebarRoom, createdBy: string, me: string)
      modifies this`rooms, this`selectedRoomId, this`navigations
      ensures rooms == WithNewRoom(old(rooms), room)
      ensures createdBy == me ==> selectedRoomId == Some(room.id) && navigations == old(navigations) + ["/chat/" + room.id]
      ensures createdBy != me ==> selectedRoomId == old(selectedRoomId) && navigations == old(navigations)
    {
      rooms := WithNewRoom(rooms, room);
      if createdBy == me {
        selectedRoomId := Some(room.id);
        navigations := navigations + ["/chat/" + room.id];
      }
    }

    /** `handleRoomSelect(id)` */
    method HandleRoomSelect(id: string)
      modifies this`selectedRoomId, this`sidebarOpen
      ensures selectedRoomId == Some(id) && !sidebarOpen
    {
      selectedRoomId := Some(id);
      sidebarOpen := false;
    }

    /** `handleRoomCreated(room)`: always in front. */
    method HandleRoomCreated(room: SidebarRoom)
      modifies this`rooms
      ensures rooms == [room] + old(rooms)
    {
      rooms := [room] + rooms;
    }
  }
}
