/** The room information panel, discord-frontend/src/components/chat/ChatroomInfo.tsx:
    the initials shown for a name, where the member popup is placed, when
    the member list shows, and the removal request the popup sends. The
    element's rectangle and the window height are integer inputs. */
module ChatroomInfo {
  import opened Text
  import opened Ids
  import opened ChatRoomModel
  import SocketServer

  /** The first character of a word, or nothing for an empty word (`n[0]`
      is `undefined` there, which `join` writes as nothing). */
  function FirstChar(w: string): (r: string)
    ensures |r| <= 1 && (w != [] ==> r == [w[0]])
  {
    if w == [] then [] else [w[0]]
  }

  /** The first characters of the words, in order. */
  function FirstLetters(words: seq<string>): (r: string)
    ensures |r| <= |words|
    ensures (forall k :: 0 <= k < |words| ==> words[k] != []) ==>
              |r| == |words| && forall k :: 0 <= k < |words| ==> r[k] == words[k][0]
  {
    if words == [] then [] else FirstChar(words[0]) + FirstLetters(words[1..])
  }

  /** `getInitials(name)`: split on single spaces, first characters joined,
      upper-cased, at most two kept. */
  function Initials(name: string): (r: string)
    ensures |r| <= 2
  {
    var letters := ToUpper(FirstLetters(Split(name, ' ')));
    if |letters| <= 2 then letters else letters[..2]
  }

  /** A first and a last name give the upper-cased first letter of each. */
  lemma TwoWordInitials(first: string, last: string)
    requires first != [] && last != [] && ' ' !in first && ' ' !in last
    ensures Initials(first + " " + last) == [UpperChar(first[0]), UpperChar(last[0])]
  {
    var pieces := [first, last];
    assert Join(pieces, [' ']) == first + " " + last by {
      assert pieces[1..] == [last];
    }
    SplitJoin(pieces, ' ');
    assert FirstLetters(pieces) == [first[0]] + FirstLetters([last]);
    assert FirstLetters([last]) == [last[0]] + FirstLetters([]);
  }

  /** For any name made of non-empty words separated by single spaces, the
      initials are the upper-cased first letter of the first word, followed
      by that of the second word when there is one. */
  lemma WordInitials(ws: seq<string>)
    requires |ws| >= 1
    requires forall k :: 0 <= k < |ws| ==> ws[k] != [] && ' ' !in ws[k]
    ensures Initials(Join(ws, [' '])) ==
              [UpperChar(ws[0][0])] + (if |ws| >= 2 then [UpperChar(ws[1][0])] else [])
  {
    SplitJoin(ws, ' ');
    FirstTwoInitials(ws);
  }

  /** The initials of words already split: the upper-cased first letters of
      the first two. */
  lemma FirstTwoInitials(ws: seq<string>)
    requires |ws| >= 1
    requires forall k :: 0 <= k < |ws| ==> ws[k] != []
    ensures var letters := ToUpper(FirstLetters(ws));
            (if |letters| <= 2 then letters else letters[..2]) ==
              [UpperChar(ws[0][0])] + (if |ws| >= 2 then [UpperChar(ws[1][0])] else [])
  {
    var fl := FirstLetters(ws);
    var letters := ToUpper(fl);
    assert |letters| == |ws| && letters[0] == UpperChar(ws[0][0]);
    if |ws| >= 2 {
      assert letters[1] == UpperChar(ws[1][0]);
      assert letters[..2] == [letters[0], letters[1]];
    } else {
      assert letters == [letters[0]];
    }
  }

  /** The popup's size and its distance from the element and the edges. */
  const PopupWidth: int := 240
  const PopupHeight: int := 200
  const Padding: int := 12

  /** The member row's bounding rectangle. */
  datatype Rect = Rect(left: int, right: int, top: int)

  /** The placement in the row's context-menu handler: to the left of the
      row, flipped to its right when it would come closer than the padding
      to the window's left edge, and moved up when it would run past the
      bottom. A row without an element places nothing. */
  method PopupPosition(rect: Option<Rect>, innerHeight: int) returns (position: Option<(int, int)>)
    ensures position.Some? <==> rect.Some?
    ensures position.Some? ==> var (x, y) := position.value; var r := rect.value;
              && (r.left - PopupWidth - Padding >= Padding ==> x == r.left - PopupWidth - Padding)
              && (r.left - PopupWidth - Padding < Padding ==> x == r.right + Padding)
              && y <= r.top
              && (r.top + PopupHeight + Padding <= innerHeight ==> y == r.top)
              && (r.top + PopupHeight + Padding > innerHeight ==> y + PopupHeight + Padding == innerHeight)
  {
    if rect.None? {
      return None;
    }
    var x := rect.value.left - PopupWidth - Padding;
    var y := rect.value.top;
    if x < Padding {
      x := rect.value.right + Padding;
    }
    if y + PopupHeight + Padding > innerHeight {
      y := innerHeight - PopupHeight - Padding;
    }
    position := Some((x, y));
  }

  /** The member list shows for a group room with members only. */
  predicate MembersListShown(roomType: string, memberCount: nat) {
    roomType == "group" && memberCount > 0
  }

  /** The payload the popup's remove action emits: the room id and the
      member under the key `userId`. */
  function RemovePayload(userId: UserId): map<string, UserId> {
    map["userId" := userId]
  }

  /** The member the socket handler reads from a payload: the key
      `userIdToRemove`. */
  function RemoveTarget(payload: map<string, UserId>): (r: Option<UserId>)
    ensures r.Some? <==> "userIdToRemove" in payload
  {
    if "userIdToRemove" in payload then Some(payload["userIdToRemove"]) else None
  }

  /** The panel and the server disagree on the key, so every removal the
      panel asks for is refused, whoever asks and whoever is named. */
  lemma PanelRemovalAlwaysRefused(rooms: seq<Room>, me: UserId, roomId: RoomId, userId: UserId)
    ensures RemoveTarget(RemovePayload(userId)).None?
    ensures SocketServer.RemovalRefusal(rooms, me, roomId, RemoveTarget(RemovePayload(userId))).Some?
  {
    assert "userIdToRemove" != "userId" by {
      assert |"userIdToRemove"| != |"userId"|;
    }
  }
}
