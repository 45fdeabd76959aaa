/** The message action menu, discord-frontend/src/components/chat/MessageInfo.tsx:
    the receipts it lists as delivered but not read, the actions it offers
    and what a click on each does. */
module MessageInfo {
  import opened Text
  import ClientTime
  import MessageController

  /** A receipt as the menu shows it. */
  datatype UserStatus = UserStatus(name: string, timestamp: string)

  /** The menu's actions. */
  datatype MenuAction = Edit | Reply | Copy | Forward | Star | Delete | Share | Info

  /** What a click does: the callback it calls, if any, whether it copies
      the text, and whether it closes the menu. */
  datatype ClickEffect = ClickEffect(callback: Option<MenuAction>, copies: bool, closes: bool)

  /** What the menu shows when open. */
  datatype Menu = Menu(stillDeliveredTo: seq<UserStatus>, actions: seq<MenuAction>)

  /** Some read receipt carries this name. */
  predicate ReadByName(readBy: seq<UserStatus>, name: string) {
    exists r :: r in readBy && r.name == name
  }

  /** `stillDeliveredTo`: the delivery receipts whose name has no read
      receipt, in order. */
  function StillDeliveredTo(deliveredTo: seq<UserStatus>, readBy: seq<UserStatus>): (r: seq<UserStatus>)
    ensures forall d :: d in r <==> d in deliveredTo && !ReadByName(readBy, d.name)
    ensures |r| <= |deliveredTo|
  {
    if deliveredTo == [] then []
    else
      var rest := StillDeliveredTo(deliveredTo[1..], readBy);
      if ReadByName(readBy, deliveredTo[0].name) then rest else [deliveredTo[0]] + rest
  }

  /** The actions offered after the optional Edit, always, in this order. */
  const FixedActions: seq<MenuAction> := [Reply, Copy, Forward, Star, Delete, Share, Info]

  /** The action list: Edit first, for the user's own message while it is
      editable, then the fixed actions. `shownAt` is the parsed `timestamp`
      prop, the time the chat room hands over for the message. */
  function Actions(isOwn: bool, shownAt: Option<int>, now: int): (r: seq<MenuAction>)
    ensures Edit in r <==> isOwn && ClientTime.IsEditable(shownAt, now, ClientTime.DefaultLimitMinutes)
    ensures Edit in r ==> r == [Edit] + FixedActions
    ensures Edit !in r ==> r == FixedActions
  {
    (if isOwn && ClientTime.IsEditable(shownAt, now, ClientTime.DefaultLimitMinutes) then [Edit] else []) + FixedActions
  }

  /** The time the chat room hands the menu, `msg.timestamp || msg.createdAt`
      parsed: the creation time, until a `message_edited` event has set
      `timestamp` to the edit time. */
  function ShownTime(createdAt: int, editedAt: Option<int>): Option<int> {
    if editedAt.Some? then Some(editedAt.value) else Some(createdAt)
  }

  /** On a message not edited since it was loaded or received, the menu
      offers Edit only while the server would still let its sender edit. */
  lemma EditOfferedOnlyInServerWindow(isOwn: bool, createdAt: int, now: int)
    requires Edit in Actions(isOwn, ShownTime(createdAt, None), now)
    ensures MessageController.WithinEditWindow(createdAt, now)
  {
    ClientTime.ClientWindowInsideServerWindow(createdAt, now);
  }

  /** After an edit the menu measures from the edit time while the server
      measures from the creation time: a message created at minute 0 and
      edited at minute 14 is still offered Edit at minute 20, and the server
      refuses the edit. */
  lemma EditedMessageOfferedPastServerWindow()
    ensures var createdAt, editedAt, now := 0, 14 * 60000, 20 * 60000;
            && Edit in Actions(true, ShownTime(createdAt, Some(editedAt)), now)
            && !MessageController.WithinEditWindow(createdAt, now)
  {
  }

  /** A click: Copy copies the text and calls nothing; every other action
      calls `onAction` with itself; every click closes the menu. */
  function Click(a: MenuAction): (e: ClickEffect)
    ensures e.closes
    ensures e.copies <==> a == Copy
    ensures e.callback.None? <==> a == Copy
    ensures e.callback.Some? ==> e.callback.value == a
  {
    if a == Copy then ClickEffect(None, true, true) else ClickEffect(Some(a), false, true)
  }

  /** The component: nothing when closed. */
  function Render(isOpen: bool, deliveredTo: seq<UserStatus>, readBy: seq<UserStatus>,
                  isOwn: bool, shownAt: Option<int>, now: int): (r: Option<Menu>)
    ensures r.None? <==> !isOpen
    ensures r.Some? ==> r.value == Menu(StillDeliveredTo(deliveredTo, readBy), Actions(isOwn, shownAt, now))
  {
    if !isOpen then None else Some(Menu(StillDeliveredTo(deliveredTo, readBy), Actions(isOwn, shownAt, now)))
  }
}
