/** The client's editability test `isEditable` (discord-frontend/src/utils/time.ts).
    A timestamp string is parsed by `new Date`; the model receives the parse
    result, milliseconds since the epoch, or None for an unparsable string
    (an Invalid Date, whose time is NaN). The clock `new Date()` is the
    parameter `now`. */
module ClientTime {
  import opened Text
  import MessageController

  /** The default `limitMinutes`. */
  const DefaultLimitMinutes: int := 15

  /** `isEditable(timestamp, limitMinutes)`: the minutes elapsed since the
      timestamp, `(now - createdAt) / 1000 / 60`, are strictly below the
      limit. Every comparison with NaN is false, so an unparsable timestamp
      is never editable. */
  function IsEditable(createdAt: Option<int>, now: int, limitMinutes: int): (r: bool)
    ensures r <==> createdAt.Some? && now - createdAt.value < limitMinutes * 60000
  {
    createdAt.Some? && (now - createdAt.value) as real / 1000.0 / 60.0 < limitMinutes as real
  }

  /** A timestamp in the future is editable under any non-negative limit:
      its elapsed time is negative. */
  lemma FutureIsEditable(createdAt: int, now: int, limitMinutes: int)
    requires now < createdAt && 0 <= limitMinutes
    ensures IsEditable(Some(createdAt), now, limitMinutes)
  {
  }

  /** Editability only runs out: once a timestamp is past its limit, it stays
      past it at every later instant. */
  lemma EditableMonotone(createdAt: Option<int>, now: int, later: int, limitMinutes: int)
    requires now <= later
    ensures IsEditable(createdAt, later, limitMinutes) ==> IsEditable(createdAt, now, limitMinutes)
  {
  }

  /** The client offers editing strictly inside the server's window: whatever
      it offers the server accepts, but at exactly 15 minutes the server still
      accepts an edit the client no longer offers. */
  lemma ClientWindowInsideServerWindow(createdAt: int, now: int)
    ensures IsEditable(Some(createdAt), now, DefaultLimitMinutes) ==> MessageController.WithinEditWindow(createdAt, now)
    ensures var boundary := createdAt + MessageController.EditWindow;
            MessageController.WithinEditWindow(createdAt, boundary) && !IsEditable(Some(createdAt), boundary, DefaultLimitMinutes)
  {
    MessageController.EditWindowBoundary(createdAt, now);
    MessageController.EditWindowBoundary(createdAt, createdAt + MessageController.EditWindow);
  }
}
