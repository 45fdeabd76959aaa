/** The menu state hook, discord-frontend/src/hooks/useMessageInfo.ts: the
    record `openMessageInfo` replaces and `closeMessageInfo` updates. The
    position is given (the float midpoint of the clicked element is not
    modelled). */
module UseMessageInfo {
  import opened Text
  import opened MessageInfo

  /** `MessageInfoState` */
  datatype InfoState = InfoState(
    isOpen: bool, x: int, y: int, messageId: string, message: string,
    deliveredTo: seq<UserStatus>, readBy: seq<UserStatus>, timestamp: string,
    isDeleted: bool, deletedFor: seq<string>)

  /** The state the hook starts in: closed, with empty fields. */
  const Initial: InfoState := InfoState(false, 0, 0, "", "", [], [], "", false, [])

  /** An optional argument with its default. */
  function Or<T>(o: Option<T>, default: T): (r: T)
    ensures o.Some? ==> r == o.value
    ensures o.None? ==> r == default
  {
    if o.Some? then o.value else default
  }

  class MessageInfoHook {
    var info: InfoState

    constructor ()
      ensures info == Initial && !info.isOpen
    {
      info := Initial;
    }

    /** `openMessageInfo(...)`: the whole record is replaced, open, with the
        given fields; omitted lists default to empty and `isDeleted` to
        false. */
    method Open(x: int, y: int, messageId: string, message: string,
                deliveredTo: Option<seq<UserStatus>>, readBy: Option<seq<UserStatus>>, timestamp: string,
                isDeleted: Option<bool>, deletedFor: Option<seq<string>>)
      modifies this
      ensures info.isOpen && info.x == x && info.y == y
      ensures info.messageId == messageId && info.message == message && info.timestamp == timestamp
      ensures info.deliveredTo == Or(deliveredTo, []) && info.readBy == Or(readBy, [])
      ensures info.isDeleted == Or(isDeleted, false) && info.deletedFor == Or(deletedFor, [])
    {
      info := InfoState(true, x, y, messageId, message, Or(deliveredTo, []), Or(readBy, []), timestamp,
                        Or(isDeleted, false), Or(deletedFor, []));
    }

    /** `closeMessageInfo()`: closed, every other field kept. */
    method Close()
      modifies this
      ensures !info.isOpen && info == old(info).(isOpen := false)
    {
      info := info.(isOpen := false);
    }
  }
}
