/** `throttle(fn, limit)` of discord-frontend/src/utils/debounce.ts: a
    closure over `lastCall`, initially 0, that forwards a call to `fn` only
    when at least `limit` milliseconds have passed since the last forwarded
    call. `Date.now()` is the parameter `now` of each call. */
module Throttle {

  /** The last forwarded time, or 0 before any call was forwarded. */
  function LastOf(forwarded: seq<int>): int {
    if forwarded == [] then 0 else forwarded[|forwarded| - 1]
  }

  /** The times, out of the calls made at `calls` in order, that the
      throttle forwards. */
  function Forwarded(limit: int, calls: seq<int>): (f: seq<int>)
    ensures |f| <= |calls|
    ensures forall t :: t in f ==> t in calls
  {
    if calls == [] then []
    else
      var before := Forwarded(limit, calls[..|calls| - 1]);
      var now := calls[|calls| - 1];
      if now - LastOf(before) >= limit then before + [now] else before
  }

  /** Consecutive forwarded calls are at least `limit` apart, and the first
      is at least `limit` after time 0. */
  predicate Spaced(limit: int, f: seq<int>) {
    && (f != [] ==> f[0] >= limit)
    && forall i :: 0 <= i < |f| - 1 ==> f[i + 1] - f[i] >= limit
  }

  /** Whatever the clock does, the forwarded calls are spaced. */
  lemma {:induction false} ForwardedSpaced(limit: int, calls: seq<int>)
    ensures Spaced(limit, Forwarded(limit, calls))
  {
    if calls != [] {
      var before := Forwarded(limit, calls[..|calls| - 1]);
      ForwardedSpaced(limit, calls[..|calls| - 1]);
      var f := Forwarded(limit, calls);
      if f != before {
        assert forall i :: 0 <= i < |before| ==> f[i] == before[i];
      }
    }
  }

  /** Under a non-negative limit, any two forwarded calls, not only
      neighbours, are at least `limit` apart. */
  lemma {:induction false} SpacedPairwise(limit: int, f: seq<int>, i: int, j: int)
    requires 0 <= limit && Spaced(limit, f)
    requires 0 <= i < j < |f|
    ensures f[j] - f[i] >= limit
    decreases j - i
  {
    if j > i + 1 {
      SpacedPairwise(limit, f, i, j - 1);
    }
  }

  /** The first call is forwarded exactly when it is made at or after
      `limit` (milliseconds since the epoch, against `lastCall = 0`). */
  lemma FirstCall(limit: int, now: int)
    ensures Forwarded(limit, [now]) == (if now >= limit then [now] else [])
  {
    assert [now][..0] == [];
  }

  /** The closure's state. `calls` and `forwarded` record the calls made and
      the calls passed on to `fn`; the source keeps only `lastCall`. */
  class Throttled {
    const limit: int
    var lastCall: int
    var calls: seq<int>
    var forwarded: seq<int>

    predicate Valid()
      reads this
    {
      forwarded == Forwarded(limit, calls) && lastCall == LastOf(forwarded)
    }

    constructor (limit: int)
      ensures Valid() && this.limit == limit && lastCall == 0 && calls == [] && forwarded == []
    {
      this.limit := limit;
      lastCall := 0;
      calls := [];
      forwarded := [];
    }

    /** One call at time `now`: forwarded iff `now - lastCall >= limit`, and
        then `lastCall` becomes `now`; otherwise nothing changes but the
        record of calls. */
    method Call(now: int) returns (fired: bool)
      requires Valid()
      modifies this
      ensures Valid()
      ensures fired <==> now - old(lastCall) >= limit
      ensures lastCall == (if fired then now else old(lastCall))
      ensures calls == old(calls) + [now]
      ensures forwarded == (if fired then old(forwarded) + [now] else old(forwarded))
    {
      calls := calls + [now];
      assert calls[..|calls| - 1] == old(calls);
      fired := now - lastCall >= limit;
      if fired {
        lastCall := now;
        forwarded := forwarded + [now];
      }
    }
  }
}
