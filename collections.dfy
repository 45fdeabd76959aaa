/** Sequence helpers for the array operations the program relies on:
    `some`/`includes`, `filter`, the JavaScript `Set` toggles, and a stable
    sort on a numeric key (`Array.prototype.sort` with a comparator). */
module Collections {

  /** Concatenation regroups freely (a step the solver finds costly in a
      large context). */
  lemma AppendAssoc<T>(a: seq<T>, b: seq<T>, c: seq<T>)
    ensures (a + b) + c == a + (b + c)
  {
  }

  /** `xs.map(f)`: each element's image, in order. The screens use it to
      project their entries onto ids. */
  function MapSeq<T, U>(xs: seq<T>, f: T -> U): (r: seq<U>)
    ensures |r| == |xs| && forall i :: 0 <= i < |xs| ==> r[i] == f(xs[i])
  {
    seq(|xs|, i requires 0 <= i < |xs| => f(xs[i]))
  }

  /** No value occurs twice. */
  predicate NoDup<T(==)>(s: seq<T>) {
    forall i, j :: 0 <= i < j < |s| ==> s[i] != s[j]
  }

  /** `s.filter(y => y !== x)`: every occurrence of `x` dropped. */
  function RemoveAll<T(==,!new)>(s: seq<T>, x: T): (r: seq<T>)
    ensures x !in r
    ensures forall y :: y != x ==> (y in r <==> y in s)
    ensures |r| <= |s|
    ensures multiset(r)[x] == 0
    ensures forall y :: y != x ==> multiset(r)[y] == multiset(s)[y]
  {
    if s == [] then []
    else
      assert s == [s[0]] + s[1..];
      if s[0] == x then RemoveAll(s[1..], x) else [s[0]] + RemoveAll(s[1..], x)
  }

  /** Removing a value that is absent changes nothing. */
  lemma {:induction false} RemoveAbsent<T(!new)>(s: seq<T>, x: T)
    requires x !in s
    ensures RemoveAll(s, x) == s
  {
    if s != [] {
      RemoveAbsent(s[1..], x);
    }
  }

  /** Removing a value from a duplicate-free sequence leaves it
      duplicate-free. */
  lemma {:induction false} RemoveAllNoDup<T(!new)>(s: seq<T>, x: T)
    requires NoDup(s)
    ensures NoDup(RemoveAll(s, x))
  {
    if s != [] {
      RemoveAllNoDup(s[1..], x);
      var rest := RemoveAll(s[1..], x);
      if s[0] != x {
        assert s[0] !in rest;
        assert forall j :: 0 < j < |[s[0]] + rest| ==> ([s[0]] + rest)[j] == rest[j - 1];
      }
    }
  }

  /** Toggling membership as the front end does with a `Set`: delete when
      present, add at the end when absent. */
  function Toggle<T(==,!new)>(s: seq<T>, x: T): (r: seq<T>)
    ensures x in r <==> x !in s
    ensures forall y :: y != x ==> (y in r <==> y in s)
  {
    if x in s then RemoveAll(s, x) else s + [x]
  }

  /** Toggling keeps a duplicate-free selection duplicate-free. */
  lemma ToggleNoDup<T(!new)>(s: seq<T>, x: T)
    requires NoDup(s)
    ensures NoDup(Toggle(s, x))
  {
    if x in s { RemoveAllNoDup(s, x); }
  }

  /** Toggling the same value twice restores the selection's members, and
      restores the selection itself when the value was absent. */
  lemma ToggleTwice<T(!new)>(s: seq<T>, x: T)
    ensures forall y :: y in Toggle(Toggle(s, x), x) <==> y in s
    ensures x !in s ==> Toggle(Toggle(s, x), x) == s
  {
    if x !in s {
      assert s + [x] != [] && (s + [x])[|s|] == x;
      RemoveAppendAbsent(s, x);
    }
  }

  lemma {:induction false} RemoveAppendAbsent<T(!new)>(s: seq<T>, x: T)
    requires x !in s
    ensures RemoveAll(s + [x], x) == s
  {
    if s == [] {
      assert [x] == [x] + [];
    } else {
      assert (s + [x])[1..] == s[1..] + [x];
      RemoveAppendAbsent(s[1..], x);
    }
  }

  /** Elements in non-increasing key order. */
  predicate SortedDesc<T>(s: seq<T>, key: T -> real) {
    forall i, j :: 0 <= i < j < |s| ==> key(s[i]) >= key(s[j])
  }

  /** Inserts `x` before the first element whose key is at most its own, so
      that of equal keys the inserted element comes first. */
  function InsertDesc<T>(x: T, s: seq<T>, key: T -> real): (r: seq<T>)
    requires SortedDesc(s, key)
    ensures multiset(r) == multiset(s) + multiset{x}
    ensures SortedDesc(r, key)
    ensures |r| == |s| + 1 && (r[0] == x || (s != [] && r[0] == s[0]))
  {
    if s == [] then [x]
    else if key(s[0]) > key(x) then
      var rest := InsertDesc(x, s[1..], key);
      assert s == [s[0]] + s[1..];
      SortedCons(s[0], rest, key);
      [s[0]] + rest
    else
      SortedCons(x, s, key);
      [x] + s
  }

  /** A sorted sequence stays sorted under a first element whose key is at
      least that of its head. */
  lemma SortedCons<T>(y: T, t: seq<T>, key: T -> real)
    requires SortedDesc(t, key) && (t == [] || key(y) >= key(t[0]))
    ensures SortedDesc([y] + t, key)
  {
    var r := [y] + t;
    forall i, j | 0 <= i < j < |r| ensures key(r[i]) >= key(r[j]) {
      assert r[j] == t[j - 1];
      if i > 0 { assert r[i] == t[i - 1]; }
    }
  }

  /** Insertion sort into non-increasing key order; elements with equal keys
      keep their input order, as with the engine's stable sort. The result is
      a permutation of the input, sorted. */
  function SortDesc<T>(s: seq<T>, key: T -> real): (r: seq<T>)
    ensures multiset(r) == multiset(s)
    ensures SortedDesc(r, key)
  {
    if s == [] then []
    else
      assert s == [s[0]] + s[1..];
      InsertDesc(s[0], SortDesc(s[1..], key), key)
  }

  /** A permutation of a duplicate-free sequence is duplicate-free. */
  lemma PermutationNoDup<T(!new)>(a: seq<T>, b: seq<T>)
    requires NoDup(a) && multiset(a) == multiset(b)
    ensures NoDup(b)
  {
    forall i, j | 0 <= i < j < |b| ensures b[i] != b[j] {
      if b[i] == b[j] {
        TwiceCounted(b, i, j);
        NoDupCount(a, b[i]);
      }
    }
  }

  /** A value at two positions occurs at least twice. */
  lemma TwiceCounted<T>(b: seq<T>, i: nat, j: nat)
    requires i < j < |b| && b[i] == b[j]
    ensures multiset(b)[b[i]] >= 2
  {
    var front, back := b[..j], b[j..];
    assert b == front + back;
    assert front[i] == b[i];
    assert back[0] == b[i];
    assert multiset(front)[b[i]] >= 1 && multiset(back)[b[i]] >= 1;
  }

  /** One step of `RemoveAll`, at the front. */
  lemma RemoveAllCons<T(!new)>(y: T, s: seq<T>, x: T)
    ensures RemoveAll([y] + s, x) == if y == x then RemoveAll(s, x) else [y] + RemoveAll(s, x)
  {
    assert ([y] + s)[1..] == s;
  }

  lemma {:induction false} NoDupCount<T(!new)>(a: seq<T>, x: T)
    requires NoDup(a)
    ensures multiset(a)[x] <= 1
  {
    if a != [] {
      assert a == [a[0]] + a[1..];
      assert NoDup(a[1..]) by {
        forall i, j | 0 <= i < j < |a[1..]| ensures a[1..][i] != a[1..][j] {
          assert a[1..][i] == a[i + 1] && a[1..][j] == a[j + 1];
        }
      }
      NoDupCount(a[1..], x);
      if a[0] == x {
        assert x !in a[1..] by {
          forall k | 0 <= k < |a[1..]| ensures a[1..][k] != x { assert a[1..][k] == a[k + 1]; }
        }
      }
    }
  }
}

module Lookup {
  import opened Collections

  /** The distinct values of a sequence. */
  function Elements(s: seq<nat>): set<nat> {
    set x | x in s
  }

  /** `Model.find({ _id: { $in: ids } })` over a collection of `n` documents
      numbered 0..n-1: each existing requested document once, in natural
      (storage) order, whatever the order or repetitions of the request. */
  function SelectIn(ids: seq<nat>, n: nat): (r: seq<nat>)
    ensures forall k :: 0 <= k < |r| ==> r[k] < n && r[k] in ids
    ensures forall x :: x < n && x in ids ==> x in r
    ensures forall i, j :: 0 <= i < j < |r| ==> r[i] < r[j]
  {
    SelectFrom(ids, 0, n)
  }

  function SelectFrom(ids: seq<nat>, lo: nat, n: nat): (r: seq<nat>)
    ensures forall k :: 0 <= k < |r| ==> lo <= r[k] < n && r[k] in ids
    ensures forall x :: lo <= x < n && x in ids ==> x in r
    ensures forall i, j :: 0 <= i < j < |r| ==> r[i] < r[j]
    decreases n - lo
  {
    if lo >= n then []
    else
      var rest := SelectFrom(ids, lo + 1, n);
      if lo !in ids then rest
      else
        ConsBelow(lo, rest);
        [lo] + rest
  }

  /** An increasing sequence stays increasing with a smaller first element. */
  lemma ConsBelow(lo: nat, rest: seq<nat>)
    requires forall k :: 0 <= k < |rest| ==> lo < rest[k]
    requires forall i, j :: 0 <= i < j < |rest| ==> rest[i] < rest[j]
    ensures forall i, j :: 0 <= i < j < |[lo] + rest| ==> ([lo] + rest)[i] < ([lo] + rest)[j]
  {
    var r := [lo] + rest;
    assert forall j :: 1 <= j < |r| ==> r[j] == rest[j - 1];
  }

  /** A sequence has at least as many positions as distinct values, and
      exactly as many when it has no duplicates. */
  lemma {:induction false} ElementsCount(s: seq<nat>)
    ensures |Elements(s)| <= |s|
    ensures |Elements(s)| == |s| <==> NoDup(s)
  {
    if s != [] {
      var t := s[1..];
      ElementsCount(t);
      assert Elements(s) == Elements(t) + {s[0]} by {
        assert forall x :: x in s <==> x == s[0] || x in t by {
          assert s == [s[0]] + t;
        }
      }
      assert NoDup(s) <==> NoDup(t) && s[0] !in t by {
        if NoDup(s) {
          forall i, j | 0 <= i < j < |t| ensures t[i] != t[j] { assert t[i] == s[i + 1] && t[j] == s[j + 1]; }
          assert s[0] !in t by {
            forall k | 0 <= k < |t| ensures t[k] != s[0] { assert t[k] == s[k + 1]; }
          }
        }
        if NoDup(t) && s[0] !in t {
          forall i, j | 0 <= i < j < |s| ensures s[i] != s[j] {
            assert s[j] == t[j - 1];
            if i > 0 { assert s[i] == t[i - 1]; }
          }
        }
      }
    }
  }

  /** The lookup returns as many documents as were requested exactly when
      the request names no id twice and every id exists. This is why the
      length comparisons of the controllers also refuse repeated ids. */
  lemma SelectInComplete(ids: seq<nat>, n: nat)
    ensures |SelectIn(ids, n)| == |ids| <==> NoDup(ids) && forall k :: 0 <= k < |ids| ==> ids[k] < n
  {
    var r := SelectIn(ids, n);
    var present := set x | x in ids && x < n;
    assert Elements(r) == present;
    assert present <= Elements(ids);
    ElementsCount(ids);
    ElementsCount(r);
    if forall k :: 0 <= k < |ids| ==> ids[k] < n {
      assert present == Elements(ids);
    } else {
      var k :| 0 <= k < |ids| && ids[k] >= n;
      var missing := Elements(ids) - present;
      assert ids[k] in missing;
      assert Elements(ids) == present + missing && present * missing == {};
    }
  }
}
