/** String helpers shared by the back end and the front end: the JavaScript
    `trim`, case mapping, `startsWith`/`includes`, `split`/`join` on one
    character, and `replace` with a string pattern (first occurrence only).
    Case mapping covers ASCII letters only. */
module Text {

  /** The characters JavaScript's `String.prototype.trim` removes
      (WhiteSpace and LineTerminator of ECMA-262). */
  predicate IsWhitespace(c: char) {
    c == ' ' || c == '\t' || c == '\n' || c == '\r' || c == '\U{0B}' || c == '\U{0C}'
    || c == '\U{A0}' || c == '\U{FEFF}' || c == '\U{1680}' || ('\U{2000}' <= c <= '\U{200A}')
    || c == '\U{2028}' || c == '\U{2029}' || c == '\U{202F}' || c == '\U{205F}' || c == '\U{3000}'
  }

  /** The number of whitespace characters `s` starts with. */
  function LeadingSpace(s: string): (k: nat)
    ensures k <= |s|
    ensures forall i :: 0 <= i < k ==> IsWhitespace(s[i])
    ensures k < |s| ==> !IsWhitespace(s[k])
  {
    if s != [] && IsWhitespace(s[0]) then 1 + LeadingSpace(s[1..]) else 0
  }

  /** The length of `s` without the whitespace it ends with. */
  function TrailingStart(s: string): (k: nat)
    ensures k <= |s|
    ensures forall i :: k <= i < |s| ==> IsWhitespace(s[i])
    ensures 0 < k ==> !IsWhitespace(s[k - 1])
  {
    if s != [] && IsWhitespace(s[|s| - 1]) then TrailingStart(s[..|s| - 1]) else |s|
  }

  /** Drops leading whitespace: the suffix of `s` that starts at its first
      non-whitespace character. */
  function TrimStart(s: string): string {
    s[LeadingSpace(s)..]
  }

  /** Drops trailing whitespace: the prefix of `s` that ends at its last
      non-whitespace character. */
  function TrimEnd(s: string): string {
    s[..TrailingStart(s)]
  }

  /** `s.trim()` */
  function Trim(s: string): string {
    TrimEnd(TrimStart(s))
  }

  /** `!s.trim()`: nothing but whitespace (or nothing at all). */
  predicate IsBlank(s: string) {
    Trim(s) == []
  }

  /** A string is blank exactly when every character is whitespace. */
  lemma BlankIffAllWhitespace(s: string)
    ensures IsBlank(s) <==> forall i :: 0 <= i < |s| ==> IsWhitespace(s[i])
  {
    var t := TrimStart(s);
    if t != [] {
      assert s[|s| - |t|] == t[0];
      assert |TrimEnd(t)| > 0 by { assert !IsWhitespace(t[0]); }
    }
  }

  /** A string that neither starts nor ends with whitespace is its own trim. */
  lemma TrimFixedPoint(s: string)
    requires s == [] || (!IsWhitespace(s[0]) && !IsWhitespace(s[|s| - 1]))
    ensures Trim(s) == s
  {
  }

  /** Neither starts nor ends with whitespace: what `trim` leaves. */
  predicate IsTrimmed(s: string) {
    s == [] || (!IsWhitespace(s[0]) && !IsWhitespace(s[|s| - 1]))
  }

  /** The result of `trim` is trimmed, and a trimmed string is its own trim. */
  lemma TrimmedIffFixedPoint(s: string)
    ensures IsTrimmed(Trim(s))
    ensures IsTrimmed(s) <==> Trim(s) == s
  {
    var t := TrimStart(s);
    var r := Trim(s);
    if r != [] {
      assert r == t[..|r|];
      assert r[0] == t[0];
    }
    if IsTrimmed(s) { TrimFixedPoint(s); }
  }

  /** Trimming twice is trimming once. */
  lemma TrimIdempotent(s: string)
    ensures Trim(Trim(s)) == Trim(s)
  {
    var r := Trim(s);
    var t := TrimStart(s);
    if r != [] {
      assert r == t[..|r|];
      assert r[0] == t[0];
    }
    TrimFixedPoint(r);
  }

  function LowerChar(c: char): char {
    if 'A' <= c <= 'Z' then (c as int + 32) as char else c
  }

  function UpperChar(c: char): char {
    if 'a' <= c <= 'z' then (c as int - 32) as char else c
  }

  /** `s.toLowerCase()` for ASCII letters. */
  function ToLower(s: string): (r: string)
    ensures |r| == |s|
  {
    seq(|s|, i requires 0 <= i < |s| => LowerChar(s[i]))
  }

  /** `s.toUpperCase()` for ASCII letters. */
  function ToUpper(s: string): (r: string)
    ensures |r| == |s|
  {
    seq(|s|, i requires 0 <= i < |s| => UpperChar(s[i]))
  }

  /** `s.startsWith(p)` */
  predicate StartsWith(s: string, p: string) {
    |p| <= |s| && s[..|p|] == p
  }

  /** `p` occurs in `s` at position `i`. */
  predicate OccursAt(s: string, p: string, i: int) {
    0 <= i && i + |p| <= |s| && s[i..i + |p|] == p
  }

  /** `s.includes(p)` */
  predicate Includes(s: string, p: string) {
    exists i :: 0 <= i <= |s| && OccursAt(s, p, i)
  }

  /** A prefix is in particular a substring. */
  lemma StartsWithIncludes(s: string, p: string)
    requires StartsWith(s, p)
    ensures Includes(s, p)
  {
    assert OccursAt(s, p, 0);
  }

  /** Index of the first occurrence of `p` in `s`, if any. */
  function FindFirst(s: string, p: string): (r: Option<nat>)
    ensures r.Some? ==> OccursAt(s, p, r.value)
    ensures r.Some? ==> forall j :: 0 <= j < r.value ==> !OccursAt(s, p, j)
    ensures r.None? ==> forall j :: !OccursAt(s, p, j)
  {
    if |s| < |p| then None
    else if s[..|p|] == p then Some(0)
    else
      var rest := FindFirst(s[1..], p);
      assert forall j :: 1 <= j ==> (OccursAt(s, p, j) <==> OccursAt(s[1..], p, j - 1)) by {
        forall j | 1 <= j ensures OccursAt(s, p, j) <==> OccursAt(s[1..], p, j - 1) {
          if j + |p| <= |s| {
            var a, b := s[j..j + |p|], s[1..][j - 1..j - 1 + |p|];
            assert forall k :: 0 <= k < |p| ==> a[k] == b[k];
            assert a == b;
          }
        }
      }
      if rest.None? then None else Some(rest.value + 1)
  }

  datatype Option<T> = None | Some(value: T)

  /** An optional string JavaScript treats as true: present and not empty
      (`undefined` and `""` are what `||` passes over). */
  predicate Truthy(s: Option<string>) {
    s.Some? && s.value != ""
  }

  /** `s.replace(p, q)` with a string pattern: only the first occurrence of `p`
      is replaced; without one, `s` comes back unchanged. */
  function ReplaceFirst(s: string, p: string, q: string): string {
    match FindFirst(s, p)
    case None => s
    case Some(i) => s[..i] + q + s[i + |p|..]
  }

  /** Index of the first occurrence of a character. */
  function IndexOf(s: string, c: char): (i: nat)
    requires c in s
    ensures i < |s| && s[i] == c && c !in s[..i]
  {
    if s[0] == c then 0 else IndexOf(s[1..], c) + 1
  }

  /** `s.split(sep)` for a one-character separator: the pieces between the
      separators, in order; a string without the separator is one piece. */
  function Split(s: string, sep: char): (r: seq<string>)
    ensures |r| >= 1
    ensures forall k :: 0 <= k < |r| ==> sep !in r[k]
    decreases |s|
  {
    if sep !in s then [s]
    else
      var i := IndexOf(s, sep);
      [s[..i]] + Split(s[i + 1..], sep)
  }

  /** `pieces.join(sep)` for a one-character separator. */
  function Join(pieces: seq<string>, sep: string): string {
    if |pieces| == 0 then ""
    else if |pieces| == 1 then pieces[0]
    else pieces[0] + sep + Join(pieces[1..], sep)
  }

  /** Splitting and joining again on the same character gives back the
      original string. */
  lemma {:induction false} JoinSplit(s: string, sep: char)
    ensures Join(Split(s, sep), [sep]) == s
    decreases |s|
  {
    if sep in s {
      var i := IndexOf(s, sep);
      var rest := Split(s[i + 1..], sep);
      JoinSplit(s[i + 1..], sep);
      assert Split(s, sep) == [s[..i]] + rest;
      assert s == s[..i] + [sep] + s[i + 1..];
    }
  }
  /** Joining pieces that do not contain the separator and splitting again
      gives back the pieces. */
  lemma {:induction false} SplitJoin(pieces: seq<string>, sep: char)
    requires |pieces| >= 1
    requires forall k :: 0 <= k < |pieces| ==> sep !in pieces[k]
    ensures Split(Join(pieces, [sep]), sep) == pieces
    decreases |pieces|
  {
    if |pieces| > 1 {
      var rest := Join(pieces[1..], [sep]);
      var s := pieces[0] + [sep] + rest;
      assert Join(pieces, [sep]) == s;
      assert s[|pieces[0]|] == sep && s[..|pieces[0]|] == pieces[0];
      assert IndexOf(s, sep) == |pieces[0]|;
      assert s[|pieces[0]| + 1..] == rest;
      SplitJoin(pieces[1..], sep);
      assert pieces == [pieces[0]] + pieces[1..];
    }
  }

  /** Whitespace in front of a trimmed, non-empty string is all that `trim`
      removes. */
  lemma TrimPadded(w: string, t: string)
    requires forall i :: 0 <= i < |w| ==> IsWhitespace(w[i])
    requires t != [] && IsTrimmed(t)
    ensures Trim(w + t) == t
  {
    var s := w + t;
    assert forall i :: 0 <= i < |w| ==> s[i] == w[i];
    assert s[|w|] == t[0];
    assert LeadingSpace(s) == |w|;
    assert TrimStart(s) == t;
    assert !IsWhitespace(t[|t| - 1]);
    assert TrailingStart(t) == |t|;
  }
}
