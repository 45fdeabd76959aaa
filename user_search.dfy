/** The user search of discord/controller/userController.js: the relevance
    score `calculateRelevanceScore`, the fuzzy pattern `searchUserFuzzy`
    hands to MongoDB, the part of the regular-expression language that
    pattern uses, and the handler. Letters compare without case over ASCII,
    as the `i` option and `toLowerCase` do there. */
module UserSearch {
  import opened Text
  import opened Ids
  import opened Collections
  import opened Lookup
  import opened UserModel
  import opened Database
  import opened AsyncHandler
  import opened ErrorHandler

  // ----- calculateRelevanceScore -----

  /** How many positions of `term` hold a character that occurs in `name`. */
  function CharHits(name: string, term: string): (m: nat)
    ensures m <= |term|
  {
    if term == [] then 0
    else CharHits(name, term[..|term| - 1]) + (if term[|term| - 1] in name then 1 else 0)
  }

  /** Every position is a hit exactly when every character of `term` occurs
      in `name`. */
  lemma {:induction false} CharHitsAll(name: string, term: string)
    ensures CharHits(name, term) == |term| <==> forall k :: 0 <= k < |term| ==> term[k] in name
  {
    if term != [] {
      var init := term[..|term| - 1];
      CharHitsAll(name, init);
      assert forall k :: 0 <= k < |init| ==> init[k] == term[k];
    }
  }

  /** The score of `username` for `searchTerm`, both lower-cased: 100 for
      equal strings, 80 for a prefix, 60 for a substring, and otherwise 40
      times the share of the term's positions whose character occurs in the
      name. An empty term is a prefix of every name, so the last case never
      divides by zero. */
  function RelevanceScore(username: string, searchTerm: string): real {
    var u, t := ToLower(username), ToLower(searchTerm);
    if u == t then 100.0
    else if StartsWith(u, t) then 80.0
    else if Includes(u, t) then 60.0
    else (CharHits(u, t) as real / |t| as real) * 40.0
  }

  /** `m / n * 40` is at most 40 for `m <= n`, and exactly 40 when `m == n`. */
  lemma ShareBounds(m: nat, n: nat)
    requires 0 < n && m <= n
    ensures 0.0 <= (m as real / n as real) * 40.0 <= 40.0
    ensures (m as real / n as real) * 40.0 == 40.0 <==> m == n
  {
    var q, mr, nr := m as real / n as real, m as real, n as real;
    assert q * nr == mr;
    if q < 0.0 {
      ProductSign(-q, nr);
      assert false;
    }
    if q > 1.0 {
      ProductSign(q - 1.0, nr);
      assert false;
    }
    if m != n {
      ProductSign(nr - mr, 1.0 / nr);
      assert q != 1.0;
    }
  }

  /** The product of two positive reals is positive. */
  lemma ProductSign(a: real, b: real)
    requires a > 0.0 && b > 0.0
    ensures a * b > 0.0
  {
  }

  /** The score bands: equality, prefix and substring each get their own
      score, and a name that does not contain the term scores at most 40,
      reaching 40 exactly when all of the term's characters occur in it. */
  lemma RelevanceBands(username: string, searchTerm: string)
    ensures var s, u, t := RelevanceScore(username, searchTerm), ToLower(username), ToLower(searchTerm);
      && 0.0 <= s <= 100.0
      && (s == 100.0 <==> u == t)
      && (s == 80.0 <==> u != t && StartsWith(u, t))
      && (s == 60.0 <==> !StartsWith(u, t) && Includes(u, t))
      && (!Includes(u, t) ==> s <= 40.0 && (s == 40.0 <==> forall k :: 0 <= k < |t| ==> t[k] in u))
  {
    var u, t := ToLower(username), ToLower(searchTerm);
    assert StartsWith(u, []);
    if StartsWith(u, t) {
      StartsWithIncludes(u, t);
    }
    if !Includes(u, t) {
      ShareBounds(CharHits(u, t), |t|);
      CharHitsAll(u, t);
    }
  }

  /** Lower-casing after upper-casing is lower-casing. */
  lemma LowerOfUpper(s: string)
    ensures ToLower(ToUpper(s)) == ToLower(s)
  {
    assert forall i :: 0 <= i < |s| ==> ToLower(ToUpper(s))[i] == ToLower(s)[i];
  }

  /** The score ignores case in both arguments. */
  lemma RelevanceIgnoresCase(username: string, searchTerm: string)
    ensures RelevanceScore(ToUpper(username), searchTerm) == RelevanceScore(username, searchTerm)
    ensures RelevanceScore(username, ToUpper(searchTerm)) == RelevanceScore(username, searchTerm)
  {
    LowerOfUpper(username);
    LowerOfUpper(searchTerm);
  }

  /** `calculateRelevanceScore(username, searchTerm)`, with its counting loop. */
  method CalculateRelevanceScore(username: string, searchTerm: string) returns (score: real)
    ensures score == RelevanceScore(username, searchTerm)
  {
    var lowerUsername := ToLower(username);
    var lowerSearchTerm := ToLower(searchTerm);
    if lowerUsername == lowerSearchTerm {
      return 100.0;
    }
    assert StartsWith(lowerUsername, []);
    if StartsWith(lowerUsername, lowerSearchTerm) {
      return 80.0;
    }
    if Includes(lowerUsername, lowerSearchTerm) {
      return 60.0;
    }
    var matches := 0;
    var i := 0;
    while i < |lowerSearchTerm|
      invariant i <= |lowerSearchTerm|
      invariant matches == CharHits(lowerUsername, lowerSearchTerm[..i])
    {
      assert lowerSearchTerm[..i + 1][..i] == lowerSearchTerm[..i];
      if lowerSearchTerm[i] in lowerUsername {
        matches := matches + 1;
      }
      i := i + 1;
    }
    assert lowerSearchTerm[..i] == lowerSearchTerm;
    score := (matches as real / |lowerSearchTerm| as real) * 40.0;
  }

  // ----- the fuzzy pattern -----

  /** The characters the class `[.*+?^${}()|[\]\\]` matches. */
  predicate IsRegexMeta(c: char) {
    c in ".*+?^${}()|[]\\"
  }

  /** One character through `replace(/[.*+?^${}()|[\]\\]/g, '\\$&')`: a
      metacharacter gets a backslash in front, any other stays as it is. */
  function EscapeChar(c: char): string {
    if IsRegexMeta(c) then ['\\', c] else [c]
  }

  /** `query.split('').map(escape).join('.*')` */
  function SearchPattern(query: string): string {
    Join(seq(|query|, i requires 0 <= i < |query| => EscapeChar(query[i])), ".*")
  }

  /** The pieces of the regular-expression language the pattern uses: a
      literal character, and `.*`. */
  datatype Token = Lit(c: char) | AnyRun

  function Prepend(t: Token, rest: Option<seq<Token>>): Option<seq<Token>> {
    if rest.Some? then Some([t] + rest.value) else None
  }

  /** How the engine reads a pattern, for this part of the language: a
      backslash before a metacharacter makes it literal, `.*` is a run of
      anything, and a character that is not a metacharacter stands for
      itself. Any other pattern is outside the part modelled (None). */
  function Parse(p: string): Option<seq<Token>>
    decreases |p|
  {
    if p == [] then Some([])
    else if |p| >= 2 && p[0] == '\\' && IsRegexMeta(p[1]) then Prepend(Lit(p[1]), Parse(p[2..]))
    else if |p| >= 2 && p[0] == '.' && p[1] == '*' then Prepend(AnyRun, Parse(p[2..]))
    else if !IsRegexMeta(p[0]) then Prepend(Lit(p[0]), Parse(p[1..]))
    else None
  }

  /** The expression a query is meant to become: its characters in order,
      as literals, with a run of anything between neighbours. */
  function Fuzzy(q: string): seq<Token> {
    if q == [] then []
    else if |q| == 1 then [Lit(q[0])]
    else [Lit(q[0]), AnyRun] + Fuzzy(q[1..])
  }

  /** The pattern of a query of two or more characters is its first
      escaped character, `.*`, and the pattern of the rest. */
  lemma SearchPatternCons(q: string)
    requires |q| >= 2
    ensures SearchPattern(q) == EscapeChar(q[0]) + ".*" + SearchPattern(q[1..])
  {
    var pieces := seq(|q|, i requires 0 <= i < |q| => EscapeChar(q[i]));
    assert pieces[1..] == seq(|q[1..]|, i requires 0 <= i < |q[1..]| => EscapeChar(q[1..][i]));
  }

  /** The engine reads an escaped character followed by `.*` as that
      character, literally, and a run of anything. */
  lemma ParseEscaped(c: char, rest: string)
    ensures Parse(EscapeChar(c) + ".*" + rest) == Prepend(Lit(c), Prepend(AnyRun, Parse(rest)))
  {
    var p := EscapeChar(c) + ".*" + rest;
    assert (".*" + rest)[2..] == rest;
    assert Parse(".*" + rest) == Prepend(AnyRun, Parse(rest));
    if IsRegexMeta(c) {
      assert p[2..] == ".*" + rest;
    } else {
      assert p[0] == c && c != '\\' && c != '.';
      assert p[1..] == ".*" + rest;
    }
  }

  /** Escaping works: the engine reads the pattern back as exactly the
      query's characters, each literal, joined by runs of anything —
      whatever metacharacters the query holds. */
  lemma {:induction false} ParseSearchPattern(q: string)
    ensures Parse(SearchPattern(q)) == Some(Fuzzy(q))
    decreases |q|
  {
    if |q| == 1 {
      var c := q[0];
      var e := EscapeChar(c);
      assert SearchPattern(q) == e;
      assert Parse(e) == Prepend(Lit(c), Parse([])) by {
        if IsRegexMeta(c) { assert e[2..] == []; } else { assert e[1..] == []; }
      }
      assert [Lit(c)] + [] == Fuzzy(q);
    } else if |q| >= 2 {
      SearchPatternCons(q);
      ParseSearchPattern(q[1..]);
      ParseEscaped(q[0], SearchPattern(q[1..]));
      assert [Lit(q[0])] + ([AnyRun] + Fuzzy(q[1..])) == Fuzzy(q);
    }
  }

  /** The expression matches at the start of `s`. Letters compare without
      case; `.` matches any character but a line feed. */
  predicate MatchesPrefix(ts: seq<Token>, s: string)
    decreases |ts|, |s|
  {
    if ts == [] then true
    else match ts[0]
      case Lit(c) => s != [] && LowerChar(s[0]) == LowerChar(c) && MatchesPrefix(ts[1..], s[1..])
      case AnyRun => MatchesPrefix(ts[1..], s) || (s != [] && s[0] != '\n' && MatchesPrefix(ts, s[1..]))
  }

  /** An unanchored search: a match starts somewhere in `s`. */
  predicate Finds(ts: seq<Token>, s: string) {
    exists k :: 0 <= k <= |s| && MatchesPrefix(ts, s[k..])
  }

  /** `{name: {$regex: pattern, $options: 'i'}}` for a pattern in the
      modelled part of the language. */
  predicate RegexFinds(pattern: string, s: string) {
    match Parse(pattern)
    case None => false
    case Some(ts) => Finds(ts, s)
  }

  /** The characters of `q` occur in `s` in the same order, letters compared
      without case. */
  predicate InOrder(q: string, s: string)
    decreases |s|
  {
    if q == [] then true
    else if s == [] then false
    else (LowerChar(s[0]) == LowerChar(q[0]) && InOrder(q[1..], s[1..])) || InOrder(q, s[1..])
  }

  /** `q` occurs in order in `s` with its first character at the start. */
  predicate InOrderHere(q: string, s: string) {
    q == [] || (s != [] && LowerChar(s[0]) == LowerChar(q[0]) && InOrder(q[1..], s[1..]))
  }

  /** In-order occurrence is in-order occurrence from some position on. */
  lemma {:induction false} InOrderSomewhere(q: string, s: string)
    ensures InOrder(q, s) <==> exists k :: 0 <= k <= |s| && InOrderHere(q, s[k..])
    decreases |s|
  {
    if q == [] {
      assert InOrderHere(q, s[0..]);
    } else if s == [] {
      assert forall k :: 0 <= k <= |s| ==> s[k..] == [];
    } else {
      InOrderSomewhere(q, s[1..]);
      assert forall k :: 1 <= k <= |s| ==> s[1..][k - 1..] == s[k..];
      if InOrder(q, s) {
        if InOrderHere(q, s) {
          assert s[0..] == s;
        } else {
          var k :| 0 <= k <= |s[1..]| && InOrderHere(q, s[1..][k..]);
          assert InOrderHere(q, s[k + 1..]);
        }
      }
      if exists k :: 0 <= k <= |s| && InOrderHere(q, s[k..]) {
        var k :| 0 <= k <= |s| && InOrderHere(q, s[k..]);
        if k == 0 {
          assert s[0..] == s;
        } else {
          assert InOrderHere(q, s[1..][k - 1..]);
        }
      }
    }
  }

  /** Without line feeds, a leading run of anything lets the rest match
      from any later position. */
  lemma {:induction false} RunMatches(ts: seq<Token>, s: string)
    requires '\n' !in s
    ensures MatchesPrefix([AnyRun] + ts, s) <==> exists k :: 0 <= k <= |s| && MatchesPrefix(ts, s[k..])
    decreases |s|
  {
    var r := [AnyRun] + ts;
    assert r[1..] == ts;
    if s == [] {
      assert forall k :: 0 <= k <= |s| ==> s[k..] == [];
      assert s[0..] == s;
    } else {
      RunMatches(ts, s[1..]);
      assert forall k :: 1 <= k <= |s| ==> s[1..][k - 1..] == s[k..];
      if MatchesPrefix(r, s) {
        if MatchesPrefix(ts, s) {
          assert s[0..] == s;
        } else {
          var k :| 0 <= k <= |s[1..]| && MatchesPrefix(ts, s[1..][k..]);
          assert MatchesPrefix(ts, s[k + 1..]);
        }
      }
      if exists k :: 0 <= k <= |s| && MatchesPrefix(ts, s[k..]) {
        var k :| 0 <= k <= |s| && MatchesPrefix(ts, s[k..]);
        if k == 0 {
          assert s[0..] == s;
        } else {
          assert MatchesPrefix(ts, s[1..][k - 1..]);
        }
      }
    }
  }

  /** Without line feeds, the query's expression matches at the start of `s`
      exactly when the query occurs in order there. */
  lemma {:induction false} FuzzyMatchesHere(q: string, s: string)
    requires '\n' !in s
    ensures MatchesPrefix(Fuzzy(q), s) <==> InOrderHere(q, s)
    decreases |q|
  {
    if |q| == 1 {
      assert Fuzzy(q)[1..] == [];
      assert q[1..] == [];
    } else if |q| >= 2 {
      var f := Fuzzy(q[1..]);
      assert Fuzzy(q)[1..] == [AnyRun] + f;
      if s != [] {
        var t := s[1..];
        RunMatches(f, t);
        InOrderSomewhere(q[1..], t);
        forall k | 0 <= k <= |t| ensures MatchesPrefix(f, t[k..]) <==> InOrderHere(q[1..], t[k..]) {
          FuzzyMatchesHere(q[1..], t[k..]);
        }
      }
    }
  }

  /** The search finds a name, when it holds no line feed, exactly when the
      query's characters occur in it in order, whatever they are. */
  lemma FuzzyFindsInOrder(q: string, name: string)
    requires '\n' !in name
    ensures RegexFinds(SearchPattern(q), name) <==> InOrder(q, name)
  {
    ParseSearchPattern(q);
    InOrderSomewhere(q, name);
    forall k | 0 <= k <= |name| ensures MatchesPrefix(Fuzzy(q), name[k..]) <==> InOrderHere(q, name[k..]) {
      FuzzyMatchesHere(q, name[k..]);
    }
  }

  // ----- searchUserFuzzy -----

  /** The ids, in storage order, of the users `keep` accepts: `User.find`
      with no sort. */
  function Where(users: seq<User>, keep: User -> bool, from: nat): (r: seq<UserId>)
    requires from <= |users|
    ensures forall k :: 0 <= k < |r| ==> from <= r[k] < |users| && keep(users[r[k]])
    ensures forall id :: from <= id < |users| && keep(users[id]) ==> id in r
    ensures forall i, j :: 0 <= i < j < |r| ==> r[i] < r[j]
    decreases |users| - from
  {
    if from == |users| then []
    else
      var rest := Where(users, keep, from + 1);
      if keep(users[from]) then ConsBelow(from, rest); [from] + rest else rest
  }

  /** The exact search: verified users whose name equals the query up to
      case. */
  predicate ExactHit(query: string, u: User) {
    u.isVerified && ToLower(u.name) == ToLower(query)
  }

  /** The fuzzy search: verified users whose name the pattern finds. */
  predicate FuzzyHit(query: string, u: User) {
    u.isVerified && RegexFinds(SearchPattern(query), u.name)
  }

  /** The ids the exact search selects, before the limit. */
  function ExactHits(users: seq<User>, query: string): seq<UserId> {
    Where(users, u => ExactHit(query, u), 0)
  }

  /** The ids the fuzzy search selects, before sorting. */
  function FuzzyHits(users: seq<User>, query: string): seq<UserId> {
    Where(users, u => FuzzyHit(query, u), 0)
  }

  /** The sort key: a user's relevance to the query. */
  function ScoreOf(users: seq<User>, query: string): UserId -> real {
    (id: UserId) => if id < |users| then RelevanceScore(users[id].name, query) else 0.0
  }

  /** `searchUserFuzzy` (the requester is already authenticated). A missing
      or empty query is a 400. The exact search answers the first 15 exact
      matches in storage order; the fuzzy search answers every fuzzy match,
      sorted by non-increasing relevance. An empty answer is sent with status
      404 (its envelope then says `success: false`), any other with 200. */
  method SearchUserFuzzy(db: Store, query: Option<string>, exact: Option<string>) returns (o: Outcome<seq<UserId>>)
    ensures query.None? || query == Some("") <==> RaisedWith(o, 400)
    ensures query.None? || query == Some("") ==> RaisedWithText(o, 400, "Query parameter is required")
    ensures query.Some? && query.value != "" && exact == Some("true") ==>
              var hits := ExactHits(db.users, query.value);
              o.Sent? && o.reply.body.Envelope? && o.reply.body.response.data == hits[..if |hits| < 15 then |hits| else 15]
    ensures query.Some? && query.value != "" && exact != Some("true") ==>
              var hits := FuzzyHits(db.users, query.value);
              && o.Sent? && o.reply.body.Envelope?
              && multiset(o.reply.body.response.data) == multiset(hits)
              && SortedDesc(o.reply.body.response.data, ScoreOf(db.users, query.value))
    ensures o.Sent? ==> o.reply.body.Envelope? && (o.reply.status == 404 <==> o.reply.body.response.data == [])
    ensures o.Sent? ==> o.reply.status == 404 || o.reply.status == 200
  {
    if query.None? || query.value == "" {
      return Throw(400, "Query parameter is required");
    }
    var q := query.value;
    var users := db.users;
    var found: seq<UserId>;
    if exact == Some("true") {
      var hits := ExactHits(users, q);
      found := hits[..if |hits| < 15 then |hits| else 15];
    } else {
      var hits := FuzzyHits(users, q);
      found := SortDesc(hits, ScoreOf(users, q));
    }
    if found == [] {
      return Send(404, found, "No users found matching the search criteria");
    }
    o := Send(200, found, "Found " + DecimalString(|found|) + " user(s) matching the search criteria");
  }
}
