/** The socket.io handshake (`authenticateSocket` in
    discord/sockets/socket.js): the Cookie header is parsed into an object,
    and its `accessToken` is verified like the HTTP middleware's token.
    `decodeURIComponent` and `jwt.verify` are parameters. */
module SocketAuth {
  import opened Text
  import opened Ids
  import opened UserModel
  import opened AuthMiddleware

  /** One `name=value` piece of the Cookie header; `raw` is `None` when the
      piece has no `=`, which destructuring turns into `undefined`. */
  datatype Cookie = Cookie(name: string, raw: Option<string>)

  /** `const [k, v] = c.trim().split('=')`: the text before the first `=`
      and the text between the first and a second `=`; anything after a
      second `=` is dropped. */
  function CookieOf(piece: string): (c: Cookie)
    ensures '=' !in c.name && (c.raw.Some? ==> '=' !in c.raw.value)
    ensures c.raw.None? <==> '=' !in Trim(piece)
  {
    var parts := Split(Trim(piece), '=');
    if '=' in Trim(piece) then
      assert |parts| >= 2 by {
        var i := IndexOf(Trim(piece), '=');
        assert parts == [Trim(piece)[..i]] + Split(Trim(piece)[i + 1..], '=');
      }
      Cookie(parts[0], Some(parts[1]))
    else
      Cookie(parts[0], None)
  }

  /** `decodeURIComponent(v)`: `decode` is `None` where the function throws
      (a malformed escape); `decodeURIComponent(undefined)` is the string
      "undefined". */
  function Decoded(raw: Option<string>, decode: string -> Option<string>): Option<string> {
    if raw.None? then Some("undefined") else decode(raw.value)
  }

  /** The `[k, decoded v]` entries of every piece, or `None` when decoding
      any one of them throws. */
  function DecodeAll(cs: seq<Cookie>, decode: string -> Option<string>): (r: Option<seq<(string, string)>>)
    ensures r.Some? <==> forall i :: 0 <= i < |cs| ==> Decoded(cs[i].raw, decode).Some?
    ensures r.Some? ==> |r.value| == |cs|
    ensures r.Some? ==> forall i :: 0 <= i < |cs| ==> r.value[i] == (cs[i].name, Decoded(cs[i].raw, decode).value)
  {
    if cs == [] then Some([])
    else
      var head := Decoded(cs[0].raw, decode);
      var rest := DecodeAll(cs[1..], decode);
      assert forall i :: 1 <= i < |cs| ==> cs[i] == cs[1..][i - 1];
      if head.None? || rest.None? then None
      else Some([(cs[0].name, head.value)] + rest.value)
  }

  /** Entry `i` is the last one with its name. */
  predicate LastOfName(es: seq<(string, string)>, i: nat)
    requires i < |es|
  {
    forall j :: i < j < |es| ==> es[j].0 != es[i].0
  }

  /** The names the entries give. */
  function Names(es: seq<(string, string)>): set<string> {
    set i | 0 <= i < |es| :: es[i].0
  }

  /** `Object.fromEntries(entries)`: every name maps to the value of its
      last entry. */
  function FromEntries(es: seq<(string, string)>): (m: map<string, string>)
    ensures m.Keys == Names(es)
    ensures forall i :: 0 <= i < |es| && LastOfName(es, i) ==> m[es[i].0] == es[i].1
  {
    if es == [] then map[]
    else
      var front := es[..|es| - 1];
      var init := FromEntries(front);
      var last := es[|es| - 1];
      NamesSnoc(es);
      var m := init[last.0 := last.1];
      forall i | 0 <= i < |es| && LastOfName(es, i) ensures m[es[i].0] == es[i].1 {
        if i < |es| - 1 {
          LastOfFront(es, i);
          assert front[i] == es[i];
        }
      }
      m
  }

  /** The names of a list are those of its front and that of its last entry. */
  lemma NamesSnoc(es: seq<(string, string)>)
    requires es != []
    ensures Names(es) == Names(es[..|es| - 1]) + {es[|es| - 1].0}
  {
    var front := es[..|es| - 1];
    forall i | 0 <= i < |front| ensures front[i] == es[i] { }
  }

  /** An entry that is the last of its name, before the final entry, is
      named differently from it and is the last of its name in the front. */
  lemma LastOfFront(es: seq<(string, string)>, i: nat)
    requires i < |es| - 1 && LastOfName(es, i)
    ensures es[i].0 != es[|es| - 1].0 && LastOfName(es[..|es| - 1], i)
  {
    var front := es[..|es| - 1];
    forall j | i < j < |front| ensures front[j].0 != front[i].0 {
      assert front[j] == es[j] && front[i] == es[i];
    }
  }

  /** The pieces of a Cookie header, split on `;`. */
  function Pieces(header: string): (cs: seq<Cookie>)
    ensures |cs| == |Split(header, ';')|
    ensures forall i :: 0 <= i < |cs| ==> cs[i] == CookieOf(Split(header, ';')[i])
  {
    var ps := Split(header, ';');
    seq(|ps|, i requires 0 <= i < |ps| => CookieOf(ps[i]))
  }

  /** The `cookies` object the handshake builds, or `None` when building it
      throws. */
  function ParseCookies(header: string, decode: string -> Option<string>): Option<map<string, string>> {
    var es := DecodeAll(Pieces(header), decode);
    if es.None? then None else Some(FromEntries(es.value))
  }

  /** How the handshake ends: `next()` with the socket bound to a user, or
      `next(new Error(reason))`. */
  datatype Handshake = Accepted(user: UserId) | Rejected(reason: string)

  const AuthError: string := "Authentication error"
  const NoTokenError: string := "Authentication error: No token found in cookies"
  const NoUserError: string := "Authentication error: User not found"

  /** `authenticateSocket`: the `accessToken` cookie must be present and
      non-empty, `jwt.verify` must accept it, and its `_id` must name a
      stored user. Any throw on the way (a cookie that does not decode, a
      token that does not verify) ends in the bare "Authentication error". */
  function AuthenticateSocket(cookie: Option<string>, decode: string -> Option<string>,
                              verify: string -> Option<Claims>, users: seq<User>): (h: Handshake)
    ensures h.Accepted? <==>
              var cookies := ParseCookies(if cookie.Some? then cookie.value else "", decode);
              && cookies.Some? && "accessToken" in cookies.value && cookies.value["accessToken"] != ""
              && var claims := verify(cookies.value["accessToken"]);
                 claims.Some? && claims.value.id.Some? && claims.value.id.value < |users|
    ensures h.Accepted? ==>
              var token := ParseCookies(if cookie.Some? then cookie.value else "", decode).value["accessToken"];
              verify(token) == Some(Claims(Some(h.user)))
    ensures h.Rejected? ==> h.reason in {AuthError, NoTokenError, NoUserError}
  {
    var cookies := ParseCookies(if cookie.Some? then cookie.value else "", decode);
    if cookies.None? then Rejected(AuthError)
    else if "accessToken" !in cookies.value || cookies.value["accessToken"] == "" then Rejected(NoTokenError)
    else
      var claims := verify(cookies.value["accessToken"]);
      if claims.None? then Rejected(AuthError)
      else if claims.value.id.None? || claims.value.id.value >= |users| then Rejected(NoUserError)
      else Accepted(claims.value.id.value)
  }

  /** A cookie name or value the browser sends back unchanged: no `;` and
      no `=`, and no whitespace at either end. */
  predicate CookieSafe(s: string) {
    ';' !in s && '=' !in s && IsTrimmed(s)
  }

  /** The `i`-th piece of a Cookie header as browsers write it: `name=value`,
      after a space unless it is the first. */
  function CookieItem(pairs: seq<(string, string)>, i: nat): string
    requires i < |pairs|
  {
    (if i == 0 then "" else " ") + pairs[i].0 + "=" + pairs[i].1
  }

  /** The header `a=1; b=2; ...` for the given cookies. */
  function CookieHeader(pairs: seq<(string, string)>): string {
    Join(seq(|pairs|, i requires 0 <= i < |pairs| => CookieItem(pairs, i)), ";")
  }

  /** `name=value` for a safe name and value is trimmed, holds no `;`, and
      splits on `=` into the name and the value. */
  lemma PairText(k: string, v: string)
    requires CookieSafe(k) && CookieSafe(v)
    ensures var t := k + "=" + v;
            t != [] && IsTrimmed(t) && ';' !in t && Split(t, '=') == [k, v]
  {
    var t := k + "=" + v;
    assert t == k + ['='] + v;
    assert t[|k|] == '=';
    if k != [] { assert t[0] == k[0]; } else { assert t[0] == '='; }
    if v != [] { assert t[|t| - 1] == v[|v| - 1]; } else { assert t[|t| - 1] == '='; }
    assert Join([k, v], ['=']) == t;
    SplitJoin([k, v], '=');
  }

  /** One piece of a well-formed header parses back into its cookie. */
  lemma CookieItemParses(pairs: seq<(string, string)>, i: nat)
    requires i < |pairs| && CookieSafe(pairs[i].0) && CookieSafe(pairs[i].1)
    ensures ';' !in CookieItem(pairs, i)
    ensures CookieOf(CookieItem(pairs, i)) == Cookie(pairs[i].0, Some(pairs[i].1))
  {
    var k, v := pairs[i].0, pairs[i].1;
    var t := k + "=" + v;
    var w: string := if i == 0 then "" else " ";
    PairText(k, v);
    assert CookieItem(pairs, i) == w + t;
    assert forall j :: 0 <= j < |w| ==> IsWhitespace(w[j]);
    TrimPadded(w, t);
    assert '=' in t by { assert t[|k|] == '='; }
  }

  /** The cookies a header written from `pairs` should give. */
  function Cookies(pairs: seq<(string, string)>): (cs: seq<Cookie>)
    ensures |cs| == |pairs| && forall i :: 0 <= i < |pairs| ==> cs[i] == Cookie(pairs[i].0, Some(pairs[i].1))
  {
    seq(|pairs|, i requires 0 <= i < |pairs| => Cookie(pairs[i].0, Some(pairs[i].1)))
  }

  /** A well-formed header splits into its cookies, in order. */
  lemma HeaderPieces(pairs: seq<(string, string)>)
    requires |pairs| >= 1
    requires forall i :: 0 <= i < |pairs| ==> CookieSafe(pairs[i].0) && CookieSafe(pairs[i].1)
    ensures Pieces(CookieHeader(pairs)) == Cookies(pairs)
  {
    var items := seq(|pairs|, i requires 0 <= i < |pairs| => CookieItem(pairs, i));
    forall i | 0 <= i < |pairs| ensures ';' !in items[i] && CookieOf(items[i]) == Cookie(pairs[i].0, Some(pairs[i].1)) {
      CookieItemParses(pairs, i);
    }
    SplitJoin(items, ';');
  }

  /** The entries a well-formed header should give: each name with its
      decoded value. */
  function Entries(pairs: seq<(string, string)>, decode: string -> Option<string>): (es: seq<(string, string)>)
    requires forall i :: 0 <= i < |pairs| ==> decode(pairs[i].1).Some?
    ensures |es| == |pairs| && forall i :: 0 <= i < |pairs| ==> es[i] == (pairs[i].0, decode(pairs[i].1).value)
  {
    seq(|pairs|, i requires 0 <= i < |pairs| => (pairs[i].0, decode(pairs[i].1).value))
  }

  /** Cookies written as a browser writes them are read back, each name
      mapped to the decoding of its last value. */
  lemma CookieRoundTrip(pairs: seq<(string, string)>, decode: string -> Option<string>)
    requires |pairs| >= 1
    requires forall i :: 0 <= i < |pairs| ==> CookieSafe(pairs[i].0) && CookieSafe(pairs[i].1)
    requires forall i :: 0 <= i < |pairs| ==> decode(pairs[i].1).Some?
    ensures ParseCookies(CookieHeader(pairs), decode) == Some(FromEntries(Entries(pairs, decode)))
  {
    HeaderPieces(pairs);
    var cs := Cookies(pairs);
    forall i | 0 <= i < |cs| ensures Decoded(cs[i].raw, decode) == decode(pairs[i].1) { }
    var es := DecodeAll(cs, decode);
    var expected := Entries(pairs, decode);
    assert |es.value| == |expected|;
    forall i | 0 <= i < |expected| ensures es.value[i] == expected[i] { }
    assert es.value == expected;
  }

  /** A lone name with no `=`, such as a bare `accessToken`, is the
      cookie "undefined", which is then handed to `jwt.verify` as a token. */
  lemma BareCookieIsUndefined(n: string, decode: string -> Option<string>)
    requires CookieSafe(n)
    ensures ParseCookies(n, decode) == Some(map[n := "undefined"])
  {
    TrimmedIffFixedPoint(n);
    assert CookieOf(n) == Cookie(n, None);
    assert Pieces(n) == [Cookie(n, None)];
    var es := DecodeAll(Pieces(n), decode);
    assert Decoded(None, decode) == Some("undefined");
    assert es.Some? && |es.value| == 1 && es.value[0] == (n, "undefined");
    assert es.value == [(n, "undefined")];
  }

  /** The name of the access-token cookie is itself a safe cookie name. */
  lemma AccessTokenNameSafe()
    ensures CookieSafe("accessToken")
  {
    var n := "accessToken";
    assert n[0] == 'a' && n[|n| - 1] == 'n';
    assert forall i :: 0 <= i < |n| ==> n[i] != ';' && n[i] != '=';
  }

  /** A header holding only the access token gives an object with only the
      token. */
  lemma AccessTokenOnly(token: string, decode: string -> Option<string>)
    requires CookieSafe(token) && decode(token) == Some(token)
    ensures ParseCookies(CookieHeader([("accessToken", token)]), decode) == Some(map["accessToken" := token])
  {
    var pairs := [("accessToken", token)];
    AccessTokenNameSafe();
    CookieRoundTrip(pairs, decode);
    var es := Entries(pairs, decode);
    assert es == [("accessToken", token)];
    assert FromEntries(es) == FromEntries([])["accessToken" := token] by {
      assert es[..0] == [];
    }
  }

  /** A connection whose only cookie is the access token the HTTP login
      set is accepted as exactly the user `protect` would let through with
      that cookie. */
  lemma SocketAgreesWithProtect(token: string, decode: string -> Option<string>,
                                verify: string -> Option<Claims>, users: seq<User>, u: UserId)
    requires CookieSafe(token) && decode(token) == Some(token)
    ensures AuthenticateSocket(Some(CookieHeader([("accessToken", token)])), decode, verify, users) == Accepted(u)
            <==> Authenticate(Request(Some(token), None, None), users, verify) == Pass(u)
  {
    AccessTokenOnly(token, decode);
    var req := Request(Some(token), None, None);
    AccessTokenPrecedence(req);
  }
}
