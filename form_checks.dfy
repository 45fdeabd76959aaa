/** The email shape both sign-in forms test, `/\S+@\S+\.\S+/.test(email)`
    (discord-frontend/src/components/auth/LoginForm.tsx and RegisterForm.tsx).
    `\S` is any character JavaScript's `\s` does not match, the same
    whitespace `trim` removes. */
module FormChecks {
  import opened Text

  /** A match of `\S+@\S+\.\S+` whose `@` is at `at` and whose `.` is at
      `dot`. Each `\S+` can shrink to the single character next to the
      separator, except the middle one, which must cover everything between
      them. */
  predicate EmailMatch(s: string, at: int, dot: int) {
    && 1 <= at && at + 2 <= dot && dot + 2 <= |s|
    && s[at] == '@' && s[dot] == '.'
    && !IsWhitespace(s[at - 1]) && !IsWhitespace(s[dot + 1])
    && forall k :: at < k < dot ==> !IsWhitespace(s[k])
  }

  /** The unanchored regular-expression test: a match somewhere in `s`. */
  predicate LooksLikeEmail(s: string) {
    exists at, dot :: 0 <= at < |s| && 0 <= dot < |s| && EmailMatch(s, at, dot)
  }

  /** A string that passes has an `@`, a `.` after it, and at least five
      characters. */
  lemma EmailNeeds(s: string)
    requires LooksLikeEmail(s)
    ensures '@' in s && '.' in s && |s| >= 5
  {
    var at, dot :| 0 <= at < |s| && 0 <= dot < |s| && EmailMatch(s, at, dot);
    assert s[at] == '@' && s[dot] == '.';
  }

  /** The shape holds at `at` and `dot` exactly when the characters around
      and between them are what the expression asks for; it then holds for
      any string that extends `s` on either side. */
  lemma EmailMatchExtends(s: string, before: string, after: string, at: int, dot: int)
    requires EmailMatch(s, at, dot)
    ensures EmailMatch(before + s + after, |before| + at, |before| + dot)
  {
    var t := before + s + after;
    assert forall k :: 0 <= k < |s| ==> t[|before| + k] == s[k];
  }

  /** The smallest strings that pass: one character, `@`, one character,
      `.`, one character. */
  lemma ShortestEmail(a: char, b: char, c: char)
    requires !IsWhitespace(a) && !IsWhitespace(b) && !IsWhitespace(c)
    ensures LooksLikeEmail([a, '@', b, '.', c])
  {
    assert EmailMatch([a, '@', b, '.', c], 1, 3);
  }
}
