/** The three regular expressions of the request schemas, each run as the
    position automaton of the expression: one flag per character position
    of the pattern, set when the text read so far can end at that position. The expressions have no `u`
    flag, so they read UTF-16 code units; every class in them is a set of
    BMP characters, so a code point above U+FFFF can never match one.
    - login, `^[a-zA-Z0-9_-]*$`
    - email, `^[\w-\.]+@([\w-]+\.)+[\w-]{2,4}$`
    - websiteUrl, `^https://([a-zA-Z0-9_-]+.)+[a-zA-Z0-9_-]+` followed by
      any number of `/[a-zA-Z0-9_-]+`, an optional final `/` and `$`; its
      unescaped `.` matches any code unit but a line terminator. */
module Patterns {

  predicate IsWordChar(c: char) {
    'a' <= c <= 'z' || 'A' <= c <= 'Z' || '0' <= c <= '9' || c == '_'
  }

  /** `[a-zA-Z0-9_-]` and `[\w-]`, the same set. */
  predicate IsNameChar(c: char) {
    IsWordChar(c) || c == '-'
  }

  /** `[\w-\.]`: with no `u` flag the range between a class escape and a
      character is read as the union of both and the `-`. */
  predicate IsLocalChar(c: char) {
    IsNameChar(c) || c == '.'
  }

  predicate IsLineTerminator(c: char) {
    c == '\n' || c == '\r' || c == '\U{2028}' || c == '\U{2029}'
  }

  /** `.` without the `s` and `u` flags: one code unit that is not a line
      terminator. */
  predicate IsAnyUnit(c: char) {
    !IsLineTerminator(c) && c <= '\U{FFFF}'
  }

  // ---------------------------------------------------------------------
  // login

  predicate LoginMatches(s: string) {
    forall i :: 0 <= i < |s| ==> IsNameChar(s[i])
  }

  // ---------------------------------------------------------------------
  // email: local `[\w-\.]+`, `@`, word `[\w-]`, dot `\.`, tld `[\w-]{2,4}`

  datatype EmailState = EmailState(
    start: bool, local: bool, at: bool, word: bool, dot: bool,
    tld1: bool, tld2: bool, tld3: bool, tld4: bool)

  const EmailStart := EmailState(true, false, false, false, false, false, false, false, false)
  const EmailDead := EmailState(false, false, false, false, false, false, false, false, false)

  function EmailStep(q: EmailState, c: char): (next: EmailState)
    ensures !next.start
  {
    EmailState(
      start := false,
      local := (q.start || q.local) && IsLocalChar(c),
      at := q.local && c == '@',
      word := (q.at || q.word || q.dot) && IsNameChar(c),
      dot := q.word && c == '.',
      tld1 := q.dot && IsNameChar(c),
      tld2 := q.tld1 && IsNameChar(c),
      tld3 := q.tld2 && IsNameChar(c),
      tld4 := q.tld3 && IsNameChar(c))
  }

  function EmailRun(q: EmailState, s: string): EmailState
    decreases s
  {
    if s == [] then q else EmailRun(EmailStep(q, s[0]), s[1..])
  }

  predicate EmailAccepting(q: EmailState) {
    q.tld2 || q.tld3 || q.tld4
  }

  predicate EmailMatches(s: string) {
    EmailAccepting(EmailRun(EmailStart, s))
  }

  /** Still in the local part: only the start and local flags may be set. */
  predicate BeforeAt(q: EmailState) {
    !q.at && !q.word && !q.dot && !q.tld1 && !q.tld2 && !q.tld3 && !q.tld4
  }

  /** Before the `@` the automaton never leaves the local part. */
  lemma {:induction false} EmailRunWithoutAt(q: EmailState, s: string)
    requires BeforeAt(q)
    requires '@' !in s
    ensures BeforeAt(EmailRun(q, s))
    decreases s
  {
    if s != [] {
      EmailRunWithoutAt(EmailStep(q, s[0]), s[1..]);
    }
  }

  /** An accepted email has an `@`. */
  lemma EmailNeedsAt(s: string)
    requires EmailMatches(s)
    ensures '@' in s
  {
    if '@' !in s {
      EmailRunWithoutAt(EmailStart, s);
    }
  }

  /** No text matches both the e-mail and the login pattern: the `@` an
      address needs is not a login character. */
  lemma EmailIsNotLogin(s: string)
    requires EmailMatches(s)
    ensures !LoginMatches(s)
  {
    EmailNeedsAt(s);
    var i :| 0 <= i < |s| && s[i] == '@';
    assert !IsNameChar(s[i]);
  }

  lemma EmailAccepted()
    ensures EmailMatches("a.b@x-y.com")
  {
    var s := "a.b@x-y.com";
    var q := EmailStart;
    var k := 0;
    while k < |s|
      invariant 0 <= k <= |s|
      invariant EmailRun(EmailStart, s) == EmailRun(q, s[k..])
    {
      EmailRunFrom(q, s, k);
      q := EmailStep(q, s[k]);
      k := k + 1;
    }
    assert q == EmailRun(EmailStart, s);
  }

  /** Reading the character at `k` moves the run one character on. */
  lemma EmailRunFrom(q: EmailState, s: string, k: nat)
    requires k < |s|
    ensures EmailRun(q, s[k..]) == EmailRun(EmailStep(q, s[k]), s[k + 1..])
  {
    assert s[k..][1..] == s[k + 1..];
  }

  /** A top-level domain of five letters is refused. */
  lemma EmailLongTldRefused()
    ensures !EmailMatches("ab@x.comma")
  {
    var s := "ab@x.comma";
    assert EmailRun(EmailStart, s) == EmailRun(EmailStep(EmailStart, 'a'), s[1..]);
  }

  // ---------------------------------------------------------------------
  // websiteUrl after "https://": host `[..]` of the repeated group, its
  // unescaped `.`, last `[..]+`, slash `/`, segment `[..]+` after it, and
  // the final `/?`

  const UrlScheme: string := "https://"

  datatype UrlState = UrlState(
    start: bool, host: bool, any: bool, last: bool, slash: bool, segment: bool, trail: bool)

  const UrlStart := UrlState(true, false, false, false, false, false, false)
  const UrlDead := UrlState(false, false, false, false, false, false, false)

  function UrlStep(q: UrlState, c: char): (next: UrlState)
    ensures !next.start
  {
    UrlState(
      start := false,
      host := (q.start || q.host || q.any) && IsNameChar(c),
      any := q.host && IsAnyUnit(c),
      last := (q.any || q.last) && IsNameChar(c),
      slash := (q.last || q.segment) && c == '/',
      segment := (q.slash || q.segment) && IsNameChar(c),
      trail := (q.last || q.segment) && c == '/')
  }

  function UrlRun(q: UrlState, s: string): UrlState
    decreases s
  {
    if s == [] then q else UrlRun(UrlStep(q, s[0]), s[1..])
  }

  predicate UrlAccepting(q: UrlState) {
    q.last || q.segment || q.trail
  }

  predicate UrlMatches(s: string) {
    |s| >= |UrlScheme| && s[..|UrlScheme|] == UrlScheme
    && UrlAccepting(UrlRun(UrlStart, s[|UrlScheme|..]))
  }

  /** No class of the pattern holds a line terminator, so a dead automaton
      stays dead and a line terminator kills it. */
  lemma {:induction false} UrlRunDead(s: string)
    ensures UrlRun(UrlDead, s) == UrlDead
  {
    if s != [] {
      UrlRunDead(s[1..]);
    }
  }

  lemma {:induction false} UrlRunLineTerminator(q: UrlState, s: string)
    requires exists i :: 0 <= i < |s| && IsLineTerminator(s[i])
    ensures UrlRun(q, s) == UrlDead
    decreases s
  {
    if IsLineTerminator(s[0]) {
      assert UrlStep(q, s[0]) == UrlDead;
      UrlRunDead(s[1..]);
    } else {
      var i :| 0 <= i < |s| && IsLineTerminator(s[i]);
      assert s[1..][i - 1] == s[i];
      UrlRunLineTerminator(UrlStep(q, s[0]), s[1..]);
    }
  }

  /** An accepted URL holds no line terminator. */
  lemma UrlHasNoLineTerminator(s: string)
    requires UrlMatches(s)
    ensures forall i :: 0 <= i < |s| ==> !IsLineTerminator(s[i])
  {
    var tail := s[|UrlScheme|..];
    if exists i :: 0 <= i < |tail| && IsLineTerminator(tail[i]) {
      UrlRunLineTerminator(UrlStart, tail);
    }
    forall i | 0 <= i < |s| ensures !IsLineTerminator(s[i]) {
      if i >= |UrlScheme| {
        assert s[i] == tail[i - |UrlScheme|];
      } else {
        assert s[i] == UrlScheme[i];
      }
    }
  }

  /** The unescaped `.` stands for any code unit that is not a line
      terminator, so a host needs no dot: "https://a" c "b" passes exactly
      when c is such a unit ("https://a bc" passes, "https://a\nb" does
      not). */
  lemma UrlDotIsAnyCharacter(c: char)
    ensures UrlMatches(UrlScheme + ['a', c, 'b']) <==> IsAnyUnit(c)
  {
    var tail := ['a', c, 'b'];
    var s := UrlScheme + tail;
    assert s[..|UrlScheme|] == UrlScheme && s[|UrlScheme|..] == tail;
    var q := UrlStep(UrlStart, 'a');
    assert UrlRun(UrlStart, tail) == UrlRun(q, tail[1..]);
    assert UrlRun(q, tail[1..]) == UrlRun(UrlStep(q, c), tail[2..]);
    assert UrlRun(UrlStep(q, c), tail[2..]) == UrlStep(UrlStep(q, c), 'b');
  }

  /** A host of two characters and a plain-http URL are refused. */
  lemma UrlRefused()
    ensures !UrlMatches("https://ab")
    ensures !UrlMatches("http://a.b")
  {
    assert "https://ab"[..8] == UrlScheme && "https://ab"[8..] == "ab";
    assert UrlRun(UrlStart, "ab") == UrlRun(UrlStep(UrlStart, 'a'), "b");
    assert "http://a.b"[..8][4] == ':' && UrlScheme[4] == 's';
  }
}
