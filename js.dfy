/** The JavaScript built-ins the core leans on, on `string` values:
    `String.prototype.trim`, `String.prototype.split` with a one-character
    separator, `parseInt` without a radix and `Number` applied to a string
    (ECMAScript's StringToNumber). Numbers are exact here: the rounding of
    IEEE doubles is not part of this model. */
module Js {
  import opened Common

  /** ECMAScript WhiteSpace and LineTerminator code points, the set `trim`
      removes and `parseInt`/`Number` skip. */
  predicate IsWhiteSpace(c: char) {
    c == '\t' || c == '\n' || c == '\U{000B}' || c == '\U{000C}' || c == '\r' || c == ' '
    || c == '\U{00A0}' || c == '\U{1680}' || ('\U{2000}' <= c <= '\U{200A}')
    || c == '\U{2028}' || c == '\U{2029}' || c == '\U{202F}' || c == '\U{205F}'
    || c == '\U{3000}' || c == '\U{FEFF}'
  }

  predicate AllWhiteSpace(s: string) {
    forall i :: 0 <= i < |s| ==> IsWhiteSpace(s[i])
  }

  /** `s.trimStart()`: the suffix left after the leading white space. */
  function TrimStart(s: string): (r: string)
    ensures TrimmedStart(s, r)
  {
    if s != [] && IsWhiteSpace(s[0]) then
      var r := TrimStart(s[1..]);
      WhiteSpaceBefore(s, r);
      r
    else
      NoWhiteSpaceBefore(s);
      s
  }

  /** r is what is left of s after its leading white space. */
  predicate TrimmedStart(s: string, r: string) {
    && |r| <= |s| && r == s[|s| - |r|..]
    && (r == [] || !IsWhiteSpace(r[0]))
    && AllWhiteSpace(s[..|s| - |r|])
  }

  /** A white-space character ahead of a trimmed string is trimmed too. */
  lemma WhiteSpaceBefore(s: string, r: string)
    requires s != [] && IsWhiteSpace(s[0]) && TrimmedStart(s[1..], r)
    ensures TrimmedStart(s, r)
  {
    var n := |s| - |r|;
    assert forall i :: 1 <= i < n ==> s[..n][i] == s[1..][..n - 1][i - 1];
    assert s[1..][n - 1..] == s[n..];
  }

  /** A string that starts with no white space is its own trimmed start. */
  lemma NoWhiteSpaceBefore(s: string)
    requires s == [] || !IsWhiteSpace(s[0])
    ensures TrimmedStart(s, s)
  {
    assert s[..0] == [];
  }

  /** `s.trimEnd()`: the prefix left after the trailing white space. */
  function TrimEnd(s: string): (r: string)
    ensures |r| <= |s| && r == s[..|r|]
    ensures r == [] || !IsWhiteSpace(r[|r| - 1])
    ensures AllWhiteSpace(s[|r|..])
  {
    if s != [] && IsWhiteSpace(s[|s| - 1]) then TrimEnd(s[..|s| - 1]) else s
  }

  /** `s.trim()`. */
  function Trim(s: string): string {
    TrimEnd(TrimStart(s))
  }

  /** `s.length`: the number of UTF-16 code units, so a code point above
      U+FFFF counts twice. */
  function JsLength(s: string): (n: nat)
    ensures |s| <= n <= 2 * |s|
    ensures (forall i :: 0 <= i < |s| ==> s[i] <= '\U{FFFF}') ==> n == |s|
  {
    if s == [] then 0 else (if s[0] <= '\U{FFFF}' then 1 else 2) + JsLength(s[1..])
  }

  /** The decomposition is unique: any string of the form white space, a
      word without white space at its ends, white space, trims to that word. */
  lemma {:induction false} TrimOfPadded(a: string, w: string, b: string)
    requires AllWhiteSpace(a) && AllWhiteSpace(b)
    requires w == [] || (!IsWhiteSpace(w[0]) && !IsWhiteSpace(w[|w| - 1]))
    ensures Trim(a + w + b) == w
  {
    if w == [] {
      assert a + w + b == a + b;
      assert AllWhiteSpace(a + b);
      var r := TrimStart(a + b);
      assert r == [];
    } else {
      assert a + w + b == a + (w + b);
      TrimStartOfPadded(a, w + b);
      TrimEndOfPadded(w, b);
    }
  }

  lemma {:induction false} TrimStartOfPadded(a: string, u: string)
    requires AllWhiteSpace(a)
    requires u == [] || !IsWhiteSpace(u[0])
    ensures TrimStart(a + u) == u
  {
    if a != [] {
      assert (a + u)[1..] == a[1..] + u;
      TrimStartOfPadded(a[1..], u);
    } else {
      assert a + u == u;
    }
  }

  lemma {:induction false} TrimEndOfPadded(u: string, b: string)
    requires AllWhiteSpace(b)
    requires u == [] || !IsWhiteSpace(u[|u| - 1])
    ensures TrimEnd(u + b) == u
  {
    if b != [] {
      assert (u + b)[..|u + b| - 1] == u + b[..|b| - 1];
      TrimEndOfPadded(u, b[..|b| - 1]);
    } else {
      assert u + b == u;
    }
  }

  lemma TrimStartKeeps(s: string)
    requires s == [] || !IsWhiteSpace(s[0])
    ensures TrimStart(s) == s
  {
  }

  lemma TrimEndKeeps(s: string)
    requires s == [] || !IsWhiteSpace(s[|s| - 1])
    ensures TrimEnd(s) == s
  {
  }

  /** The result of `trim` neither starts nor ends with white space, so
      trimming twice is trimming once. */
  lemma TrimIdempotent(s: string)
    ensures Trim(s) == [] || (!IsWhiteSpace(Trim(s)[0]) && !IsWhiteSpace(Trim(s)[|Trim(s)| - 1]))
    ensures Trim(Trim(s)) == Trim(s)
  {
    var t := TrimStart(s);
    var w := TrimEnd(t);
    if w != [] {
      assert w[0] == t[0];
    }
    TrimStartKeeps(w);
    TrimEndKeeps(w);
  }

  // ---------------------------------------------------------------------
  // split

  /** `s.split(sep)` for a one-character separator: the pieces between the
      separators, at least one. */
  function Split<T(==)>(s: seq<T>, sep: T): (parts: seq<seq<T>>)
    ensures |parts| >= 1
    ensures forall i :: 0 <= i < |parts| ==> sep !in parts[i]
  {
    if s == [] then [[]]
    else
      var rest := Split(s[1..], sep);
      if s[0] == sep then [[]] + rest else [[s[0]] + rest[0]] + rest[1..]
  }

  /** `parts.join(sep)`. */
  function JoinWith<T>(parts: seq<seq<T>>, sep: T): seq<T>
    requires |parts| >= 1
  {
    if |parts| == 1 then parts[0] else parts[0] + [sep] + JoinWith(parts[1..], sep)
  }

  /** Joining the pieces of a split gives the string back. */
  lemma {:induction false} JoinOfSplit<T>(s: seq<T>, sep: T)
    ensures JoinWith(Split(s, sep), sep) == s
  {
    if s != [] {
      JoinOfSplit(s[1..], sep);
      var rest := Split(s[1..], sep);
      if s[0] == sep {
        assert ([[]] + rest)[1..] == rest;
      } else {
        var parts := [[s[0]] + rest[0]] + rest[1..];
        if |rest| == 1 {
          assert JoinWith(parts, sep) == [s[0]] + rest[0];
        } else {
          assert parts[1..] == rest[1..];
          assert JoinWith(rest, sep) == rest[0] + [sep] + JoinWith(rest[1..], sep);
          assert s == [s[0]] + s[1..];
        }
      }
    }
  }

  /** Splitting a join of separator-free pieces gives the pieces back. */
  lemma {:induction false} SplitOfJoin<T>(parts: seq<seq<T>>, sep: T)
    requires |parts| >= 1
    requires forall i :: 0 <= i < |parts| ==> sep !in parts[i]
    ensures Split(JoinWith(parts, sep), sep) == parts
  {
    if |parts| == 1 {
      SplitOfWord(parts[0], [], sep);
      assert parts[0] + [] == parts[0];
      assert JoinWith(parts, sep) == parts[0];
    } else {
      SplitOfJoin(parts[1..], sep);
      SplitOfWord(parts[0], [sep] + JoinWith(parts[1..], sep), sep);
      assert parts[0] + [sep] + JoinWith(parts[1..], sep) == parts[0] + ([sep] + JoinWith(parts[1..], sep));
      var tail := [sep] + JoinWith(parts[1..], sep);
      assert tail[1..] == JoinWith(parts[1..], sep);
      assert Split(tail, sep) == [[]] + parts[1..];
      assert parts[0] + [] == parts[0];
      assert parts == [parts[0]] + parts[1..];
    }
  }

  /** A separator-free word in front of text extends the first piece. */
  lemma {:induction false} SplitOfWord<T>(w: seq<T>, rest: seq<T>, sep: T)
    requires sep !in w
    requires rest == [] || rest[0] == sep
    ensures Split(w + rest, sep) == [w + Split(rest, sep)[0]] + Split(rest, sep)[1..]
  {
    if w == [] {
      assert w + rest == rest;
      if rest == [] {
      } else {
        assert Split(rest, sep)[0] == [];
      }
    } else {
      SplitOfWord(w[1..], rest, sep);
      assert (w + rest)[1..] == w[1..] + rest;
      assert (w + rest)[0] == w[0];
      assert [w[0]] + (w[1..] + Split(rest, sep)[0]) == w + Split(rest, sep)[0];
    }
  }

  /** Text without a separator is one piece. */
  lemma SplitWhole<T>(s: seq<T>, sep: T)
    requires sep !in s
    ensures Split(s, sep) == [s]
  {
    SplitOfWord(s, [], sep);
    assert s + [] == s;
  }

  /** The first separator ends the first piece; the rest is split on its
      own. */
  lemma SplitAt<T>(s: seq<T>, sep: T, i: nat)
    requires i < |s| && s[i] == sep && sep !in s[..i]
    ensures Split(s, sep) == [s[..i]] + Split(s[i + 1..], sep)
  {
    SplitOfWord(s[..i], s[i..], sep);
    assert s == s[..i] + s[i..];
    assert s[i..][1..] == s[i + 1..];
    assert Split(s[i..], sep) == [[]] + Split(s[i + 1..], sep);
    assert s[..i] + [] == s[..i];
  }

  // ---------------------------------------------------------------------
  // digits

  /** The value of `c` as a digit in radix 36, or -1 when it is no digit. */
  function DigitVal(c: char): int {
    if '0' <= c <= '9' then c as int - '0' as int
    else if 'a' <= c <= 'z' then c as int - 'a' as int + 10
    else if 'A' <= c <= 'Z' then c as int - 'A' as int + 10
    else -1
  }

  predicate IsRadixDigit(c: char, radix: nat) {
    0 <= DigitVal(c) < radix
  }

  predicate AllRadixDigits(s: string, radix: nat) {
    forall i :: 0 <= i < |s| ==> IsRadixDigit(s[i], radix)
  }

  /** The number a string of digits denotes, most significant first. */
  function Value(d: string, radix: nat): nat
    requires AllRadixDigits(d, radix)
  {
    if d == [] then 0 else Value(d[..|d| - 1], radix) * radix + DigitVal(d[|d| - 1])
  }

  /** The longest prefix made of digits of the radix. */
  function RadixPrefix(s: string, radix: nat): (d: string)
    ensures |d| <= |s| && d == s[..|d|]
    ensures AllRadixDigits(d, radix)
    ensures |d| == |s| || !IsRadixDigit(s[|d|], radix)
  {
    if s != [] && IsRadixDigit(s[0], radix) then [s[0]] + RadixPrefix(s[1..], radix) else []
  }

  function Pow10(e: nat): (p: nat)
    ensures p >= 1
  {
    if e == 0 then 1 else 10 * Pow10(e - 1)
  }

  // ---------------------------------------------------------------------
  // parseInt(s) and Number(s)

  /** `parseInt(s)` with no radix; None is NaN. Leading white space and a
      sign are skipped, and the rest is read by ParseUnsigned. */
  function ParseInt(s: string): Option<int> {
    var t := TrimStart(s);
    if t != [] && t[0] == '-' then
      match ParseUnsigned(t[1..]) case None => None case Some(v) => Some(-(v as int))
    else if t != [] && t[0] == '+' then
      match ParseUnsigned(t[1..]) case None => None case Some(v) => Some(v as int)
    else
      match ParseUnsigned(t) case None => None case Some(v) => Some(v as int)
  }

  /** "0x"/"0X" selects radix 16, and the longest run of digits that follows
      is read; no digits gives NaN. */
  function ParseUnsigned(u: string): Option<nat> {
    var hex := |u| >= 2 && u[0] == '0' && (u[1] == 'x' || u[1] == 'X');
    var radix := if hex then 16 else 10;
    var d := RadixPrefix(if hex then u[2..] else u, radix);
    if d == [] then None else Some(Value(d, radix))
  }

  /** `Number(s)` on a string; None stands for NaN and for the infinities.
      An empty or blank string is 0; "0x", "0o" and "0b" literals are read in
      their radix; otherwise a signed decimal literal. */
  function ToNumber(s: string): Option<real> {
    var t := Trim(s);
    if t == [] then Some(0.0)
    else if |t| >= 2 && t[0] == '0' && t[1] in "xXoObB" then NonDecimalLiteral(t[1], t[2..])
    else if t[0] == '-' then
      match UnsignedDecimal(t[1..]) case None => None case Some(d) => Some(-DecimalValue(d))
    else if t[0] == '+' then NumberOf(UnsignedDecimal(t[1..]))
    else NumberOf(UnsignedDecimal(t))
  }

  /** A decimal literal as read: the value of the integer digits, the value
      of the fraction digits and how many there are, and the exponent. */
  datatype Decimal = Decimal(whole: nat, fraction: nat, fractionDigits: nat, exponent: int)

  /** The number a decimal literal denotes. */
  function DecimalValue(d: Decimal): real {
    (d.whole as real + d.fraction as real / Pow10(d.fractionDigits) as real) * Scale(d.exponent)
  }

  /** The number of a literal, or NaN when there is none. */
  function NumberOf(d: Option<Decimal>): Option<real> {
    match d case None => None case Some(d) => Some(DecimalValue(d))
  }

  /** NonDecimalIntegerLiteral after its "0": the radix letter and digits. */
  function NonDecimalLiteral(letter: char, body: string): Option<real> {
    var radix := if letter in "xX" then 16 else if letter in "oO" then 8 else 2;
    if body != [] && AllRadixDigits(body, radix) then Some(Value(body, radix) as real) else None
  }

  /** StrUnsignedDecimalLiteral: digits, an optional fraction and an
      optional exponent, and nothing else. "Infinity", the one literal that
      is not finite, has no digits and so gives None here as well. */
  function UnsignedDecimal(u: string): Option<Decimal> {
    var ip := RadixPrefix(u, 10);
    var afterDigits := u[|ip|..];
    var hasDot := afterDigits != [] && afterDigits[0] == '.';
    var afterDot := if hasDot then afterDigits[1..] else [];
    var fp := RadixPrefix(afterDot, 10);
    var rest := if hasDot then afterDot[|fp|..] else afterDigits;
    if ip == [] && fp == [] then None
    else
      match Exponent(rest)
      case None => None
      case Some(e) => Some(Decimal(Value(ip, 10), Value(fp, 10), |fp|, e))
  }

  /** The ExponentPart that must end the literal: empty, or e/E, an optional
      sign and at least one digit. */
  function Exponent(r: string): Option<int> {
    if r == [] then Some(0)
    else if r[0] != 'e' && r[0] != 'E' then None
    else
      var a := r[1..];
      var negative := a != [] && a[0] == '-';
      var digits := if a != [] && (a[0] == '-' || a[0] == '+') then a[1..] else a;
      if digits != [] && AllRadixDigits(digits, 10) then
        Some(if negative then -(Value(digits, 10) as int) else Value(digits, 10) as int)
      else None
  }

  function Scale(e: int): real {
    if e >= 0 then Pow10(e) as real else 1.0 / Pow10(-e) as real
  }

  // ---------------------------------------------------------------------
  // decimal rendering of natural numbers

  function DigitChar(d: nat): char
    requires d < 10
  {
    ('0' as int + d) as char
  }

  /** `String(n)` for a natural number: its decimal digits. */
  function DecimalString(n: nat): (s: string)
    ensures s != []
    ensures AllRadixDigits(s, 10)
  {
    if n < 10 then [DigitChar(n)] else DecimalString(n / 10) + [DigitChar(n % 10)]
  }

  /** The digits of `String(n)` denote n. */
  lemma {:induction false} ValueOfDecimalString(n: nat)
    ensures Value(DecimalString(n), 10) == n
  {
    var s := DecimalString(n);
    if n >= 10 {
      ValueOfDecimalString(n / 10);
      assert s[..|s| - 1] == DecimalString(n / 10);
    }
  }

  lemma {:induction false} RadixPrefixOfDigits(s: string, radix: nat)
    requires AllRadixDigits(s, radix)
    ensures RadixPrefix(s, radix) == s
  {
    if s != [] {
      RadixPrefixOfDigits(s[1..], radix);
    }
  }

  /** `String(n)` starts with a digit, so neither white space, a sign nor a
      radix prefix applies to it. */
  lemma {:induction false} DecimalStringShape(n: nat)
    ensures DigitVal(DecimalString(n)[0]) >= 0
    ensures |DecimalString(n)| >= 2 ==> DigitVal(DecimalString(n)[1]) < 10
    ensures TrimStart(DecimalString(n)) == DecimalString(n)
    ensures Trim(DecimalString(n)) == DecimalString(n)
  {
    var s := DecimalString(n);
    assert IsRadixDigit(s[0], 10);
    assert IsRadixDigit(s[|s| - 1], 10);
    if |s| >= 2 {
      assert IsRadixDigit(s[1], 10);
    }
    TrimStartKeeps(s);
    TrimEndKeeps(s);
  }

  /** `parseInt(String(n)) === n`. */
  lemma ParseIntOfDecimalString(n: nat)
    ensures ParseInt(DecimalString(n)) == Some(n)
  {
    var s := DecimalString(n);
    DecimalStringShape(n);
    RadixPrefixOfDigits(s, 10);
    ValueOfDecimalString(n);
    DigitIsPlain(s[0]);
    if |s| >= 2 { DigitIsPlain(s[1]); }
    assert ParseUnsigned(s) == Some(n);
    ParseIntUnsigned(s);
  }

  /** `parseInt` of text that starts with no white space and no sign is the
      unsigned reading of the whole text. */
  lemma ParseIntUnsigned(s: string)
    requires s != [] && !IsWhiteSpace(s[0]) && s[0] != '-' && s[0] != '+'
    requires ParseUnsigned(s).Some?
    ensures ParseInt(s) == Some(ParseUnsigned(s).value as int)
  {
    TrimStartKeeps(s);
  }

  /** The run of digits ends where the first non-digit starts. */
  lemma {:induction false} RadixPrefixStops(ip: string, rest: string, radix: nat)
    requires AllRadixDigits(ip, radix)
    requires rest == [] || !IsRadixDigit(rest[0], radix)
    ensures RadixPrefix(ip + rest, radix) == ip && (ip + rest)[|ip|..] == rest
  {
    if ip != [] {
      assert (ip + rest)[0] == ip[0];
      assert (ip + rest)[1..] == ip[1..] + rest;
      RadixPrefixStops(ip[1..], rest, radix);
      assert [ip[0]] + ip[1..] == ip;
    } else {
      assert ip + rest == rest;
    }
  }

  /** UnsignedDecimal read off its parts: the integer digits, the fraction
      digits after a dot, and the exponent text that ends the literal. */
  lemma UnsignedDecimalParts(u: string, ip: string, fp: string, rest2: string, e: int)
    requires RadixPrefix(u, 10) == ip && ip != []
    requires u[|ip|..] != [] && u[|ip|..][0] == '.'
    requires RadixPrefix(u[|ip|..][1..], 10) == fp && u[|ip|..][1..][|fp|..] == rest2
    requires Exponent(rest2) == Some(e)
    ensures UnsignedDecimal(u) == Some(Decimal(Value(ip, 10), Value(fp, 10), |fp|, e))
  {
  }

  /** The same with no dot: the integer digits and the exponent text. */
  lemma UnsignedDecimalNoFraction(u: string, ip: string, rest: string, e: int)
    requires RadixPrefix(u, 10) == ip && ip != []
    requires u[|ip|..] == rest && (rest == [] || rest[0] != '.') && Exponent(rest) == Some(e)
    ensures UnsignedDecimal(u) == Some(Decimal(Value(ip, 10), 0, 0, e))
  {
    assert Value([], 10) == 0;
  }

  /** Digits, a dot and digits: the integer part plus the fraction. */
  lemma UnsignedDecimalWithFraction(ip: string, fp: string)
    requires ip != [] && AllRadixDigits(ip, 10) && fp != [] && AllRadixDigits(fp, 10)
    ensures UnsignedDecimal(ip + ['.'] + fp) == Some(Decimal(Value(ip, 10), Value(fp, 10), |fp|, 0))
  {
    var u := ip + (['.'] + fp);
    assert u == ip + ['.'] + fp && u[0] == ip[0];
    RadixPrefixStops(ip, ['.'] + fp, 10);
    assert u[|ip| + 1..] == fp;
    RadixPrefixOfDigits(fp, 10);
    assert u[|ip| + 1 + |fp|..] == [];
    UnsignedDecimalParts(u, ip, fp, [], 0);
  }

  /** Digits, an "e" and digits: the integer part times a power of ten. */
  lemma UnsignedDecimalWithExponent(ip: string, ep: string)
    requires ip != [] && AllRadixDigits(ip, 10) && ep != [] && AllRadixDigits(ep, 10)
    ensures UnsignedDecimal(ip + ['e'] + ep) == Some(Decimal(Value(ip, 10), 0, 0, Value(ep, 10)))
  {
    var u := ip + (['e'] + ep);
    assert u == ip + ['e'] + ep && u[0] == ip[0];
    RadixPrefixStops(ip, ['e'] + ep, 10);
    ExponentOfDigits(ep);
    UnsignedDecimalNoFraction(u, ip, ['e'] + ep, Value(ep, 10));
  }

  /** A decimal digit is no white space, no sign and no letter. */
  lemma DigitIsPlain(c: char)
    requires IsRadixDigit(c, 10)
    ensures !IsWhiteSpace(c) && c != '-' && c != '+' && c !in "xXoObB"
  {
  }

  /** `Number` of text that starts and ends with a decimal digit and is no
      radix literal is the unsigned decimal reading of the whole text. */
  lemma ToNumberUnsigned(s: string)
    requires s != [] && IsRadixDigit(s[0], 10) && !IsWhiteSpace(s[|s| - 1])
    requires |s| < 2 || s[1] !in "xXoObB"
    ensures ToNumber(s) == NumberOf(UnsignedDecimal(s))
  {
    DigitIsPlain(s[0]);
    TrimStartKeeps(s);
    TrimEndKeeps(s);
  }

  /** Digits, a separator and digits: `Number` reads the whole text as an
      unsigned decimal literal. */
  lemma ToNumberOfSeparated(ip: string, c: char, tail: string)
    requires ip != [] && AllRadixDigits(ip, 10) && tail != [] && AllRadixDigits(tail, 10)
    requires c !in "xXoObB"
    ensures ToNumber(ip + [c] + tail) == NumberOf(UnsignedDecimal(ip + [c] + tail))
  {
    var s := ip + [c] + tail;
    assert s[0] == ip[0] && s[|s| - 1] == tail[|tail| - 1];
    assert s[1] == (if |ip| >= 2 then ip[1] else c);
    if |ip| >= 2 { DigitIsPlain(ip[1]); }
    DigitIsPlain(tail[|tail| - 1]);
    ToNumberUnsigned(s);
  }

  /** Digits and then a lower-case letter that starts no exponent and no
      radix prefix: `Number` is NaN. */
  lemma ToNumberOfTrailingLetter(ip: string, tail: string)
    requires ip != [] && AllRadixDigits(ip, 10)
    requires tail != [] && 'a' <= tail[0] <= 'z' && tail[0] !in "exob"
    requires !IsWhiteSpace(tail[|tail| - 1])
    ensures ToNumber(ip + tail) == None
  {
    var s := ip + tail;
    assert s[0] == ip[0] && s[|s| - 1] == tail[|tail| - 1];
    assert s[1] == (if |ip| >= 2 then ip[1] else tail[0]);
    if |ip| >= 2 { DigitIsPlain(ip[1]); }
    ToNumberUnsigned(s);
    RadixPrefixStops(ip, tail, 10);
    UnsignedDecimalNoExponent(s, ip, tail);
  }

  /** The digits end at text that is no fraction and no exponent: NaN. */
  lemma UnsignedDecimalNoExponent(u: string, ip: string, rest: string)
    requires RadixPrefix(u, 10) == ip && ip != []
    requires u[|ip|..] == rest && rest != [] && rest[0] != '.' && rest[0] != 'e' && rest[0] != 'E'
    ensures UnsignedDecimal(u) == None
  {
    assert Exponent(rest) == None;
  }

  /** "Infinity" is read as no finite number. */
  lemma UnsignedDecimalOfInfinity()
    ensures UnsignedDecimal("Infinity") == None
  {
    assert !IsRadixDigit('I', 10);
    assert RadixPrefix("Infinity", 10) == [];
  }

  /** "e" and digits: an exponent of the digits' value. */
  lemma ExponentOfDigits(ep: string)
    requires ep != [] && AllRadixDigits(ep, 10)
    ensures Exponent(['e'] + ep) == Some(Value(ep, 10) as int)
  {
    var r := ['e'] + ep;
    assert r[1..] == ep;
    assert IsRadixDigit(ep[0], 10);
  }

  /** With no fraction and no exponent the value is the integer part. */
  lemma DecimalValueOfInteger(n: nat)
    ensures DecimalValue(Decimal(n, 0, 0, 0)) == n as real
  {
    assert Pow10(0) == 1;
  }

  /** With no fraction the value is the integer part times ten to the e. */
  lemma DecimalValueOfExponent(n: nat, e: nat)
    ensures DecimalValue(Decimal(n, 0, 0, e)) == n as real * Pow10(e) as real
  {
    assert Pow10(0) == 1;
  }

  /** A positive exponent multiplies a positive integer part. */
  lemma DecimalValueOfExponentExceeds(n: nat, e: nat)
    requires n > 0 && e > 0
    ensures DecimalValue(Decimal(n, 0, 0, e)) > n as real
  {
    DecimalValueOfExponent(n, e);
    var p := Pow10(e);
    assert p >= 10;
    assert n as real * p as real >= n as real * 10.0;
  }

  /** A fraction that is not zero adds to the integer part. */
  lemma DecimalValueOfFraction(n: nat, f: nat, k: nat)
    requires f > 0
    ensures DecimalValue(Decimal(n, f, k, 0)) > n as real
  {
    assert Pow10(0) == 1;
    assert f as real / Pow10(k) as real > 0.0;
  }

  /** A plain run of decimal digits is read as the number it denotes. */
  lemma UnsignedDecimalOfDigits(d: string)
    requires d != [] && AllRadixDigits(d, 10)
    ensures UnsignedDecimal(d) == Some(Decimal(Value(d, 10), 0, 0, 0))
  {
    RadixPrefixOfDigits(d, 10);
    assert d[|d|..] == [];
    assert Exponent([]) == Some(0);
    UnsignedDecimalNoFraction(d, d, [], 0);
  }

  /** `Number(String(n)) === n`. */
  lemma ToNumberOfDecimalString(n: nat)
    ensures ToNumber(DecimalString(n)) == Some(n as real)
  {
    var s := DecimalString(n);
    DecimalStringShape(n);
    ValueOfDecimalString(n);
    DigitIsPlain(s[|s| - 1]);
    if |s| >= 2 { DigitIsPlain(s[1]); }
    ToNumberUnsigned(s);
    UnsignedDecimalOfDigits(s);
    DecimalValueOfInteger(n);
  }
}
