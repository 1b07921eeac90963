/** `Buffer.from(text, "base64")` as Node decodes it (RFC 4648, section 4,
    read leniently): both the standard and the URL-safe alphabet are
    accepted, characters outside them are skipped, decoding stops at the
    first `=`, and a trailing group of two or three digits yields one or two
    bytes. An encoder with padding, as in section 4 of RFC 4648, is the
    partner the decoder is proved against. */
module Base64 {
  import opened Common

  /** The six-bit value of a digit, or -1 for a character the decoder
      skips. */
  function SextetOf(c: char): (v: int)
    ensures -1 <= v < 64
  {
    if 'A' <= c <= 'Z' then c as int - 'A' as int
    else if 'a' <= c <= 'z' then c as int - 'a' as int + 26
    else if '0' <= c <= '9' then c as int - '0' as int + 52
    else if c == '+' || c == '-' then 62
    else if c == '/' || c == '_' then 63
    else -1
  }

  predicate AllSextets(v: seq<int>) {
    forall i :: 0 <= i < |v| ==> 0 <= v[i] < 64
  }

  /** The digits the decoder reads: the alphabet characters before the
      first `=`. */
  function Sextets(s: string): (v: seq<int>)
    ensures AllSextets(v)
    ensures |v| <= |s|
  {
    if s == [] || s[0] == '=' then []
    else if SextetOf(s[0]) < 0 then Sextets(s[1..])
    else [SextetOf(s[0])] + Sextets(s[1..])
  }

  /** Four digits make three bytes; a final two or three make one or two;
      a lone final digit makes none. */
  function DecodeSextets(v: seq<int>): (bytes: seq<Byte>)
    requires AllSextets(v)
    ensures |bytes| == |v| / 4 * 3 + (if |v| % 4 == 0 then 0 else |v| % 4 - 1)
  {
    if |v| < 2 then []
    else
      var b0 := (v[0] * 4 + v[1] / 16) as Byte;
      if |v| == 2 then [b0]
      else
        var b1 := ((v[1] % 16) * 16 + v[2] / 4) as Byte;
        if |v| == 3 then [b0, b1]
        else
          var b2 := ((v[2] % 4) * 64 + v[3]) as Byte;
          [b0, b1, b2] + DecodeSextets(v[4..])
  }

  function Decode(s: string): seq<Byte> {
    DecodeSextets(Sextets(s))
  }

  // ---------------------------------------------------------------------
  // the encoder

  /** The standard-alphabet digit of a six-bit value. */
  function DigitOf(n: int): (c: char)
    requires 0 <= n < 64
    ensures SextetOf(c) == n && c != '='
  {
    if n < 26 then ('A' as int + n) as char
    else if n < 52 then ('a' as int + n - 26) as char
    else if n < 62 then ('0' as int + n - 52) as char
    else if n == 62 then '+'
    else '/'
  }

  /** The digits of the bytes, six bits at a time, high bits first. */
  function EncodeSextets(b: seq<Byte>): (v: seq<int>)
    ensures AllSextets(v)
  {
    if b == [] then []
    else
      var x := b[0] as int;
      if |b| == 1 then [x / 4, (x % 4) * 16]
      else
        var y := b[1] as int;
        if |b| == 2 then [x / 4, (x % 4) * 16 + y / 16, (y % 16) * 4]
        else
          var z := b[2] as int;
          [x / 4, (x % 4) * 16 + y / 16, (y % 16) * 4 + z / 64, z % 64] + EncodeSextets(b[3..])
  }

  function Digits(v: seq<int>): (s: string)
    requires AllSextets(v)
    ensures |s| == |v| && '=' !in s
    ensures forall i :: 0 <= i < |s| ==> SextetOf(s[i]) == v[i]
  {
    if v == [] then [] else [DigitOf(v[0])] + Digits(v[1..])
  }

  function Padding(n: nat): string {
    if n % 3 == 1 then "==" else if n % 3 == 2 then "=" else ""
  }

  /** Standard Base64 with `=` padding. */
  function Encode(b: seq<Byte>): (s: string)
    ensures |s| % 4 == 0
    ensures forall i :: 0 <= i < |s| ==> s[i] == '=' || SextetOf(s[i]) >= 0
  {
    EncodeLength(b);
    DigitsThenPadding(EncodeSextets(b), |b|);
    Digits(EncodeSextets(b)) + Padding(|b|)
  }

  /** Digits followed by padding are each a digit or `=`. */
  lemma DigitsThenPadding(v: seq<int>, n: nat)
    requires AllSextets(v)
    ensures var s := Digits(v) + Padding(n);
      forall i :: 0 <= i < |s| ==> s[i] == '=' || SextetOf(s[i]) >= 0
  {
    var d := Digits(v);
    var p := Padding(n);
    assert forall i :: 0 <= i < |p| ==> p[i] == '=';
    assert forall i :: 0 <= i < |d| ==> SextetOf(d[i]) == v[i];
  }

  lemma {:induction false} EncodeLength(b: seq<Byte>)
    ensures |EncodeSextets(b)| + |Padding(|b|)| == (|b| + 2) / 3 * 4
  {
    if |b| >= 3 {
      EncodeLength(b[3..]);
      GroupsLength(|b|);
    }
  }

  /** Three more bytes make four more digits and the same padding. */
  lemma GroupsLength(n: nat)
    requires n >= 3
    ensures (n - 3 + 2) / 3 * 4 + 4 == (n + 2) / 3 * 4
    ensures Padding(n - 3) == Padding(n)
  {
    assert (n + 2) / 3 == (n - 3 + 2) / 3 + 1;
    assert n % 3 == (n - 3) % 3;
  }

  /** The decoder reads back the digits of the encoder, padding or not. */
  lemma {:induction false} SextetsOfDigits(v: seq<int>, pad: string)
    requires AllSextets(v)
    requires pad == [] || pad[0] == '='
    ensures Sextets(Digits(v) + pad) == v
  {
    if v == [] {
      assert Digits(v) + pad == pad;
    } else {
      SextetsOfDigits(v[1..], pad);
      var c := DigitOf(v[0]);
      assert Digits(v) + pad == [c] + (Digits(v[1..]) + pad);
      SextetsOfDigit(c, Digits(v[1..]) + pad);
      assert v == [v[0]] + v[1..];
    }
  }

  lemma SextetsOfDigit(c: char, rest: string)
    requires c != '=' && SextetOf(c) >= 0
    ensures Sextets([c] + rest) == [SextetOf(c)] + Sextets(rest)
  {
    assert ([c] + rest)[1..] == rest;
  }

  /** One group of three bytes survives encoding and decoding. */
  lemma GroupRoundTrip(x: int, y: int, z: int)
    requires 0 <= x < 256 && 0 <= y < 256 && 0 <= z < 256
    ensures (x / 4) * 4 + ((x % 4) * 16 + y / 16) / 16 == x
    ensures (((x % 4) * 16 + y / 16) % 16) * 16 + ((y % 16) * 4 + z / 64) / 4 == y
    ensures (((y % 16) * 4 + z / 64) % 4) * 64 + z % 64 == z
  {
    assert ((x % 4) * 16 + y / 16) / 16 == x % 4;
    assert ((x % 4) * 16 + y / 16) % 16 == y / 16;
    assert ((y % 16) * 4 + z / 64) / 4 == y % 16;
    assert ((y % 16) * 4 + z / 64) % 4 == z / 64;
  }

  lemma {:induction false} DecodeEncodeSextets(b: seq<Byte>)
    ensures DecodeSextets(EncodeSextets(b)) == b
  {
    if 1 <= |b| <= 2 {
      DecodeEncodeShort(b);
    } else if |b| >= 3 {
      DecodeEncodeGroup(b);
      DecodeEncodeSextets(b[3..]);
      assert b == [b[0], b[1], b[2]] + b[3..];
    }
  }

  /** One or two bytes come back from their two or three digits. */
  lemma DecodeEncodeShort(b: seq<Byte>)
    requires 1 <= |b| <= 2
    ensures DecodeSextets(EncodeSextets(b)) == b
  {
    if |b| == 1 {
      var x := b[0] as int;
      assert EncodeSextets(b) == [x / 4, (x % 4) * 16];
      assert ((x % 4) * 16) / 16 == x % 4;
      DecodeSextetsOfShort(EncodeSextets(b), b);
    } else {
      DecodeEncodePair(b);
    }
  }

  /** Two bytes come back from their three digits. */
  lemma DecodeEncodePair(b: seq<Byte>)
    requires |b| == 2
    ensures DecodeSextets(EncodeSextets(b)) == b
  {
    var x, y := b[0] as int, b[1] as int;
    assert EncodeSextets(b) == [x / 4, (x % 4) * 16 + y / 16, (y % 16) * 4];
    GroupRoundTrip(x, y, 0);
    assert ((y % 16) * 4) / 4 == y % 16;
    DecodeSextetsOfShort(EncodeSextets(b), b);
  }

  /** Two or three final digits decode as one or two bytes. */
  lemma DecodeSextetsOfShort(v: seq<int>, b: seq<Byte>)
    requires AllSextets(v) && 2 <= |v| <= 3 && |b| == |v| - 1
    requires v[0] * 4 + v[1] / 16 == b[0] as int
    requires |v| == 3 ==> (v[1] % 16) * 16 + v[2] / 4 == b[1] as int
    ensures DecodeSextets(v) == b
  {
  }

  /** The first three bytes come back from their four digits, ahead of
      what the rest decodes to. */
  lemma DecodeEncodeGroup(b: seq<Byte>)
    requires |b| >= 3
    ensures DecodeSextets(EncodeSextets(b)) == [b[0], b[1], b[2]] + DecodeSextets(EncodeSextets(b[3..]))
  {
    var v := EncodeSextets(b);
    EncodeSextetsOfGroup(b);
    assert v[4..] == EncodeSextets(b[3..]);
    var x, y, z := b[0] as int, b[1] as int, b[2] as int;
    GroupRoundTrip(x, y, z);
    DecodeSextetsOfGroup(v, b[0], b[1], b[2]);
  }

  /** Three leading bytes encode as four digits. */
  lemma EncodeSextetsOfGroup(b: seq<Byte>)
    requires |b| >= 3
    ensures var x, y, z := b[0] as int, b[1] as int, b[2] as int;
            EncodeSextets(b) == [x / 4, (x % 4) * 16 + y / 16, (y % 16) * 4 + z / 64, z % 64] + EncodeSextets(b[3..])
  {
  }

  /** Four leading digits decode as three bytes. */
  lemma DecodeSextetsOfGroup(v: seq<int>, b0: Byte, b1: Byte, b2: Byte)
    requires AllSextets(v) && |v| >= 4
    requires v[0] * 4 + v[1] / 16 == b0 as int
    requires (v[1] % 16) * 16 + v[2] / 4 == b1 as int
    requires (v[2] % 4) * 64 + v[3] == b2 as int
    ensures DecodeSextets(v) == [b0, b1, b2] + DecodeSextets(v[4..])
  {
  }



  /** Decoding an encoding gives the bytes back. */
  lemma DecodeEncode(b: seq<Byte>)
    ensures Decode(Encode(b)) == b
  {
    SextetsOfDigits(EncodeSextets(b), Padding(|b|));
    DecodeEncodeSextets(b);
  }
}
