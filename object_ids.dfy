/** MongoDB ObjectIds as the bson library handles them: twelve bytes whose
    text form (`toString`, `toHexString`, `String(id)`) is 24 lower-case hex
    digits, and whose string constructor accepts exactly 24 hex digits of
    either case and throws on anything else. */
module ObjectIds {
  import opened Common
  import opened Js

  type ObjectId = b: seq<Byte> | |b| == 12 witness [0, 0, 0, 0, 0, 0, 0, 0, 0, 0, 0, 0]

  /** A stored document: its `_id` and the rest of its fields. */
  datatype Doc<T> = Doc(id: ObjectId, body: T)

  /** Sixteen random bytes, what `crypto.randomBytes(16)` yields. */
  type Random16 = b: seq<Byte> | |b| == 16 witness [0, 0, 0, 0, 0, 0, 0, 0, 0, 0, 0, 0, 0, 0, 0, 0]

  /** The lower-case digit for a nibble. */
  function HexDigit(n: nat): (c: char)
    requires n < 16
    ensures DigitVal(c) == n
  {
    if n < 10 then ('0' as int + n) as char else ('a' as int + n - 10) as char
  }

  predicate IsHexChar(c: char) {
    0 <= DigitVal(c) < 16
  }

  predicate IsLowerHexChar(c: char) {
    '0' <= c <= '9' || 'a' <= c <= 'f'
  }

  predicate AllHex(s: string) {
    forall i :: 0 <= i < |s| ==> IsHexChar(s[i])
  }

  predicate AllLowerHex(s: string) {
    forall i :: 0 <= i < |s| ==> IsLowerHexChar(s[i])
  }

  /** The lower-case hex digits are exactly the characters that are their
      own canonical rendering. */
  lemma LowerHexCharIsCanonical(c: char)
    requires IsLowerHexChar(c)
    ensures IsHexChar(c) && HexDigit(DigitVal(c)) == c
  {
  }

  /** `buffer.toString("hex")`: two lower-case digits per byte, high nibble
      first. */
  function Hex(bytes: seq<Byte>): (s: string)
    ensures |s| == 2 * |bytes|
    ensures AllLowerHex(s)
  {
    if bytes == [] then []
    else
      var b := bytes[0] as int;
      [HexDigit(b / 16), HexDigit(b % 16)] + Hex(bytes[1..])
  }

  /** Reading pairs of hex digits (of either case) back into bytes. */
  function ParseHex(s: string): (bytes: seq<Byte>)
    requires |s| % 2 == 0 && AllHex(s)
    ensures |bytes| * 2 == |s|
  {
    if s == [] then []
    else [(DigitVal(s[0]) * 16 + DigitVal(s[1])) as Byte] + ParseHex(s[2..])
  }

  lemma LowerHexIsHex(s: string)
    requires AllLowerHex(s)
    ensures AllHex(s)
  {
    forall i | 0 <= i < |s| ensures IsHexChar(s[i]) {
      LowerHexCharIsCanonical(s[i]);
    }
  }

  /** Decoding the hex text of bytes gives the bytes back. */
  lemma {:induction false} ParseHexOfHex(bytes: seq<Byte>)
    ensures AllHex(Hex(bytes))
    ensures ParseHex(Hex(bytes)) == bytes
  {
    LowerHexIsHex(Hex(bytes));
    if bytes != [] {
      var b := bytes[0];
      ParseHexOfHex(bytes[1..]);
      HexHead(bytes);
      ParseHexHead(Hex(bytes));
      NibblesOfByte(b);
      assert bytes == [b] + bytes[1..];
    }
  }

  /** Rendering parsed text gives the text back exactly when the text was
      already lower case. */
  lemma {:induction false} HexOfParseHex(s: string)
    requires |s| % 2 == 0 && AllHex(s)
    ensures Hex(ParseHex(s)) == s <==> AllLowerHex(s)
  {
    if Hex(ParseHex(s)) == s {
      assert AllLowerHex(Hex(ParseHex(s)));
    } else if AllLowerHex(s) {
      HexOfLowerHex(s);
    }
  }

  lemma {:induction false} HexOfLowerHex(s: string)
    requires |s| % 2 == 0 && AllLowerHex(s)
    ensures AllHex(s) && Hex(ParseHex(s)) == s
  {
    LowerHexIsHex(s);
    if s != [] {
      LowerHexTail(s);
      HexOfLowerHex(s[2..]);
      ParseHexHead(s);
      var b := (DigitVal(s[0]) * 16 + DigitVal(s[1])) as Byte;
      ByteOfLowerPair(s[0], s[1]);
      HexHead([b] + ParseHex(s[2..]));
      assert ([b] + ParseHex(s[2..]))[1..] == ParseHex(s[2..]);
      assert s == [s[0], s[1]] + s[2..];
    }
  }

  /** The first two digits of the hex text are those of the first byte. */
  lemma HexHead(bytes: seq<Byte>)
    requires bytes != []
    ensures Hex(bytes)[2..] == Hex(bytes[1..])
    ensures Hex(bytes)[0] == HexDigit(bytes[0] as int / 16) && Hex(bytes)[1] == HexDigit(bytes[0] as int % 16)
    ensures Hex(bytes) == [HexDigit(bytes[0] as int / 16), HexDigit(bytes[0] as int % 16)] + Hex(bytes[1..])
  {
  }

  /** Parsing reads the first pair of digits into the first byte. */
  lemma ParseHexHead(s: string)
    requires |s| % 2 == 0 && AllHex(s) && s != []
    ensures AllHex(s[2..])
    ensures ParseHex(s) == [(DigitVal(s[0]) * 16 + DigitVal(s[1])) as Byte] + ParseHex(s[2..])
  {
    assert forall i :: 0 <= i < |s[2..]| ==> s[2..][i] == s[i + 2];
  }

  /** The two digits of a byte read back as that byte. */
  lemma NibblesOfByte(b: Byte)
    ensures DigitVal(HexDigit(b as int / 16)) * 16 + DigitVal(HexDigit(b as int % 16)) == b as int
  {
  }

  /** Two lower-case digits read as a byte render as the same two digits. */
  lemma ByteOfLowerPair(c0: char, c1: char)
    requires IsLowerHexChar(c0) && IsLowerHexChar(c1)
    ensures 0 <= DigitVal(c0) * 16 + DigitVal(c1) < 256
    ensures HexDigit((DigitVal(c0) * 16 + DigitVal(c1)) / 16) == c0
    ensures HexDigit((DigitVal(c0) * 16 + DigitVal(c1)) % 16) == c1
  {
    LowerHexCharIsCanonical(c0);
    LowerHexCharIsCanonical(c1);
    var h, l := DigitVal(c0), DigitVal(c1);
    assert (h * 16 + l) / 16 == h && (h * 16 + l) % 16 == l;
  }

  /** Lower-case hex text stays lower case without its first two digits. */
  lemma LowerHexTail(s: string)
    requires |s| >= 2 && AllLowerHex(s)
    ensures AllLowerHex(s[2..])
  {
    assert forall i :: 0 <= i < |s[2..]| ==> s[2..][i] == s[i + 2];
  }

  /** `String(id)`: the 24-digit lower-case text of an ObjectId. */
  function IdString(id: ObjectId): (s: string)
    ensures |s| == 24 && AllLowerHex(s)
  {
    Hex(id)
  }

  /** `new ObjectId(s)` for a string: 24 hex digits of either case give the
      id they spell; anything else throws (None). */
  function ParseObjectId(s: string): (r: Option<ObjectId>)
    ensures r.Some? <==> |s| == 24 && AllHex(s)
  {
    if |s| == 24 && AllHex(s) then Some(ParseHex(s)) else None
  }

  /** The text of an id parses back to the id. */
  lemma ParseObjectIdOfIdString(id: ObjectId)
    ensures ParseObjectId(IdString(id)) == Some(id)
  {
    ParseHexOfHex(id);
  }

  /** Two ids with the same text are the same id. */
  lemma IdStringInjective(a: ObjectId, b: ObjectId)
    requires IdString(a) == IdString(b)
    ensures a == b
  {
    ParseObjectIdOfIdString(a);
    ParseObjectIdOfIdString(b);
  }

  /** What `new ObjectId(v)` does with a value taken from a request body:
      `undefined`, `null` and numbers make a newly generated id; a string,
      or the string `id` of an object, is parsed; any other value throws. */
  datatype IdFromValue = Generated | Parsed(id: ObjectId) | Throws

  /** The text `new ObjectId` parses: a string itself, or the `id` of an
      object when that is a string (bson unwraps an object with an `id` key
      first and throws when that `id` is not a string). */
  function IdText(v: JsValue): Option<string> {
    match v
    case Str(s) => Some(s)
    case Obj(entries) => if "id" in entries && entries["id"].Str? then Some(entries["id"].s) else None
    case _ => None
  }

  function ObjectIdOfValue(v: JsValue): (r: IdFromValue)
    ensures r.Generated? <==> v.Absent? || v.Null? || v.Num?
    ensures r.Parsed? <==> IdText(v).Some? && ParseObjectId(IdText(v).value).Some?
    ensures r.Parsed? ==> ParseObjectId(IdText(v).value) == Some(r.id)
    ensures v.Str? ==> (r.Parsed? <==> ParseObjectId(v.s).Some?)
    ensures v.Obj? && "id" in v.entries && v.entries["id"].Str? ==> r == ObjectIdOfValue(v.entries["id"])
  {
    match v
    case Absent => Generated
    case Null => Generated
    case Num => Generated
    case Str(s) => (match ParseObjectId(s) case Some(id) => Parsed(id) case None => Throws)
    case Obj(entries) =>
      if "id" in entries && entries["id"].Str? then
        (match ParseObjectId(entries["id"].s) case Some(id) => Parsed(id) case None => Throws)
      else Throws
    case OtherValue => Throws
  }
}
