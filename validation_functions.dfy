/** The query normaliser: the custom Joi rules that turn untyped query
    strings into a page number, a page size, a sort key and a sort direction,
    falling back to a default instead of failing. */
module ValidationFunctions {
  import opened Common
  import opened Js

  const DefaultPageNumber: nat := 1
  const DefaultPageSize: nat := 10
  const DefaultSortBy: string := "createdAt"
  const DefaultSortDirection: string := "desc"

  /** The text is a count both readings agree on: `parseInt` finds a
      non-negative integer and `Number` of the whole text is that integer. */
  predicate CleanCount(value: string) {
    ParseInt(value).Some? && ParseInt(value).value >= 0 && ToNumber(value) == Some(ParseInt(value).value as real)
  }

  /** The shared body of validatePageNumber and validatePageSize: parse the
      value; fall back to the default when the parse is NaN, when it differs
      from `Number` of the original text, or when it is negative. Zero is
      kept. */
  function ValidateCount(value: string, default: nat): (r: nat)
    ensures r == default || ParseInt(value) == Some(r as int)
    ensures ParseInt(value).None? ==> r == default
    ensures ParseInt(value).Some? && ToNumber(value) != Some(ParseInt(value).value as real) ==> r == default
    ensures ParseInt(value).Some? && ParseInt(value).value < 0 ==> r == default
    ensures CleanCount(value) ==> r == ParseInt(value).value
  {
    match ParseInt(value)
    case None => default
    case Some(parsed) =>
      if ToNumber(value) != Some(parsed as real) then default
      else if parsed < 0 then default
      else parsed
  }

  /** validatePageNumber: the count rule with default 1. */
  function ValidatePageNumber(value: string): (r: nat)
    ensures r == DefaultPageNumber || ParseInt(value) == Some(r as int)
    ensures CleanCount(value) ==> r == ParseInt(value).value
    ensures !CleanCount(value) ==> r == DefaultPageNumber
  {
    ValidateCount(value, DefaultPageNumber)
  }

  /** validatePageSize: the count rule with default 10. */
  function ValidatePageSize(value: string): (r: nat)
    ensures r == DefaultPageSize || ParseInt(value) == Some(r as int)
    ensures CleanCount(value) ==> r == ParseInt(value).value
    ensures !CleanCount(value) ==> r == DefaultPageSize
  {
    ValidateCount(value, DefaultPageSize)
  }

  /** validateSortBy(validValues): keep a whitelisted value, else "createdAt". */
  function ValidateSortBy(validValues: seq<string>, value: string): (r: string)
    ensures r in validValues || r == DefaultSortBy
    ensures r == value <==> value in validValues || value == DefaultSortBy
  {
    if value in validValues then value else DefaultSortBy
  }

  /** validateSortDirection: keep "asc" or "desc", else "desc". */
  function ValidateSortDirection(value: string): (r: string)
    ensures r == "asc" || r == "desc"
    ensures r == value <==> value == "asc" || value == "desc"
  {
    if value in ["desc", "asc"] then value else DefaultSortDirection
  }

  /** Feeding the decimal text of a count back in returns that count, for
      every result the rule can produce. */
  lemma CountOfDecimalString(k: nat, default: nat)
    ensures ValidateCount(DecimalString(k), default) == k
  {
    ParseIntOfDecimalString(k);
    ToNumberOfDecimalString(k);
  }

  /** Idempotence of the normaliser: normalising the decimal text of a
      normalised page number or page size gives it back. */
  lemma ValidateCountIdempotent(value: string, default: nat)
    ensures ValidateCount(DecimalString(ValidateCount(value, default)), default) == ValidateCount(value, default)
  {
    CountOfDecimalString(ValidateCount(value, default), default);
  }

  /** `parseInt` of text that starts with a decimal digit (and no "0x")
      reads the leading run of digits. */
  lemma ParseIntOfDigitRun(s: string)
    requires s != [] && 0 <= DigitVal(s[0]) < 10
    requires |s| < 2 || (s[1] != 'x' && s[1] != 'X')
    ensures ParseInt(s) == Some(Value(RadixPrefix(s, 10), 10) as int)
  {
    DigitIsPlain(s[0]);
    ParseUnsignedOfDigitRun(s);
    ParseIntUnsigned(s);
  }


  lemma ParseUnsignedOfDigitRun(s: string)
    requires s != [] && IsRadixDigit(s[0], 10)
    requires |s| < 2 || (s[1] != 'x' && s[1] != 'X')
    ensures ParseUnsigned(s) == Some(Value(RadixPrefix(s, 10), 10))
  {
    assert RadixPrefix(s, 10) == [s[0]] + RadixPrefix(s[1..], 10);
  }

  /** `parseInt` of digits followed by a character that ends the run
      (and does not make a hexadecimal prefix) is the value of the digits. */
  lemma ParseIntOfDigitsThen(ip: string, rest: string)
    requires ip != [] && AllRadixDigits(ip, 10)
    requires rest != [] && !IsRadixDigit(rest[0], 10) && rest[0] != 'x' && rest[0] != 'X'
    ensures ParseInt(ip + rest) == Some(Value(ip, 10) as int)
  {
    var s := ip + rest;
    assert s[0] == ip[0] && IsRadixDigit(ip[0], 10);
    assert |s| >= 2 ==> s[1] == (if |ip| >= 2 then ip[1] else rest[0]);
    assert |ip| >= 2 ==> IsRadixDigit(ip[1], 10);
    ParseIntOfDigitRun(s);
    RadixPrefixStops(ip, rest, 10);
  }

  /** The text `ip.fp` is trimmed already and is no radix literal. */
  lemma ToNumberOfFraction(ip: string, fp: string)
    requires ip != [] && AllRadixDigits(ip, 10) && fp != [] && AllRadixDigits(fp, 10)
    ensures ToNumber(ip + ['.'] + fp) == Some(DecimalValue(Decimal(Value(ip, 10), Value(fp, 10), |fp|, 0)))
  {
    ToNumberOfSeparated(ip, '.', fp);
    UnsignedDecimalWithFraction(ip, fp);
  }

  /** A fraction that is not zero makes `Number` differ from `parseInt`:
      "2.5" falls back to the default. */
  lemma FractionFallsBack(ip: string, fp: string)
    requires ip != [] && AllRadixDigits(ip, 10) && fp != [] && AllRadixDigits(fp, 10)
    requires Value(fp, 10) > 0
    ensures ValidatePageNumber(ip + ['.'] + fp) == DefaultPageNumber
    ensures ValidatePageSize(ip + ['.'] + fp) == DefaultPageSize
  {
    assert ip + ['.'] + fp == ip + (['.'] + fp);
    ParseIntOfDigitsThen(ip, ['.'] + fp);
    ToNumberOfFraction(ip, fp);
    DecimalValueOfFraction(Value(ip, 10), Value(fp, 10), |fp|);
  }

  /** The text `ip e ep` is trimmed already and is no radix literal. */
  lemma ToNumberOfExponent(ip: string, ep: string)
    requires ip != [] && AllRadixDigits(ip, 10) && ep != [] && AllRadixDigits(ep, 10)
    ensures ToNumber(ip + ['e'] + ep) == Some(DecimalValue(Decimal(Value(ip, 10), 0, 0, Value(ep, 10))))
  {
    ToNumberOfSeparated(ip, 'e', ep);
    UnsignedDecimalWithExponent(ip, ep);
  }

  /** A positive exponent on a positive number makes `Number` differ from
      `parseInt`: "1e2" (100 against 1) falls back to the default. */
  lemma ExponentFallsBack(ip: string, ep: string)
    requires ip != [] && AllRadixDigits(ip, 10) && ep != [] && AllRadixDigits(ep, 10)
    requires Value(ip, 10) > 0 && Value(ep, 10) > 0
    ensures ValidatePageNumber(ip + ['e'] + ep) == DefaultPageNumber
    ensures ValidatePageSize(ip + ['e'] + ep) == DefaultPageSize
  {
    assert ip + ['e'] + ep == ip + (['e'] + ep);
    ParseIntOfDigitsThen(ip, ['e'] + ep);
    ToNumberOfExponent(ip, ep);
    DecimalValueOfExponentExceeds(Value(ip, 10), Value(ep, 10));
    ReadingsDifferFallBack(ip + ['e'] + ep);
  }

  /** When `parseInt` reads a number and `Number` reads nothing or another
      number, both counts fall back to their defaults. */
  lemma ReadingsDifferFallBack(s: string)
    requires ParseInt(s).Some? && ToNumber(s) != Some(ParseInt(s).value as real)
    ensures ValidatePageNumber(s) == DefaultPageNumber
    ensures ValidatePageSize(s) == DefaultPageSize
  {
  }

  /** Trailing letters make `Number` NaN while `parseInt` reads the digits
      before them: "3abc" falls back to the default. */
  lemma TrailingLettersFallBack(ip: string, tail: string)
    requires ip != [] && AllRadixDigits(ip, 10)
    requires tail != [] && 'a' <= tail[0] <= 'z' && tail[0] !in "exob"
    requires !IsWhiteSpace(tail[|tail| - 1])
    ensures ValidatePageNumber(ip + tail) == DefaultPageNumber
    ensures ValidatePageSize(ip + tail) == DefaultPageSize
  {
    ParseIntOfDigitsThen(ip, tail);
    ToNumberOfTrailingLetter(ip, tail);
    ReadingsDifferFallBack(ip + tail);
  }

  /** A negative count falls back to the default: "-3" is refused. */
  lemma NegativeFallsBack(s: string)
    requires |s| >= 2 && s[0] == '-' && AllRadixDigits(s[1..], 10) && Value(s[1..], 10) > 0
    ensures ValidatePageNumber(s) == DefaultPageNumber
    ensures ValidatePageSize(s) == DefaultPageSize
  {
    ParseIntOfNegative(s);
  }

  /** `parseInt` of a minus sign and digits is the negated value. */
  lemma ParseIntOfNegative(s: string)
    requires |s| >= 2 && s[0] == '-' && AllRadixDigits(s[1..], 10)
    ensures ParseInt(s) == Some(-(Value(s[1..], 10) as int))
  {
    var d := s[1..];
    assert ParseUnsigned(d) == Some(Value(d, 10)) by {
      if |d| >= 2 { DigitIsPlain(d[1]); }
      ParseUnsignedOfDigitRun(d);
      RadixPrefixOfDigits(d, 10);
    }
    ParseIntNegative(s);
  }

  /** `parseInt` of a minus sign and text it reads is the negated reading. */
  lemma ParseIntNegative(s: string)
    requires s != [] && s[0] == '-' && ParseUnsigned(s[1..]).Some?
    ensures ParseInt(s) == Some(-(ParseUnsigned(s[1..]).value as int))
  {
    assert !IsWhiteSpace(s[0]);
    TrimStartKeeps(s);
  }

  /** Zero is not replaced: "0" is a page size of 0. */
  lemma ZeroPassesThrough()
    ensures ValidatePageSize("0") == 0 && ValidatePageNumber("0") == 0
  {
    CountOfDecimalString(0, DefaultPageSize);
    CountOfDecimalString(0, DefaultPageNumber);
    assert DecimalString(0) == "0";
  }

  // ---------------------------------------------------------------------
  // the query objects the services build from these rules

  /** QueryModel: the normalised paging and sorting of a list request. */
  datatype Query = Query(pageNumber: nat, pageSize: nat, sortBy: string, sortDirection: string)

  /** The four custom rules under their query keys, each with its Joi
      default when the key is absent; unknown keys are stripped. */
  function ValidateQuery(raw: map<string, string>, sortable: seq<string>): (q: Query)
    ensures "pageNumber" !in raw ==> q.pageNumber == DefaultPageNumber
    ensures "pageSize" !in raw ==> q.pageSize == DefaultPageSize
    ensures q.sortBy in sortable || q.sortBy == DefaultSortBy
    ensures q.sortDirection == "asc" || q.sortDirection == "desc"
  {
    Query(
      if "pageNumber" in raw then ValidatePageNumber(raw["pageNumber"]) else DefaultPageNumber,
      if "pageSize" in raw then ValidatePageSize(raw["pageSize"]) else DefaultPageSize,
      if "sortBy" in raw then ValidateSortBy(sortable, raw["sortBy"]) else DefaultSortBy,
      if "sortDirection" in raw then ValidateSortDirection(raw["sortDirection"]) else DefaultSortDirection)
  }

  /** The query string a client would send for a normalised query. */
  function QueryText(q: Query): map<string, string> {
    map["pageNumber" := DecimalString(q.pageNumber), "pageSize" := DecimalString(q.pageSize),
        "sortBy" := q.sortBy, "sortDirection" := q.sortDirection]
  }

  /** Normalising is idempotent: a normalised query, sent again, comes back
      unchanged. */
  lemma ValidateQueryIdempotent(raw: map<string, string>, sortable: seq<string>)
    ensures ValidateQuery(QueryText(ValidateQuery(raw, sortable)), sortable) == ValidateQuery(raw, sortable)
  {
    var q := ValidateQuery(raw, sortable);
    var t := QueryText(q);
    assert "pageNumber" in t && t["pageNumber"] == DecimalString(q.pageNumber);
    assert "pageSize" in t && t["pageSize"] == DecimalString(q.pageSize);
    assert "sortBy" in t && t["sortBy"] == q.sortBy;
    assert "sortDirection" in t && t["sortDirection"] == q.sortDirection;
    assert ValidateSortBy(sortable, q.sortBy) == q.sortBy;
    assert ValidateSortDirection(q.sortDirection) == q.sortDirection;
    CountOfDecimalString(q.pageNumber, DefaultPageNumber);
    CountOfDecimalString(q.pageSize, DefaultPageSize);
  }
}
