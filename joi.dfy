/** The fragment of Joi the request schemas use: required, trimmed string
    keys with optional `min`, `max` and `pattern` rules and custom messages,
    validated with `abortEarly: false` and `stripUnknown: true`.

    For one key Joi reports, in this order of precedence, a missing value
    (`any.required`), a value that is not a string (`string.base`), a value
    that is empty once trimmed (`string.empty`); only a non-empty string goes
    on to the rules, which are all checked, in the order they were declared,
    each adding its own message. Lengths are JavaScript string lengths
    (UTF-16 code units) of the trimmed value. The keys of an object schema
    are checked in declaration order. */
module Joi {
  import opened Common
  import opened Js
  import opened Patterns
  import opened UtilityFunctions

  datatype PatternKind = EmailPattern | LoginPattern | UrlPattern

  predicate Matches(p: PatternKind, s: string) {
    match p
    case EmailPattern => EmailMatches(s)
    case LoginPattern => LoginMatches(s)
    case UrlPattern => UrlMatches(s)
  }

  /** The custom texts of `any.required`, `string.base`, `string.empty`,
      `string.min`, `string.max` and `string.pattern.base`. */
  datatype Messages = Messages(required: string, base: string, empty: string,
                               min: string, max: string, pattern: string)

  /** `Joi.string().trim()` followed by the optional rules, `.required()`. */
  datatype StringRule = StringRule(min: Option<nat>, max: Option<nat>, pattern: Option<PatternKind>,
                                   messages: Messages)

  datatype Checked = Valid(value: string) | Invalid(messages: seq<string>)

  /** What the rule demands of a value, read as a specification: a string
      that is non-empty once trimmed and whose trimmed form keeps every
      declared rule. */
  predicate Accepts(rule: StringRule, v: JsValue) {
    v.Str? &&
    var t := Trim(v.s);
    t != "" &&
    (rule.min.Some? ==> JsLength(t) >= rule.min.value) &&
    (rule.max.Some? ==> JsLength(t) <= rule.max.value) &&
    (rule.pattern.Some? ==> Matches(rule.pattern.value, t))
  }

  /** The messages of the declared rules a non-empty trimmed string breaks,
      in declaration order. */
  function RuleMessages(rule: StringRule, t: string): (msgs: seq<string>)
    ensures msgs == [] <==>
              (rule.min.Some? ==> JsLength(t) >= rule.min.value) &&
              (rule.max.Some? ==> JsLength(t) <= rule.max.value) &&
              (rule.pattern.Some? ==> Matches(rule.pattern.value, t))
    ensures |msgs| <= 3
  {
    (if rule.min.Some? && JsLength(t) < rule.min.value then [rule.messages.min] else [])
    + (if rule.max.Some? && JsLength(t) > rule.max.value then [rule.messages.max] else [])
    + (if rule.pattern.Some? && !Matches(rule.pattern.value, t) then [rule.messages.pattern] else [])
  }

  /** Validating one value against a string rule. */
  function CheckString(rule: StringRule, v: JsValue): (r: Checked)
    ensures r.Valid? <==> Accepts(rule, v)
    ensures r.Valid? ==> r.value == Trim(v.s)
    ensures r.Invalid? ==> |r.messages| >= 1
    ensures v.Absent? ==> r == Invalid([rule.messages.required])
    ensures !v.Absent? && !v.Str? ==> r == Invalid([rule.messages.base])
    ensures v.Str? && Trim(v.s) == "" ==> r == Invalid([rule.messages.empty])
  {
    match v
    case Absent => Invalid([rule.messages.required])
    case Str(s) =>
      var t := Trim(s);
      if t == "" then Invalid([rule.messages.empty])
      else
        var msgs := RuleMessages(rule, t);
        if msgs == [] then Valid(t) else Invalid(msgs)
    case _ => Invalid([rule.messages.base])
  }

  // ---------------------------------------------------------------------
  // object schemas

  datatype Key = Key(name: string, rule: StringRule)

  /** A request body: a key the client did not send is absent. */
  type Body = map<string, JsValue>

  function Lookup(body: Body, name: string): JsValue {
    if name in body then body[name] else Absent
  }

  predicate DistinctNames(schema: seq<Key>) {
    forall i, j :: 0 <= i < j < |schema| ==> schema[i].name != schema[j].name
  }

  /** The outcome of `schema.validate(body)`: `error.details` (empty when
      there is no error) and the validated value with unknown keys
      stripped. */
  datatype Outcome = Outcome(details: seq<Detail>, value: map<string, string>)

  function DetailsOf(messages: seq<string>, name: string): (ds: seq<Detail>)
    ensures |ds| == |messages|
    ensures forall i :: 0 <= i < |ds| ==> ds[i] == Detail(messages[i], [name])
  {
    if messages == [] then [] else [Detail(messages[0], [name])] + DetailsOf(messages[1..], name)
  }

  function ValidateObject(schema: seq<Key>, body: Body): (r: Outcome)
    ensures r.value.Keys <= set k | k in schema :: k.name
    ensures forall d :: d in r.details ==> exists k :: k in schema && d.path == [k.name]
  {
    if schema == [] then Outcome([], map[])
    else
      var key := schema[0];
      var rest := ValidateObject(schema[1..], body);
      match CheckString(key.rule, Lookup(body, key.name))
      case Valid(t) => Outcome(rest.details, rest.value[key.name := t])
      case Invalid(msgs) => Outcome(DetailsOf(msgs, key.name) + rest.details, rest.value)
  }

  predicate AllAccept(schema: seq<Key>, body: Body) {
    forall i :: 0 <= i < |schema| ==> Accepts(schema[i].rule, Lookup(body, schema[i].name))
  }

  /** A string a rule with a pattern accepts matches the pattern once
      trimmed. */
  lemma CheckedMatches(rule: StringRule, v: JsValue)
    requires rule.pattern.Some?
    ensures CheckString(rule, v).Valid? ==> v.Str? && Matches(rule.pattern.value, Trim(v.s))
  {
  }

  lemma AllAcceptCons(schema: seq<Key>, body: Body)
    requires schema != []
    ensures AllAccept(schema, body) <==> Accepts(schema[0].rule, Lookup(body, schema[0].name)) && AllAccept(schema[1..], body)
  {
    var tail := schema[1..];
    if Accepts(schema[0].rule, Lookup(body, schema[0].name)) && AllAccept(tail, body) {
      forall i | 0 <= i < |schema| ensures Accepts(schema[i].rule, Lookup(body, schema[i].name)) {
        if i > 0 {
          assert schema[i] == tail[i - 1];
        }
      }
    }
  }

  /** A body passes exactly when every key of the schema accepts its
      value. */
  lemma {:induction false} ValidateObjectPasses(schema: seq<Key>, body: Body)
    ensures ValidateObject(schema, body).details == [] <==> AllAccept(schema, body)
  {
    if schema != [] {
      ValidateObjectPasses(schema[1..], body);
      AllAcceptCons(schema, body);
    }
  }

  /** A passing body yields the trimmed string of every key of the
      schema. */
  lemma {:induction false} ValidateObjectValues(schema: seq<Key>, body: Body)
    requires DistinctNames(schema)
    requires ValidateObject(schema, body).details == []
    ensures forall i :: 0 <= i < |schema| ==>
              Lookup(body, schema[i].name).Str? && schema[i].name in ValidateObject(schema, body).value &&
              ValidateObject(schema, body).value[schema[i].name] == Trim(Lookup(body, schema[i].name).s)
  {
    if schema != [] {
      var tail := schema[1..];
      assert DistinctNames(tail) by {
        forall i, j | 0 <= i < j < |tail| ensures tail[i].name != tail[j].name {
          assert tail[i] == schema[i + 1] && tail[j] == schema[j + 1];
        }
      }
      var r := ValidateObject(schema, body);
      var rest := ValidateObject(tail, body);
      var v := Lookup(body, schema[0].name);
      var c := CheckString(schema[0].rule, v);
      assert c.Valid? && v.Str?;
      assert r == Outcome(rest.details, rest.value[schema[0].name := Trim(v.s)]);
      ValidateObjectValues(tail, body);
      forall i | 0 <= i < |schema|
        ensures Lookup(body, schema[i].name).Str? && schema[i].name in r.value
             && r.value[schema[i].name] == Trim(Lookup(body, schema[i].name).s)
      {
        if i > 0 {
          assert schema[i] == tail[i - 1];
          assert schema[i].name != schema[0].name;
        }
      }
    }
  }

  /** The fields of the shaped error list of a failed body are names of
      the schema, with no repetition. */
  lemma ValidateObjectErrorFields(schema: seq<Key>, body: Body)
    ensures TransformJoiError(ValidateObject(schema, body).details, "") == [] <==> ValidateObject(schema, body).details == []
    ensures DistinctFields(TransformJoiError(ValidateObject(schema, body).details, ""))
    ensures forall e :: e in TransformJoiError(ValidateObject(schema, body).details, "") ==>
              exists k :: k in schema && e.field == k.name
  {
    var details := ValidateObject(schema, body).details;
    if details != [] {
      assert MapDetails(details, "")[0].field in FieldSet(MapDetails(details, ""));
    }
    forall e | e in TransformJoiError(details, "") ensures exists k :: k in schema && e.field == k.name {
      assert e.field in FieldSet(MapDetails(details, ""));
      ReportedFieldIsKey(schema, body, e.field);
    }
  }

  /** A field of the mapped details of a body is the name of a key. */
  lemma ReportedFieldIsKey(schema: seq<Key>, body: Body, f: string)
    requires f in FieldSet(MapDetails(ValidateObject(schema, body).details, ""))
    ensures exists k :: k in schema && f == k.name
  {
    var details := ValidateObject(schema, body).details;
    var errs := MapDetails(details, "");
    var i :| 0 <= i < |errs| && errs[i].field == f;
    assert details[i] in details;
    var k :| k in schema && details[i].path == [k.name];
    assert PathString([k.name]) == k.name;
  }

  /** The details of a bare value validated on its own
      (`emailSchema.validate(email)`): their path is empty. */
  function BareDetails(messages: seq<string>): (ds: seq<Detail>)
    ensures |ds| == |messages|
    ensures forall i :: 0 <= i < |ds| ==> ds[i] == Detail(messages[i], [])
  {
    if messages == [] then [] else [Detail(messages[0], [])] + BareDetails(messages[1..])
  }

  /** The validated value under a key; "" when the key was not kept. */
  function Field(o: Outcome, name: string): string {
    if name in o.value then o.value[name] else ""
  }

  /** When a body passes, each key held a string and the validated object
      holds its trimmed form. */
  lemma PassedKey(schema: seq<Key>, body: Body, i: nat)
    requires DistinctNames(schema) && ValidateObject(schema, body).details == [] && i < |schema|
    ensures Lookup(body, schema[i].name).Str?
    ensures Field(ValidateObject(schema, body), schema[i].name) == Trim(Lookup(body, schema[i].name).s)
  {
    ValidateObjectValues(schema, body);
  }

  /** A schema of three keys accepts exactly when each of its keys does. */
  lemma AllAcceptThree(a: Key, b: Key, c: Key, body: Body)
    ensures AllAccept([a, b, c], body) <==>
              Accepts(a.rule, Lookup(body, a.name)) && Accepts(b.rule, Lookup(body, b.name))
              && Accepts(c.rule, Lookup(body, c.name))
  {
    AllAcceptCons([a, b, c], body);
    assert [a, b, c][1..] == [b, c];
    AllAcceptCons([b, c], body);
    assert [b, c][1..] == [c];
    AllAcceptCons([c], body);
  }

  /** A schema of four keys accepts exactly when each of its keys does. */
  lemma AllAcceptFour(a: Key, b: Key, c: Key, d: Key, body: Body)
    ensures AllAccept([a, b, c, d], body) <==>
              Accepts(a.rule, Lookup(body, a.name)) && Accepts(b.rule, Lookup(body, b.name))
              && Accepts(c.rule, Lookup(body, c.name)) && Accepts(d.rule, Lookup(body, d.name))
  {
    AllAcceptCons([a, b, c, d], body);
    assert [a, b, c, d][1..] == [b, c, d];
    AllAcceptThree(b, c, d, body);
  }

  /** A key whose rule refuses its value is reported: some detail has that
      key as its path. */
  lemma {:induction false} RefusedKeyReported(schema: seq<Key>, body: Body, i: nat)
    requires i < |schema| && CheckString(schema[i].rule, Lookup(body, schema[i].name)).Invalid?
    ensures HasPath(ValidateObject(schema, body).details, [schema[i].name])
  {
    if i == 0 {
      FirstKeyReported(schema, body);
    } else {
      assert schema[1..][i - 1] == schema[i];
      RefusedKeyReported(schema[1..], body, i - 1);
      LaterKeyReported(schema, body, [schema[i].name]);
    }
  }

  /** A refused first key has a detail with its path. */
  lemma FirstKeyReported(schema: seq<Key>, body: Body)
    requires schema != [] && CheckString(schema[0].rule, Lookup(body, schema[0].name)).Invalid?
    ensures HasPath(ValidateObject(schema, body).details, [schema[0].name])
  {
    var c := CheckString(schema[0].rule, Lookup(body, schema[0].name));
    var pre := DetailsOf(c.messages, schema[0].name);
    ValidateObjectHead(schema, body);
    assert pre[0].path == [schema[0].name];
    HasPathAppend(pre, ValidateObject(schema[1..], body).details, [schema[0].name]);
  }

  /** A path reported for the later keys is reported for the whole schema. */
  lemma LaterKeyReported(schema: seq<Key>, body: Body, path: seq<string>)
    requires schema != [] && HasPath(ValidateObject(schema[1..], body).details, path)
    ensures HasPath(ValidateObject(schema, body).details, path)
  {
    var c := CheckString(schema[0].rule, Lookup(body, schema[0].name));
    var pre := if c.Valid? then [] else DetailsOf(c.messages, schema[0].name);
    ValidateObjectHead(schema, body);
    HasPathAppend(pre, ValidateObject(schema[1..], body).details, path);
  }

  /** Some detail has this path. */
  predicate HasPath(details: seq<Detail>, path: seq<string>) {
    exists j :: 0 <= j < |details| && details[j].path == path
  }

  /** A path found in either part is found in the whole. */
  lemma HasPathAppend(pre: seq<Detail>, rest: seq<Detail>, path: seq<string>)
    requires HasPath(pre, path) || HasPath(rest, path)
    ensures HasPath(pre + rest, path)
  {
    if HasPath(pre, path) {
      var j :| 0 <= j < |pre| && pre[j].path == path;
      assert (pre + rest)[j] == pre[j];
    } else {
      var j :| 0 <= j < |rest| && rest[j].path == path;
      assert (pre + rest)[|pre| + j] == rest[j];
    }
  }

  /** The first key's details come first. */
  lemma ValidateObjectHead(schema: seq<Key>, body: Body)
    requires schema != []
    ensures var c := CheckString(schema[0].rule, Lookup(body, schema[0].name));
            ValidateObject(schema, body).details
            == (if c.Valid? then [] else DetailsOf(c.messages, schema[0].name)) + ValidateObject(schema[1..], body).details
  {
  }

}
