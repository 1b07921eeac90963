/** The shared helpers of the services: shaping Joi errors into the API's
    `errorsMessages` list, turning stored documents into views, recognising
    canonical ids and building the paginated answer of a list request. */
module UtilityFunctions {
  import opened Common
  import opened Js
  import opened ObjectIds
  import opened ValidationFunctions

  // ---------------------------------------------------------------------
  // transformJoiError

  /** One entry of `error.details`: the message and the path of the value
      it is about (empty when a bare value was validated). */
  datatype Detail = Detail(message: string, path: seq<string>)

  /** `path.join(".")`. */
  function PathString(path: seq<string>): string {
    if path == [] then "" else JoinWith(path, '.')
  }

  /** The field an entry is reported under: `fieldName` when it is a
      non-empty string (JavaScript truthiness), else the joined path. */
  function FieldOf(d: Detail, fieldName: string): string {
    if fieldName != "" then fieldName else PathString(d.path)
  }

  /** The `map` step: one field error per detail, in order. */
  function MapDetails(details: seq<Detail>, fieldName: string): (errs: seq<FieldError>)
    ensures |errs| == |details|
    ensures forall i :: 0 <= i < |details| ==>
              errs[i] == FieldError(details[i].message, FieldOf(details[i], fieldName))
  {
    if details == [] then []
    else [FieldError(details[0].message, FieldOf(details[0], fieldName))] + MapDetails(details[1..], fieldName)
  }

  /** A detail is reported under its joined path when no field name is
      given. */
  lemma PathReported(details: seq<Detail>, j: nat, name: string)
    requires j < |details| && PathString(details[j].path) == name
    ensures name in FieldSet(MapDetails(details, ""))
  {
    MappedPath(details, j);
    FieldListed(MapDetails(details, ""), j);
  }

  /** Every entry's field is among the fields of the list. */
  lemma FieldListed(errs: seq<FieldError>, j: nat)
    requires j < |errs|
    ensures errs[j].field in FieldSet(errs)
  {
  }

  /** Entry j of the mapped errors carries the joined path of detail j. */
  lemma MappedPath(details: seq<Detail>, j: nat)
    requires j < |details|
    ensures MapDetails(details, "")[j].field == PathString(details[j].path)
  {
  }

  /** No earlier entry has the same field as entry i. */
  predicate IsFirstOfField(errs: seq<FieldError>, i: nat)
    requires i < |errs|
  {
    forall j :: 0 <= j < i ==> errs[j].field != errs[i].field
  }

  /** The `filter` step over the first n entries: an entry is kept when the
      slice before it holds no entry with the same field. */
  function KeepFirst(errs: seq<FieldError>, n: nat): (kept: seq<FieldError>)
    requires n <= |errs|
    ensures |kept| <= n
  {
    if n == 0 then []
    else KeepFirst(errs, n - 1) + (if IsFirstOfField(errs, n - 1) then [errs[n - 1]] else [])
  }

  /** transformJoiError(error, fieldName): every field once, no two entries
      sharing a field, and every field of the details reported. */
  function TransformJoiError(details: seq<Detail>, fieldName: string): (r: seq<FieldError>)
    ensures |r| <= |details|
    ensures DistinctFields(r)
    ensures FieldSet(r) == FieldSet(MapDetails(details, fieldName))
  {
    var errs := MapDetails(details, fieldName);
    KeepFirstFields(errs, |errs|);
    assert errs[..|errs|] == errs;
    KeepFirst(errs, |errs|)
  }

  /** An independent reading of the filter: walk left to right, remembering
      the fields already reported. */
  function Dedup(errs: seq<FieldError>, seen: set<string>): seq<FieldError> {
    if errs == [] then []
    else if errs[0].field in seen then Dedup(errs[1..], seen)
    else [errs[0]] + Dedup(errs[1..], seen + {errs[0].field})
  }

  predicate DistinctFields(errs: seq<FieldError>) {
    forall i, j :: 0 <= i < j < |errs| ==> errs[i].field != errs[j].field
  }

  function FieldSet(errs: seq<FieldError>): set<string> {
    set i | 0 <= i < |errs| :: errs[i].field
  }

  /** What the kept prefix contains: exactly the fields of the first n
      entries, each once. */
  lemma {:induction false} KeepFirstFields(errs: seq<FieldError>, n: nat)
    requires n <= |errs|
    ensures DistinctFields(KeepFirst(errs, n))
    ensures FieldSet(KeepFirst(errs, n)) == FieldSet(errs[..n])
  {
    if n > 0 {
      KeepFirstFields(errs, n - 1);
      var prev := KeepFirst(errs, n - 1);
      var e := errs[n - 1];
      assert FieldSet(errs[..n]) == FieldSet(errs[..n - 1]) + {e.field} by {
        assert errs[..n] == errs[..n - 1] + [e];
      }
      if IsFirstOfField(errs, n - 1) {
        assert e.field !in FieldSet(prev);
        assert KeepFirst(errs, n) == prev + [e];
        assert FieldSet(prev + [e]) == FieldSet(prev) + {e.field} by {
          forall f | f in FieldSet(prev + [e]) ensures f in FieldSet(prev) + {e.field} {
            var i :| 0 <= i < |prev + [e]| && (prev + [e])[i].field == f;
            if i < |prev| { assert (prev + [e])[i] == prev[i]; }
          }
          forall f | f in FieldSet(prev) + {e.field} ensures f in FieldSet(prev + [e]) {
            if f == e.field {
              assert (prev + [e])[|prev|] == e;
            } else {
              var i :| 0 <= i < |prev| && prev[i].field == f;
              assert (prev + [e])[i] == prev[i];
            }
          }
        }
        forall i, j | 0 <= i < j < |prev + [e]| ensures (prev + [e])[i].field != (prev + [e])[j].field {
          if j < |prev| {
            assert (prev + [e])[i] == prev[i] && (prev + [e])[j] == prev[j];
          } else {
            assert (prev + [e])[i] == prev[i];
            assert prev[i].field in FieldSet(prev);
          }
        }
      } else {
        var j :| 0 <= j < n - 1 && errs[j].field == e.field;
        assert errs[..n - 1][j] == errs[j];
        assert KeepFirst(errs, n) == prev;
      }
    }
  }

  /** With an explicit field name every entry has that field, so one entry
      is left, and none only when there were no details. */
  lemma TransformJoiErrorWithFieldName(details: seq<Detail>, fieldName: string)
    requires fieldName != ""
    ensures |TransformJoiError(details, fieldName)| == (if details == [] then 0 else 1)
    ensures details != [] ==> TransformJoiError(details, fieldName)
                              == [FieldError(details[0].message, fieldName)]
  {
    var errs := MapDetails(details, fieldName);
    OneFieldKeepsFirst(errs, fieldName, |errs|);
  }

  lemma {:induction false} OneFieldKeepsFirst(errs: seq<FieldError>, f: string, n: nat)
    requires n <= |errs|
    requires forall i :: 0 <= i < |errs| ==> errs[i].field == f
    ensures KeepFirst(errs, n) == if n == 0 then [] else [errs[0]]
  {
    if n > 1 {
      OneFieldKeepsFirst(errs, f, n - 1);
      assert errs[0].field == errs[n - 1].field;
      assert !IsFirstOfField(errs, n - 1);
    }
  }

  /** The filter keeps exactly what the left-to-right walk keeps. */
  lemma {:induction false} KeepFirstIsDedup(errs: seq<FieldError>)
    ensures KeepFirst(errs, |errs|) == Dedup(errs, {})
  {
    DedupOfPrefix(errs, |errs|);
    assert errs[..|errs|] == errs;
    assert errs[|errs|..] == [];
  }

  /** Splitting the walk at n: the kept prefix, then the walk of the rest
      seeded with the prefix's fields. */
  lemma {:induction false} DedupOfPrefix(errs: seq<FieldError>, n: nat)
    requires n <= |errs|
    ensures Dedup(errs, {}) == KeepFirst(errs, n) + Dedup(errs[n..], FieldSet(errs[..n]))
  {
    if n == 0 {
      NothingSeenYet(errs);
    } else {
      DedupOfPrefix(errs, n - 1);
      var seen := FieldSet(errs[..n - 1]);
      DedupAt(errs, n, seen);
      KeepFirstStep(errs, n);
      FieldSetSnoc(errs, n);
    }
  }

  /** Before the first entry, no field has been seen. */
  lemma NothingSeenYet(errs: seq<FieldError>)
    ensures errs[0..] == errs && FieldSet(errs[..0]) == {}
  {
    assert errs[..0] == [];
  }

  /** One step of the walk: entry n - 1 is kept when its field is new, and
      its field is remembered either way. */
  lemma DedupAt(errs: seq<FieldError>, n: nat, seen: set<string>)
    requires 0 < n <= |errs|
    ensures Dedup(errs[n - 1..], seen)
            == (if errs[n - 1].field in seen then [] else [errs[n - 1]]) + Dedup(errs[n..], seen + {errs[n - 1].field})
  {
    var e := errs[n - 1];
    assert errs[n - 1..][1..] == errs[n..];
    if e.field in seen {
      assert seen + {e.field} == seen;
    }
  }

  /** One step of the filter, in terms of the fields seen so far. */
  lemma KeepFirstStep(errs: seq<FieldError>, n: nat)
    requires 0 < n <= |errs|
    ensures KeepFirst(errs, n)
            == KeepFirst(errs, n - 1) + (if errs[n - 1].field in FieldSet(errs[..n - 1]) then [] else [errs[n - 1]])
  {
    FirstOfFieldIsUnseen(errs, n);
  }

  /** The fields of the first n entries: those of the first n - 1 and the
      field of entry n - 1. */
  lemma FieldSetSnoc(errs: seq<FieldError>, n: nat)
    requires 0 < n <= |errs|
    ensures FieldSet(errs[..n]) == FieldSet(errs[..n - 1]) + {errs[n - 1].field}
  {
    assert errs[..n] == errs[..n - 1] + [errs[n - 1]];
  }

  /** Entry n - 1 is the first of its field exactly when no earlier entry
      has that field. */
  lemma FirstOfFieldIsUnseen(errs: seq<FieldError>, n: nat)
    requires 0 < n <= |errs|
    ensures IsFirstOfField(errs, n - 1) <==> errs[n - 1].field !in FieldSet(errs[..n - 1])
  {
    var e := errs[n - 1];
    if e.field in FieldSet(errs[..n - 1]) {
      var j :| 0 <= j < n - 1 && errs[..n - 1][j].field == e.field;
      assert errs[j].field == e.field;
    }
    if !IsFirstOfField(errs, n - 1) {
      var j :| 0 <= j < n - 1 && errs[j].field == e.field;
      assert errs[..n - 1][j] == errs[j];
    }
  }

  // ---------------------------------------------------------------------
  // joinErrorMessages

  /** joinErrorMessages: the lists of the non-null results, concatenated in
      order; a null contributes nothing and nothing is removed. */
  function JoinErrorMessages(results: seq<Option<seq<FieldError>>>): (r: seq<FieldError>)
    ensures |r| == TotalLength(results)
  {
    if results == [] then []
    else (match results[0] case None => [] case Some(errs) => errs) + JoinErrorMessages(results[1..])
  }

  function TotalLength(results: seq<Option<seq<FieldError>>>): nat {
    if results == [] then 0
    else (match results[0] case None => 0 case Some(errs) => |errs|) + TotalLength(results[1..])
  }

  /** Joining distributes over concatenation of the argument list. */
  lemma {:induction false} JoinErrorMessagesAppend(a: seq<Option<seq<FieldError>>>, b: seq<Option<seq<FieldError>>>)
    ensures JoinErrorMessages(a + b) == JoinErrorMessages(a) + JoinErrorMessages(b)
    ensures TotalLength(a + b) == TotalLength(a) + TotalLength(b)
  {
    if a != [] {
      assert (a + b)[1..] == a[1..] + b;
      JoinErrorMessagesAppend(a[1..], b);
    } else {
      assert a + b == b;
    }
  }

  /** Every joined entry comes from one of the lists. */
  lemma {:induction false} JoinErrorMessagesFrom(results: seq<Option<seq<FieldError>>>, e: FieldError)
    requires e in JoinErrorMessages(results)
    ensures exists k :: 0 <= k < |results| && results[k].Some? && e in results[k].value
  {
    if results[0].Some? && e in results[0].value {
    } else {
      JoinErrorMessagesFrom(results[1..], e);
      var k :| 0 <= k < |results[1..]| && results[1..][k].Some? && e in results[1..][k].value;
      assert results[k + 1] == results[1..][k];
    }
  }

  // ---------------------------------------------------------------------
  // mapMongoToView*

  /** A view: the document's fields with `_id` replaced by `id`, its text. */
  datatype View<T> = View(id: string, body: T)

  /** mapMongoToViewBlog / Comment / Post / User. */
  function MapMongoToView<T>(d: Doc<T>): (v: View<T>)
    ensures v.body == d.body
    ensures |v.id| == 24 && AllLowerHex(v.id)
  {
    View(IdString(d.id), d.body)
  }

  /** The view's id is the document's id: it parses back, and two views with
      the same id come from the same id. */
  lemma MapMongoToViewId<T>(d: Doc<T>)
    ensures ParseObjectId(MapMongoToView(d).id) == Some(d.id)
    ensures IsValidMongoId(MapMongoToView(d).id)
  {
    ParseObjectIdOfIdString(d.id);
  }

  lemma MapMongoToViewInjective<T>(a: Doc<T>, b: Doc<T>)
    requires MapMongoToView(a) == MapMongoToView(b)
    ensures a == b
  {
    IdStringInjective(a.id, b.id);
  }

  /** The views of a list of documents, in order. */
  function MapViews<T>(docs: seq<Doc<T>>): (vs: seq<View<T>>)
    ensures |vs| == |docs|
    ensures forall i :: 0 <= i < |docs| ==> vs[i] == MapMongoToView(docs[i])
  {
    if docs == [] then [] else [MapMongoToView(docs[0])] + MapViews(docs[1..])
  }

  // ---------------------------------------------------------------------
  // isValidMongoId

  /** `ObjectId.isValid(id) && String(new ObjectId(id)) === id`. */
  predicate IsValidMongoId(s: string) {
    ParseObjectId(s).Some? && IdString(ParseObjectId(s).value) == s
  }

  /** An id is valid exactly when it is 24 lower-case hex digits. */
  lemma IsValidMongoIdIff(s: string)
    ensures IsValidMongoId(s) <==> |s| == 24 && AllLowerHex(s)
  {
    if |s| == 24 && AllLowerHex(s) {
      LowerHexIsHex(s);
      HexOfLowerHex(s);
    } else if ParseObjectId(s).Some? {
      HexOfParseHex(s);
    }
  }

  // ---------------------------------------------------------------------
  // makePaginator

  /** The paginated answer. `pagesCount` is `Math.ceil(totalCount/pageSize)`;
      with a page size of 0 that is Infinity or NaN, which JSON writes as
      null (None). */
  datatype Paginator<T> = Paginator(pagesCount: Option<nat>, page: nat, pageSize: nat, totalCount: nat, items: seq<T>)

  function CeilDiv(n: nat, d: nat): (c: nat)
    requires d > 0
    ensures c * d >= n
    ensures n > 0 ==> (c - 1) * d < n
    ensures c == 0 <==> n == 0
  {
    (n + d - 1) / d
  }

  function MakePaginator<T>(query: Query, totalCount: nat, items: seq<T>): (p: Paginator<T>)
    ensures p.page == query.pageNumber && p.pageSize == query.pageSize
    ensures p.totalCount == totalCount && p.items == items
    ensures p.pagesCount.Some? <==> query.pageSize > 0
  {
    Paginator(if query.pageSize > 0 then Some(CeilDiv(totalCount, query.pageSize)) else None,
              query.pageNumber, query.pageSize, totalCount, items)
  }

  /** pagesCount is the least number of full pages that hold every item. */
  lemma PagesCountBounds<T>(query: Query, totalCount: nat, items: seq<T>)
    requires query.pageSize > 0
    ensures var c := MakePaginator(query, totalCount, items).pagesCount.value;
            c * query.pageSize >= totalCount
            && (totalCount > 0 ==> (c - 1) * query.pageSize < totalCount)
            && (c == 0 <==> totalCount == 0)
  {
  }
}
