/** The part of MongoDB's collection semantics the repositories rely on,
    over a collection held as a sequence in insertion order: `insertOne`
    with a driver-made `_id`, `findOne` and `deleteOne` (the first match),
    `updateOne` with `$set`, `countDocuments`, and `find` as
    filter, then sort, then skip, then limit. */
module Mongo {
  import opened Common
  import opened ObjectIds

  // ---------------------------------------------------------------------
  // identities

  function Ids<T>(docs: seq<Doc<T>>): set<ObjectId> {
    set i | 0 <= i < |docs| :: docs[i].id
  }

  /** The unique index on `_id`. */
  predicate DistinctIds<T>(docs: seq<Doc<T>>) {
    forall i, j :: 0 <= i < j < |docs| ==> docs[i].id != docs[j].id
  }

  // ---------------------------------------------------------------------
  // insertOne

  /** insertOne with the `_id` the driver made: the document is appended,
      or, when that `_id` is taken, the server refuses with a duplicate-key
      error (None). */
  function InsertOne<T>(docs: seq<Doc<T>>, id: ObjectId, body: T): (r: Option<seq<Doc<T>>>)
    ensures r.Some? <==> id !in Ids(docs)
    ensures r.Some? ==> r.value == docs + [Doc(id, body)]
  {
    if id in Ids(docs) then None else Some(docs + [Doc(id, body)])
  }

  /** Inserting keeps `_id` unique and adds exactly the new id. */
  lemma InsertOneKeepsDistinct<T>(docs: seq<Doc<T>>, id: ObjectId, body: T)
    requires DistinctIds(docs)
    requires InsertOne(docs, id, body).Some?
    ensures DistinctIds(InsertOne(docs, id, body).value)
    ensures Ids(InsertOne(docs, id, body).value) == Ids(docs) + {id}
  {
    var r := docs + [Doc(id, body)];
    forall i, j | 0 <= i < j < |r| ensures r[i].id != r[j].id {
      if j == |docs| {
        assert r[i] == docs[i];
        assert docs[i].id in Ids(docs);
      } else {
        assert r[i] == docs[i] && r[j] == docs[j];
      }
    }
    assert Ids(r) == Ids(docs) + {id} by {
      forall x | x in Ids(r) ensures x in Ids(docs) + {id} {
        var i :| 0 <= i < |r| && r[i].id == x;
        if i < |docs| { assert r[i] == docs[i]; }
      }
      forall x | x in Ids(docs) + {id} ensures x in Ids(r) {
        if x == id {
          assert r[|docs|].id == id;
        } else {
          var i :| 0 <= i < |docs| && docs[i].id == x;
          assert r[i] == docs[i];
        }
      }
    }
  }

  // ---------------------------------------------------------------------
  // filters

  /** `{_id: id}`. */
  function ById<T>(id: ObjectId): Doc<T> -> bool {
    (d: Doc<T>) => d.id == id
  }

  /** The empty filter `{}`. */
  function Everything<E>(): E -> bool {
    (x: E) => true
  }

  // ---------------------------------------------------------------------
  // findOne and deleteOne: the first match in natural order

  function FindIndex<E>(s: seq<E>, p: E -> bool): (r: Option<nat>)
    ensures r.Some? ==> r.value < |s| && p(s[r.value])
    ensures r.Some? ==> forall j :: 0 <= j < r.value ==> !p(s[j])
    ensures r.None? ==> forall j :: 0 <= j < |s| ==> !p(s[j])
  {
    if s == [] then None
    else if p(s[0]) then Some(0)
    else match FindIndex(s[1..], p)
      case None => None
      case Some(k) => Some(k + 1)
  }

  /** findOne: the first matching document, or null (None). */
  function FindOne<E>(s: seq<E>, p: E -> bool): (r: Option<E>)
    ensures r.Some? ==> r.value in s && p(r.value)
    ensures r.None? <==> forall j :: 0 <= j < |s| ==> !p(s[j])
  {
    match FindIndex(s, p)
    case None => None
    case Some(i) => Some(s[i])
  }

  /** findOne({_id: id}): the document with that id, if there is one. */
  function FindById<T>(docs: seq<Doc<T>>, id: ObjectId): (r: Option<Doc<T>>)
    ensures r.Some? ==> r.value in docs && r.value.id == id
    ensures r.None? <==> id !in Ids(docs)
  {
    FindOne(docs, ById(id))
  }

  /** With unique ids, findOne by a stored document's id finds that
      document. */
  lemma FindByIdOfStored<T>(docs: seq<Doc<T>>, k: nat)
    requires k < |docs| && DistinctIds(docs)
    ensures FindById(docs, docs[k].id) == Some(docs[k])
  {
    var r := FindById(docs, docs[k].id);
    var j :| 0 <= j < |docs| && docs[j] == r.value;
  }

  /** deleteOne: the first matching document is removed; deletedCount is
      1 or 0. */
  function DeleteOne<E>(s: seq<E>, p: E -> bool): (r: seq<E>)
    ensures FindIndex(s, p).None? ==> r == s
    ensures FindIndex(s, p).Some? ==>
              var i := FindIndex(s, p).value; r == s[..i] + s[i + 1..]
  {
    match FindIndex(s, p)
    case None => s
    case Some(i) => s[..i] + s[i + 1..]
  }

  function DeletedCount<E>(s: seq<E>, p: E -> bool): (n: nat)
    ensures n <= 1
  {
    |s| - |DeleteOne(s, p)|
  }

  /** deleteOne removes at most one document, and only a matching one: the
      documents that are left are the others, in their order. */
  lemma DeleteOneRemovesOne<E>(s: seq<E>, p: E -> bool)
    ensures DeletedCount(s, p) == 1 <==> exists j :: 0 <= j < |s| && p(s[j])
    ensures DeletedCount(s, p) == 1 ==> exists x :: x in s && p(x) && multiset(DeleteOne(s, p)) + multiset{x} == multiset(s)
    ensures DeletedCount(s, p) == 0 ==> DeleteOne(s, p) == s
  {
    match FindIndex(s, p)
    case None =>
    case Some(i) =>
      assert s == s[..i] + [s[i]] + s[i + 1..];
      assert multiset(DeleteOne(s, p)) + multiset{s[i]} == multiset(s);
  }

  /** Deleting keeps `_id` unique and takes away at most the removed id. */
  lemma DeleteOneKeepsDistinct<T>(docs: seq<Doc<T>>, p: Doc<T> -> bool)
    requires DistinctIds(docs)
    ensures DistinctIds(DeleteOne(docs, p))
    ensures Ids(DeleteOne(docs, p)) <= Ids(docs)
  {
    match FindIndex(docs, p)
    case None =>
    case Some(i) => RemoveAtKeepsDistinct(docs, i);
  }

  /** deleteOne({_id: id}) under a unique index: it deletes one document
      exactly when the id is stored, and leaves every other document. */
  lemma DeleteByIdRemoves<T>(docs: seq<Doc<T>>, id: ObjectId)
    requires DistinctIds(docs)
    ensures DeletedCount(docs, ById(id)) == (if id in Ids(docs) then 1 else 0)
    ensures DistinctIds(DeleteOne(docs, ById(id)))
    ensures Ids(DeleteOne(docs, ById(id))) == Ids(docs) - {id}
    ensures forall d :: d in docs && d.id != id ==> d in DeleteOne(docs, ById(id))
  {
    match FindIndex(docs, ById(id))
    case None =>
    case Some(i) =>
      RemoveAtKeepsDistinct(docs, i);
      RemoveAtKeepsOthers(docs, i);
  }

  /** The positions of a sequence with entry i taken out. */
  lemma RemoveAtIndex<E>(s: seq<E>, i: nat)
    requires i < |s|
    ensures var r := s[..i] + s[i + 1..];
            |r| == |s| - 1 && forall k :: 0 <= k < |r| ==> r[k] == if k < i then s[k] else s[k + 1]
  {
  }

  /** Taking out entry i leaves every other value. */
  lemma RemoveAtKeepsOthers<E>(s: seq<E>, i: nat)
    requires i < |s|
    ensures forall x :: x in s && x != s[i] ==> x in s[..i] + s[i + 1..]
  {
    assert s == s[..i] + [s[i]] + s[i + 1..];
  }

  /** Taking out document i keeps `_id` unique and takes away exactly its
      id. */
  lemma RemoveAtKeepsDistinct<T>(docs: seq<Doc<T>>, i: nat)
    requires DistinctIds(docs) && i < |docs|
    ensures DistinctIds(docs[..i] + docs[i + 1..])
    ensures Ids(docs[..i] + docs[i + 1..]) == Ids(docs) - {docs[i].id}
  {
    RemoveAtIndex(docs, i);
    RemoveAtIdsWithin(docs, i);
    RemoveAtIdsKept(docs, i);
  }

  /** Every id left was stored, and is not the removed one. */
  lemma RemoveAtIdsWithin<T>(docs: seq<Doc<T>>, i: nat)
    requires DistinctIds(docs) && i < |docs|
    ensures Ids(docs[..i] + docs[i + 1..]) <= Ids(docs) - {docs[i].id}
  {
    var r := docs[..i] + docs[i + 1..];
    RemoveAtIndex(docs, i);
    forall x | x in Ids(r) ensures x in Ids(docs) - {docs[i].id} {
      var k :| 0 <= k < |r| && r[k].id == x;
      if k < i { assert r[k] == docs[k]; } else { assert r[k] == docs[k + 1]; }
    }
  }

  /** Every other stored id is left. */
  lemma RemoveAtIdsKept<T>(docs: seq<Doc<T>>, i: nat)
    requires i < |docs|
    ensures Ids(docs) - {docs[i].id} <= Ids(docs[..i] + docs[i + 1..])
  {
    var r := docs[..i] + docs[i + 1..];
    RemoveAtIndex(docs, i);
    forall x | x in Ids(docs) - {docs[i].id} ensures x in Ids(r) {
      var k :| 0 <= k < |docs| && docs[k].id == x;
      if k < i { assert r[k] == docs[k]; } else { assert r[k - 1] == docs[k]; }
    }
  }

  // ---------------------------------------------------------------------
  // updateOne({_id}, {$set})

  /** What updateOne reports, with the collection after it. */
  datatype UpdateResult<T> = UpdateResult(docs: seq<Doc<T>>, matchedCount: nat, modifiedCount: nat)

  /** updateOne on `_id`: the first document with that id gets `merge`
      applied to it; modifiedCount is 0 when the merged document equals the
      old one, since the server then writes nothing. */
  function UpdateOne<T(==)>(docs: seq<Doc<T>>, id: ObjectId, merge: T -> T): (r: UpdateResult<T>)
    ensures |r.docs| == |docs|
    ensures r.matchedCount == 1 <==> id in Ids(docs)
    ensures r.matchedCount <= 1 && r.modifiedCount <= r.matchedCount
    ensures r.modifiedCount == 0 ==> r.docs == docs
  {
    match FindIndex(docs, ById(id))
    case None => UpdateResult(docs, 0, 0)
    case Some(i) =>
      var merged := merge(docs[i].body);
      UpdateResult(docs[i := Doc(id, merged)], 1, if merged == docs[i].body then 0 else 1)
  }

  /** updateOne changes the one document with that id, by `merge`, and
      nothing else; modifiedCount is 1 exactly when that changed it. */
  lemma UpdateOneChangesOne<T>(docs: seq<Doc<T>>, id: ObjectId, merge: T -> T)
    requires DistinctIds(docs)
    ensures var r := UpdateOne(docs, id, merge);
            forall k :: 0 <= k < |docs| ==>
              r.docs[k] == (if docs[k].id == id then Doc(id, merge(docs[k].body)) else docs[k])
    ensures var r := UpdateOne(docs, id, merge);
            r.modifiedCount == 1 <==> exists k :: 0 <= k < |docs| && docs[k].id == id && merge(docs[k].body) != docs[k].body
    ensures Ids(UpdateOne(docs, id, merge).docs) == Ids(docs)
    ensures DistinctIds(UpdateOne(docs, id, merge).docs)
  {
    var r := UpdateOne(docs, id, merge);
    match FindIndex(docs, ById(id))
    case None =>
    case Some(i) =>
      assert forall k :: 0 <= k < |docs| && docs[k].id == id ==> k == i;
      assert forall k :: 0 <= k < |docs| ==> r.docs[k].id == docs[k].id;
      assert Ids(r.docs) == Ids(docs) by {
        forall x | x in Ids(r.docs) ensures x in Ids(docs) {
          var k :| 0 <= k < |r.docs| && r.docs[k].id == x;
        }
        forall x | x in Ids(docs) ensures x in Ids(r.docs) {
          var k :| 0 <= k < |docs| && docs[k].id == x;
          assert r.docs[k].id == x;
        }
      }
  }

  // ---------------------------------------------------------------------
  // find: filter, sort, skip, limit; countDocuments

  /** The documents a filter matches, in natural order. */
  function Filter<E>(s: seq<E>, p: E -> bool): (r: seq<E>)
    ensures |r| <= |s|
    ensures forall k :: 0 <= k < |r| ==> p(r[k]) && r[k] in s
  {
    if s == [] then []
    else (if p(s[0]) then [s[0]] else []) + Filter(s[1..], p)
  }

  /** Exactly the matching documents pass the filter. */
  lemma {:induction false} FilterMembers<E>(s: seq<E>, p: E -> bool, x: E)
    ensures x in Filter(s, p) <==> x in s && p(x)
  {
    if s != [] {
      FilterMembers(s[1..], p, x);
      assert s == [s[0]] + s[1..];
    }
  }

  /** countDocuments(filter). */
  function Count<E>(s: seq<E>, p: E -> bool): (n: nat)
    ensures n <= |s|
  {
    |Filter(s, p)|
  }

  /** A filter every document meets keeps the whole collection. */
  lemma {:induction false} FilterAll<E>(s: seq<E>, p: E -> bool)
    requires forall k :: 0 <= k < |s| ==> p(s[k])
    ensures Filter(s, p) == s
  {
    if s != [] {
      FilterAll(s[1..], p);
      assert s == [s[0]] + s[1..];
    }
  }

  /** `{field: {$regex: pattern, $options: "i"}}`: whether the pattern,
      interpolated as is, occurs in the field, ignoring case. The regular
      expression engine is not part of this model. */
  type RegexTest = (string, string) -> bool

  /** A sort key as BSON compares it: a missing field (null) first, then
      strings (by code point, which is the byte order of UTF-8), then
      booleans (false before true). */
  datatype SortKey = Missing | Text(s: string) | Flag(b: bool)

  predicate TextLe(a: string, b: string) {
    a == [] || (b != [] && (a[0] < b[0] || (a[0] == b[0] && TextLe(a[1..], b[1..]))))
  }

  predicate KeyLe(a: SortKey, b: SortKey) {
    match (a, b)
    case (Missing, _) => true
    case (Text(_), Missing) => false
    case (Text(x), Text(y)) => TextLe(x, y)
    case (Text(_), Flag(_)) => true
    case (Flag(_), Missing) => false
    case (Flag(_), Text(_)) => false
    case (Flag(x), Flag(y)) => !x || y
  }

  lemma {:induction false} TextLeTotal(a: string, b: string)
    ensures TextLe(a, b) || TextLe(b, a)
  {
    if a != [] && b != [] && a[0] == b[0] {
      TextLeTotal(a[1..], b[1..]);
    }
  }

  lemma {:induction false} TextLeTransitive(a: string, b: string, c: string)
    requires TextLe(a, b) && TextLe(b, c)
    ensures TextLe(a, c)
  {
    if a != [] && b != [] && c != [] && a[0] == b[0] && b[0] == c[0] {
      TextLeTransitive(a[1..], b[1..], c[1..]);
    }
  }

  lemma KeyLeTotal(a: SortKey, b: SortKey)
    ensures KeyLe(a, b) || KeyLe(b, a)
  {
    if a.Text? && b.Text? {
      TextLeTotal(a.s, b.s);
    }
  }

  lemma KeyLeTransitive(a: SortKey, b: SortKey, c: SortKey)
    requires KeyLe(a, b) && KeyLe(b, c)
    ensures KeyLe(a, c)
  {
    if a.Text? && b.Text? && c.Text? {
      TextLeTransitive(a.s, b.s, c.s);
    }
  }

  /** `.sort({[sortBy]: asc ? 1 : -1})`: x may come before y. */
  predicate InOrder<E>(key: E -> SortKey, ascending: bool, x: E, y: E) {
    if ascending then KeyLe(key(x), key(y)) else KeyLe(key(y), key(x))
  }

  lemma InOrderTotal<E>(key: E -> SortKey, ascending: bool, x: E, y: E)
    ensures InOrder(key, ascending, x, y) || InOrder(key, ascending, y, x)
  {
    KeyLeTotal(key(x), key(y));
  }

  lemma InOrderTransitive<E>(key: E -> SortKey, ascending: bool, x: E, y: E, z: E)
    requires InOrder(key, ascending, x, y) && InOrder(key, ascending, y, z)
    ensures InOrder(key, ascending, x, z)
  {
    if ascending {
      KeyLeTransitive(key(x), key(y), key(z));
    } else {
      KeyLeTransitive(key(z), key(y), key(x));
    }
  }

  predicate Sorted<E>(s: seq<E>, key: E -> SortKey, ascending: bool) {
    forall i, j :: 0 <= i < j < |s| ==> InOrder(key, ascending, s[i], s[j])
  }

  /** Inserting x after the elements it does not strictly precede. */
  function Insert<E>(x: E, s: seq<E>, key: E -> SortKey, ascending: bool): (r: seq<E>)
    ensures |r| == |s| + 1
  {
    if s == [] then [x]
    else if !InOrder(key, ascending, s[0], x) then [x] + s
    else [s[0]] + Insert(x, s[1..], key, ascending)
  }

  /** The sort: ties keep their natural order here, where the server leaves
      their order unspecified. */
  function Sort<E>(s: seq<E>, key: E -> SortKey, ascending: bool): (r: seq<E>)
    ensures |r| == |s|
  {
    if s == [] then [] else Insert(s[|s| - 1], Sort(s[..|s| - 1], key, ascending), key, ascending)
  }

  lemma {:induction false} InsertPermutes<E>(x: E, s: seq<E>, key: E -> SortKey, ascending: bool)
    ensures multiset(Insert(x, s, key, ascending)) == multiset(s) + multiset{x}
  {
    if s != [] && InOrder(key, ascending, s[0], x) {
      InsertPermutes(x, s[1..], key, ascending);
      assert s == [s[0]] + s[1..];
    }
  }

  lemma {:induction false} InsertSorted<E>(x: E, s: seq<E>, key: E -> SortKey, ascending: bool)
    requires Sorted(s, key, ascending)
    ensures Sorted(Insert(x, s, key, ascending), key, ascending)
  {
    if s == [] {
    } else if !InOrder(key, ascending, s[0], x) {
      InOrderTotal(key, ascending, s[0], x);
      forall k | 0 <= k < |s| ensures InOrder(key, ascending, x, s[k]) {
        if k > 0 {
          InOrderTransitive(key, ascending, x, s[0], s[k]);
        }
      }
      ConsSorted(x, s, key, ascending);
    } else {
      var rt := Insert(x, s[1..], key, ascending);
      InsertSorted(x, s[1..], key, ascending);
      InsertPermutes(x, s[1..], key, ascending);
      HeadBeforeInserted(x, s, rt, key, ascending);
      ConsSorted(s[0], rt, key, ascending);
    }
  }

  /** A sorted list stays sorted with an element in front that may come
      before each of its entries. */
  lemma ConsSorted<E>(h: E, t: seq<E>, key: E -> SortKey, ascending: bool)
    requires Sorted(t, key, ascending)
    requires forall k :: 0 <= k < |t| ==> InOrder(key, ascending, h, t[k])
    ensures Sorted([h] + t, key, ascending)
  {
    var r := [h] + t;
    forall i, j | 0 <= i < j < |r| ensures InOrder(key, ascending, r[i], r[j]) {
      if i == 0 {
        assert r[j] == t[j - 1];
      } else {
        assert r[i] == t[i - 1] && r[j] == t[j - 1];
      }
    }
  }

  /** The head of a sorted list may come before every entry of its tail
      with x inserted, when it may come before x. */
  lemma HeadBeforeInserted<E>(x: E, s: seq<E>, rt: seq<E>, key: E -> SortKey, ascending: bool)
    requires Sorted(s, key, ascending) && s != [] && InOrder(key, ascending, s[0], x)
    requires multiset(rt) == multiset(s[1..]) + multiset{x}
    ensures forall k :: 0 <= k < |rt| ==> InOrder(key, ascending, s[0], rt[k])
  {
    var tail := s[1..];
    forall k | 0 <= k < |rt| ensures InOrder(key, ascending, s[0], rt[k]) {
      var y := rt[k];
      assert y in multiset(rt);
      if y != x {
        assert y in multiset(tail);
        var m :| 0 <= m < |tail| && tail[m] == y;
        assert s[m + 1] == y;
      }
    }
  }

  /** The sort returns the same documents, ordered by the key. */
  lemma {:induction false} SortSorted<E>(s: seq<E>, key: E -> SortKey, ascending: bool)
    ensures Sorted(Sort(s, key, ascending), key, ascending)
    ensures multiset(Sort(s, key, ascending)) == multiset(s)
  {
    if s != [] {
      var init := s[..|s| - 1];
      SortSorted(init, key, ascending);
      InsertSorted(s[|s| - 1], Sort(init, key, ascending), key, ascending);
      InsertPermutes(s[|s| - 1], Sort(init, key, ascending), key, ascending);
      assert s == init + [s[|s| - 1]];
    }
  }

  /** `.skip((pageNumber - 1) * pageSize).limit(pageSize)`. A negative skip
      is refused by the server (None); `limit(0)` means no limit. */
  function Window<E>(s: seq<E>, pageNumber: nat, pageSize: nat): (r: Option<seq<E>>)
    ensures r.None? <==> pageNumber == 0 && pageSize > 0
    ensures r.Some? && pageSize > 0 ==> |r.value| <= pageSize
    ensures r.Some? ==> |r.value| <= |s|
  {
    var skip := (pageNumber - 1) * pageSize;
    if skip < 0 then None
    else
      var rest := if skip <= |s| then s[skip..] else [];
      Some(if pageSize == 0 || pageSize >= |rest| then rest else rest[..pageSize])
  }

  /** The window is the slice of the sorted list that starts at the skip
      and holds as many elements as the limit allows. */
  lemma WindowIsSlice<E>(s: seq<E>, pageNumber: nat, pageSize: nat)
    requires pageNumber > 0 || pageSize == 0
    ensures var skip := (pageNumber - 1) * pageSize;
            var avail := if skip <= |s| then |s| - skip else 0;
            var page := Window(s, pageNumber, pageSize).value;
            |page| == (if pageSize == 0 || pageSize >= avail then avail else pageSize)
            && forall k :: 0 <= k < |page| ==> skip + k < |s| && page[k] == s[skip + k]
  {
  }

  /** find: the window of the sorted matches. */
  function Find<E>(s: seq<E>, p: E -> bool, key: E -> SortKey, ascending: bool,
                   pageNumber: nat, pageSize: nat): (r: Option<seq<E>>)
    ensures r.None? <==> pageNumber == 0 && pageSize > 0
  {
    Window(Sort(Filter(s, p), key, ascending), pageNumber, pageSize)
  }

  /** The first page of a find is empty exactly when nothing matches. */
  lemma FirstPageEmpty<E>(s: seq<E>, p: E -> bool, key: E -> SortKey, ascending: bool, pageSize: nat)
    ensures Find(s, p, key, ascending, 1, pageSize).Some?
    ensures Find(s, p, key, ascending, 1, pageSize).value == [] <==> Count(s, p) == 0
  {
    var sorted := Sort(Filter(s, p), key, ascending);
    WindowIsSlice(sorted, 1, pageSize);
  }

  /** A page of find holds matching documents of the collection, in key
      order, never more than countDocuments with the same filter, and never
      more than the page size. */
  lemma FindProperties<E>(s: seq<E>, p: E -> bool, key: E -> SortKey, ascending: bool,
                              pageNumber: nat, pageSize: nat)
    requires Find(s, p, key, ascending, pageNumber, pageSize).Some?
    ensures var page := Find(s, p, key, ascending, pageNumber, pageSize).value;
            |page| <= Count(s, p)
            && (pageSize > 0 ==> |page| <= pageSize)
            && Sorted(page, key, ascending)
            && forall k :: 0 <= k < |page| ==> page[k] in s && p(page[k])
  {
    var f := Filter(s, p);
    var sorted := Sort(f, key, ascending);
    SortSorted(f, key, ascending);
    WindowOfSorted(sorted, pageNumber, pageSize, key, ascending);
    var page := Window(sorted, pageNumber, pageSize).value;
    forall k | 0 <= k < |page| ensures page[k] in s && p(page[k]) {
      assert page[k] in multiset(f);
      FilterMembers(s, p, page[k]);
    }
  }

  /** A window of a sorted list is sorted and holds entries of the list. */
  lemma WindowOfSorted<E>(s: seq<E>, pageNumber: nat, pageSize: nat, key: E -> SortKey, ascending: bool)
    requires Sorted(s, key, ascending) && Window(s, pageNumber, pageSize).Some?
    ensures var page := Window(s, pageNumber, pageSize).value;
            Sorted(page, key, ascending) && forall k :: 0 <= k < |page| ==> page[k] in s
  {
    WindowIsSlice(s, pageNumber, pageSize);
    var page := Window(s, pageNumber, pageSize).value;
    var skip := (pageNumber - 1) * pageSize;
    forall k | 0 <= k < |page| ensures page[k] in s {
      assert page[k] == s[skip + k];
    }
    forall i, j | 0 <= i < j < |page| ensures InOrder(key, ascending, page[i], page[j]) {
      assert page[i] == s[skip + i] && page[j] == s[skip + j];
    }
  }

  /** The matching documents in key order: the list find pages through. */
  function SortedMatches<E>(s: seq<E>, p: E -> bool, key: E -> SortKey, ascending: bool): (r: seq<E>)
    ensures |r| == Count(s, p)
    ensures Sorted(r, key, ascending)
    ensures multiset(r) == multiset(Filter(s, p))
  {
    SortSorted(Filter(s, p), key, ascending);
    Sort(Filter(s, p), key, ascending)
  }

  /** `items` is what `.skip((pageNumber - 1) * pageSize).limit(pageSize)`
      leaves of `sorted`, each entry seen through `view`: the entries from
      the skip on, as many as the limit allows (all of them for limit 0). */
  ghost predicate PageOf<E, F>(items: seq<F>, sorted: seq<E>, pageNumber: nat, pageSize: nat, view: E -> F) {
    var skip := (pageNumber - 1) * pageSize;
    var avail := if skip <= |sorted| then |sorted| - skip else 0;
    && skip >= 0
    && |items| == (if pageSize == 0 || pageSize >= avail then avail else pageSize)
    && forall k :: 0 <= k < |items| ==> skip + k < |sorted| && items[k] == view(sorted[skip + k])
  }

  /** The view of a page that shows each document as it is. */
  function Itself<E>(x: E): E {
    x
  }

  /** A page of find is the window of the sorted matches. */
  lemma FindIsWindow<E>(s: seq<E>, p: E -> bool, key: E -> SortKey, ascending: bool,
                        pageNumber: nat, pageSize: nat)
    requires Find(s, p, key, ascending, pageNumber, pageSize).Some?
    ensures PageOf(Find(s, p, key, ascending, pageNumber, pageSize).value, SortedMatches(s, p, key, ascending),
                   pageNumber, pageSize, Itself)
  {
    WindowIsSlice(Sort(Filter(s, p), key, ascending), pageNumber, pageSize);
  }

  /** Seeing each entry of a page through `w` gives the page seen through
      the composed view. */
  lemma PageOfMap<E, F, G>(page: seq<F>, items: seq<G>, sorted: seq<E>, pageNumber: nat, pageSize: nat,
                           v: E -> F, w: F -> G, vw: E -> G)
    requires PageOf(page, sorted, pageNumber, pageSize, v)
    requires |items| == |page| && forall k :: 0 <= k < |page| ==> items[k] == w(page[k])
    requires forall e :: vw(e) == w(v(e))
    ensures PageOf(items, sorted, pageNumber, pageSize, vw)
  {
  }

  /** A found page seen entry by entry through `view`: no longer than the
      matches or the page size, and every entry the view of a match. */
  lemma FindMembersMapped<E, F>(s: seq<E>, p: E -> bool, key: E -> SortKey, ascending: bool,
                                pageNumber: nat, pageSize: nat, page: seq<E>, items: seq<F>, view: E -> F)
    requires Find(s, p, key, ascending, pageNumber, pageSize) == Some(page)
    requires |items| == |page| && forall k :: 0 <= k < |page| ==> items[k] == view(page[k])
    ensures |items| <= Count(s, p) && (pageSize > 0 ==> |items| <= pageSize)
    ensures forall k :: 0 <= k < |items| ==> exists e :: e in s && p(e) && items[k] == view(e)
  {
    FindProperties(s, p, key, ascending, pageNumber, pageSize);
    forall k | 0 <= k < |items| ensures exists e :: e in s && p(e) && items[k] == view(e) {
      assert page[k] in s && p(page[k]) && items[k] == view(page[k]);
    }
  }

  /** A found page seen entry by entry through `view` is the window of the
      sorted matches seen through `view`. */
  lemma FindWindowMapped<E, F>(s: seq<E>, p: E -> bool, key: E -> SortKey, ascending: bool,
                               pageNumber: nat, pageSize: nat, page: seq<E>, items: seq<F>, view: E -> F)
    requires Find(s, p, key, ascending, pageNumber, pageSize) == Some(page)
    requires |items| == |page| && forall k :: 0 <= k < |page| ==> items[k] == view(page[k])
    ensures PageOf(items, SortedMatches(s, p, key, ascending), pageNumber, pageSize, view)
  {
    FindIsWindow(s, p, key, ascending, pageNumber, pageSize);
    PageOfMap(page, items, SortedMatches(s, p, key, ascending), pageNumber, pageSize, Itself, view, view);
  }
}
