/** The blogs service: validation of the blog input and of the list query,
    and the five operations of `/blogs`, each answering a status with an
    optional body. Operations that write are methods over the database,
    each tied to a function of the state before the call. */
module BlogsService {
  import opened Common
  import opened Js
  import opened ObjectIds
  import opened Mongo
  import opened Store
  import opened Joi
  import opened UtilityFunctions
  import opened ValidationFunctions
  import opened BlogsRepository

  // ---------------------------------------------------------------------
  // blogSchema and the list query

  const NameRule: StringRule :=
    StringRule(None, Some(15), None,
      Messages("name is required", "name must be a string", "empty string can't be used as a name",
               "", "name can't be longer than 15 characters", ""))

  const DescriptionRule: StringRule :=
    StringRule(None, Some(500), None,
      Messages("description is required", "description must be a string",
               "empty string can't be used as a description",
               "", "description can't be longer than 500 characters", ""))

  const WebsiteUrlRule: StringRule :=
    StringRule(None, Some(100), Some(UrlPattern),
      Messages("websiteUrl is required", "websiteUrl must be a string",
               "empty string can't be used as a websiteUrl",
               "", "websiteUrl can't be longer than 100 characters", "incorrect url"))

  const BlogSchema: seq<Key> :=
    [Key("name", NameRule), Key("description", DescriptionRule), Key("websiteUrl", WebsiteUrlRule)]

  const BlogSortable: seq<string> := ["id", "name", "description", "websiteUrl", "isMembership", "createdAt"]

  /** blogQuerySchema: the paging rules and the name term, "" by default. */
  function BlogQueryOf(raw: map<string, string>): BlogQuery {
    BlogQuery(ValidateQuery(raw, BlogSortable), if "searchNameTerm" in raw then raw["searchNameTerm"] else "")
  }

  /** What blogSchema demands, read directly: three strings, non-empty once
      trimmed, of at most 15, 500 and 100 characters, the last a URL. */
  predicate ValidBlogInput(body: Body) {
    var name := Lookup(body, "name");
    var description := Lookup(body, "description");
    var url := Lookup(body, "websiteUrl");
    && name.Str? && Trim(name.s) != "" && JsLength(Trim(name.s)) <= 15
    && description.Str? && Trim(description.s) != "" && JsLength(Trim(description.s)) <= 500
    && url.Str? && Trim(url.s) != "" && JsLength(Trim(url.s)) <= 100 && Matches(UrlPattern, Trim(url.s))
  }

  /** The trimmed input of a valid body. */
  function TrimmedBlogInput(body: Body): BlogInput
    requires ValidBlogInput(body)
  {
    BlogInput(Trim(Lookup(body, "name").s), Trim(Lookup(body, "description").s), Trim(Lookup(body, "websiteUrl").s))
  }

  /** The input the validated object carries. */
  function BlogInputOf(o: Outcome): BlogInput {
    BlogInput(Field(o, "name"), Field(o, "description"), Field(o, "websiteUrl"))
  }

  lemma BlogSchemaNames()
    ensures DistinctNames(BlogSchema)
  {
  }

  /** blogSchema accepts exactly the bodies described above. */
  lemma BlogSchemaAccepts(body: Body)
    ensures ValidateObject(BlogSchema, body).details == [] <==> ValidBlogInput(body)
  {
    AllAcceptThree(Key("name", NameRule), Key("description", DescriptionRule), Key("websiteUrl", WebsiteUrlRule), body);
    ValidateObjectPasses(BlogSchema, body);
  }

  /** The validated object of a valid body is its trimmed input. */
  lemma BlogSchemaValue(body: Body)
    requires ValidBlogInput(body)
    ensures ValidateObject(BlogSchema, body).details == []
    ensures BlogInputOf(ValidateObject(BlogSchema, body)) == TrimmedBlogInput(body)
  {
    BlogSchemaAccepts(body);
    BlogSchemaNames();
    PassedKey(BlogSchema, body, 0);
    PassedKey(BlogSchema, body, 1);
    PassedKey(BlogSchema, body, 2);
  }

  /** The errors of a rejected body: at least one, at most one per field,
      each about one of the three keys. */
  lemma BlogSchemaErrors(body: Body)
    requires ValidateObject(BlogSchema, body).details != []
    ensures var errs := TransformJoiError(ValidateObject(BlogSchema, body).details, "");
            errs != [] && DistinctFields(errs)
            && forall e :: e in errs ==> e.field in {"name", "description", "websiteUrl"}
  {
    ValidateObjectErrorFields(BlogSchema, body);
  }

  // ---------------------------------------------------------------------
  // readBlogs

  /** readBlogs: the page of blogs whose name matches the term, with the
      number of all matching blogs; a negative skip rejects. */
  function ReadBlogs(blogs: seq<Doc<Blog>>, regex: RegexTest, raw: map<string, string>)
    : (r: Reply<Paginator<View<Blog>>>)
    ensures r.Data? || r.Unhandled?
    ensures r.Unhandled? <==> BlogQueryOf(raw).page.pageNumber == 0 && BlogQueryOf(raw).page.pageSize > 0
    ensures r.Data? ==>
              var q := BlogQueryOf(raw);
              var p := r.value;
              && r.code == OK_200
              && p.page == q.page.pageNumber && p.pageSize == q.page.pageSize
              && p.totalCount == CountBlogs(blogs, regex, q.searchNameTerm)
              && |p.items| <= p.totalCount
              && (q.page.pageSize > 0 ==> |p.items| <= q.page.pageSize)
              && ViewsOfNamedBlogs(blogs, regex, q.searchNameTerm, p.items)
              && PageOf(p.items, MatchingBlogs(blogs, regex, q), q.page.pageNumber, q.page.pageSize, MapMongoToView)
  {
    var q := BlogQueryOf(raw);
    var count := CountBlogs(blogs, regex, q.searchNameTerm);
    match FindBlogs(blogs, regex, q)
    case None => Unhandled
    case Some(page) =>
      var items := MapViews(page);
      FoundBlogViews(blogs, regex, q, page);
      BlogViewsWindow(blogs, regex, q, page);
      Data(OK_200, MakePaginator(q.page, count, items))
  }

  /** Every item is the view of a blog whose name matches the term. */
  predicate ViewsOfNamedBlogs(blogs: seq<Doc<Blog>>, regex: RegexTest, term: string, items: seq<View<Blog>>) {
    forall k :: 0 <= k < |items| ==>
      exists d :: d in blogs && regex(term, d.body.name) && items[k] == MapMongoToView(d)
  }

  lemma FoundBlogViews(blogs: seq<Doc<Blog>>, regex: RegexTest, q: BlogQuery, page: seq<Doc<Blog>>)
    requires FindBlogs(blogs, regex, q) == Some(page)
    ensures ViewsOfNamedBlogs(blogs, regex, q.searchNameTerm, MapViews(page))
  {
    var items := MapViews(page);
    forall k | 0 <= k < |items|
      ensures exists d :: d in blogs && regex(q.searchNameTerm, d.body.name) && items[k] == MapMongoToView(d)
    {
      assert page[k] in blogs && items[k] == MapMongoToView(page[k]);
    }
  }

  /** The views of a found page are the window of the matching blogs,
      sorted by the query's key. */
  lemma BlogViewsWindow(blogs: seq<Doc<Blog>>, regex: RegexTest, q: BlogQuery, page: seq<Doc<Blog>>)
    requires FindBlogs(blogs, regex, q) == Some(page)
    ensures PageOf(MapViews(page), MatchingBlogs(blogs, regex, q), q.page.pageNumber, q.page.pageSize, MapMongoToView)
  {
    PageOfMap(page, MapViews(page), MatchingBlogs(blogs, regex, q), q.page.pageNumber, q.page.pageSize,
              Itself, MapMongoToView, MapMongoToView);
  }

  // ---------------------------------------------------------------------
  // createBlog

  function CreateBlogEffect(t: Tables, body: Body, now: Instant, id: ObjectId): (e: Effect<View<Blog>>)
    ensures e.after == t.(blogs := e.after.blogs)
    ensures e.after != t ==> e.reply.Data? && e.reply.code == CREATED_201
  {
    var v := ValidateObject(BlogSchema, body);
    if v.details != [] then Effect(Errors(BAD_REQUEST_400, TransformJoiError(v.details, "")), t)
    else
      var input := BlogInputOf(v);
      InsertBlogEffect(t, Blog(input.name, input.description, input.websiteUrl, now.iso, false), id)
  }

  /** The insertion createBlog ends with. */
  function InsertBlogEffect(t: Tables, blog: Blog, id: ObjectId): Effect<View<Blog>> {
    match InsertOne(t.blogs, id, blog)
    case None => Effect(Unhandled, t)
    case Some(blogs) => Effect(Data(CREATED_201, MapMongoToView(Doc(id, blog))), t.(blogs := blogs))
  }

  /** Inserting under a fresh id appends the blog and answers 201 with its
      view. */
  lemma InsertBlogStores(t: Tables, blog: Blog, id: ObjectId)
    requires ValidTables(t) && id !in Ids(t.blogs)
    ensures InsertBlogEffect(t, blog, id)
            == Effect(Data(CREATED_201, View(IdString(id), blog)), t.(blogs := t.blogs + [Doc(id, blog)]))
    ensures ValidTables(t.(blogs := t.blogs + [Doc(id, blog)]))
  {
    InsertOneKeepsDistinct(t.blogs, id, blog);
  }

  /** createBlog, with `id` the identifier the driver generates and `now`
      the clock. */
  method CreateBlog(db: Db, body: Body, now: Instant, id: ObjectId) returns (r: Reply<View<Blog>>)
    modifies db`blogs
    ensures Effect(r, db.Snapshot()) == CreateBlogEffect(old(db.Snapshot()), body, now, id)
  {
    var v := ValidateObject(BlogSchema, body);
    if v.details != [] {
      return Errors(BAD_REQUEST_400, TransformJoiError(v.details, ""));
    }
    var input := BlogInputOf(v);
    r := InsertNewBlog(db, Blog(input.name, input.description, input.websiteUrl, now.iso, false), id);
  }

  method InsertNewBlog(db: Db, blog: Blog, id: ObjectId) returns (r: Reply<View<Blog>>)
    modifies db`blogs
    ensures Effect(r, db.Snapshot()) == InsertBlogEffect(old(db.Snapshot()), blog, id)
  {
    var inserted := InsertBlog(db, id, blog);
    r := if inserted then Data(CREATED_201, MapMongoToView(Doc(id, blog))) else Unhandled;
  }

  /** An invalid body is answered 400 with its field errors and writes
      nothing. */
  lemma CreateBlogRejects(t: Tables, body: Body, now: Instant, id: ObjectId)
    requires !ValidBlogInput(body)
    ensures var e := CreateBlogEffect(t, body, now, id);
            e.after == t && e.reply.Errors? && e.reply.code == BAD_REQUEST_400
            && e.reply.errorsMessages != [] && DistinctFields(e.reply.errorsMessages)
  {
    BlogSchemaAccepts(body);
    BlogSchemaErrors(body);
  }

  /** A valid body stores the trimmed fields with the creation time and
      `isMembership` false, under the new id, and answers 201 with its view. */
  lemma CreateBlogStores(t: Tables, body: Body, now: Instant, id: ObjectId)
    requires ValidTables(t) && ValidBlogInput(body) && id !in Ids(t.blogs)
    ensures var input := TrimmedBlogInput(body);
            var blog := Blog(input.name, input.description, input.websiteUrl, now.iso, false);
            var e := CreateBlogEffect(t, body, now, id);
            && e.after == t.(blogs := t.blogs + [Doc(id, blog)])
            && e.reply == Data(CREATED_201, View(IdString(id), blog))
            && ValidTables(e.after)
  {
    BlogSchemaValue(body);
    var input := TrimmedBlogInput(body);
    InsertBlogStores(t, Blog(input.name, input.description, input.websiteUrl, now.iso, false), id);
  }

  // ---------------------------------------------------------------------
  // readBlogById

  /** readBlogById: a malformed id is not looked up. */
  function ReadBlogById(blogs: seq<Doc<Blog>>, id: string): (r: Reply<View<Blog>>)
    ensures r == Bare(NOT_FOUND_404) || r.Data?
    ensures r.Data? <==> IsValidMongoId(id) && ParseObjectId(id).value in Ids(blogs)
    ensures r.Data? ==> r.code == OK_200 && r.value.id == id
                        && exists d :: d in blogs && r.value == MapMongoToView(d)
  {
    if !IsValidMongoId(id) then Bare(NOT_FOUND_404)
    else
      match FindBlogById(blogs, ParseObjectId(id).value)
      case None => Bare(NOT_FOUND_404)
      case Some(d) => Data(OK_200, MapMongoToView(d))
  }

  /** A created blog is found again by the id its view carries. */
  lemma CreatedBlogIsRead(t: Tables, body: Body, now: Instant, id: ObjectId)
    requires ValidTables(t)
    requires CreateBlogEffect(t, body, now, id).reply.Data?
    ensures var e := CreateBlogEffect(t, body, now, id);
            ReadBlogById(e.after.blogs, e.reply.value.id) == Data(OK_200, e.reply.value)
  {
    var v := ValidateObject(BlogSchema, body);
    var input := BlogInputOf(v);
    var blog := Blog(input.name, input.description, input.websiteUrl, now.iso, false);
    var blogs := t.blogs + [Doc(id, blog)];
    InsertOneKeepsDistinct(t.blogs, id, blog);
    MapMongoToViewId(Doc(id, blog));
    FindByIdOfStored(blogs, |t.blogs|);
  }

  // ---------------------------------------------------------------------
  // updateBlogById

  /** updateBlogById: the body is validated first; then a malformed or
      unknown id is 404. */
  function UpdateBlogByIdEffect(t: Tables, id: string, body: Body): (e: Effect<()>)
    ensures e.after == t.(blogs := e.after.blogs)
    ensures e.after != t ==> e.reply == Bare(NO_CONTENT_204)
  {
    var v := ValidateObject(BlogSchema, body);
    if v.details != [] then Effect(Errors(BAD_REQUEST_400, TransformJoiError(v.details, "")), t)
    else if !IsValidMongoId(id) then Effect(Bare(NOT_FOUND_404), t)
    else UpdateStoredBlog(t, ParseObjectId(id).value, BlogInputOf(v))
  }

  /** The part of updateBlogById after the checks: 404 when no blog
      matched, else 204. */
  function UpdateStoredBlog(t: Tables, bid: ObjectId, w: BlogInput): Effect<()> {
    var u := UpdateOne(t.blogs, bid, SetBlog(w));
    Effect(if u.matchedCount == 0 then Bare(NOT_FOUND_404) else Bare(NO_CONTENT_204), t.(blogs := u.docs))
  }

  /** Writing checked values answers 204 exactly when the blog is stored,
      else 404 with nothing written; that blog alone is merged. */
  lemma UpdateStoredBlogAnswers(t: Tables, bid: ObjectId, w: BlogInput)
    requires ValidTables(t)
    ensures var e := UpdateStoredBlog(t, bid, w);
            && (e.reply == Bare(NO_CONTENT_204) <==> bid in Ids(t.blogs))
            && (e.reply != Bare(NO_CONTENT_204) ==> e.reply == Bare(NOT_FOUND_404) && e.after == t)
            && e.after == t.(blogs := e.after.blogs) && |e.after.blogs| == |t.blogs|
            && (forall k :: 0 <= k < |t.blogs| ==>
                  e.after.blogs[k] == if t.blogs[k].id == bid
                                      then Doc(bid, MergeBlog(w, t.blogs[k].body)) else t.blogs[k])
            && ValidTables(e.after)
  {
    UpdateOneChangesOne(t.blogs, bid, SetBlog(w));
  }

  method UpdateBlogById(db: Db, id: string, body: Body) returns (r: Reply<()>)
    modifies db`blogs
    ensures Effect(r, db.Snapshot()) == UpdateBlogByIdEffect(old(db.Snapshot()), id, body)
  {
    var v := ValidateObject(BlogSchema, body);
    if v.details != [] {
      return Errors(BAD_REQUEST_400, TransformJoiError(v.details, ""));
    }
    if !IsValidMongoId(id) {
      return Bare(NOT_FOUND_404);
    }
    var matchedCount, _ := BlogsRepository.UpdateBlogById(db, ParseObjectId(id).value, BlogInputOf(v));
    r := if matchedCount == 0 then Bare(NOT_FOUND_404) else Bare(NO_CONTENT_204);
  }

  /** The answers of an update: 400 for an invalid body (whatever the id),
      else 204 exactly when the blog exists, else 404; only 204 writes. */
  lemma UpdateBlogByIdAnswers(t: Tables, id: string, body: Body)
    requires ValidTables(t)
    ensures var e := UpdateBlogByIdEffect(t, id, body);
            && (!ValidBlogInput(body) ==> e.reply.Errors? && e.reply.code == BAD_REQUEST_400)
            && (e.reply == Bare(NO_CONTENT_204) <==>
                  ValidBlogInput(body) && IsValidMongoId(id) && ParseObjectId(id).value in Ids(t.blogs))
            && (ValidBlogInput(body) && e.reply != Bare(NO_CONTENT_204) ==> e.reply == Bare(NOT_FOUND_404))
            && (e.reply != Bare(NO_CONTENT_204) ==> e.after == t)
            && ValidTables(e.after)
  {
    BlogSchemaAccepts(body);
    var v := ValidateObject(BlogSchema, body);
    if v.details == [] && IsValidMongoId(id) {
      UpdateStoredBlogAnswers(t, ParseObjectId(id).value, BlogInputOf(v));
    }
  }

  /** A successful update overwrites the three fields of that blog with the
      trimmed input, keeps its creation time and membership, and leaves
      every other blog and every other collection. */
  lemma UpdateBlogByIdWrites(t: Tables, id: string, body: Body)
    requires ValidTables(t)
    requires UpdateBlogByIdEffect(t, id, body).reply == Bare(NO_CONTENT_204)
    ensures ValidBlogInput(body) && IsValidMongoId(id)
    ensures var after := UpdateBlogByIdEffect(t, id, body).after;
            var bid := ParseObjectId(id).value;
            && after == t.(blogs := after.blogs)
            && |after.blogs| == |t.blogs|
            && forall k :: 0 <= k < |t.blogs| ==>
                 after.blogs[k] == if t.blogs[k].id == bid
                                   then Doc(bid, MergeBlog(TrimmedBlogInput(body), t.blogs[k].body))
                                   else t.blogs[k]
  {
    var v := ValidateObject(BlogSchema, body);
    assert v.details == [] && IsValidMongoId(id);
    BlogSchemaAccepts(body);
    BlogSchemaValue(body);
    UpdateStoredBlogAnswers(t, ParseObjectId(id).value, BlogInputOf(v));
  }

  // ---------------------------------------------------------------------
  // deleteBlogById

  function DeleteBlogByIdEffect(t: Tables, id: string): (e: Effect<()>)
    ensures e.after == t.(blogs := e.after.blogs)
    ensures e.after != t ==> e.reply == Bare(NO_CONTENT_204)
  {
    if !IsValidMongoId(id) then Effect(Bare(NOT_FOUND_404), t)
    else
      var bid := ParseObjectId(id).value;
      var n := DeletedCount(t.blogs, ById(bid));
      Effect(if n == 0 then Bare(NOT_FOUND_404) else Bare(NO_CONTENT_204),
             t.(blogs := DeleteOne(t.blogs, ById(bid))))
  }

  method DeleteBlogById(db: Db, id: string) returns (r: Reply<()>)
    modifies db`blogs
    ensures Effect(r, db.Snapshot()) == DeleteBlogByIdEffect(old(db.Snapshot()), id)
  {
    if !IsValidMongoId(id) {
      return Bare(NOT_FOUND_404);
    }
    var deletedCount := BlogsRepository.DeleteBlogById(db, ParseObjectId(id).value);
    r := if deletedCount == 0 then Bare(NOT_FOUND_404) else Bare(NO_CONTENT_204);
  }

  /** A delete answers 204 exactly when the blog exists, and removes that
      blog only; the posts of the blog are left in place. */
  lemma DeleteBlogByIdRemoves(t: Tables, id: string)
    requires ValidTables(t)
    ensures var e := DeleteBlogByIdEffect(t, id);
            && (e.reply == Bare(NO_CONTENT_204) || e.reply == Bare(NOT_FOUND_404))
            && (e.reply == Bare(NO_CONTENT_204) <==> IsValidMongoId(id) && ParseObjectId(id).value in Ids(t.blogs))
            && (e.reply == Bare(NOT_FOUND_404) ==> e.after == t)
            && e.after == t.(blogs := e.after.blogs)
            && ValidTables(e.after)
            && (forall d :: d in t.blogs && IdString(d.id) != id ==> d in e.after.blogs)
            && ReadBlogById(e.after.blogs, id) == Bare(NOT_FOUND_404)
  {
    if IsValidMongoId(id) {
      var bid := ParseObjectId(id).value;
      DeleteByIdRemoves(t.blogs, bid);
      forall d | d in t.blogs && IdString(d.id) != id ensures d.id != bid { }
    }
  }
}
