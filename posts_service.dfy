/** The posts service: validation of the post input, the lookup of the
    blog a post names, and the operations of `/posts` and
    `/blogs/:id/posts`. */
module PostsService {
  import opened Common
  import opened Js
  import opened ObjectIds
  import opened Mongo
  import opened Store
  import opened Joi
  import opened UtilityFunctions
  import opened ValidationFunctions
  import opened BlogsRepository
  import opened PostsRepository

  // ---------------------------------------------------------------------
  // postSchema and the list query

  const TitleRule: StringRule :=
    StringRule(None, Some(30), None,
      Messages("title is required", "title must be a string", "empty string can't be used as a title",
               "", "title can't be longer than 30 characters", ""))

  const ShortDescriptionRule: StringRule :=
    StringRule(None, Some(100), None,
      Messages("shortDescription is required", "shortDescription must be a string",
               "empty string can't be used as a shortDescription",
               "", "shortDescription can't be longer than 100 characters", ""))

  const ContentRule: StringRule :=
    StringRule(None, Some(1000), None,
      Messages("content is required", "content must be a string", "empty string can't be used as a content",
               "", "content can't be longer than 1000 characters", ""))

  const BlogIdRule: StringRule :=
    StringRule(None, None, None,
      Messages("blogId is required", "blogId must be a string", "empty string can't be used as a blogId",
               "", "", ""))

  const PostSchema: seq<Key> :=
    [Key("title", TitleRule), Key("shortDescription", ShortDescriptionRule),
     Key("content", ContentRule), Key("blogId", BlogIdRule)]

  const PostSortable: seq<string> := ["id", "title", "shortDescription", "content", "blogName", "createdAt"]

  /** postQuerySchema. */
  function PostQueryOf(raw: map<string, string>): Query {
    ValidateQuery(raw, PostSortable)
  }

  /** The message added when the body names no stored blog. */
  const NoBlogError: FieldError :=
    FieldError("there is no blog with an id value of blogId in the database", "blogId")

  /** What postSchema demands, read directly: four strings, non-empty once
      trimmed, the first three of at most 30, 100 and 1000 characters. */
  predicate ValidPostInput(body: Body) {
    var title := Lookup(body, "title");
    var shortDescription := Lookup(body, "shortDescription");
    var content := Lookup(body, "content");
    var blogId := Lookup(body, "blogId");
    && title.Str? && Trim(title.s) != "" && JsLength(Trim(title.s)) <= 30
    && shortDescription.Str? && Trim(shortDescription.s) != "" && JsLength(Trim(shortDescription.s)) <= 100
    && content.Str? && Trim(content.s) != "" && JsLength(Trim(content.s)) <= 1000
    && blogId.Str? && Trim(blogId.s) != ""
  }

  /** The trimmed input of a valid body, with the name of its blog. */
  function TrimmedPostInput(body: Body, blogName: string): PostInput
    requires ValidPostInput(body)
  {
    PostInput(Trim(Lookup(body, "title").s), Trim(Lookup(body, "shortDescription").s),
              Trim(Lookup(body, "content").s), Trim(Lookup(body, "blogId").s), blogName)
  }

  /** `{blogName, ...validInputPost}`. */
  function PostInputOf(o: Outcome, blogName: string): PostInput {
    PostInput(Field(o, "title"), Field(o, "shortDescription"), Field(o, "content"), Field(o, "blogId"), blogName)
  }

  lemma PostSchemaNames()
    ensures DistinctNames(PostSchema)
  {
  }

  /** postSchema accepts exactly the bodies described above. */
  lemma PostSchemaAccepts(body: Body)
    ensures ValidateObject(PostSchema, body).details == [] <==> ValidPostInput(body)
  {
    AllAcceptFour(Key("title", TitleRule), Key("shortDescription", ShortDescriptionRule),
                  Key("content", ContentRule), Key("blogId", BlogIdRule), body);
    ValidateObjectPasses(PostSchema, body);
  }

  /** The validated object of a valid body is its trimmed input. */
  lemma PostSchemaValue(body: Body, blogName: string)
    requires ValidPostInput(body)
    ensures ValidateObject(PostSchema, body).details == []
    ensures PostInputOf(ValidateObject(PostSchema, body), blogName) == TrimmedPostInput(body, blogName)
  {
    PostSchemaAccepts(body);
    PostSchemaNames();
    PassedKey(PostSchema, body, 0);
    PassedKey(PostSchema, body, 1);
    PassedKey(PostSchema, body, 2);
    PassedKey(PostSchema, body, 3);
  }

  /** The shaped errors of a rejected body: at least one, one per field,
      each about a key of the schema. */
  lemma PostSchemaErrors(body: Body)
    requires ValidateObject(PostSchema, body).details != []
    ensures var errs := TransformJoiError(ValidateObject(PostSchema, body).details, "");
            errs != [] && DistinctFields(errs)
            && forall e :: e in errs ==> e.field in {"title", "shortDescription", "content", "blogId"}
  {
    ValidateObjectErrorFields(PostSchema, body);
  }

  // ---------------------------------------------------------------------
  // the blog a body names

  /** `findBlogById(input.blogId)` on the value the client sent, untrimmed:
      the blog, no blog, or an exception from the ObjectId constructor. */
  datatype BlogLookup = Found(blog: Doc<Blog>) | NoBlog | LookupThrows

  function LookupBlog(blogs: seq<Doc<Blog>>, v: JsValue): (r: BlogLookup)
    ensures r.LookupThrows? <==> ObjectIdOfValue(v).Throws?
    ensures r.Found? <==> ObjectIdOfValue(v).Parsed? && ObjectIdOfValue(v).id in Ids(blogs)
    ensures r.Found? ==> r.blog in blogs && r.blog.id == ObjectIdOfValue(v).id
  {
    match ObjectIdOfValue(v)
    case Throws => LookupThrows
    case Generated => NoBlog
    case Parsed(bid) =>
      match FindBlogById(blogs, bid)
      case None => NoBlog
      case Some(b) => Found(b)
  }

  /** The 400 body of createPost and updatePostById: the shaped validation
      errors, then the missing-blog error. The two parts are not merged, so
      `blogId` can be reported twice. */
  function PostErrors(v: Outcome, lookup: BlogLookup): seq<FieldError> {
    TransformJoiError(v.details, "") + (if lookup.NoBlog? then [NoBlogError] else [])
  }

  /** The stored post: the input, then the creation time. */
  function NewPost(input: PostInput, createdAt: string): Post {
    Post(input.title, input.shortDescription, input.content, input.blogId, input.blogName, createdAt)
  }

  /** The insertion both create operations end with. */
  function InsertPostEffect(t: Tables, post: Post, id: ObjectId): Effect<View<Post>> {
    match InsertOne(t.posts, id, post)
    case None => Effect(Unhandled, t)
    case Some(posts) => Effect(Data(CREATED_201, MapMongoToView(Doc(id, post))), t.(posts := posts))
  }

  method InsertNewPost(db: Db, post: Post, id: ObjectId) returns (r: Reply<View<Post>>)
    modifies db`posts
    ensures Effect(r, db.Snapshot()) == InsertPostEffect(old(db.Snapshot()), post, id)
  {
    var inserted := InsertPost(db, id, post);
    r := if inserted then Data(CREATED_201, MapMongoToView(Doc(id, post))) else Unhandled;
  }

  // ---------------------------------------------------------------------
  // readPosts, readPostsOfBlog

  /** readPosts: a page of all posts; the total is the number of posts. */
  function ReadPosts(posts: seq<Doc<Post>>, raw: map<string, string>): (r: Reply<Paginator<View<Post>>>)
    ensures r.Data? || r.Unhandled?
    ensures r.Unhandled? <==> PostQueryOf(raw).pageNumber == 0 && PostQueryOf(raw).pageSize > 0
    ensures r.Data? ==>
              var q := PostQueryOf(raw);
              && r.code == OK_200
              && r.value.page == q.pageNumber && r.value.pageSize == q.pageSize
              && r.value.totalCount == |posts|
              && |r.value.items| <= |posts|
              && (forall k :: 0 <= k < |r.value.items| ==> exists d :: d in posts && r.value.items[k] == MapMongoToView(d))
              && PageOf(r.value.items, MatchingPosts(posts, Everything(), q), q.pageNumber, q.pageSize, MapMongoToView)
  {
    var q := PostQueryOf(raw);
    match FindPosts(posts, q)
    case None => Unhandled
    case Some(page) =>
      var items := MapViews(page);
      assert forall k :: 0 <= k < |items| ==> page[k] in posts && items[k] == MapMongoToView(page[k]);
      PostViewsWindow(posts, Everything(), q, page);
      Data(OK_200, MakePaginator(q, CountAllPosts(posts), items))
  }

  /** readPostsOfBlog: 404 unless the id is canonical and names a stored
      blog; then the page of its posts, counted by the same id. */
  function ReadPostsOfBlog(blogs: seq<Doc<Blog>>, posts: seq<Doc<Post>>, id: string, raw: map<string, string>)
    : (r: Reply<Paginator<View<Post>>>)
    ensures r.Data? || r.Unhandled? || r == Bare(NOT_FOUND_404)
    ensures r == Bare(NOT_FOUND_404) <==> !IsValidMongoId(id) || ParseObjectId(id).value !in Ids(blogs)
    ensures r.Unhandled? <==> IsValidMongoId(id) && ParseObjectId(id).value in Ids(blogs)
                              && PostQueryOf(raw).pageNumber == 0 && PostQueryOf(raw).pageSize > 0
    ensures r.Data? ==>
              && r.code == OK_200
              && r.value.totalCount == CountPostsByBlogId(posts, id)
              && |r.value.items| <= r.value.totalCount
              && ViewsOfBlogPosts(posts, id, r.value.items)
              && var q := PostQueryOf(raw);
                 && r.value.page == q.pageNumber && r.value.pageSize == q.pageSize
                 && PageOf(r.value.items, MatchingPosts(posts, OfBlog(id), q), q.pageNumber, q.pageSize, MapMongoToView)
  {
    if !IsValidMongoId(id) then Bare(NOT_FOUND_404)
    else
      match FindBlogById(blogs, ParseObjectId(id).value)
      case None => Bare(NOT_FOUND_404)
      case Some(_) =>
        var q := PostQueryOf(raw);
        match FindPostsByBlogId(posts, id, q)
        case None => Unhandled
        case Some(page) =>
          var items := MapViews(page);
          FoundPostViews(posts, id, q, page);
          PostViewsWindow(posts, OfBlog(id), q, page);
          Data(OK_200, MakePaginator(q, CountPostsByBlogId(posts, id), items))
  }

  /** The views of a found page are the window of the matching posts,
      sorted by the query's key. */
  lemma PostViewsWindow(posts: seq<Doc<Post>>, p: Doc<Post> -> bool, q: Query, page: seq<Doc<Post>>)
    requires PostsPage(posts, p, q) == Some(page)
    ensures PageOf(MapViews(page), MatchingPosts(posts, p, q), q.pageNumber, q.pageSize, MapMongoToView)
  {
    PageOfMap(page, MapViews(page), MatchingPosts(posts, p, q), q.pageNumber, q.pageSize,
              Itself, MapMongoToView, MapMongoToView);
  }

  /** Every item is the view of a post of the blog. */
  predicate ViewsOfBlogPosts(posts: seq<Doc<Post>>, blogId: string, items: seq<View<Post>>) {
    forall k :: 0 <= k < |items| ==>
      exists d :: d in posts && d.body.blogId == blogId && items[k] == MapMongoToView(d)
  }

  lemma FoundPostViews(posts: seq<Doc<Post>>, blogId: string, q: Query, page: seq<Doc<Post>>)
    requires FindPostsByBlogId(posts, blogId, q) == Some(page)
    ensures ViewsOfBlogPosts(posts, blogId, MapViews(page))
  {
    var items := MapViews(page);
    forall k | 0 <= k < |items|
      ensures exists d :: d in posts && d.body.blogId == blogId && items[k] == MapMongoToView(d)
    {
      assert page[k] in posts && page[k].body.blogId == blogId;
    }
  }

  // ---------------------------------------------------------------------
  // createPost

  function CreatePostEffect(t: Tables, body: Body, now: Instant, id: ObjectId): (e: Effect<View<Post>>)
    ensures e.after == t.(posts := e.after.posts)
    ensures e.after != t ==> e.reply.Data? && e.reply.code == CREATED_201
  {
    var v := ValidateObject(PostSchema, body);
    var lookup := LookupBlog(t.blogs, Lookup(body, "blogId"));
    if lookup.LookupThrows? then Effect(Unhandled, t)
    else if v.details != [] || lookup.NoBlog? then Effect(Errors(BAD_REQUEST_400, PostErrors(v, lookup)), t)
    else InsertPostEffect(t, NewPost(PostInputOf(v, lookup.blog.body.name), now.iso), id)
  }

  /** createPost, with `id` the identifier the driver generates. */
  method CreatePost(db: Db, body: Body, now: Instant, id: ObjectId) returns (r: Reply<View<Post>>)
    modifies db`posts
    ensures Effect(r, db.Snapshot()) == CreatePostEffect(old(db.Snapshot()), body, now, id)
  {
    var v := ValidateObject(PostSchema, body);
    var lookup := LookupBlog(db.blogs, Lookup(body, "blogId"));
    if lookup.LookupThrows? {
      return Unhandled;
    }
    if v.details != [] || lookup.NoBlog? {
      return Errors(BAD_REQUEST_400, PostErrors(v, lookup));
    }
    r := InsertNewPost(db, NewPost(PostInputOf(v, lookup.blog.body.name), now.iso), id);
  }

  /** A string `blogId` that is not 24 hex digits makes the lookup throw,
      whatever else the body holds, and nothing is written. */
  lemma CreatePostMalformedBlogId(t: Tables, body: Body, now: Instant, id: ObjectId)
    requires Lookup(body, "blogId").Str? && ParseObjectId(Lookup(body, "blogId").s).None?
    ensures CreatePostEffect(t, body, now, id) == Effect(Unhandled, t)
  {
  }

  /** A body that fails validation or names no stored blog is answered 400,
      with the validation errors followed by the missing-blog error, and
      nothing is written. */
  lemma CreatePostRejects(t: Tables, body: Body, now: Instant, id: ObjectId)
    requires !LookupBlog(t.blogs, Lookup(body, "blogId")).LookupThrows?
    requires !ValidPostInput(body) || LookupBlog(t.blogs, Lookup(body, "blogId")).NoBlog?
    ensures var e := CreatePostEffect(t, body, now, id);
            var v := ValidateObject(PostSchema, body);
            && e.after == t
            && e.reply == Errors(BAD_REQUEST_400, TransformJoiError(v.details, "")
                                 + (if LookupBlog(t.blogs, Lookup(body, "blogId")).NoBlog? then [NoBlogError] else []))
            && e.reply.errorsMessages != []
  {
    PostSchemaAccepts(body);
    var v := ValidateObject(PostSchema, body);
    if v.details != [] {
      PostSchemaErrors(body);
    }
  }

  /** With no `blogId` at all, `null` or a number, both the validation and
      the lookup report on `blogId`: the answer carries two errors for that
      field. */
  lemma CreatePostReportsBlogIdTwice(t: Tables, body: Body, now: Instant, id: ObjectId)
    requires Lookup(body, "blogId").Absent? || Lookup(body, "blogId").Null? || Lookup(body, "blogId").Num?
    ensures var e := CreatePostEffect(t, body, now, id);
            && e.reply.Errors? && e.reply.code == BAD_REQUEST_400 && e.after == t
            && exists i, j :: 0 <= i < j < |e.reply.errorsMessages|
                              && e.reply.errorsMessages[i].field == "blogId"
                              && e.reply.errorsMessages[j].field == "blogId"
  {
    var v := ValidateObject(PostSchema, body);
    BlogIdReported(body);
    TwiceReported(v);
    assert LookupBlog(t.blogs, Lookup(body, "blogId")) == NoBlog;
  }

  lemma TwiceReported(v: Outcome)
    requires "blogId" in FieldSet(TransformJoiError(v.details, ""))
    ensures var errs := PostErrors(v, NoBlog);
            exists i, j :: 0 <= i < j < |errs| && errs[i].field == "blogId" && errs[j].field == "blogId"
  {
    var errs := TransformJoiError(v.details, "");
    var i :| 0 <= i < |errs| && errs[i].field == "blogId";
    var all := errs + [NoBlogError];
    assert PostErrors(v, NoBlog) == all;
    assert all[i] == errs[i] && all[|errs|] == NoBlogError;
  }

  /** A `blogId` that is not a string shows up among the shaped field
      names. */
  lemma BlogIdReported(body: Body)
    requires !Lookup(body, "blogId").Str?
    ensures "blogId" in FieldSet(MapDetails(ValidateObject(PostSchema, body).details, ""))
  {
    var details := ValidateObject(PostSchema, body).details;
    BlogIdRefused(body);
    var j :| 0 <= j < |details| && details[j].path == ["blogId"];
    assert PathString(["blogId"]) == "blogId";
    PathReported(details, j, "blogId");
  }

  /** A `blogId` that is not a string is refused under its own key. */
  lemma BlogIdRefused(body: Body)
    requires !Lookup(body, "blogId").Str?
    ensures exists j :: 0 <= j < |ValidateObject(PostSchema, body).details|
                        && ValidateObject(PostSchema, body).details[j].path == ["blogId"]
  {
    assert PostSchema[3] == Key("blogId", BlogIdRule);
    RefusedKeyReported(PostSchema, body, 3);
  }

  /** An object `blogId` whose `id` is the text of a stored blog's id: bson
      unwraps it and finds the blog. */
  lemma ObjectBlogIdFound(blogs: seq<Doc<Blog>>, v: JsValue, b: Doc<Blog>)
    requires b in blogs
    requires v.Obj? && "id" in v.entries && v.entries["id"] == Str(IdString(b.id))
    ensures LookupBlog(blogs, v).Found?
  {
    ParseObjectIdOfIdString(b.id);
  }

  /** Such an object `blogId` is no exception: the answer is 400 with the
      shaped validation errors alone, `blogId` among them once, and nothing
      is written. */
  lemma CreatePostObjectBlogId(t: Tables, body: Body, now: Instant, id: ObjectId, b: Doc<Blog>)
    requires b in t.blogs
    requires var v := Lookup(body, "blogId"); v.Obj? && "id" in v.entries && v.entries["id"] == Str(IdString(b.id))
    ensures var errs := TransformJoiError(ValidateObject(PostSchema, body).details, "");
            && CreatePostEffect(t, body, now, id) == Effect(Errors(BAD_REQUEST_400, errs), t)
            && "blogId" in FieldSet(errs) && DistinctFields(errs)
  {
    ObjectBlogIdFound(t.blogs, Lookup(body, "blogId"), b);
    BlogIdReported(body);
    FoundBlogErrors(ValidateObject(PostSchema, body), LookupBlog(t.blogs, Lookup(body, "blogId")));
  }

  /** A valid body naming a stored blog stores its trimmed fields with the
      blog's name and the creation time, and answers 201 with the view. */
  lemma CreatePostStores(t: Tables, body: Body, now: Instant, id: ObjectId)
    requires ValidTables(t) && ValidPostInput(body) && id !in Ids(t.posts)
    requires LookupBlog(t.blogs, Lookup(body, "blogId")).Found?
    ensures var blog := LookupBlog(t.blogs, Lookup(body, "blogId")).blog;
            var post := NewPost(TrimmedPostInput(body, blog.body.name), now.iso);
            var e := CreatePostEffect(t, body, now, id);
            && e.after == t.(posts := t.posts + [Doc(id, post)])
            && e.reply == Data(CREATED_201, View(IdString(id), post))
            && ValidTables(e.after)
  {
    var v := ValidateObject(PostSchema, body);
    var lookup := LookupBlog(t.blogs, Lookup(body, "blogId"));
    PostSchemaValue(body, lookup.blog.body.name);
    CreatePostInserts(t, body, now, id, v, lookup);
    InsertPostStores(t, NewPost(TrimmedPostInput(body, lookup.blog.body.name), now.iso), id);
  }

  /** A body without errors whose blog is found goes on to the insertion. */
  lemma CreatePostInserts(t: Tables, body: Body, now: Instant, id: ObjectId, v: Outcome, lookup: BlogLookup)
    requires v == ValidateObject(PostSchema, body) && v.details == []
    requires lookup == LookupBlog(t.blogs, Lookup(body, "blogId")) && lookup.Found?
    ensures CreatePostEffect(t, body, now, id) == InsertPostEffect(t, NewPost(PostInputOf(v, lookup.blog.body.name), now.iso), id)
  {
  }

  /** Inserting under a fresh id appends the post and answers 201 with its
      view. */
  lemma InsertPostStores(t: Tables, post: Post, id: ObjectId)
    requires ValidTables(t) && id !in Ids(t.posts)
    ensures InsertPostEffect(t, post, id)
            == Effect(Data(CREATED_201, View(IdString(id), post)), t.(posts := t.posts + [Doc(id, post)]))
    ensures ValidTables(t.(posts := t.posts + [Doc(id, post)]))
  {
    InsertOneKeepsDistinct(t.posts, id, post);
  }

  // ---------------------------------------------------------------------
  // createPostOfBlog

  /** createPostOfBlog: the router puts the path's id in the body's
      `blogId`; the id is parsed unguarded, a missing blog is 404 before the
      body is judged. */
  function CreatePostOfBlogEffect(t: Tables, blogId: string, body: Body, now: Instant, id: ObjectId): (e: Effect<View<Post>>)
    ensures e.after == t.(posts := e.after.posts)
    ensures e.after != t ==> e.reply.Data? && e.reply.code == CREATED_201
  {
    var input := body["blogId" := Str(blogId)];
    match ParseObjectId(blogId)
    case None => Effect(Unhandled, t)
    case Some(bid) =>
      match FindBlogById(t.blogs, bid)
      case None => Effect(Bare(NOT_FOUND_404), t)
      case Some(blog) =>
        var v := ValidateObject(PostSchema, input);
        if v.details != [] then Effect(Errors(BAD_REQUEST_400, TransformJoiError(v.details, "")), t)
        else InsertPostEffect(t, NewPost(PostInputOf(v, blog.body.name), now.iso), id)
  }

  method CreatePostOfBlog(db: Db, blogId: string, body: Body, now: Instant, id: ObjectId)
    returns (r: Reply<View<Post>>)
    modifies db`posts
    ensures Effect(r, db.Snapshot()) == CreatePostOfBlogEffect(old(db.Snapshot()), blogId, body, now, id)
  {
    var input := body["blogId" := Str(blogId)];
    var parsed := ParseObjectId(blogId);
    if parsed.None? {
      return Unhandled;
    }
    var blog := FindBlogById(db.blogs, parsed.value);
    if blog.None? {
      return Bare(NOT_FOUND_404);
    }
    var v := ValidateObject(PostSchema, input);
    if v.details != [] {
      return Errors(BAD_REQUEST_400, TransformJoiError(v.details, ""));
    }
    r := InsertNewPost(db, NewPost(PostInputOf(v, blog.value.body.name), now.iso), id);
  }

  /** The answers of createPostOfBlog: a malformed path id escapes, an
      unknown blog is 404, an invalid body 400; only 201 writes, and the
      post then belongs to the blog of the path. */
  lemma CreatePostOfBlogAnswers(t: Tables, blogId: string, body: Body, now: Instant, id: ObjectId)
    requires ValidTables(t)
    ensures var e := CreatePostOfBlogEffect(t, blogId, body, now, id);
            && (ParseObjectId(blogId).None? ==> e == Effect(Unhandled, t))
            && ((ParseObjectId(blogId).Some? && ParseObjectId(blogId).value !in Ids(t.blogs))
                  ==> e == Effect(Bare(NOT_FOUND_404), t))
            && (!e.reply.Data? ==> e.after == t)
            && (e.reply.Data? ==>
                  exists blog :: blog in t.blogs && blog.id == ParseObjectId(blogId).value
                                 && e.reply.value.body.blogName == blog.body.name
                                 && e.after.posts == t.posts + [Doc(id, e.reply.value.body)])
            && ValidTables(e.after)
  {
    var input := body["blogId" := Str(blogId)];
    var v := ValidateObject(PostSchema, input);
    if ParseObjectId(blogId).Some? {
      var blog := FindBlogById(t.blogs, ParseObjectId(blogId).value);
      if blog.Some? && v.details == [] {
        var post := NewPost(PostInputOf(v, blog.value.body.name), now.iso);
        if id !in Ids(t.posts) {
          InsertOneKeepsDistinct(t.posts, id, post);
        }
      }
    }
  }

  // ---------------------------------------------------------------------
  // readPostById

  /** readPostById: the id is parsed unguarded, so a string that is not 24
      hex digits escapes; upper-case hex digits name the same post. */
  function ReadPostById(posts: seq<Doc<Post>>, id: string): (r: Reply<View<Post>>)
    ensures r.Unhandled? || r.Data? || r == Bare(NOT_FOUND_404)
    ensures r.Unhandled? <==> ParseObjectId(id).None?
    ensures r.Data? <==> ParseObjectId(id).Some? && ParseObjectId(id).value in Ids(posts)
    ensures r.Data? ==> r.code == OK_200 && ParseObjectId(r.value.id) == ParseObjectId(id)
                        && exists d :: d in posts && r.value == MapMongoToView(d)
  {
    match ParseObjectId(id)
    case None => Unhandled
    case Some(pid) =>
      match FindPostById(posts, pid)
      case None => Bare(NOT_FOUND_404)
      case Some(d) =>
        MapMongoToViewId(d);
        Data(OK_200, MapMongoToView(d))
  }

  /** A created post is found again by the id its view carries. */
  lemma CreatedPostIsRead(t: Tables, body: Body, now: Instant, id: ObjectId)
    requires ValidTables(t)
    requires CreatePostEffect(t, body, now, id).reply.Data?
    ensures var e := CreatePostEffect(t, body, now, id);
            ReadPostById(e.after.posts, e.reply.value.id) == Data(OK_200, e.reply.value)
  {
    var e := CreatePostEffect(t, body, now, id);
    var v := ValidateObject(PostSchema, body);
    var lookup := LookupBlog(t.blogs, Lookup(body, "blogId"));
    var post := NewPost(PostInputOf(v, lookup.blog.body.name), now.iso);
    InsertOneKeepsDistinct(t.posts, id, post);
    MapMongoToViewId(Doc(id, post));
    FindByIdOfStored(e.after.posts, |t.posts|);
  }

  // ---------------------------------------------------------------------
  // updatePostById

  /** updatePostById: the body and its blog are judged first; the post id
      is parsed unguarded; the answer is 204 only when the update changed
      the stored post. */
  function UpdatePostByIdEffect(t: Tables, id: string, body: Body): (e: Effect<()>)
    ensures e.after == t.(posts := e.after.posts)
    ensures e.after != t ==> e.reply == Bare(NO_CONTENT_204)
  {
    var v := ValidateObject(PostSchema, body);
    var lookup := LookupBlog(t.blogs, Lookup(body, "blogId"));
    if lookup.LookupThrows? then Effect(Unhandled, t)
    else if v.details != [] || lookup.NoBlog? then Effect(Errors(BAD_REQUEST_400, PostErrors(v, lookup)), t)
    else UpdateStoredPost(t, id, PostInputOf(v, lookup.blog.body.name))
  }

  /** A refused `blogId` whose blog is found is reported once, by the
      validation alone. */
  lemma FoundBlogErrors(v: Outcome, lookup: BlogLookup)
    requires lookup.Found?
    requires "blogId" in FieldSet(MapDetails(v.details, ""))
    ensures v.details != []
    ensures PostErrors(v, lookup) == TransformJoiError(v.details, "")
    ensures "blogId" in FieldSet(TransformJoiError(v.details, "")) && DistinctFields(TransformJoiError(v.details, ""))
  {
  }

  /** updatePostById answers such an object `blogId` as createPost does:
      400 with the shaped validation errors alone, and nothing is written. */
  lemma UpdatePostObjectBlogId(t: Tables, id: string, body: Body, b: Doc<Blog>)
    requires b in t.blogs
    requires var v := Lookup(body, "blogId"); v.Obj? && "id" in v.entries && v.entries["id"] == Str(IdString(b.id))
    ensures var errs := TransformJoiError(ValidateObject(PostSchema, body).details, "");
            && UpdatePostByIdEffect(t, id, body) == Effect(Errors(BAD_REQUEST_400, errs), t)
            && "blogId" in FieldSet(errs) && DistinctFields(errs)
  {
    ObjectBlogIdFound(t.blogs, Lookup(body, "blogId"), b);
    BlogIdReported(body);
    FoundBlogErrors(ValidateObject(PostSchema, body), LookupBlog(t.blogs, Lookup(body, "blogId")));
  }

  /** The part of updatePostById after the checks: the post id is parsed
      unguarded, and the answer is 204 only when the update changed the
      stored post. */
  function UpdateStoredPost(t: Tables, id: string, w: PostInput): Effect<()> {
    match ParseObjectId(id)
    case None => Effect(Unhandled, t)
    case Some(pid) =>
      var u := UpdateOne(t.posts, pid, SetPost(w));
      Effect(if u.modifiedCount == 1 then Bare(NO_CONTENT_204) else Bare(NOT_FOUND_404), t.(posts := u.docs))
  }

  /** Writing checked values answers 204 exactly when the id is canonical
      and names a post that did not already hold them; only then is
      anything written, and that post alone is merged. */
  lemma UpdateStoredPostAnswers(t: Tables, id: string, w: PostInput)
    requires ValidTables(t)
    ensures var e := UpdateStoredPost(t, id, w);
            && (e.reply == Bare(NO_CONTENT_204) <==>
                  ParseObjectId(id).Some?
                  && exists k :: 0 <= k < |t.posts| && t.posts[k].id == ParseObjectId(id).value
                                 && MergePost(w, t.posts[k].body) != t.posts[k].body)
            && (e.reply != Bare(NO_CONTENT_204) ==> e.after == t)
            && e.after == t.(posts := e.after.posts) && |e.after.posts| == |t.posts|
            && (ParseObjectId(id).Some? ==>
                  forall k :: 0 <= k < |t.posts| ==>
                    e.after.posts[k] == if t.posts[k].id == ParseObjectId(id).value
                                        then Doc(t.posts[k].id, MergePost(w, t.posts[k].body)) else t.posts[k])
            && ValidTables(e.after)
  {
    if ParseObjectId(id).Some? {
      UpdateOneChangesOne(t.posts, ParseObjectId(id).value, SetPost(w));
    }
  }

  method UpdatePostById(db: Db, id: string, body: Body) returns (r: Reply<()>)
    modifies db`posts
    ensures Effect(r, db.Snapshot()) == UpdatePostByIdEffect(old(db.Snapshot()), id, body)
  {
    var v := ValidateObject(PostSchema, body);
    var lookup := LookupBlog(db.blogs, Lookup(body, "blogId"));
    if lookup.LookupThrows? {
      return Unhandled;
    }
    if v.details != [] || lookup.NoBlog? {
      return Errors(BAD_REQUEST_400, PostErrors(v, lookup));
    }
    r := StorePostUpdate(db, id, PostInputOf(v, lookup.blog.body.name));
  }

  /** The update after the checks, on the database. */
  method StorePostUpdate(db: Db, id: string, w: PostInput) returns (r: Reply<()>)
    modifies db`posts
    ensures Effect(r, db.Snapshot()) == UpdateStoredPost(old(db.Snapshot()), id, w)
  {
    var parsed := ParseObjectId(id);
    if parsed.None? {
      return Unhandled;
    }
    var _, modifiedCount := PostsRepository.UpdatePostById(db, parsed.value, w);
    r := if modifiedCount == 1 then Bare(NO_CONTENT_204) else Bare(NOT_FOUND_404);
  }

  /** The values an update writes: the trimmed input with the name of the
      blog, when the body is valid and names a stored blog. */
  function UpdateValues(blogs: seq<Doc<Blog>>, body: Body): Option<PostInput> {
    var v := ValidateObject(PostSchema, body);
    var lookup := LookupBlog(blogs, Lookup(body, "blogId"));
    if v.details == [] && lookup.Found? then Some(PostInputOf(v, lookup.blog.body.name)) else None
  }

  /** Those values exist exactly for a valid body naming a stored blog, and
      are then its trimmed input with the blog's name. */
  lemma UpdateValuesTrimmed(blogs: seq<Doc<Blog>>, body: Body)
    ensures var lookup := LookupBlog(blogs, Lookup(body, "blogId"));
            UpdateValues(blogs, body).Some? <==> ValidPostInput(body) && lookup.Found?
    ensures var lookup := LookupBlog(blogs, Lookup(body, "blogId"));
            UpdateValues(blogs, body).Some? ==>
              UpdateValues(blogs, body).value == TrimmedPostInput(body, lookup.blog.body.name)
  {
    PostSchemaAccepts(body);
    var lookup := LookupBlog(blogs, Lookup(body, "blogId"));
    if ValidPostInput(body) && lookup.Found? {
      PostSchemaValue(body, lookup.blog.body.name);
    }
  }

  /** An update is 204 exactly when the body is valid, names a stored blog,
      and the post exists and did not already hold those values; any other
      answer writes nothing. */
  lemma UpdatePostByIdAnswers(t: Tables, id: string, body: Body)
    requires ValidTables(t)
    ensures var e := UpdatePostByIdEffect(t, id, body);
            var w := UpdateValues(t.blogs, body);
            && (e.reply == Bare(NO_CONTENT_204) <==>
                  w.Some? && ParseObjectId(id).Some?
                  && exists k :: 0 <= k < |t.posts| && t.posts[k].id == ParseObjectId(id).value
                                 && MergePost(w.value, t.posts[k].body) != t.posts[k].body)
            && (e.reply != Bare(NO_CONTENT_204) ==> e.after == t)
            && ValidTables(e.after)
  {
    var w := UpdateValues(t.blogs, body);
    if w.Some? {
      UpdateWithValues(t, id, body);
      UpdateStoredPostAnswers(t, id, w.value);
    }
  }

  /** A successful update gives the post the trimmed input and the blog's
      name, keeps its creation time, and changes nothing else. */
  lemma UpdatePostByIdWrites(t: Tables, id: string, body: Body)
    requires ValidTables(t)
    requires UpdatePostByIdEffect(t, id, body).reply == Bare(NO_CONTENT_204)
    ensures UpdateValues(t.blogs, body).Some? && ParseObjectId(id).Some?
    ensures var after := UpdatePostByIdEffect(t, id, body).after;
            var w := UpdateValues(t.blogs, body).value;
            var pid := ParseObjectId(id).value;
            && after == t.(posts := after.posts) && |after.posts| == |t.posts|
            && forall k :: 0 <= k < |t.posts| ==>
                 after.posts[k] == if t.posts[k].id == pid then Doc(pid, MergePost(w, t.posts[k].body)) else t.posts[k]
  {
    var w := UpdateValues(t.blogs, body);
    if w.Some? {
      UpdateWithValues(t, id, body);
      UpdateStoredPostAnswers(t, id, w.value);
    }
  }

  /** Sending a stored post's own values back is answered 404 although the
      post exists: nothing is modified, and only a modification counts. */
  lemma UpdatePostWithSameValuesIsNotFound(t: Tables, id: string, body: Body, k: nat)
    requires ValidTables(t) && k < |t.posts| && ParseObjectId(id) == Some(t.posts[k].id)
    requires UpdateValues(t.blogs, body).Some?
    requires MergePost(UpdateValues(t.blogs, body).value, t.posts[k].body) == t.posts[k].body
    ensures UpdatePostByIdEffect(t, id, body) == Effect(Bare(NOT_FOUND_404), t)
  {
    var w := UpdateValues(t.blogs, body).value;
    UpdateWithValues(t, id, body);
    UpdateStoredPostAnswers(t, id, w);
    forall j | 0 <= j < |t.posts| && t.posts[j].id == t.posts[k].id
      ensures MergePost(w, t.posts[j].body) == t.posts[j].body
    {
      assert j == k;
    }
  }

  /** With checked values the update is the write of those values. */
  lemma UpdateWithValues(t: Tables, id: string, body: Body)
    requires UpdateValues(t.blogs, body).Some?
    ensures UpdatePostByIdEffect(t, id, body) == UpdateStoredPost(t, id, UpdateValues(t.blogs, body).value)
  {
  }

  // ---------------------------------------------------------------------
  // deletePostById

  function DeletePostByIdEffect(t: Tables, id: string): (e: Effect<()>)
    ensures e.after == t.(posts := e.after.posts)
    ensures e.after != t ==> e.reply == Bare(NO_CONTENT_204)
  {
    if !IsValidMongoId(id) then Effect(Bare(NOT_FOUND_404), t)
    else
      var pid := ParseObjectId(id).value;
      Effect(if DeletedCount(t.posts, ById(pid)) == 0 then Bare(NOT_FOUND_404) else Bare(NO_CONTENT_204),
             t.(posts := DeleteOne(t.posts, ById(pid))))
  }

  method DeletePostById(db: Db, id: string) returns (r: Reply<()>)
    modifies db`posts
    ensures Effect(r, db.Snapshot()) == DeletePostByIdEffect(old(db.Snapshot()), id)
  {
    if !IsValidMongoId(id) {
      return Bare(NOT_FOUND_404);
    }
    var deletedCount := PostsRepository.DeletePostById(db, ParseObjectId(id).value);
    r := if deletedCount == 0 then Bare(NOT_FOUND_404) else Bare(NO_CONTENT_204);
  }

  /** A delete answers 204 exactly when the post exists, removes that post
      only (its comments stay), and the post is then not found. */
  lemma DeletePostByIdRemoves(t: Tables, id: string)
    requires ValidTables(t)
    ensures var e := DeletePostByIdEffect(t, id);
            && (e.reply == Bare(NO_CONTENT_204) || e.reply == Bare(NOT_FOUND_404))
            && (e.reply == Bare(NO_CONTENT_204) <==> IsValidMongoId(id) && ParseObjectId(id).value in Ids(t.posts))
            && (e.reply == Bare(NOT_FOUND_404) ==> e.after == t)
            && e.after == t.(posts := e.after.posts)
            && ValidTables(e.after)
            && (forall d :: d in t.posts && IdString(d.id) != id ==> d in e.after.posts)
            && (IsValidMongoId(id) ==> ReadPostById(e.after.posts, id) == Bare(NOT_FOUND_404))
  {
    if IsValidMongoId(id) {
      var pid := ParseObjectId(id).value;
      DeleteByIdRemoves(t.posts, pid);
      forall d | d in t.posts && IdString(d.id) != id ensures d.id != pid { }
    }
  }
}
