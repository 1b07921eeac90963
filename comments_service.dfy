/** The comments service: validation of the comment input, the listing of
    the comments of a post, and the creation, lookup, update and deletion
    of one comment. Changing or deleting a comment is reserved to the user
    who wrote it. */
module CommentsService {
  import opened Common
  import opened Js
  import opened ObjectIds
  import opened Mongo
  import opened Store
  import opened Joi
  import opened UtilityFunctions
  import opened ValidationFunctions
  import opened PostsRepository
  import opened CommentsRepository
  import opened Authentication

  // ---------------------------------------------------------------------
  // commentSchema and the list query

  /** The `required` message is the library's own: the schema misspells its
      key as "any:required", so the custom text is never used. */
  const CommentContentRule: StringRule :=
    StringRule(Some(20), Some(300), None,
      Messages("\"content\" is required", "content must be a string",
               "empty string can't be used as a content",
               "content can't be shorter than 20 characters",
               "content can't be longer than 300 characters", ""))

  const CommentSchema: seq<Key> := [Key("content", CommentContentRule)]

  const CommentSortable: seq<string> := ["id", "content", "createdAt"]

  /** commentQuerySchema: the paging rules only. */
  function CommentQueryOf(raw: map<string, string>): Query {
    ValidateQuery(raw, CommentSortable)
  }

  /** What commentSchema demands, read directly: a string whose trimmed
      form has 20 to 300 characters. */
  predicate ValidCommentInput(body: Body) {
    var content := Lookup(body, "content");
    content.Str? && 20 <= JsLength(Trim(content.s)) <= 300
  }

  /** The trimmed content of a valid body. */
  function TrimmedContent(body: Body): string
    requires ValidCommentInput(body)
  {
    Trim(Lookup(body, "content").s)
  }

  /** commentSchema accepts exactly the bodies described above, and its
      validated value is the trimmed content. */
  lemma CommentSchemaAccepts(body: Body)
    ensures ValidateObject(CommentSchema, body).details == [] <==> ValidCommentInput(body)
    ensures ValidCommentInput(body) ==> Field(ValidateObject(CommentSchema, body), "content") == TrimmedContent(body)
  {
    var c := Lookup(body, "content");
    if c.Str? && 20 <= JsLength(Trim(c.s)) {
      assert Trim(c.s) != "";
    }
  }

  /** The errors of a rejected body: one or more, all about `content`, and
      once the duplicates are dropped exactly one remains: the first. */
  lemma CommentSchemaErrors(body: Body)
    requires ValidateObject(CommentSchema, body).details != []
    ensures var errs := TransformJoiError(ValidateObject(CommentSchema, body).details, "");
            |errs| == 1 && errs[0].field == "content"
            && errs[0].message == ValidateObject(CommentSchema, body).details[0].message
  {
    var v := ValidateObject(CommentSchema, body);
    var errs := MapDetails(v.details, "");
    forall i | 0 <= i < |errs| ensures errs[i].field == "content" {
      assert v.details[i] in v.details;
      assert PathString(["content"]) == "content";
    }
    OneFieldKeepsFirst(errs, "content", |errs|);
  }

  // ---------------------------------------------------------------------
  // readCommentsOfPost

  /** The post a path id names, when the id is well formed. */
  predicate PostExists(posts: seq<Doc<Post>>, postId: string) {
    IsValidMongoId(postId) && ParseObjectId(postId).value in Ids(posts)
  }

  /** readCommentsOfPost: 404 for a malformed or unknown post, else the
      page of its comments with their number; a negative skip rejects. */
  function ReadCommentsOfPost(posts: seq<Doc<Post>>, comments: seq<Doc<Comment>>, postId: string,
                              raw: map<string, string>): (r: Reply<Paginator<View<CommentView>>>)
    ensures r.Data? || r.Unhandled? || r == Bare(NOT_FOUND_404)
    ensures r == Bare(NOT_FOUND_404) <==> !PostExists(posts, postId)
    ensures r.Unhandled? <==> PostExists(posts, postId)
                              && CommentQueryOf(raw).pageNumber == 0 && CommentQueryOf(raw).pageSize > 0
    ensures r.Data? ==>
              var q := CommentQueryOf(raw);
              && r.code == OK_200
              && r.value.page == q.pageNumber && r.value.pageSize == q.pageSize
              && r.value.totalCount == CountCommentsByPostId(comments, postId)
              && |r.value.items| <= r.value.totalCount
              && (q.pageSize > 0 ==> |r.value.items| <= q.pageSize)
              && ViewsOfPostComments(comments, postId, r.value.items)
              && PageOf(r.value.items, MatchingComments(comments, postId, q), q.pageNumber, q.pageSize, CommentViewOf)
  {
    if !IsValidMongoId(postId) then Bare(NOT_FOUND_404)
    else
      match FindPostById(posts, ParseObjectId(postId).value)
      case None => Bare(NOT_FOUND_404)
      case Some(_) =>
        var q := CommentQueryOf(raw);
        match FindCommentsByPostId(comments, postId, q)
        case None => Unhandled
        case Some(page) =>
          var items := MapViews(page);
          FoundCommentViews(comments, postId, q, page);
          CommentViewsWindow(comments, postId, q, page);
          Data(OK_200, MakePaginator(q, CountCommentsByPostId(comments, postId), items))
  }

  /** The view a comment is returned as: its id as a string, without postId. */
  function CommentViewOf(c: Doc<Comment>): View<CommentView> {
    MapMongoToView(WithoutPostId(c))
  }

  /** The views of a found page are the window of the post's comments,
      sorted by the query's key. */
  lemma CommentViewsWindow(comments: seq<Doc<Comment>>, postId: string, q: Query, page: seq<Doc<CommentView>>)
    requires FindCommentsByPostId(comments, postId, q) == Some(page)
    ensures PageOf(MapViews(page), MatchingComments(comments, postId, q), q.pageNumber, q.pageSize, CommentViewOf)
  {
    PageOfMap(page, MapViews(page), MatchingComments(comments, postId, q), q.pageNumber, q.pageSize,
              WithoutPostId, MapMongoToView, CommentViewOf);
  }

  /** Every item is the view, without postId, of a comment of the post. */
  predicate ViewsOfPostComments(comments: seq<Doc<Comment>>, postId: string, items: seq<View<CommentView>>) {
    forall k :: 0 <= k < |items| ==>
      exists c :: c in comments && c.body.postId == postId && items[k] == MapMongoToView(WithoutPostId(c))
  }

  lemma FoundCommentViews(comments: seq<Doc<Comment>>, postId: string, q: Query, page: seq<Doc<CommentView>>)
    requires FindCommentsByPostId(comments, postId, q) == Some(page)
    ensures ViewsOfPostComments(comments, postId, MapViews(page))
  {
    var items := MapViews(page);
    forall k | 0 <= k < |items|
      ensures exists c :: c in comments && c.body.postId == postId && items[k] == MapMongoToView(WithoutPostId(c))
    {
      assert items[k] == MapMongoToView(page[k]);
      var c :| c in comments && c.body.postId == postId && page[k] == WithoutPostId(c);
    }
  }

  // ---------------------------------------------------------------------
  // createCommentOfPost

  /** The stored comment: the content, the author from the authenticated
      user, the creation time and the post. */
  function NewComment(user: Locals, content: string, postId: string, now: Instant): Comment {
    Comment(content, CommentatorInfo(user.id, user.login), now.iso, postId)
  }

  /** createCommentOfPost: the post is checked before the body. */
  function CreateCommentOfPostEffect(t: Tables, user: Locals, postId: string, body: Body,
                                     now: Instant, id: ObjectId): (e: Effect<View<CommentView>>)
    ensures e.after == t.(comments := e.after.comments)
    ensures e.after != t ==> e.reply.Data? && e.reply.code == CREATED_201
  {
    var v := ValidateObject(CommentSchema, body);
    if !IsValidMongoId(postId) || FindPostById(t.posts, ParseObjectId(postId).value).None? then
      Effect(Bare(NOT_FOUND_404), t)
    else if v.details != [] then Effect(Errors(BAD_REQUEST_400, TransformJoiError(v.details, "")), t)
    else InsertCommentEffect(t, NewComment(user, Field(v, "content"), postId, now), id)
  }

  /** The insertion a creation ends with; the answer leaves out postId. */
  function InsertCommentEffect(t: Tables, comment: Comment, id: ObjectId): Effect<View<CommentView>> {
    match InsertOne(t.comments, id, comment)
    case None => Effect(Unhandled, t)
    case Some(comments) =>
      Effect(Data(CREATED_201, MapMongoToView(WithoutPostId(Doc(id, comment)))), t.(comments := comments))
  }

  /** Inserting under a fresh id appends the comment and answers 201 with
      its view without postId. */
  lemma InsertCommentStores(t: Tables, comment: Comment, id: ObjectId)
    requires ValidTables(t) && id !in Ids(t.comments)
    ensures InsertCommentEffect(t, comment, id)
            == Effect(Data(CREATED_201, View(IdString(id),
                             CommentView(comment.content, comment.commentatorInfo, comment.createdAt))),
                      t.(comments := t.comments + [Doc(id, comment)]))
    ensures ValidTables(t.(comments := t.comments + [Doc(id, comment)]))
  {
    InsertOneKeepsDistinct(t.comments, id, comment);
  }

  /** createCommentOfPost, with `user` the authenticated user, `id` the
      identifier the driver generates and `now` the clock. */
  method CreateCommentOfPost(db: Db, user: Locals, postId: string, body: Body, now: Instant, id: ObjectId)
    returns (r: Reply<View<CommentView>>)
    modifies db`comments
    ensures Effect(r, db.Snapshot()) == CreateCommentOfPostEffect(old(db.Snapshot()), user, postId, body, now, id)
  {
    var v := ValidateObject(CommentSchema, body);
    if !IsValidMongoId(postId) || FindPostById(db.posts, ParseObjectId(postId).value).None? {
      return Bare(NOT_FOUND_404);
    }
    if v.details != [] {
      return Errors(BAD_REQUEST_400, TransformJoiError(v.details, ""));
    }
    r := InsertNewComment(db, NewComment(user, Field(v, "content"), postId, now), id);
  }

  method InsertNewComment(db: Db, comment: Comment, id: ObjectId) returns (r: Reply<View<CommentView>>)
    modifies db`comments
    ensures Effect(r, db.Snapshot()) == InsertCommentEffect(old(db.Snapshot()), comment, id)
  {
    var inserted := InsertComment(db, id, comment);
    r := if inserted then Data(CREATED_201, MapMongoToView(WithoutPostId(Doc(id, comment)))) else Unhandled;
  }

  /** The answers of a creation: 404 exactly when the post is missing,
      whatever the body; else 400 with one `content` error exactly when the
      body is invalid; else the comment is stored under the new id with the
      trimmed content, the user as its author and the post's id, and the
      answer is its view. Only a creation writes, and only to comments. */
  lemma CreateCommentOfPostAnswers(t: Tables, user: Locals, postId: string, body: Body, now: Instant, id: ObjectId)
    requires ValidTables(t) && id !in Ids(t.comments)
    ensures var e := CreateCommentOfPostEffect(t, user, postId, body, now, id);
            && (e.reply == Bare(NOT_FOUND_404) <==> !PostExists(t.posts, postId))
            && (e.reply.Errors? <==> PostExists(t.posts, postId) && !ValidCommentInput(body))
            && (e.reply.Errors? ==> e.reply.code == BAD_REQUEST_400 && |e.reply.errorsMessages| == 1
                                    && e.reply.errorsMessages[0].field == "content")
            && (!e.reply.Data? ==> e.after == t)
            && (e.reply.Data? <==> PostExists(t.posts, postId) && ValidCommentInput(body))
            && ValidTables(e.after)
    ensures var e := CreateCommentOfPostEffect(t, user, postId, body, now, id);
            e.reply.Data? ==>
              var comment := NewComment(user, TrimmedContent(body), postId, now);
              && e.after == t.(comments := t.comments + [Doc(id, comment)])
              && e.reply == Data(CREATED_201, View(IdString(id),
                                   CommentView(comment.content, CommentatorInfo(user.id, user.login), now.iso)))
  {
    CommentSchemaAccepts(body);
    var v := ValidateObject(CommentSchema, body);
    if v.details != [] {
      CommentSchemaErrors(body);
    }
    InsertCommentStores(t, NewComment(user, Field(v, "content"), postId, now), id);
  }

  // ---------------------------------------------------------------------
  // readCommentById

  /** readCommentById: a malformed id is not looked up. */
  function ReadCommentById(comments: seq<Doc<Comment>>, id: string): (r: Reply<View<CommentView>>)
    ensures r == Bare(NOT_FOUND_404) || r.Data?
    ensures r.Data? <==> IsValidMongoId(id) && ParseObjectId(id).value in Ids(comments)
    ensures r.Data? ==> r.code == OK_200 && r.value.id == id
                        && exists c :: c in comments && r.value == MapMongoToView(WithoutPostId(c))
  {
    if !IsValidMongoId(id) then Bare(NOT_FOUND_404)
    else
      match FindCommentById(comments, ParseObjectId(id).value)
      case None => Bare(NOT_FOUND_404)
      case Some(c) => Data(OK_200, MapMongoToView(c))
  }

  /** A created comment is found again by the id its view carries, and
      read back as the creation answered it. */
  lemma CreatedCommentIsRead(t: Tables, user: Locals, postId: string, body: Body, now: Instant, id: ObjectId)
    requires ValidTables(t)
    requires CreateCommentOfPostEffect(t, user, postId, body, now, id).reply.Data?
    ensures var e := CreateCommentOfPostEffect(t, user, postId, body, now, id);
            ReadCommentById(e.after.comments, e.reply.value.id) == Data(OK_200, e.reply.value)
  {
    var v := ValidateObject(CommentSchema, body);
    var comment := NewComment(user, Field(v, "content"), postId, now);
    var comments := t.comments + [Doc(id, comment)];
    InsertOneKeepsDistinct(t.comments, id, comment);
    MapMongoToViewId(WithoutPostId(Doc(id, comment)));
    FindByIdOfStored(comments, |t.comments|);
  }

  // ---------------------------------------------------------------------
  // updateCommentById

  /** The author of the comment with that id, when the id is well formed
      and the comment exists. */
  function AuthorOf(comments: seq<Doc<Comment>>, id: string): (r: Option<string>)
    ensures r.Some? <==> IsValidMongoId(id) && ParseObjectId(id).value in Ids(comments)
    ensures r.Some? ==> exists c :: c in comments && IdString(c.id) == id && c.body.commentatorInfo.userId == r.value
  {
    if !IsValidMongoId(id) then None
    else
      match FindCommentById(comments, ParseObjectId(id).value)
      case None => None
      case Some(c) => Some(c.body.commentatorInfo.userId)
  }

  /** updateCommentById: 404, then 403 for another user's comment, then
      400; the update's own counts are not looked at. */
  function UpdateCommentByIdEffect(t: Tables, user: Locals, id: string, body: Body): (e: Effect<()>)
    ensures e.after == t.(comments := e.after.comments)
    ensures e.after != t ==> e.reply == Bare(NO_CONTENT_204)
  {
    var v := ValidateObject(CommentSchema, body);
    match AuthorOf(t.comments, id)
    case None => Effect(Bare(NOT_FOUND_404), t)
    case Some(author) =>
      if user.id != author then Effect(Bare(FORBIDDEN_403), t)
      else if v.details != [] then Effect(Errors(BAD_REQUEST_400, TransformJoiError(v.details, "")), t)
      else
        var u := UpdateOne(t.comments, ParseObjectId(id).value, SetContent(Field(v, "content")));
        Effect(Bare(NO_CONTENT_204), t.(comments := u.docs))
  }

  method UpdateCommentById(db: Db, user: Locals, id: string, body: Body) returns (r: Reply<()>)
    modifies db`comments
    ensures Effect(r, db.Snapshot()) == UpdateCommentByIdEffect(old(db.Snapshot()), user, id, body)
  {
    var v := ValidateObject(CommentSchema, body);
    var author := AuthorOf(db.comments, id);
    if author.None? {
      return Bare(NOT_FOUND_404);
    }
    if user.id != author.value {
      return Bare(FORBIDDEN_403);
    }
    if v.details != [] {
      return Errors(BAD_REQUEST_400, TransformJoiError(v.details, ""));
    }
    var _, _ := CommentsRepository.UpdateCommentById(db, ParseObjectId(id).value, Field(v, "content"));
    r := Bare(NO_CONTENT_204);
  }

  /** The answers of an update: 404 exactly when the comment is missing,
      403 exactly when it belongs to another user (whatever the body), 400
      for the author's invalid body, else 204. Only 204 writes, and only an
      author's update is ever answered 204. */
  lemma UpdateCommentByIdAnswers(t: Tables, user: Locals, id: string, body: Body)
    requires ValidTables(t)
    ensures var e := UpdateCommentByIdEffect(t, user, id, body);
            && (e.reply == Bare(NOT_FOUND_404) <==> AuthorOf(t.comments, id).None?)
            && (e.reply == Bare(FORBIDDEN_403) <==>
                  AuthorOf(t.comments, id).Some? && AuthorOf(t.comments, id).value != user.id)
            && (e.reply.Errors? <==>
                  AuthorOf(t.comments, id) == Some(user.id) && !ValidCommentInput(body))
            && (e.reply.Errors? ==> e.reply.code == BAD_REQUEST_400)
            && (e.reply == Bare(NO_CONTENT_204) <==>
                  AuthorOf(t.comments, id) == Some(user.id) && ValidCommentInput(body))
            && (e.reply != Bare(NO_CONTENT_204) ==> e.after == t)
            && ValidTables(e.after)
  {
    CommentSchemaAccepts(body);
    var v := ValidateObject(CommentSchema, body);
    if AuthorOf(t.comments, id) == Some(user.id) && v.details == [] {
      UpdateOneChangesOne(t.comments, ParseObjectId(id).value, SetContent(Field(v, "content")));
    }
  }

  /** The comment with the id AuthorOf answers for is written by that
      author. */
  lemma AuthorOfStored(comments: seq<Doc<Comment>>, id: string, k: nat)
    requires DistinctIds(comments) && AuthorOf(comments, id).Some?
    requires k < |comments| && comments[k].id == ParseObjectId(id).value
    ensures comments[k].body.commentatorInfo.userId == AuthorOf(comments, id).value
  {
    var c :| c in comments && IdString(c.id) == id && c.body.commentatorInfo.userId == AuthorOf(comments, id).value;
    ParseObjectIdOfIdString(c.id);
    var j :| 0 <= j < |comments| && comments[j] == c;
  }

  /** An accepted update was the author's, and sets the trimmed content of
      that comment only, keeping its author, creation time and post. */
  lemma UpdateCommentByIdWrites(t: Tables, user: Locals, id: string, body: Body)
    requires ValidTables(t)
    requires UpdateCommentByIdEffect(t, user, id, body).reply == Bare(NO_CONTENT_204)
    ensures ValidCommentInput(body) && IsValidMongoId(id) && AuthorOf(t.comments, id) == Some(user.id)
    ensures var after := UpdateCommentByIdEffect(t, user, id, body).after;
            var cid := ParseObjectId(id).value;
            && after == t.(comments := after.comments)
            && |after.comments| == |t.comments|
            && forall k :: 0 <= k < |t.comments| ==>
                 after.comments[k] == if t.comments[k].id == cid
                                      then Doc(cid, MergeComment(TrimmedContent(body), t.comments[k].body))
                                      else t.comments[k]
  {
    var v := ValidateObject(CommentSchema, body);
    assert v.details == [];
    CommentSchemaAccepts(body);
    UpdateOneChangesOne(t.comments, ParseObjectId(id).value, SetContent(Field(v, "content")));
  }

  // ---------------------------------------------------------------------
  // deleteCommentById

  /** deleteCommentById: 404, then 403 for another user's comment. */
  function DeleteCommentByIdEffect(t: Tables, user: Locals, id: string): (e: Effect<()>)
    ensures e.after == t.(comments := e.after.comments)
    ensures e.after != t ==> e.reply == Bare(NO_CONTENT_204)
  {
    match AuthorOf(t.comments, id)
    case None => Effect(Bare(NOT_FOUND_404), t)
    case Some(author) =>
      if user.id != author then Effect(Bare(FORBIDDEN_403), t)
      else Effect(Bare(NO_CONTENT_204), t.(comments := DeleteOne(t.comments, ById(ParseObjectId(id).value))))
  }

  method DeleteCommentById(db: Db, user: Locals, id: string) returns (r: Reply<()>)
    modifies db`comments
    ensures Effect(r, db.Snapshot()) == DeleteCommentByIdEffect(old(db.Snapshot()), user, id)
  {
    var author := AuthorOf(db.comments, id);
    if author.None? {
      return Bare(NOT_FOUND_404);
    }
    if user.id != author.value {
      return Bare(FORBIDDEN_403);
    }
    var _ := CommentsRepository.DeleteCommentById(db, ParseObjectId(id).value);
    r := Bare(NO_CONTENT_204);
  }

  /** A delete answers 404 for a missing comment, 403 for another user's
      comment, and otherwise removes that comment only and answers 204;
      afterwards the comment is not found. */
  lemma DeleteCommentByIdRemoves(t: Tables, user: Locals, id: string)
    requires ValidTables(t)
    ensures var e := DeleteCommentByIdEffect(t, user, id);
            && (e.reply == Bare(NOT_FOUND_404) <==> AuthorOf(t.comments, id).None?)
            && (e.reply == Bare(FORBIDDEN_403) <==>
                  AuthorOf(t.comments, id).Some? && AuthorOf(t.comments, id).value != user.id)
            && (e.reply == Bare(NO_CONTENT_204) <==> AuthorOf(t.comments, id) == Some(user.id))
            && (e.reply != Bare(NO_CONTENT_204) ==> e.after == t)
            && e.after == t.(comments := e.after.comments)
            && ValidTables(e.after)
            && (forall c :: c in t.comments && IdString(c.id) != id ==> c in e.after.comments)
            && (e.reply == Bare(NO_CONTENT_204) ==> ReadCommentById(e.after.comments, id) == Bare(NOT_FOUND_404))
  {
    if AuthorOf(t.comments, id) == Some(user.id) {
      var cid := ParseObjectId(id).value;
      DeleteByIdRemoves(t.comments, cid);
      forall c | c in t.comments && IdString(c.id) != id ensures c.id != cid { }
    }
  }
}
