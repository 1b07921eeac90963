/** The comments collection: insertion, lookup and paged listing of the
    comments of one post (without the post id), the count, update of the
    content and deletion by id. */
module CommentsRepository {
  import opened Common
  import opened ObjectIds
  import opened Mongo
  import opened Store
  import opened ValidationFunctions

  /** A comment as the lookups return it: the projection leaves out
      `postId`. */
  datatype CommentView = CommentView(content: string, commentatorInfo: CommentatorInfo, createdAt: string)

  function WithoutPostId(d: Doc<Comment>): (v: Doc<CommentView>)
    ensures v.id == d.id && v.body.content == d.body.content
    ensures v.body.commentatorInfo == d.body.commentatorInfo && v.body.createdAt == d.body.createdAt
  {
    Doc(d.id, CommentView(d.body.content, d.body.commentatorInfo, d.body.createdAt))
  }

  function WithoutPostIds(docs: seq<Doc<Comment>>): (vs: seq<Doc<CommentView>>)
    ensures |vs| == |docs|
    ensures forall k :: 0 <= k < |docs| ==> vs[k] == WithoutPostId(docs[k])
  {
    if docs == [] then [] else [WithoutPostId(docs[0])] + WithoutPostIds(docs[1..])
  }

  /** `{postId: id}`. */
  function OfPost(postId: string): Doc<Comment> -> bool {
    (d: Doc<Comment>) => d.body.postId == postId
  }

  /** The sort key of `sortBy`; the stored documents have no `id` field. */
  function CommentKey(sortBy: string): Doc<Comment> -> SortKey {
    (d: Doc<Comment>) =>
      if sortBy == "content" then Text(d.body.content)
      else if sortBy == "createdAt" then Text(d.body.createdAt)
      else Missing
  }

  /** insertComment with the id the driver made; false when the id is
      taken. */
  method InsertComment(db: Db, id: ObjectId, comment: Comment) returns (inserted: bool)
    modifies db`comments
    ensures inserted <==> id !in Ids(old(db.comments))
    ensures db.comments == if inserted then old(db.comments) + [Doc(id, comment)] else old(db.comments)
  {
    var r := InsertOne(db.comments, id, comment);
    inserted := r.Some?;
    if inserted {
      db.comments := r.value;
    }
  }

  /** findCommentById: the comment with that id, without its post id. */
  function FindCommentById(comments: seq<Doc<Comment>>, id: ObjectId): (r: Option<Doc<CommentView>>)
    ensures r.None? <==> id !in Ids(comments)
    ensures r.Some? ==> r.value.id == id && exists c :: c in comments && c.id == id && r.value == WithoutPostId(c)
  {
    match FindById(comments, id)
    case None => None
    case Some(c) => Some(WithoutPostId(c))
  }

  /** countCommentsByPostId. */
  function CountCommentsByPostId(comments: seq<Doc<Comment>>, postId: string): (n: nat)
    ensures n <= |comments|
  {
    Count(comments, OfPost(postId))
  }

  /** findCommentsByPostId: one page of the comments of the post, sorted,
      without the post id. */
  function FindCommentsByPostId(comments: seq<Doc<Comment>>, postId: string, q: Query)
    : (r: Option<seq<Doc<CommentView>>>)
    ensures r.None? <==> q.pageNumber == 0 && q.pageSize > 0
    ensures r.Some? ==> |r.value| <= CountCommentsByPostId(comments, postId)
    ensures r.Some? && q.pageSize > 0 ==> |r.value| <= q.pageSize
    ensures r.Some? ==> forall k :: 0 <= k < |r.value| ==>
              exists c :: c in comments && c.body.postId == postId && r.value[k] == WithoutPostId(c)
    ensures r.Some? ==> PageOf(r.value, MatchingComments(comments, postId, q), q.pageNumber, q.pageSize, WithoutPostId)
  {
    var p := OfPost(postId);
    var key := CommentKey(q.sortBy);
    var ascending := q.sortDirection == "asc";
    match Find(comments, p, key, ascending, q.pageNumber, q.pageSize)
    case None => None
    case Some(page) =>
      var r := WithoutPostIds(page);
      FindMembersMapped(comments, p, key, ascending, q.pageNumber, q.pageSize, page, r, WithoutPostId);
      CommentsWindow(comments, postId, q, page);
      Some(r)
  }

  /** The projections of a found page are the window of the post's
      comments. */
  lemma CommentsWindow(comments: seq<Doc<Comment>>, postId: string, q: Query, page: seq<Doc<Comment>>)
    requires Find(comments, OfPost(postId), CommentKey(q.sortBy), q.sortDirection == "asc",
                  q.pageNumber, q.pageSize) == Some(page)
    ensures PageOf(WithoutPostIds(page), MatchingComments(comments, postId, q), q.pageNumber, q.pageSize,
                   WithoutPostId)
  {
    FindWindowMapped(comments, OfPost(postId), CommentKey(q.sortBy), q.sortDirection == "asc",
                     q.pageNumber, q.pageSize, page, WithoutPostIds(page), WithoutPostId);
  }

  /** The comments of the post, in the query's order. */
  function MatchingComments(comments: seq<Doc<Comment>>, postId: string, q: Query): seq<Doc<Comment>> {
    SortedMatches(comments, OfPost(postId), CommentKey(q.sortBy), q.sortDirection == "asc")
  }

  /** `{$set: {content}}`: only the content changes. */
  function MergeComment(content: string, c: Comment): (m: Comment)
    ensures m.content == content
    ensures m.commentatorInfo == c.commentatorInfo && m.createdAt == c.createdAt && m.postId == c.postId
  {
    c.(content := content)
  }

  function SetContent(content: string): Comment -> Comment {
    (c: Comment) => MergeComment(content, c)
  }

  /** updateCommentById. */
  method UpdateCommentById(db: Db, id: ObjectId, content: string) returns (matchedCount: nat, modifiedCount: nat)
    modifies db`comments
    ensures var r := UpdateOne(old(db.comments), id, SetContent(content));
            db.comments == r.docs && matchedCount == r.matchedCount && modifiedCount == r.modifiedCount
  {
    var r := UpdateOne(db.comments, id, SetContent(content));
    db.comments := r.docs;
    matchedCount, modifiedCount := r.matchedCount, r.modifiedCount;
  }

  /** deleteCommentById. */
  method DeleteCommentById(db: Db, id: ObjectId) returns (deletedCount: nat)
    modifies db`comments
    ensures db.comments == DeleteOne(old(db.comments), ById(id))
    ensures deletedCount == DeletedCount(old(db.comments), ById(id))
  {
    deletedCount := DeletedCount(db.comments, ById(id));
    db.comments := DeleteOne(db.comments, ById(id));
  }
}
