/** The posts collection: paged listing, overall or of one blog, the
    counts, lookup, insertion, update and deletion by id. */
module PostsRepository {
  import opened Common
  import opened ObjectIds
  import opened Mongo
  import opened Store
  import opened ValidationFunctions

  /** The fields `updatePostById` sets: the validated input and the name
      of its blog. */
  datatype PostInput = PostInput(title: string, shortDescription: string, content: string,
                                 blogId: string, blogName: string)

  /** The sort key of `sortBy`; the stored documents have no `id` field. */
  function PostKey(sortBy: string): Doc<Post> -> SortKey {
    (d: Doc<Post>) =>
      if sortBy == "title" then Text(d.body.title)
      else if sortBy == "shortDescription" then Text(d.body.shortDescription)
      else if sortBy == "content" then Text(d.body.content)
      else if sortBy == "blogName" then Text(d.body.blogName)
      else if sortBy == "createdAt" then Text(d.body.createdAt)
      else Missing
  }

  /** `{blogId: id}`: the blog id string as the post stores it. */
  function OfBlog(blogId: string): Doc<Post> -> bool {
    (d: Doc<Post>) => d.body.blogId == blogId
  }

  function PostsPage(posts: seq<Doc<Post>>, p: Doc<Post> -> bool, q: Query): (r: Option<seq<Doc<Post>>>)
    ensures r.None? <==> q.pageNumber == 0 && q.pageSize > 0
    ensures r.Some? ==> |r.value| <= Count(posts, p)
    ensures r.Some? && q.pageSize > 0 ==> |r.value| <= q.pageSize
    ensures r.Some? ==> Sorted(r.value, PostKey(q.sortBy), q.sortDirection == "asc")
    ensures r.Some? ==> forall k :: 0 <= k < |r.value| ==> r.value[k] in posts && p(r.value[k])
    ensures r.Some? ==> PageOf(r.value, MatchingPosts(posts, p, q), q.pageNumber, q.pageSize, Itself)
  {
    var r := Find(posts, p, PostKey(q.sortBy), q.sortDirection == "asc", q.pageNumber, q.pageSize);
    if r.Some? then
      FindProperties(posts, p, PostKey(q.sortBy), q.sortDirection == "asc", q.pageNumber, q.pageSize);
      FindIsWindow(posts, p, PostKey(q.sortBy), q.sortDirection == "asc", q.pageNumber, q.pageSize);
      r
    else r
  }

  /** The posts the filter keeps, in the query's order. */
  function MatchingPosts(posts: seq<Doc<Post>>, p: Doc<Post> -> bool, q: Query): seq<Doc<Post>> {
    SortedMatches(posts, p, PostKey(q.sortBy), q.sortDirection == "asc")
  }

  /** findPosts: one page of all posts. */
  function FindPosts(posts: seq<Doc<Post>>, q: Query): (r: Option<seq<Doc<Post>>>)
    ensures r.None? <==> q.pageNumber == 0 && q.pageSize > 0
    ensures r.Some? ==> |r.value| <= CountAllPosts(posts)
    ensures r.Some? && q.pageSize > 0 ==> |r.value| <= q.pageSize
    ensures r.Some? ==> forall k :: 0 <= k < |r.value| ==> r.value[k] in posts
    ensures r.Some? ==> Sorted(r.value, PostKey(q.sortBy), q.sortDirection == "asc")
    ensures r.Some? ==> PageOf(r.value, MatchingPosts(posts, Everything(), q), q.pageNumber, q.pageSize, Itself)
  {
    PostsPage(posts, Everything(), q)
  }

  /** findPostsByBlogId: one page of the posts of one blog. */
  function FindPostsByBlogId(posts: seq<Doc<Post>>, blogId: string, q: Query): (r: Option<seq<Doc<Post>>>)
    ensures r.None? <==> q.pageNumber == 0 && q.pageSize > 0
    ensures r.Some? ==> |r.value| <= CountPostsByBlogId(posts, blogId)
    ensures r.Some? && q.pageSize > 0 ==> |r.value| <= q.pageSize
    ensures r.Some? ==> forall k :: 0 <= k < |r.value| ==> r.value[k] in posts && r.value[k].body.blogId == blogId
    ensures r.Some? ==> Sorted(r.value, PostKey(q.sortBy), q.sortDirection == "asc")
    ensures r.Some? ==> PageOf(r.value, MatchingPosts(posts, OfBlog(blogId), q), q.pageNumber, q.pageSize, Itself)
  {
    PostsPage(posts, OfBlog(blogId), q)
  }

  /** countAllPosts: countDocuments with no filter counts every post. */
  function CountAllPosts(posts: seq<Doc<Post>>): (n: nat)
    ensures n == |posts|
  {
    FilterAll(posts, Everything());
    Count(posts, Everything())
  }

  /** countPostsByBlogId. */
  function CountPostsByBlogId(posts: seq<Doc<Post>>, blogId: string): (n: nat)
    ensures n <= |posts|
  {
    Count(posts, OfBlog(blogId))
  }

  /** findPostById. */
  function FindPostById(posts: seq<Doc<Post>>, id: ObjectId): (r: Option<Doc<Post>>)
    ensures r.Some? ==> r.value in posts && r.value.id == id
    ensures r.None? <==> id !in Ids(posts)
  {
    FindById(posts, id)
  }

  /** insertPost with the id the driver made; false when the id is taken. */
  method InsertPost(db: Db, id: ObjectId, post: Post) returns (inserted: bool)
    modifies db`posts
    ensures inserted <==> id !in Ids(old(db.posts))
    ensures db.posts == if inserted then old(db.posts) + [Doc(id, post)] else old(db.posts)
  {
    var r := InsertOne(db.posts, id, post);
    inserted := r.Some?;
    if inserted {
      db.posts := r.value;
    }
  }

  /** `{$set: input}`: the five supplied fields are overwritten, the
      creation time is kept. */
  function MergePost(input: PostInput, p: Post): (m: Post)
    ensures m.title == input.title && m.shortDescription == input.shortDescription
    ensures m.content == input.content && m.blogId == input.blogId && m.blogName == input.blogName
    ensures m.createdAt == p.createdAt
  {
    p.(title := input.title, shortDescription := input.shortDescription, content := input.content,
       blogId := input.blogId, blogName := input.blogName)
  }

  function SetPost(input: PostInput): Post -> Post {
    (p: Post) => MergePost(input, p)
  }

  /** A merge changes nothing exactly when the post already holds the
      supplied values. */
  lemma MergePostUnchanged(input: PostInput, p: Post)
    ensures MergePost(input, p) == p <==>
              p.title == input.title && p.shortDescription == input.shortDescription && p.content == input.content
              && p.blogId == input.blogId && p.blogName == input.blogName
  {
  }

  /** updatePostById. */
  method UpdatePostById(db: Db, id: ObjectId, input: PostInput) returns (matchedCount: nat, modifiedCount: nat)
    modifies db`posts
    ensures var r := UpdateOne(old(db.posts), id, SetPost(input));
            db.posts == r.docs && matchedCount == r.matchedCount && modifiedCount == r.modifiedCount
  {
    var r := UpdateOne(db.posts, id, SetPost(input));
    db.posts := r.docs;
    matchedCount, modifiedCount := r.matchedCount, r.modifiedCount;
  }

  /** deletePostById. */
  method DeletePostById(db: Db, id: ObjectId) returns (deletedCount: nat)
    modifies db`posts
    ensures db.posts == DeleteOne(old(db.posts), ById(id))
    ensures deletedCount == DeletedCount(old(db.posts), ById(id))
  {
    deletedCount := DeletedCount(db.posts, ById(id));
    db.posts := DeleteOne(db.posts, ById(id));
  }
}
