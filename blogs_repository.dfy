/** The blogs collection: the paged search by name, its count, lookup,
    insertion, update and deletion by id. */
module BlogsRepository {
  import opened Common
  import opened ObjectIds
  import opened Mongo
  import opened Store
  import opened ValidationFunctions

  /** BlogQueryModel: paging and sorting with the name search term. */
  datatype BlogQuery = BlogQuery(page: Query, searchNameTerm: string)

  /** BlogInputModel after validation: the three fields a client sets. */
  datatype BlogInput = BlogInput(name: string, description: string, websiteUrl: string)

  /** `{name: {$regex: term, $options: "i"}}`. */
  function NameFilter(regex: RegexTest, term: string): Doc<Blog> -> bool {
    (d: Doc<Blog>) => regex(term, d.body.name)
  }

  /** The sort key of `sortBy`; the stored documents have no `id` field. */
  function BlogKey(sortBy: string): Doc<Blog> -> SortKey {
    (d: Doc<Blog>) =>
      if sortBy == "name" then Text(d.body.name)
      else if sortBy == "description" then Text(d.body.description)
      else if sortBy == "websiteUrl" then Text(d.body.websiteUrl)
      else if sortBy == "createdAt" then Text(d.body.createdAt)
      else if sortBy == "isMembership" then Flag(d.body.isMembership)
      else Missing
  }

  /** countBlogs. */
  function CountBlogs(blogs: seq<Doc<Blog>>, regex: RegexTest, term: string): (n: nat)
    ensures n <= |blogs|
  {
    Count(blogs, NameFilter(regex, term))
  }

  /** findBlogs: one page of the blogs whose name matches, sorted by the
      key, never more than countBlogs with the same term. */
  function FindBlogs(blogs: seq<Doc<Blog>>, regex: RegexTest, q: BlogQuery): (r: Option<seq<Doc<Blog>>>)
    ensures r.None? <==> q.page.pageNumber == 0 && q.page.pageSize > 0
    ensures r.Some? ==> |r.value| <= CountBlogs(blogs, regex, q.searchNameTerm)
    ensures r.Some? && q.page.pageSize > 0 ==> |r.value| <= q.page.pageSize
    ensures r.Some? ==> Sorted(r.value, BlogKey(q.page.sortBy), q.page.sortDirection == "asc")
    ensures r.Some? ==> forall k :: 0 <= k < |r.value| ==> r.value[k] in blogs && regex(q.searchNameTerm, r.value[k].body.name)
    ensures r.Some? ==> PageOf(r.value, MatchingBlogs(blogs, regex, q), q.page.pageNumber, q.page.pageSize, Itself)
  {
    var r := Find(blogs, NameFilter(regex, q.searchNameTerm), BlogKey(q.page.sortBy), q.page.sortDirection == "asc",
                  q.page.pageNumber, q.page.pageSize);
    if r.Some? then
      FindProperties(blogs, NameFilter(regex, q.searchNameTerm), BlogKey(q.page.sortBy), q.page.sortDirection == "asc",
                     q.page.pageNumber, q.page.pageSize);
      FindIsWindow(blogs, NameFilter(regex, q.searchNameTerm), BlogKey(q.page.sortBy), q.page.sortDirection == "asc",
                   q.page.pageNumber, q.page.pageSize);
      r
    else r
  }

  /** The blogs whose name matches the term, in the query's order. */
  function MatchingBlogs(blogs: seq<Doc<Blog>>, regex: RegexTest, q: BlogQuery): seq<Doc<Blog>> {
    SortedMatches(blogs, NameFilter(regex, q.searchNameTerm), BlogKey(q.page.sortBy), q.page.sortDirection == "asc")
  }

  /** findBlogById. */
  function FindBlogById(blogs: seq<Doc<Blog>>, id: ObjectId): (r: Option<Doc<Blog>>)
    ensures r.Some? ==> r.value in blogs && r.value.id == id
    ensures r.None? <==> id !in Ids(blogs)
  {
    FindById(blogs, id)
  }

  /** insertBlog with the id the driver made; false when the id is taken. */
  method InsertBlog(db: Db, id: ObjectId, blog: Blog) returns (inserted: bool)
    modifies db`blogs
    ensures inserted <==> id !in Ids(old(db.blogs))
    ensures db.blogs == if inserted then old(db.blogs) + [Doc(id, blog)] else old(db.blogs)
  {
    var r := InsertOne(db.blogs, id, blog);
    inserted := r.Some?;
    if inserted {
      db.blogs := r.value;
    }
  }

  /** `{$set: input}`: the three input fields are overwritten. */
  function MergeBlog(input: BlogInput, b: Blog): (m: Blog)
    ensures m.name == input.name && m.description == input.description && m.websiteUrl == input.websiteUrl
    ensures m.createdAt == b.createdAt && m.isMembership == b.isMembership
  {
    b.(name := input.name, description := input.description, websiteUrl := input.websiteUrl)
  }

  function SetBlog(input: BlogInput): Blog -> Blog {
    (b: Blog) => MergeBlog(input, b)
  }

  /** updateBlogById. */
  method UpdateBlogById(db: Db, id: ObjectId, input: BlogInput) returns (matchedCount: nat, modifiedCount: nat)
    modifies db`blogs
    ensures var r := UpdateOne(old(db.blogs), id, SetBlog(input));
            db.blogs == r.docs && matchedCount == r.matchedCount && modifiedCount == r.modifiedCount
  {
    var r := UpdateOne(db.blogs, id, SetBlog(input));
    db.blogs := r.docs;
    matchedCount, modifiedCount := r.matchedCount, r.modifiedCount;
  }

  /** deleteBlogById. */
  method DeleteBlogById(db: Db, id: ObjectId) returns (deletedCount: nat)
    modifies db`blogs
    ensures db.blogs == DeleteOne(old(db.blogs), ById(id))
    ensures deletedCount == DeletedCount(old(db.blogs), ById(id))
  {
    deletedCount := DeletedCount(db.blogs, ById(id));
    db.blogs := DeleteOne(db.blogs, ById(id));
  }
}
