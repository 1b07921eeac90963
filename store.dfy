/** The records the API stores and the in-memory database that holds the
    five collections of the `homework` database, each as a sequence of
    documents in insertion order. */
module Store {
  import opened Common
  import opened ObjectIds
  import opened Mongo

  /** A `users` document (UserMongoModel) without its `_id`. */
  datatype User = User(login: string, email: string, salt: string, hash: string,
                       isConfirmed: bool, createdAt: string)

  /** A `tokens` document: the user it confirms, the random code, and the
      instant (milliseconds) after which it is expired. Its `_id` is never
      read, so it is not kept. */
  datatype Token = Token(userId: ObjectId, token: string, expirationDate: int)

  datatype Blog = Blog(name: string, description: string, websiteUrl: string,
                       createdAt: string, isMembership: bool)

  /** A post refers to its blog by the id string the client sent. */
  datatype Post = Post(title: string, shortDescription: string, content: string,
                       blogId: string, blogName: string, createdAt: string)

  datatype CommentatorInfo = CommentatorInfo(userId: string, userLogin: string)

  datatype Comment = Comment(content: string, commentatorInfo: CommentatorInfo,
                             createdAt: string, postId: string)

  /** A value of the state, for stating what an operation does to it. */
  datatype Tables = Tables(users: seq<Doc<User>>, tokens: seq<Token>, blogs: seq<Doc<Blog>>,
                           posts: seq<Doc<Post>>, comments: seq<Doc<Comment>>)

  /** What a state-changing service call answers, with the state it leaves
      behind. */
  datatype Effect<+V> = Effect(reply: Reply<V>, after: Tables)

  /** The unique `_id` index of every collection. */
  predicate ValidTables(t: Tables) {
    DistinctIds(t.users) && DistinctIds(t.blogs) && DistinctIds(t.posts) && DistinctIds(t.comments)
  }

  /** The database: one mutable sequence per collection. */
  class Db {
    var users: seq<Doc<User>>
    var tokens: seq<Token>
    var blogs: seq<Doc<Blog>>
    var posts: seq<Doc<Post>>
    var comments: seq<Doc<Comment>>

    constructor ()
      ensures Snapshot() == Tables([], [], [], [], [])
      ensures Valid()
    {
      users, tokens, blogs, posts, comments := [], [], [], [], [];
    }

    function Snapshot(): Tables
      reads this
    {
      Tables(users, tokens, blogs, posts, comments)
    }

    predicate Valid()
      reads this
    {
      ValidTables(Snapshot())
    }
  }

  /** A registration letter: the address and the confirmation code its
      link carries. */
  datatype Letter = Letter(to: string, code: string)

  /** The outgoing mail, as the list of letters handed to the mail
      transport. */
  class Mailer {
    var sent: seq<Letter>

    constructor ()
      ensures sent == []
    {
      sent := [];
    }

    method Send(letter: Letter)
      modifies this
      ensures sent == old(sent) + [letter]
    {
      sent := sent + [letter];
    }
  }

  /** One reading of the clock: milliseconds since the epoch and the
      `toISOString()` text of the same instant. */
  datatype Instant = Instant(ms: int, iso: string)
}
