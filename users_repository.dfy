/** The users collection: the paged search over e-mail and login, its
    count, lookups by id, insertion and deletion. */
module UsersRepository {
  import opened Common
  import opened ObjectIds
  import opened Mongo
  import opened Store
  import opened ValidationFunctions

  /** How the two search conditions are combined: `$or` or `$and`. */
  datatype Operator = Or | And

  /** UserQueryModel: paging and sorting with the two search terms. */
  datatype UserQuery = UserQuery(page: Query, searchEmailTerm: string, searchLoginTerm: string)

  /** A user as `findUsers` returns it: the projection leaves out `hash`
      and `salt`. */
  datatype UserSummary = UserSummary(login: string, email: string, isConfirmed: bool, createdAt: string)

  function Summary(d: Doc<User>): (s: Doc<UserSummary>)
    ensures s.id == d.id
    ensures s.body.login == d.body.login && s.body.email == d.body.email
    ensures s.body.isConfirmed == d.body.isConfirmed && s.body.createdAt == d.body.createdAt
  {
    Doc(d.id, UserSummary(d.body.login, d.body.email, d.body.isConfirmed, d.body.createdAt))
  }

  function Summaries(docs: seq<Doc<User>>): (s: seq<Doc<UserSummary>>)
    ensures |s| == |docs|
    ensures forall k :: 0 <= k < |docs| ==> s[k] == Summary(docs[k])
  {
    if docs == [] then [] else [Summary(docs[0])] + Summaries(docs[1..])
  }

  /** `{$or | $and: [{email: {$regex: emailTerm, $options: "i"}},
      {login: {$regex: loginTerm, $options: "i"}}]}`. */
  predicate UserMatches(regex: RegexTest, emailTerm: string, loginTerm: string, op: Operator, d: Doc<User>) {
    match op
    case Or => regex(emailTerm, d.body.email) || regex(loginTerm, d.body.login)
    case And => regex(emailTerm, d.body.email) && regex(loginTerm, d.body.login)
  }

  function UserFilter(regex: RegexTest, emailTerm: string, loginTerm: string, op: Operator): Doc<User> -> bool {
    (d: Doc<User>) => UserMatches(regex, emailTerm, loginTerm, op, d)
  }

  /** The sort key of `sortBy`: the stored documents have no `id` and no
      `password` field, so sorting by those compares nothing. */
  function UserKey(sortBy: string): Doc<User> -> SortKey {
    (d: Doc<User>) =>
      if sortBy == "email" then Text(d.body.email)
      else if sortBy == "login" then Text(d.body.login)
      else if sortBy == "createdAt" then Text(d.body.createdAt)
      else Missing
  }

  /** countUsers: the number of users the search matches. */
  function CountUsers(users: seq<Doc<User>>, regex: RegexTest, emailTerm: string, loginTerm: string,
                      op: Operator): (n: nat)
    ensures n <= |users|
  {
    Count(users, UserFilter(regex, emailTerm, loginTerm, op))
  }

  /** findUsers: one page of the matching users, sorted, without hash and
      salt; a page number of 0 with a positive page size makes the server
      refuse the negative skip (None). */
  function FindUsers(users: seq<Doc<User>>, regex: RegexTest, q: UserQuery, op: Operator)
    : (r: Option<seq<Doc<UserSummary>>>)
    ensures r.None? <==> q.page.pageNumber == 0 && q.page.pageSize > 0
    ensures r.Some? ==> |r.value| <= CountUsers(users, regex, q.searchEmailTerm, q.searchLoginTerm, op)
    ensures r.Some? && q.page.pageSize > 0 ==> |r.value| <= q.page.pageSize
    ensures r.Some? ==> forall k :: 0 <= k < |r.value| ==>
              exists d :: d in users && UserMatches(regex, q.searchEmailTerm, q.searchLoginTerm, op, d)
                          && r.value[k] == Summary(d)
    ensures r.Some? ==> PageOf(r.value, MatchingUsers(users, regex, q, op), q.page.pageNumber, q.page.pageSize, Summary)
  {
    var p := UserFilter(regex, q.searchEmailTerm, q.searchLoginTerm, op);
    var key := UserKey(q.page.sortBy);
    var ascending := q.page.sortDirection == "asc";
    match Find(users, p, key, ascending, q.page.pageNumber, q.page.pageSize)
    case None => None
    case Some(page) =>
      var r := Summaries(page);
      FindMembersMapped(users, p, key, ascending, q.page.pageNumber, q.page.pageSize, page, r, Summary);
      UsersWindow(users, regex, q, op, page);
      Some(r)
  }

  /** The summaries of a found page are the window of the matching users. */
  lemma UsersWindow(users: seq<Doc<User>>, regex: RegexTest, q: UserQuery, op: Operator, page: seq<Doc<User>>)
    requires Find(users, UserFilter(regex, q.searchEmailTerm, q.searchLoginTerm, op), UserKey(q.page.sortBy),
                  q.page.sortDirection == "asc", q.page.pageNumber, q.page.pageSize) == Some(page)
    ensures PageOf(Summaries(page), MatchingUsers(users, regex, q, op), q.page.pageNumber, q.page.pageSize, Summary)
  {
    FindWindowMapped(users, UserFilter(regex, q.searchEmailTerm, q.searchLoginTerm, op), UserKey(q.page.sortBy),
                     q.page.sortDirection == "asc", q.page.pageNumber, q.page.pageSize, page, Summaries(page), Summary);
  }

  /** The users the search matches, in the query's order. */
  function MatchingUsers(users: seq<Doc<User>>, regex: RegexTest, q: UserQuery, op: Operator): seq<Doc<User>> {
    SortedMatches(users, UserFilter(regex, q.searchEmailTerm, q.searchLoginTerm, op), UserKey(q.page.sortBy),
                  q.page.sortDirection == "asc")
  }

  /** An empty search term matches every text, so with `$or` and one empty
      term every user is counted. */
  lemma CountUsersWithEmptyTerm(users: seq<Doc<User>>, regex: RegexTest, emailTerm: string, loginTerm: string)
    requires forall s :: regex("", s)
    requires emailTerm == "" || loginTerm == ""
    ensures CountUsers(users, regex, emailTerm, loginTerm, Or) == |users|
  {
    var p := UserFilter(regex, emailTerm, loginTerm, Or);
    forall k | 0 <= k < |users| ensures p(users[k]) {
      assert regex("", users[k].body.email) && regex("", users[k].body.login);
    }
    FilterAll(users, p);
  }

  /** findMongoUserById and findViewUserById: the stored user with that id. */
  function FindUserById(users: seq<Doc<User>>, id: ObjectId): (r: Option<Doc<User>>)
    ensures r.Some? ==> r.value in users && r.value.id == id
    ensures r.None? <==> id !in Ids(users)
  {
    FindById(users, id)
  }

  /** insertUser with the id the driver made; false when the id is taken
      and the server refuses the document. */
  method InsertUser(db: Db, id: ObjectId, user: User) returns (inserted: bool)
    modifies db`users
    ensures inserted <==> id !in Ids(old(db.users))
    ensures db.users == if inserted then old(db.users) + [Doc(id, user)] else old(db.users)
  {
    var r := InsertOne(db.users, id, user);
    inserted := r.Some?;
    if inserted {
      db.users := r.value;
    }
  }

  /** deleteUserById: removes the user with that id, if any, and reports
      how many it removed. */
  method DeleteUserById(db: Db, id: ObjectId) returns (deletedCount: nat)
    modifies db`users
    ensures db.users == DeleteOne(old(db.users), ById(id))
    ensures deletedCount == DeletedCount(old(db.users), ById(id))
  {
    deletedCount := DeletedCount(db.users, ById(id));
    db.users := DeleteOne(db.users, ById(id));
  }
}
