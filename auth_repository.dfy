/** The users and tokens collections as the registration flow uses them:
    password checks by e-mail or login, the confirmation tokens, and the
    update of a user. */
module AuthRepository {
  import opened Common
  import opened ObjectIds
  import opened Mongo
  import opened Store

  /** `bcrypt.hash(password, salt)`: deterministic in its two inputs. */
  type Hasher = (string, string) -> string

  /** `{email: email}` and `{login: login}`: exact equality. */
  function WithEmail(email: string): Doc<User> -> bool {
    (d: Doc<User>) => d.body.email == email
  }

  function WithLogin(login: string): Doc<User> -> bool {
    (d: Doc<User>) => d.body.login == login
  }

  /** The first user the filter finds, provided the password hashed with
      that user's salt is the stored hash. */
  function Authenticate(users: seq<Doc<User>>, hash: Hasher, p: Doc<User> -> bool, password: string)
    : (r: Option<Doc<User>>)
    ensures r.Some? ==> r.value in users && p(r.value) && hash(password, r.value.body.salt) == r.value.body.hash
    ensures r.Some? <==> FindOne(users, p).Some?
                         && hash(password, FindOne(users, p).value.body.salt) == FindOne(users, p).value.body.hash
  {
    match FindOne(users, p)
    case None => None
    case Some(u) => if hash(password, u.body.salt) == u.body.hash then Some(u) else None
  }

  /** emailAuth. */
  function EmailAuth(users: seq<Doc<User>>, hash: Hasher, email: string, password: string)
    : (r: Option<Doc<User>>)
    ensures r.Some? ==> r.value in users && r.value.body.email == email
                        && hash(password, r.value.body.salt) == r.value.body.hash
  {
    Authenticate(users, hash, WithEmail(email), password)
  }

  /** loginAuth. */
  function LoginAuth(users: seq<Doc<User>>, hash: Hasher, login: string, password: string)
    : (r: Option<Doc<User>>)
    ensures r.Some? ==> r.value in users && r.value.body.login == login
                        && hash(password, r.value.body.salt) == r.value.body.hash
  {
    Authenticate(users, hash, WithLogin(login), password)
  }

  /** When at most one user matches the filter, the check succeeds exactly
      when some matching user's hash agrees. */
  lemma AuthenticateIff(users: seq<Doc<User>>, hash: Hasher, p: Doc<User> -> bool, password: string)
    requires forall i, j :: 0 <= i < |users| && 0 <= j < |users| && p(users[i]) && p(users[j]) ==> i == j
    ensures Authenticate(users, hash, p, password).Some? <==>
              exists k :: 0 <= k < |users| && p(users[k]) && hash(password, users[k].body.salt) == users[k].body.hash
  {
    if exists k :: 0 <= k < |users| && p(users[k]) && hash(password, users[k].body.salt) == users[k].body.hash {
      var k :| 0 <= k < |users| && p(users[k]) && hash(password, users[k].body.salt) == users[k].body.hash;
      var i := FindIndex(users, p).value;
      assert i == k;
    }
  }

  /** The code the tokens are searched and deleted by. */
  function WithCode(code: string): Token -> bool {
    (t: Token) => t.token == code
  }

  /** How the server reads an operator document such as `{$ne: ""}` given
      as the value of `token` in a filter: the test it applies to a stored
      code, or None when it rejects the document (an unknown operator or a
      bad argument). MongoDB's query language is not modelled further. */
  type QueryParser = map<string, JsValue> -> Option<string -> bool>

  /** A document with a `$` key is read as operators; any other document is
      compared as an embedded document, which no string code equals. */
  predicate IsOperatorDocument(entries: map<string, JsValue>) {
    exists k :: k in entries && |k| > 0 && k[0] == '$'
  }

  function CodeTest(test: string -> bool): Token -> bool {
    (t: Token) => test(t.token)
  }

  function NoCode(): Token -> bool {
    (t: Token) => false
  }

  /** The filter `{token: code}` with the body's `code` as it arrives: a
      string is compared for equality, an operator document is handed to
      the server's parser, and `undefined`, `null`, numbers, booleans,
      arrays and plain documents match no string code. None is a filter the
      server rejects. */
  function CodeFilter(code: JsValue, query: QueryParser): (r: Option<Token -> bool>)
    ensures r.None? <==> code.Obj? && IsOperatorDocument(code.entries) && query(code.entries).None?
    ensures code.Str? ==> r == Some(WithCode(code.s))
    ensures r.Some? && code.Obj? && IsOperatorDocument(code.entries) ==>
              forall t: Token :: r.value(t) == query(code.entries).value(t.token)
    ensures !code.Str? && !(code.Obj? && IsOperatorDocument(code.entries)) ==> r == Some(NoCode())
  {
    match code
    case Str(s) => Some(WithCode(s))
    case Obj(entries) =>
      if IsOperatorDocument(entries) then
        (match query(entries) case None => None case Some(test) => Some(CodeTest(test)))
      else Some(NoCode())
    case _ => Some(NoCode())
  }

  /** What findTokenInfo comes back with: a rejected filter (the promise
      rejects), no token, or the first token the filter matches. */
  datatype TokenSearch = QueryRejected | NoToken | TokenFound(token: Token)

  /** findTokenInfo: the first token record the filter `{token: code}`
      matches. */
  function FindTokenInfo(tokens: seq<Token>, code: JsValue, query: QueryParser): (r: TokenSearch)
    ensures r.QueryRejected? <==> CodeFilter(code, query).None?
    ensures r.TokenFound? ==> r.token in tokens && CodeFilter(code, query).value(r.token)
    ensures r.NoToken? <==> CodeFilter(code, query).Some?
                            && forall k :: 0 <= k < |tokens| ==> !CodeFilter(code, query).value(tokens[k])
    ensures code.Str? ==> !r.QueryRejected?
    ensures code.Str? && r.TokenFound? ==> r.token.token == code.s
    ensures code.Str? ==> (r.NoToken? <==> forall k :: 0 <= k < |tokens| ==> tokens[k].token != code.s)
  {
    match CodeFilter(code, query)
    case None => QueryRejected
    case Some(f) =>
      match FindOne(tokens, f)
      case None => NoToken
      case Some(t) => TokenFound(t)
  }

  /** deleteTokenInfo: removes the first token record the filter matches. */
  method DeleteTokenInfo(db: Db, f: Token -> bool)
    modifies db`tokens
    ensures db.tokens == DeleteOne(old(db.tokens), f)
  {
    db.tokens := DeleteOne(db.tokens, f);
  }

  /** insertConfirmationToken: appends the record. */
  method InsertConfirmationToken(db: Db, token: Token)
    modifies db`tokens
    ensures db.tokens == old(db.tokens) + [token]
  {
    db.tokens := db.tokens + [token];
  }

  /** `{$set: input}` with a whole user record: every field is
      overwritten. */
  function SetUser(input: User): User -> User {
    (u: User) => input
  }

  /** updateUser: overwrites the user whose id is the input's. */
  method UpdateUser(db: Db, input: Doc<User>) returns (matchedCount: nat, modifiedCount: nat)
    modifies db`users
    ensures var r := UpdateOne(old(db.users), input.id, SetUser(input.body));
            db.users == r.docs && matchedCount == r.matchedCount && modifiedCount == r.modifiedCount
  {
    var r := UpdateOne(db.users, input.id, SetUser(input.body));
    db.users := r.docs;
    matchedCount, modifiedCount := r.matchedCount, r.modifiedCount;
  }

  /** With unique ids, updateUser replaces exactly the user with the
      input's id by the input. */
  lemma UpdateUserReplaces(users: seq<Doc<User>>, input: Doc<User>)
    requires DistinctIds(users)
    ensures var after := UpdateOne(users, input.id, SetUser(input.body)).docs;
            |after| == |users| && DistinctIds(after)
            && forall k :: 0 <= k < |users| ==> after[k] == (if users[k].id == input.id then input else users[k])
  {
    UpdateOneChangesOne(users, input.id, SetUser(input.body));
  }

  /** findUserByEmail. */
  function FindUserByEmail(users: seq<Doc<User>>, email: string): (r: Option<Doc<User>>)
    ensures r.Some? ==> r.value in users && r.value.body.email == email
    ensures r.None? <==> forall k :: 0 <= k < |users| ==> users[k].body.email != email
  {
    FindOne(users, WithEmail(email))
  }
}
