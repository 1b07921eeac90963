/** The users service: validation of the user input and of the list query,
    the uniqueness checks on e-mail and login, and the four operations of
    `/users`. */
module UsersService {
  import opened Common
  import opened Js
  import opened ObjectIds
  import opened Mongo
  import opened Store
  import opened Joi
  import opened UtilityFunctions
  import opened ValidationFunctions
  import opened UsersRepository
  import opened AuthRepository

  // ---------------------------------------------------------------------
  // userSchema and the list query

  const EmailRule: StringRule :=
    StringRule(None, None, Some(EmailPattern),
      Messages("value is required", "value must be a string", "value must not be an empty string",
               "", "", "value must match the email pattern"))

  const LoginRule: StringRule :=
    StringRule(Some(3), Some(10), Some(LoginPattern),
      Messages("value is required", "value must be a string", "value must not be an empty string",
               "value is shorter than 3 characters", "value is longer than 10 characters",
               "value must match the login pattern"))

  const UserPasswordRule: StringRule :=
    StringRule(Some(6), Some(20), None,
      Messages("value is required", "value must be a string", "value must not be an empty string",
               "value is shorter than 6 characters", "value is longer than 20 characters", ""))

  const UserSchema: seq<Key> :=
    [Key("email", EmailRule), Key("login", LoginRule), Key("password", UserPasswordRule)]

  const UserSortable: seq<string> := ["id", "email", "login", "password"]

  function SearchTerm(raw: map<string, string>, name: string): string {
    if name in raw then raw[name] else ""
  }

  /** userQuerySchema: the paging rules and the two terms, "" by default. */
  function UserQueryOf(raw: map<string, string>): UserQuery {
    UserQuery(ValidateQuery(raw, UserSortable), SearchTerm(raw, "searchEmailTerm"), SearchTerm(raw, "searchLoginTerm"))
  }

  /** UserInputModel after validation. */
  datatype UserInput = UserInput(email: string, login: string, password: string)

  /** What userSchema demands, read directly: an e-mail address, a login of
      3 to 10 letters, digits, `_` or `-`, and a password of 6 to 20
      characters, each judged once trimmed. */
  predicate ValidUserInput(body: Body) {
    var email := Lookup(body, "email");
    var login := Lookup(body, "login");
    var password := Lookup(body, "password");
    && email.Str? && Trim(email.s) != "" && Matches(EmailPattern, Trim(email.s))
    && login.Str? && 3 <= JsLength(Trim(login.s)) <= 10 && Matches(LoginPattern, Trim(login.s))
    && password.Str? && 6 <= JsLength(Trim(password.s)) <= 20
  }

  function TrimmedUserInput(body: Body): UserInput
    requires ValidUserInput(body)
  {
    UserInput(Trim(Lookup(body, "email").s), Trim(Lookup(body, "login").s), Trim(Lookup(body, "password").s))
  }

  function UserInputOf(o: Outcome): UserInput {
    UserInput(Field(o, "email"), Field(o, "login"), Field(o, "password"))
  }

  lemma UserSchemaNames()
    ensures DistinctNames(UserSchema)
  {
  }

  /** userSchema accepts exactly the bodies described above. */
  lemma UserSchemaAccepts(body: Body)
    ensures ValidateObject(UserSchema, body).details == [] <==> ValidUserInput(body)
  {
    AllAcceptThree(Key("email", EmailRule), Key("login", LoginRule), Key("password", UserPasswordRule), body);
    ValidateObjectPasses(UserSchema, body);
    var login := Lookup(body, "login");
    var password := Lookup(body, "password");
    if login.Str? && 3 <= JsLength(Trim(login.s)) {
      assert Trim(login.s) != "";
    }
    if password.Str? && 6 <= JsLength(Trim(password.s)) {
      assert Trim(password.s) != "";
    }
  }

  /** The validated object of a valid body is its trimmed input. */
  lemma UserSchemaValue(body: Body)
    requires ValidUserInput(body)
    ensures ValidateObject(UserSchema, body).details == []
    ensures UserInputOf(ValidateObject(UserSchema, body)) == TrimmedUserInput(body)
  {
    UserSchemaAccepts(body);
    UserSchemaNames();
    PassedKey(UserSchema, body, 0);
    PassedKey(UserSchema, body, 1);
    PassedKey(UserSchema, body, 2);
  }

  /** The errors of a rejected body: at least one, at most one per field,
      each about one of the three keys. */
  lemma UserSchemaErrors(body: Body)
    requires ValidateObject(UserSchema, body).details != []
    ensures var errs := TransformJoiError(ValidateObject(UserSchema, body).details, "");
            errs != [] && DistinctFields(errs)
            && forall e :: e in errs ==> e.field in {"email", "login", "password"}
  {
    ValidateObjectErrorFields(UserSchema, body);
  }

  // ---------------------------------------------------------------------
  // checkIfEmailIsUnique and checkIfLoginIsUnique

  /** The query the checks validate: only one term is given, so the paging
      keys take their defaults (first page of 10) and the other term is "". */
  function UniquenessQuery(emailTerm: string, loginTerm: string): (q: UserQuery)
    ensures q.page.pageNumber == 1
  {
    UserQuery(ValidateQuery(map[], UserSortable), emailTerm, loginTerm)
  }

  /** `findUsers(query, "and")` returns an empty first page. */
  function NoneFound(users: seq<Doc<User>>, regex: RegexTest, q: UserQuery): bool
    requires q.page.pageNumber == 1
  {
    var r := FindUsers(users, regex, q, And);
    r.Some? && |r.value| == 0
  }

  /** checkIfEmailIsUnique: the e-mail is used as a pattern. */
  function IsEmailUnique(users: seq<Doc<User>>, regex: RegexTest, email: string): bool {
    NoneFound(users, regex, UniquenessQuery(email, ""))
  }

  /** checkIfLoginIsUnique: the login is used as a pattern. */
  function IsLoginUnique(users: seq<Doc<User>>, regex: RegexTest, login: string): bool {
    NoneFound(users, regex, UniquenessQuery("", login))
  }

  /** The first page of the `$and` search is empty exactly when no user
      matches both terms. */
  lemma NoneFoundIff(users: seq<Doc<User>>, regex: RegexTest, q: UserQuery)
    requires q.page.pageNumber == 1
    ensures NoneFound(users, regex, q) <==>
              forall d :: d in users ==> !UserMatches(regex, q.searchEmailTerm, q.searchLoginTerm, And, d)
  {
    var p := UserFilter(regex, q.searchEmailTerm, q.searchLoginTerm, And);
    var key := UserKey(q.page.sortBy);
    var ascending := q.page.sortDirection == "asc";
    FirstPageEmpty(users, p, key, ascending, q.page.pageSize);
    var page := Find(users, p, key, ascending, 1, q.page.pageSize).value;
    assert |Summaries(page)| == |page|;
    if exists d :: d in users && p(d) {
      var d :| d in users && p(d);
      FilterMembers(users, p, d);
    }
  }

  /** With the empty pattern matching every text, an e-mail is unique
      exactly when it, read as a pattern, matches no stored e-mail; the
      same for logins. */
  lemma UniquenessIff(users: seq<Doc<User>>, regex: RegexTest, email: string, login: string)
    requires forall s :: regex("", s)
    ensures IsEmailUnique(users, regex, email) <==> forall d :: d in users ==> !regex(email, d.body.email)
    ensures IsLoginUnique(users, regex, login) <==> forall d :: d in users ==> !regex(login, d.body.login)
  {
    NoneFoundIff(users, regex, UniquenessQuery(email, ""));
    NoneFoundIff(users, regex, UniquenessQuery("", login));
  }

  // ---------------------------------------------------------------------
  // readUsers

  /** readUsers: the page of users whose e-mail or login matches, without
      hash and salt, with the number of all matching users. */
  function ReadUsers(users: seq<Doc<User>>, regex: RegexTest, raw: map<string, string>)
    : (r: Reply<Paginator<View<UserSummary>>>)
    ensures r.Data? || r.Unhandled?
    ensures r.Unhandled? <==> UserQueryOf(raw).page.pageNumber == 0 && UserQueryOf(raw).page.pageSize > 0
    ensures r.Data? ==>
              var q := UserQueryOf(raw);
              && r.code == OK_200
              && r.value.page == q.page.pageNumber && r.value.pageSize == q.page.pageSize
              && r.value.totalCount == CountUsers(users, regex, q.searchEmailTerm, q.searchLoginTerm, Or)
              && |r.value.items| <= r.value.totalCount
              && (q.page.pageSize > 0 ==> |r.value.items| <= q.page.pageSize)
              && ViewsOfMatches(users, regex, q, r.value.items)
              && PageOf(r.value.items, MatchingUsers(users, regex, q, Or), q.page.pageNumber, q.page.pageSize, SummaryView)
  {
    var q := UserQueryOf(raw);
    match FindUsers(users, regex, q, Or)
    case None => Unhandled
    case Some(page) =>
      var items := MapViews(page);
      FoundViewsMatch(users, regex, q, page);
      UserViewsWindow(users, regex, q, page);
      Data(OK_200, MakePaginator(q.page, CountUsers(users, regex, q.searchEmailTerm, q.searchLoginTerm, Or), items))
  }

  /** The view a user is listed as: its id as a string and the summary
      fields. */
  function SummaryView(d: Doc<User>): View<UserSummary> {
    MapMongoToView(Summary(d))
  }

  /** The views of a found page are the window of the matching users,
      sorted by the query's key. */
  lemma UserViewsWindow(users: seq<Doc<User>>, regex: RegexTest, q: UserQuery, page: seq<Doc<UserSummary>>)
    requires FindUsers(users, regex, q, Or) == Some(page)
    ensures PageOf(MapViews(page), MatchingUsers(users, regex, q, Or), q.page.pageNumber, q.page.pageSize, SummaryView)
  {
    PageOfMap(page, MapViews(page), MatchingUsers(users, regex, q, Or), q.page.pageNumber, q.page.pageSize,
              Summary, MapMongoToView, SummaryView);
  }

  /** Every item is the projected view of a user whose e-mail matches the
      e-mail term or whose login matches the login term. */
  predicate ViewsOfMatches(users: seq<Doc<User>>, regex: RegexTest, q: UserQuery, items: seq<View<UserSummary>>) {
    forall k :: 0 <= k < |items| ==>
      exists d :: d in users && (regex(q.searchEmailTerm, d.body.email) || regex(q.searchLoginTerm, d.body.login))
                  && items[k] == MapMongoToView(Summary(d))
  }

  lemma FoundViewsMatch(users: seq<Doc<User>>, regex: RegexTest, q: UserQuery, page: seq<Doc<UserSummary>>)
    requires FindUsers(users, regex, q, Or) == Some(page)
    ensures ViewsOfMatches(users, regex, q, MapViews(page))
  {
    var items := MapViews(page);
    forall k | 0 <= k < |items|
      ensures exists d :: d in users && (regex(q.searchEmailTerm, d.body.email) || regex(q.searchLoginTerm, d.body.login))
                          && items[k] == MapMongoToView(Summary(d))
    {
      var d :| d in users && UserMatches(regex, q.searchEmailTerm, q.searchLoginTerm, Or, d) && page[k] == Summary(d);
      assert items[k] == MapMongoToView(Summary(d));
    }
  }

  // ---------------------------------------------------------------------
  // createUser

  /** UserViewModel without its id. */
  datatype UserView = UserView(email: string, login: string, createdAt: string)

  /** The stored account: the trimmed e-mail and login, the salt, the hash
      of the trimmed password with that salt, not confirmed. */
  function NewUser(input: UserInput, salt: string, hash: Hasher, createdAt: string): (u: User)
    ensures u.email == input.email && u.login == input.login && !u.isConfirmed
    ensures u.salt == salt && u.hash == hash(input.password, salt) && u.createdAt == createdAt
  {
    User(input.login, input.email, salt, hash(input.password, salt), false, createdAt)
  }

  /** The answer to a valid input whose e-mail or login is taken: the
      e-mail is reported when it is taken, else the login. */
  function UniquenessError(emailUnique: bool): (e: FieldError)
    ensures e.field == (if emailUnique then "login" else "email")
    ensures e.message == e.field + " should be unique"
  {
    UniqueMessages();
    if emailUnique then FieldError("login should be unique", "login")
    else FieldError("email should be unique", "email")
  }

  lemma UniqueMessages()
    ensures "login should be unique" == "login" + " should be unique"
    ensures "email should be unique" == "email" + " should be unique"
  {
  }

  /** What follows a passed validation in createUser: the uniqueness
      checks, then the insertion of the new account. */
  function StoreUniqueUser(t: Tables, regex: RegexTest, input: UserInput, now: Instant, salt: string, hash: Hasher,
                           id: ObjectId): (e: Effect<View<UserView>>)
    ensures e.after == t.(users := e.after.users)
    ensures e.after != t ==> e.reply.Data? && e.reply.code == CREATED_201
  {
    var emailUnique := IsEmailUnique(t.users, regex, input.email);
    var loginUnique := IsLoginUnique(t.users, regex, input.login);
    if !(emailUnique && loginUnique) then Effect(Errors(BAD_REQUEST_400, [UniquenessError(emailUnique)]), t)
    else
      match InsertOne(t.users, id, NewUser(input, salt, hash, now.iso))
      case None => Effect(Unhandled, t)
      case Some(users) =>
        Effect(Data(CREATED_201, View(IdString(id), UserView(input.email, input.login, now.iso))), t.(users := users))
  }

  /** createUser, with `salt` what `bcrypt.genSalt(10)` gives and `hash`
      `bcrypt.hash`. */
  function CreateUserEffect(t: Tables, regex: RegexTest, body: Body, now: Instant, salt: string, hash: Hasher,
                            id: ObjectId): (e: Effect<View<UserView>>)
    ensures e.after == t.(users := e.after.users)
    ensures e.after != t ==> e.reply.Data? && e.reply.code == CREATED_201
  {
    var v := ValidateObject(UserSchema, body);
    if v.details != [] then Effect(Errors(BAD_REQUEST_400, TransformJoiError(v.details, "")), t)
    else StoreUniqueUser(t, regex, UserInputOf(v), now, salt, hash, id)
  }

  /** The uniqueness checks and the insertion, on the database. */
  method StoreUser(db: Db, regex: RegexTest, input: UserInput, now: Instant, salt: string, hash: Hasher, id: ObjectId)
    returns (r: Reply<View<UserView>>)
    modifies db`users
    ensures Effect(r, db.Snapshot()) == StoreUniqueUser(old(db.Snapshot()), regex, input, now, salt, hash, id)
  {
    var emailUnique := IsEmailUnique(db.users, regex, input.email);
    var loginUnique := IsLoginUnique(db.users, regex, input.login);
    if !(emailUnique && loginUnique) {
      return Errors(BAD_REQUEST_400, [UniquenessError(emailUnique)]);
    }
    var inserted := InsertUser(db, id, NewUser(input, salt, hash, now.iso));
    r := if inserted then Data(CREATED_201, View(IdString(id), UserView(input.email, input.login, now.iso)))
         else Unhandled;
  }

  method CreateUser(db: Db, regex: RegexTest, body: Body, now: Instant, salt: string, hash: Hasher, id: ObjectId)
    returns (r: Reply<View<UserView>>)
    modifies db`users
    ensures Effect(r, db.Snapshot()) == CreateUserEffect(old(db.Snapshot()), regex, body, now, salt, hash, id)
  {
    var v := ValidateObject(UserSchema, body);
    if v.details != [] {
      return Errors(BAD_REQUEST_400, TransformJoiError(v.details, ""));
    }
    r := StoreUser(db, regex, UserInputOf(v), now, salt, hash, id);
  }

  /** A body that fails userSchema is answered 400 with its field errors
      and writes nothing; a valid one goes on with its trimmed input. */
  lemma CreateUserValidates(t: Tables, regex: RegexTest, body: Body, now: Instant, salt: string, hash: Hasher,
                            id: ObjectId)
    ensures var e := CreateUserEffect(t, regex, body, now, salt, hash, id);
            !ValidUserInput(body) ==>
              e.after == t && e.reply.Errors? && e.reply.code == BAD_REQUEST_400
              && e.reply.errorsMessages != [] && DistinctFields(e.reply.errorsMessages)
    ensures ValidUserInput(body) ==>
              CreateUserEffect(t, regex, body, now, salt, hash, id)
                == StoreUniqueUser(t, regex, TrimmedUserInput(body), now, salt, hash, id)
  {
    UserSchemaAccepts(body);
    if ValidUserInput(body) {
      UserSchemaValue(body);
    } else {
      UserSchemaErrors(body);
    }
  }

  /** An input whose e-mail matches a stored account, read as a pattern,
      is answered 400 with the e-mail's uniqueness error and writes nothing;
      else one whose login matches is answered 400 with the login's. */
  lemma StoreUniqueUserRefuses(t: Tables, regex: RegexTest, input: UserInput, now: Instant, salt: string,
                               hash: Hasher, id: ObjectId)
    requires forall s :: regex("", s)
    ensures var e := StoreUniqueUser(t, regex, input, now, salt, hash, id);
            && ((exists d :: d in t.users && regex(input.email, d.body.email)) ==>
                  e == Effect(Errors(BAD_REQUEST_400, [FieldError("email should be unique", "email")]), t))
            && ((forall d :: d in t.users ==> !regex(input.email, d.body.email))
                && (exists d :: d in t.users && regex(input.login, d.body.login)) ==>
                  e == Effect(Errors(BAD_REQUEST_400, [FieldError("login should be unique", "login")]), t))
  {
    UniquenessIff(t.users, regex, input.email, input.login);
  }

  /** An input that matches no stored e-mail and no stored login is stored
      with the e-mail, the login, the hash of the password and no
      confirmation, and the answer is 201 with the new id and no secret. */
  lemma StoreUniqueUserStores(t: Tables, regex: RegexTest, input: UserInput, now: Instant, salt: string,
                              hash: Hasher, id: ObjectId)
    requires ValidTables(t) && id !in Ids(t.users)
    requires forall s :: regex("", s)
    requires forall d :: d in t.users ==> !regex(input.email, d.body.email) && !regex(input.login, d.body.login)
    ensures var e := StoreUniqueUser(t, regex, input, now, salt, hash, id);
            && e.after == t.(users := t.users + [Doc(id, NewUser(input, salt, hash, now.iso))])
            && e.reply == Data(CREATED_201, View(IdString(id), UserView(input.email, input.login, now.iso)))
            && ValidTables(e.after)
  {
    UniquenessIff(t.users, regex, input.email, input.login);
    InsertOneKeepsDistinct(t.users, id, NewUser(input, salt, hash, now.iso));
  }

  /** No two accounts share an e-mail or a login. */
  predicate DistinctAccounts(users: seq<Doc<User>>) {
    forall i, j :: 0 <= i < j < |users| ==>
      users[i].body.email != users[j].body.email && users[i].body.login != users[j].body.login
  }

  /** Storing a user keeps e-mails and logins distinct, as long as the new
      e-mail and login, read as patterns, match themselves (true of every
      text userSchema lets through under a regular expression search). */
  lemma StoreUniqueUserKeepsAccountsDistinct(t: Tables, regex: RegexTest, input: UserInput, now: Instant,
                                             salt: string, hash: Hasher, id: ObjectId)
    requires DistinctAccounts(t.users)
    requires forall s :: regex("", s)
    requires regex(input.email, input.email) && regex(input.login, input.login)
    ensures DistinctAccounts(StoreUniqueUser(t, regex, input, now, salt, hash, id).after.users)
  {
    if IsEmailUnique(t.users, regex, input.email) && IsLoginUnique(t.users, regex, input.login) {
      UniquenessIff(t.users, regex, input.email, input.login);
      forall i | 0 <= i < |t.users|
        ensures t.users[i].body.email != input.email && t.users[i].body.login != input.login
      {
        assert t.users[i] in t.users;
      }
      AppendKeepsAccountsDistinct(t.users, Doc(id, NewUser(input, salt, hash, now.iso)));
    }
  }

  /** Appending an account whose e-mail and login no stored account has
      keeps the accounts distinct. */
  lemma AppendKeepsAccountsDistinct(users: seq<Doc<User>>, d: Doc<User>)
    requires DistinctAccounts(users)
    requires forall i :: 0 <= i < |users| ==> users[i].body.email != d.body.email && users[i].body.login != d.body.login
    ensures DistinctAccounts(users + [d])
  {
    var all := users + [d];
    forall i, j | 0 <= i < j < |all|
      ensures all[i].body.email != all[j].body.email && all[i].body.login != all[j].body.login
    {
      assert all[i] == users[i];
    }
  }

  // ---------------------------------------------------------------------
  // readUserById

  /** readUserById: the lookup has no projection, so the answer carries
      the whole stored account, salt and hash included. */
  function ReadUserById(users: seq<Doc<User>>, id: string): (r: Reply<View<User>>)
    ensures r == Bare(NOT_FOUND_404) || r.Data?
    ensures r.Data? <==> IsValidMongoId(id) && ParseObjectId(id).value in Ids(users)
    ensures r.Data? ==> r.code == OK_200 && r.value.id == id
                        && exists d :: d in users && r.value == MapMongoToView(d)
  {
    if !IsValidMongoId(id) then Bare(NOT_FOUND_404)
    else
      match FindUserById(users, ParseObjectId(id).value)
      case None => Bare(NOT_FOUND_404)
      case Some(d) => Data(OK_200, MapMongoToView(d))
  }

  /** A created user is found again by the id its view carries, with the
      e-mail, login and creation time the creation answered. */
  lemma CreatedUserIsRead(t: Tables, regex: RegexTest, input: UserInput, now: Instant, salt: string, hash: Hasher,
                          id: ObjectId)
    requires ValidTables(t)
    requires StoreUniqueUser(t, regex, input, now, salt, hash, id).reply.Data?
    ensures var e := StoreUniqueUser(t, regex, input, now, salt, hash, id);
            var r := ReadUserById(e.after.users, e.reply.value.id);
            && r.Data? && r.value.id == e.reply.value.id
            && r.value.body.email == e.reply.value.body.email && r.value.body.login == e.reply.value.body.login
            && r.value.body.createdAt == e.reply.value.body.createdAt && !r.value.body.isConfirmed
  {
    var user := NewUser(input, salt, hash, now.iso);
    var users := t.users + [Doc(id, user)];
    InsertOneKeepsDistinct(t.users, id, user);
    MapMongoToViewId(Doc(id, user));
    FindByIdOfStored(users, |t.users|);
  }

  // ---------------------------------------------------------------------
  // deleteUserById

  function DeleteUserByIdEffect(t: Tables, id: string): (e: Effect<()>)
    ensures e.after == t.(users := e.after.users)
    ensures e.after != t ==> e.reply == Bare(NO_CONTENT_204)
  {
    if !IsValidMongoId(id) then Effect(Bare(NOT_FOUND_404), t)
    else
      var uid := ParseObjectId(id).value;
      var n := DeletedCount(t.users, ById(uid));
      Effect(if n == 0 then Bare(NOT_FOUND_404) else Bare(NO_CONTENT_204),
             t.(users := DeleteOne(t.users, ById(uid))))
  }

  method DeleteUserById(db: Db, id: string) returns (r: Reply<()>)
    modifies db`users
    ensures Effect(r, db.Snapshot()) == DeleteUserByIdEffect(old(db.Snapshot()), id)
  {
    if !IsValidMongoId(id) {
      return Bare(NOT_FOUND_404);
    }
    var deletedCount := UsersRepository.DeleteUserById(db, ParseObjectId(id).value);
    r := if deletedCount == 0 then Bare(NOT_FOUND_404) else Bare(NO_CONTENT_204);
  }

  /** A delete answers 204 exactly when the user exists and removes that
      user only; the user's tokens and comments are left in place. */
  lemma DeleteUserByIdRemoves(t: Tables, id: string)
    requires ValidTables(t)
    ensures var e := DeleteUserByIdEffect(t, id);
            && (e.reply == Bare(NO_CONTENT_204) || e.reply == Bare(NOT_FOUND_404))
            && (e.reply == Bare(NO_CONTENT_204) <==> IsValidMongoId(id) && ParseObjectId(id).value in Ids(t.users))
            && (e.reply == Bare(NOT_FOUND_404) ==> e.after == t)
            && e.after == t.(users := e.after.users)
            && ValidTables(e.after)
            && (forall d :: d in t.users && IdString(d.id) != id ==> d in e.after.users)
            && ReadUserById(e.after.users, id) == Bare(NOT_FOUND_404)
  {
    if IsValidMongoId(id) {
      var uid := ParseObjectId(id).value;
      DeleteByIdRemoves(t.users, uid);
      forall d | d in t.users && IdString(d.id) != id ensures d.id != uid { }
    }
  }
}
