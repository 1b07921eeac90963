/** The auth service: login by e-mail or login, registration with a
    confirmation code sent by mail, confirmation by that code, and
    resending a new code. The users and tokens tables form the
    registration state machine: an account is created unconfirmed with a
    token that expires one minute later, and a confirmation consumes the
    token and confirms the account. */
module AuthService {
  import opened Common
  import opened Js
  import opened ObjectIds
  import opened Mongo
  import opened Store
  import opened Joi
  import opened Patterns
  import opened UtilityFunctions
  import opened UsersRepository
  import opened AuthRepository
  import opened UsersService

  // ---------------------------------------------------------------------
  // passwordSchema and the bare e-mail and login rules

  /** passwordSchema. The e-mail and login rules the service validates
      with are userSchema's `email` and `login` rules. */
  const PasswordRule: StringRule :=
    StringRule(Some(6), Some(20), None,
      Messages("password is required", "password must be a string", "password must not be an empty string",
               "password is shorter than 6 characters", "password is longer than 20 characters", ""))

  /** The entry transformJoiError makes of a bare validation's details
      under `field`, when the validation failed. */
  function ErrorsOf(c: Checked, field: string): Option<seq<FieldError>> {
    if c.Valid? then None else Some(TransformJoiError(BareDetails(c.messages), field))
  }

  /** A failed bare validation reported under a non-empty field gives one
      entry, with that field and the first message. */
  lemma ErrorsOfOne(c: Checked, field: string)
    requires c.Invalid? && |c.messages| >= 1 && field != ""
    ensures ErrorsOf(c, field) == Some([FieldError(c.messages[0], field)])
  {
    TransformJoiErrorWithFieldName(BareDetails(c.messages), field);
  }

  /** No text passes both the e-mail rule and the login rule: an address
      has an `@`, which the login alphabet lacks. */
  lemma EmailAndLoginDisjoint(v: JsValue)
    ensures !(CheckString(EmailRule, v).Valid? && CheckString(LoginRule, v).Valid?)
  {
    CheckedMatches(EmailRule, v);
    CheckedMatches(LoginRule, v);
    if CheckString(EmailRule, v).Valid? {
      EmailIsNotLogin(Trim(v.s));
    }
  }

  // ---------------------------------------------------------------------
  // login

  /** LoginTokenModel. */
  datatype LoginToken = LoginToken(accessToken: string)

  /** The answer to a found or missing account: `sign` stands for
      createAccessJWT; an empty token leaves the body out. */
  function LoginAnswer(user: Option<Doc<User>>, sign: ObjectId -> string): (r: Reply<LoginToken>)
    ensures user.None? <==> r == Bare(UNAUTHORIZED_401)
    ensures user.Some? ==> (r == Bare(OK_200) || r.Data?) && (r.Data? <==> sign(user.value.id) != "")
    ensures r.Data? ==> r.value.accessToken == sign(user.value.id)
  {
    match user
    case None => Bare(UNAUTHORIZED_401)
    case Some(u) =>
      var token := sign(u.id);
      if token == "" then Bare(OK_200) else Data(OK_200, LoginToken(token))
  }

  /** login: `loginOrEmail` is tried as an e-mail first, then as a login;
      the password is checked by both. A 400 answers exactly the bodies
      that fail the password rule or both identifier rules. */
  function Login(users: seq<Doc<User>>, hash: Hasher, sign: ObjectId -> string, body: Body): (r: Reply<LoginToken>)
    ensures r.Errors? <==> !(CheckString(PasswordRule, Lookup(body, "password")).Valid?
                             && (CheckString(EmailRule, Lookup(body, "loginOrEmail")).Valid?
                                 || CheckString(LoginRule, Lookup(body, "loginOrEmail")).Valid?))
    ensures r.Errors? ==> r.code == BAD_REQUEST_400
    ensures !r.Errors? ==> r == Bare(UNAUTHORIZED_401) || r == Bare(OK_200) || (r.Data? && r.code == OK_200)
  {
    var value := Lookup(body, "loginOrEmail");
    LoginChecked(users, hash, sign, CheckString(EmailRule, value), CheckString(LoginRule, value),
                 CheckString(PasswordRule, Lookup(body, "password")))
  }

  /** The branches of login once the three bare validations are done. */
  function LoginChecked(users: seq<Doc<User>>, hash: Hasher, sign: ObjectId -> string,
                        emailCheck: Checked, loginCheck: Checked, passwordCheck: Checked): (r: Reply<LoginToken>)
    ensures r.Errors? <==> !(passwordCheck.Valid? && (emailCheck.Valid? || loginCheck.Valid?))
    ensures r.Errors? ==> r.code == BAD_REQUEST_400
    ensures !r.Errors? ==> r == Bare(UNAUTHORIZED_401) || r == Bare(OK_200) || (r.Data? && r.code == OK_200)
  {
    if emailCheck.Valid? && passwordCheck.Valid? then
      LoginAnswer(EmailAuth(users, hash, emailCheck.value, passwordCheck.value), sign)
    else if loginCheck.Valid? && passwordCheck.Valid? then
      LoginAnswer(LoginAuth(users, hash, loginCheck.value, passwordCheck.value), sign)
    else Errors(BAD_REQUEST_400, LoginErrors(emailCheck, loginCheck, passwordCheck))
  }

  /** The joined errors of the three bare validations. */
  function LoginErrors(emailCheck: Checked, loginCheck: Checked, passwordCheck: Checked): seq<FieldError> {
    JoinErrorMessages([ErrorsOf(emailCheck, "loginOrEmail"), ErrorsOf(loginCheck, "loginOrEmail"),
                       ErrorsOf(passwordCheck, "password")])
  }

  /** One entry per failed validation, under its field. */
  lemma LoginErrorsShape(emailCheck: Checked, loginCheck: Checked, passwordCheck: Checked)
    requires emailCheck.Invalid? ==> |emailCheck.messages| >= 1
    requires loginCheck.Invalid? ==> |loginCheck.messages| >= 1
    requires passwordCheck.Invalid? ==> |passwordCheck.messages| >= 1
    ensures var errs := LoginErrors(emailCheck, loginCheck, passwordCheck);
            && |errs| == (if emailCheck.Valid? then 0 else 1) + (if loginCheck.Valid? then 0 else 1)
                         + (if passwordCheck.Valid? then 0 else 1)
            && (forall e :: e in errs ==> e.field == "loginOrEmail" || e.field == "password")
            && (passwordCheck.Valid? <==> forall e :: e in errs ==> e.field != "password")
  {
    var e1 := EntriesOf(emailCheck, "loginOrEmail");
    var e2 := EntriesOf(loginCheck, "loginOrEmail");
    var e3 := EntriesOf(passwordCheck, "password");
    JoinThree(ErrorsOf(emailCheck, "loginOrEmail"), ErrorsOf(loginCheck, "loginOrEmail"),
              ErrorsOf(passwordCheck, "password"));
    JoinedFields(e1, e2, e3);
  }

  /** Entries under "loginOrEmail" followed by entries under "password". */
  lemma JoinedFields(e1: seq<FieldError>, e2: seq<FieldError>, e3: seq<FieldError>)
    requires forall e :: e in e1 ==> e.field == "loginOrEmail"
    requires forall e :: e in e2 ==> e.field == "loginOrEmail"
    requires forall e :: e in e3 ==> e.field == "password"
    ensures forall e :: e in e1 + e2 + e3 ==> e.field == "loginOrEmail" || e.field == "password"
    ensures e3 == [] <==> forall e :: e in e1 + e2 + e3 ==> e.field != "password"
  {
    var errs := e1 + e2 + e3;
    assert forall e :: e in errs <==> e in e1 || e in e2 || e in e3;
    if e3 != [] {
      assert e3[0] in errs;
    }
  }

  /** The entries of one validation: none when it passed, else its first
      message under the field. */
  lemma EntriesOf(c: Checked, field: string) returns (es: seq<FieldError>)
    requires c.Invalid? ==> |c.messages| >= 1
    requires field != ""
    ensures es == Entries(ErrorsOf(c, field))
    ensures es == if c.Valid? then [] else [FieldError(c.messages[0], field)]
    ensures forall e :: e in es ==> e.field == field
  {
    if c.Invalid? { ErrorsOfOne(c, field); }
    es := Entries(ErrorsOf(c, field));
  }

  /** A login is refused with 400 exactly when the password is refused or
      `loginOrEmail` passes neither rule, with the errors of the three
      validations (shaped as LoginErrorsShape states). */
  lemma LoginRefuses(users: seq<Doc<User>>, hash: Hasher, sign: ObjectId -> string, body: Body)
    ensures var r := Login(users, hash, sign, body);
            var value := Lookup(body, "loginOrEmail");
            var emailCheck := CheckString(EmailRule, value);
            var loginCheck := CheckString(LoginRule, value);
            var passwordCheck := CheckString(PasswordRule, Lookup(body, "password"));
            && (r.Errors? <==> passwordCheck.Invalid? || (emailCheck.Invalid? && loginCheck.Invalid?))
            && (r.Errors? ==> r == Errors(BAD_REQUEST_400, LoginErrors(emailCheck, loginCheck, passwordCheck)))
  {
  }

  /** A login whose input passes is answered 401 exactly when the first
      account with that trimmed e-mail (or, when it is no e-mail, login)
      is missing or the trimmed password's hash with its salt is not its
      hash; otherwise 200, with that account's signed id when the token
      is not empty. */
  lemma LoginAuthenticates(users: seq<Doc<User>>, hash: Hasher, sign: ObjectId -> string, body: Body)
    requires CheckString(PasswordRule, Lookup(body, "password")).Valid?
    requires CheckString(EmailRule, Lookup(body, "loginOrEmail")).Valid?
             || CheckString(LoginRule, Lookup(body, "loginOrEmail")).Valid?
    ensures var r := Login(users, hash, sign, body);
            var value := Trim(Lookup(body, "loginOrEmail").s);
            var password := Trim(Lookup(body, "password").s);
            var p := if CheckString(EmailRule, Lookup(body, "loginOrEmail")).Valid? then WithEmail(value)
                     else WithLogin(value);
            var found := FindOne(users, p);
            && (r.Data? || r == Bare(OK_200) || r == Bare(UNAUTHORIZED_401))
            && (r == Bare(UNAUTHORIZED_401) <==>
                  found.None? || hash(password, found.value.body.salt) != found.value.body.hash)
            && (r != Bare(UNAUTHORIZED_401) ==>
                  found.Some? && found.value.body.hash == hash(password, found.value.body.salt)
                  && (r.Data? <==> sign(found.value.id) != "")
                  && (r.Data? ==> r.value.accessToken == sign(found.value.id)))
  {
  }

  /** The entries of one joined result. */
  function Entries(o: Option<seq<FieldError>>): seq<FieldError> {
    match o
    case None => []
    case Some(errs) => errs
  }

  lemma JoinThree(a: Option<seq<FieldError>>, b: Option<seq<FieldError>>, c: Option<seq<FieldError>>)
    ensures JoinErrorMessages([a, b, c]) == Entries(a) + Entries(b) + Entries(c)
  {
    assert JoinErrorMessages([c]) == Entries(c) + JoinErrorMessages([]);
    assert [b, c][1..] == [c];
    assert JoinErrorMessages([b, c]) == Entries(b) + JoinErrorMessages([c]);
    assert [a, b, c][1..] == [b, c];
    assert JoinErrorMessages([a, b, c]) == Entries(a) + JoinErrorMessages([b, c]);
  }

  // ---------------------------------------------------------------------
  // createConfirmationToken

  /** How long a confirmation code stays valid: one minute, in ms. */
  const CodeLifetime: int := 60000

  /** createConfirmationToken's record: `random` stands for
      `crypto.randomBytes(16)`, and the code is its hex text. */
  function NewToken(userId: ObjectId, random: seq<Byte>, now: Instant): (t: Token)
    ensures t.userId == userId && t.expirationDate == now.ms + CodeLifetime
    ensures |random| == 16 ==> |t.token| == 32 && AllLowerHex(t.token)
  {
    Token(userId, Hex(random), now.ms + CodeLifetime)
  }

  /** createConfirmationToken: appends the record and answers its code. */
  method CreateConfirmationToken(db: Db, userId: ObjectId, random: seq<Byte>, now: Instant) returns (code: string)
    modifies db`tokens
    ensures db.tokens == old(db.tokens) + [NewToken(userId, random, now)]
    ensures code == NewToken(userId, random, now).token
  {
    var token := NewToken(userId, random, now);
    InsertConfirmationToken(db, token);
    code := token.token;
  }

  /** What a registration step leaves: the answer, the tables, and the
      letters handed to the mail transport. */
  datatype Mailing = Mailing(effect: Effect<()>, letters: seq<Letter>)

  /** Every token belongs to a stored account. */
  predicate TokensOwned(t: Tables) {
    forall k :: 0 <= k < |t.tokens| ==> t.tokens[k].userId in Ids(t.users)
  }

  /** The tokens that confirm one account. */
  function TokensOf(tokens: seq<Token>, userId: ObjectId): (r: seq<Token>)
    ensures |r| <= |tokens|
    ensures forall x :: x in r <==> x in tokens && x.userId == userId
  {
    if tokens == [] then []
    else (if tokens[0].userId == userId then [tokens[0]] else []) + TokensOf(tokens[1..], userId)
  }

  /** An account no token names has none. */
  lemma {:induction false} TokensOfNone(tokens: seq<Token>, userId: ObjectId)
    requires forall k :: 0 <= k < |tokens| ==> tokens[k].userId != userId
    ensures TokensOf(tokens, userId) == []
  {
    if tokens != [] {
      TokensOfNone(tokens[1..], userId);
    }
  }

  lemma {:induction false} TokensOfAppend(a: seq<Token>, b: seq<Token>, userId: ObjectId)
    ensures TokensOf(a + b, userId) == TokensOf(a, userId) + TokensOf(b, userId)
  {
    if a != [] {
      TokensOfAppend(a[1..], b, userId);
      TokensOfFront(a, b, userId);
    } else {
      assert a + b == b;
    }
  }

  /** The first token of a non-empty front list is judged first. */
  lemma TokensOfFront(a: seq<Token>, b: seq<Token>, userId: ObjectId)
    requires a != []
    ensures var h := if a[0].userId == userId then [a[0]] else [];
            TokensOf(a + b, userId) == h + TokensOf(a[1..] + b, userId)
  {
    assert (a + b)[0] == a[0] && (a + b)[1..] == a[1..] + b;
  }

  // ---------------------------------------------------------------------
  // register

  /** The reply of a non-created user, without the body register never
      sends: errors are kept, a failed insertion stays a failure. */
  function Unviewed(r: Reply<View<UserView>>): Reply<()> {
    match r
    case Errors(code, errs) => Errors(code, errs)
    case _ => Unhandled
  }

  /** register after validation: the uniqueness checks and the insertion
      as in createUser, then a confirmation token and a letter with its
      code; the answer is 204 without a body. */
  function RegisterUser(t: Tables, regex: RegexTest, input: UserInput, now: Instant, salt: string, hash: Hasher,
                        id: ObjectId, random: seq<Byte>): Mailing {
    var stored := StoreUniqueUser(t, regex, input, now, salt, hash, id);
    if !stored.reply.Data? then Mailing(Effect(Unviewed(stored.reply), stored.after), [])
    else
      var token := NewToken(id, random, now);
      Mailing(Effect(Bare(NO_CONTENT_204), stored.after.(tokens := stored.after.tokens + [token])),
              [Letter(input.email, token.token)])
  }

  /** register: userSchema first. */
  function RegisterEffect(t: Tables, regex: RegexTest, body: Body, now: Instant, salt: string, hash: Hasher,
                          id: ObjectId, random: seq<Byte>): (m: Mailing)
    ensures m.effect.after == t.(users := m.effect.after.users, tokens := m.effect.after.tokens)
    ensures m.effect.after != t || m.letters != [] ==> m.effect.reply == Bare(NO_CONTENT_204)
  {
    var v := ValidateObject(UserSchema, body);
    if v.details != [] then Mailing(Effect(Errors(BAD_REQUEST_400, TransformJoiError(v.details, "")), t), [])
    else RegisterUser(t, regex, UserInputOf(v), now, salt, hash, id, random)
  }

  method RegisterInput(db: Db, mailer: Mailer, regex: RegexTest, input: UserInput, now: Instant, salt: string,
                       hash: Hasher, id: ObjectId, random: seq<Byte>) returns (r: Reply<()>)
    modifies db`users, db`tokens, mailer
    ensures var m := RegisterUser(old(db.Snapshot()), regex, input, now, salt, hash, id, random);
            Effect(r, db.Snapshot()) == m.effect && mailer.sent == old(mailer.sent) + m.letters
  {
    var stored := StoreUser(db, regex, input, now, salt, hash, id);
    if !stored.Data? {
      return Unviewed(stored);
    }
    var code := CreateConfirmationToken(db, id, random, now);
    mailer.Send(Letter(input.email, code));
    r := Bare(NO_CONTENT_204);
  }

  method Register(db: Db, mailer: Mailer, regex: RegexTest, body: Body, now: Instant, salt: string, hash: Hasher,
                  id: ObjectId, random: seq<Byte>) returns (r: Reply<()>)
    modifies db`users, db`tokens, mailer
    ensures var m := RegisterEffect(old(db.Snapshot()), regex, body, now, salt, hash, id, random);
            Effect(r, db.Snapshot()) == m.effect && mailer.sent == old(mailer.sent) + m.letters
  {
    var v := ValidateObject(UserSchema, body);
    if v.details != [] {
      return Errors(BAD_REQUEST_400, TransformJoiError(v.details, ""));
    }
    r := RegisterInput(db, mailer, regex, UserInputOf(v), now, salt, hash, id, random);
  }

  /** A body that fails userSchema is answered 400, with at most one entry
      per field, and writes and sends nothing; a valid one is registered
      with its trimmed e-mail, login and password. */
  lemma RegisterValidates(t: Tables, regex: RegexTest, body: Body, now: Instant, salt: string, hash: Hasher,
                          id: ObjectId, random: seq<Byte>)
    ensures var m := RegisterEffect(t, regex, body, now, salt, hash, id, random);
            !ValidUserInput(body) ==>
              m.effect.after == t && m.letters == [] && m.effect.reply.Errors?
              && m.effect.reply.code == BAD_REQUEST_400 && m.effect.reply.errorsMessages != []
              && DistinctFields(m.effect.reply.errorsMessages)
    ensures ValidUserInput(body) ==>
              RegisterEffect(t, regex, body, now, salt, hash, id, random)
              == RegisterUser(t, regex, TrimmedUserInput(body), now, salt, hash, id, random)
  {
    UserSchemaAccepts(body);
    if ValidUserInput(body) {
      UserSchemaValue(body);
    } else {
      UserSchemaErrors(body);
    }
  }

  /** An e-mail or login already taken is answered 400 with one entry, on
      "email" when the e-mail is taken, else on "login"; nothing is written
      or sent. */
  lemma RegisterUserRefuses(t: Tables, regex: RegexTest, input: UserInput, now: Instant, salt: string,
                            hash: Hasher, id: ObjectId, random: seq<Byte>)
    requires forall s :: regex("", s)
    ensures var m := RegisterUser(t, regex, input, now, salt, hash, id, random);
            && ((exists d :: d in t.users && regex(input.email, d.body.email)) ==>
                  m == Mailing(Effect(Errors(BAD_REQUEST_400, [FieldError("email should be unique", "email")]), t), []))
            && ((forall d :: d in t.users ==> !regex(input.email, d.body.email))
                && (exists d :: d in t.users && regex(input.login, d.body.login)) ==>
                  m == Mailing(Effect(Errors(BAD_REQUEST_400, [FieldError("login should be unique", "login")]), t), []))
  {
    StoreUniqueUserRefuses(t, regex, input, now, salt, hash, id);
  }

  /** A successful registration stores the account unconfirmed, appends
      exactly one token for it, expiring one minute from now, sends one
      letter with that code to the e-mail, and answers 204. */
  lemma RegisterUserStores(t: Tables, regex: RegexTest, input: UserInput, now: Instant, salt: string,
                           hash: Hasher, id: ObjectId, random: seq<Byte>)
    requires ValidTables(t) && id !in Ids(t.users)
    requires forall s :: regex("", s)
    requires forall d :: d in t.users ==> !regex(input.email, d.body.email) && !regex(input.login, d.body.login)
    ensures var m := RegisterUser(t, regex, input, now, salt, hash, id, random);
            var token := NewToken(id, random, now);
            && m.effect.reply == Bare(NO_CONTENT_204)
            && m.effect.after == t.(users := t.users + [Doc(id, NewUser(input, salt, hash, now.iso))],
                                    tokens := t.tokens + [token])
            && !m.effect.after.users[|t.users|].body.isConfirmed
            && m.letters == [Letter(input.email, token.token)]
            && ValidTables(m.effect.after)
  {
    StoreUniqueUserStores(t, regex, input, now, salt, hash, id);
  }

  /** Storing a new account together with a token for it keeps every
      token owned, and that token is the account's only one. */
  lemma NewAccountOwnsToken(t: Tables, d: Doc<User>, token: Token)
    requires DistinctIds(t.users) && TokensOwned(t)
    requires d.id !in Ids(t.users) && token.userId == d.id
    ensures var after := t.(users := t.users + [d], tokens := t.tokens + [token]);
            TokensOwned(after) && TokensOf(after.tokens, d.id) == [token]
  {
    var after := t.(users := t.users + [d], tokens := t.tokens + [token]);
    InsertOneKeepsDistinct(t.users, d.id, d.body);
    TokensOfAppend(t.tokens, [token], d.id);
    TokensOfNone(t.tokens, d.id);
    assert TokensOf([token], d.id) == [token] + TokensOf([], d.id);
    forall k | 0 <= k < |after.tokens| ensures after.tokens[k].userId in Ids(after.users) {
      if k < |t.tokens| {
        assert after.tokens[k] == t.tokens[k];
      }
    }
  }

  /** When every token belonged to a stored account, a successful
      registration keeps it so, and the new account has exactly one token:
      the one just made. */
  lemma RegisterUserOwnsToken(t: Tables, regex: RegexTest, input: UserInput, now: Instant, salt: string,
                              hash: Hasher, id: ObjectId, random: seq<Byte>)
    requires ValidTables(t) && id !in Ids(t.users) && TokensOwned(t)
    requires forall s :: regex("", s)
    requires forall d :: d in t.users ==> !regex(input.email, d.body.email) && !regex(input.login, d.body.login)
    ensures var after := RegisterUser(t, regex, input, now, salt, hash, id, random).effect.after;
            TokensOwned(after) && TokensOf(after.tokens, id) == [NewToken(id, random, now)]
  {
    RegisterUserStores(t, regex, input, now, salt, hash, id, random);
    NewAccountOwnsToken(t, Doc(id, NewUser(input, salt, hash, now.iso)), NewToken(id, random, now));
  }

  // ---------------------------------------------------------------------
  // confirm

  function CodeError(message: string): Reply<()> {
    Errors(BAD_REQUEST_400, [FieldError(message, "code")])
  }

  const NoCodeMessage: string := "the confirmation code is either incorrrect or had already been applied"
  const ExpiredMessage: string := "the confirmation code is expired"
  const ConfirmedMessage: string := "the account had already been confirmed"

  /** confirm: `now` is the clock and `query` the server's reading of an
      operator document. The body's `code` reaches the filter unchecked; a
      rejected filter and a token whose user is gone make the promise
      reject. The delete runs the same filter as the search. */
  function ConfirmEffect(t: Tables, code: JsValue, now: Instant, query: QueryParser): (e: Effect<()>)
    ensures e.after == t.(users := e.after.users, tokens := e.after.tokens)
    ensures e.after != t ==> e.reply == Bare(NO_CONTENT_204)
  {
    match FindTokenInfo(t.tokens, code, query)
    case QueryRejected => Effect(Unhandled, t)
    case NoToken => Effect(CodeError(NoCodeMessage), t)
    case TokenFound(token) =>
      if now.ms > token.expirationDate then Effect(CodeError(ExpiredMessage), t)
      else
        match FindUserById(t.users, token.userId)
        case None => Effect(Unhandled, t)
        case Some(u) =>
          if u.body.isConfirmed then Effect(CodeError(ConfirmedMessage), t)
          else
            var confirmed := Doc(u.id, u.body.(isConfirmed := true));
            Effect(Bare(NO_CONTENT_204),
                   t.(users := UpdateOne(t.users, u.id, SetUser(confirmed.body)).docs,
                      tokens := DeleteOne(t.tokens, CodeFilter(code, query).value)))
  }

  method Confirm(db: Db, code: JsValue, now: Instant, query: QueryParser) returns (r: Reply<()>)
    modifies db`users, db`tokens
    ensures Effect(r, db.Snapshot()) == ConfirmEffect(old(db.Snapshot()), code, now, query)
  {
    var search := FindTokenInfo(db.tokens, code, query);
    if search.QueryRejected? {
      return Unhandled;
    }
    if search.NoToken? {
      return CodeError(NoCodeMessage);
    }
    var token := search.token;
    if now.ms > token.expirationDate {
      return CodeError(ExpiredMessage);
    }
    var user := FindUserById(db.users, token.userId);
    if user.None? {
      return Unhandled;
    }
    var u := user.value;
    if u.body.isConfirmed {
      return CodeError(ConfirmedMessage);
    }
    var _, _ := UpdateUser(db, Doc(u.id, u.body.(isConfirmed := true)));
    DeleteTokenInfo(db, CodeFilter(code, query).value);
    r := Bare(NO_CONTENT_204);
  }

  /** The outcomes of a confirmation, each decided by the first token the
      code's filter matches: a rejected filter, none, expired (strictly
      after its date), its account missing, its account confirmed, or
      success. Only success writes. */
  lemma ConfirmOutcomes(t: Tables, code: JsValue, now: Instant, query: QueryParser)
    ensures var e := ConfirmEffect(t, code, now, query);
            var search := FindTokenInfo(t.tokens, code, query);
            && (e.reply == CodeError(NoCodeMessage) <==> search.NoToken?)
            && (e.reply == CodeError(ExpiredMessage) <==> search.TokenFound? && now.ms > search.token.expirationDate)
            && (e.reply.Unhandled? <==>
                  search.QueryRejected?
                  || (search.TokenFound? && now.ms <= search.token.expirationDate
                      && search.token.userId !in Ids(t.users)))
            && (e.reply == CodeError(ConfirmedMessage) <==>
                  search.TokenFound? && now.ms <= search.token.expirationDate
                  && FindUserById(t.users, search.token.userId).Some?
                  && FindUserById(t.users, search.token.userId).value.body.isConfirmed)
            && (e.reply == Bare(NO_CONTENT_204) <==>
                  search.TokenFound? && now.ms <= search.token.expirationDate
                  && FindUserById(t.users, search.token.userId).Some?
                  && !FindUserById(t.users, search.token.userId).value.body.isConfirmed)
            && (e.reply != Bare(NO_CONTENT_204) ==> e.after == t)
  {
  }

  /** A successful confirmation sets `isConfirmed` of the token's account
      and of no other, and removes that token record and no other. */
  lemma ConfirmSucceeds(t: Tables, code: JsValue, now: Instant, query: QueryParser)
    requires ValidTables(t)
    requires ConfirmEffect(t, code, now, query).reply == Bare(NO_CONTENT_204)
    ensures var e := ConfirmEffect(t, code, now, query);
            var token := FindTokenInfo(t.tokens, code, query).token;
            && e.after == t.(users := e.after.users, tokens := e.after.tokens)
            && ValidTables(e.after)
            && |e.after.users| == |t.users|
            && (forall k :: 0 <= k < |t.users| ==>
                  e.after.users[k] == if t.users[k].id == token.userId
                                      then Doc(token.userId, t.users[k].body.(isConfirmed := true))
                                      else t.users[k])
            && exists i :: 0 <= i < |t.tokens| && t.tokens[i] == token
                           && (forall j :: 0 <= j < i ==> !CodeFilter(code, query).value(t.tokens[j]))
                           && e.after.tokens == t.tokens[..i] + t.tokens[i + 1..]
  {
    var token := FindTokenInfo(t.tokens, code, query).token;
    var u := FindUserById(t.users, token.userId).value;
    UpdateUserReplaces(t.users, Doc(u.id, u.body.(isConfirmed := true)));
    forall k | 0 <= k < |t.users| && t.users[k].id == token.userId ensures t.users[k] == u {
      var j :| 0 <= j < |t.users| && t.users[j] == u;
    }
    var i := FindIndex(t.tokens, CodeFilter(code, query).value).value;
    assert t.tokens[i] == token;
  }

  /** A code confirms at most once: once a confirmation succeeded, the same
      code is refused as unknown, provided its filter matched no other
      token (for a string code: no other token carried it). */
  lemma ConfirmTwiceRefused(t: Tables, code: JsValue, now: Instant, later: Instant, query: QueryParser)
    requires ValidTables(t)
    requires ConfirmEffect(t, code, now, query).reply == Bare(NO_CONTENT_204)
    requires forall i, j :: 0 <= i < j < |t.tokens| && CodeFilter(code, query).value(t.tokens[i])
                            ==> !CodeFilter(code, query).value(t.tokens[j])
    ensures ConfirmEffect(ConfirmEffect(t, code, now, query).after, code, later, query).reply == CodeError(NoCodeMessage)
  {
    ConfirmSucceeds(t, code, now, query);
    var f := CodeFilter(code, query).value;
    var after := ConfirmEffect(t, code, now, query).after;
    var i :| 0 <= i < |t.tokens| && t.tokens[i] == FindTokenInfo(t.tokens, code, query).token
             && after.tokens == t.tokens[..i] + t.tokens[i + 1..];
    RemovedMatchGone(t.tokens, i, f);
  }

  /** When only token i passes the filter, taking it out leaves none that
      does. */
  lemma RemovedMatchGone(tokens: seq<Token>, i: nat, f: Token -> bool)
    requires i < |tokens|
    requires forall a, b :: 0 <= a < b < |tokens| && f(tokens[a]) ==> !f(tokens[b])
    requires f(tokens[i])
    ensures var r := tokens[..i] + tokens[i + 1..];
            forall k :: 0 <= k < |r| ==> !f(r[k])
  {
    RemoveAtIndex(tokens, i);
  }

  /** The body `{"code": {"$ne": ""}}`: an operator document in place of
      a code. */
  const NotEmptyCode: JsValue := Obj(map["$ne" := Str("")])

  /** As written, confirm trusts the type of `code`: with `$ne` read as
      "not equal", the operator code confirms the account of the first
      token, unexpired and with a non-empty code, without knowing that
      code. */
  lemma OperatorCodeConfirms(t: Tables, now: Instant, query: QueryParser)
    requires query(map["$ne" := Str("")]).Some?
    requires forall s :: query(map["$ne" := Str("")]).value(s) <==> s != ""
    requires |t.tokens| > 0 && t.tokens[0].token != "" && now.ms <= t.tokens[0].expirationDate
    requires FindUserById(t.users, t.tokens[0].userId).Some?
    requires !FindUserById(t.users, t.tokens[0].userId).value.body.isConfirmed
    ensures FindTokenInfo(t.tokens, NotEmptyCode, query) == TokenFound(t.tokens[0])
    ensures ConfirmEffect(t, NotEmptyCode, now, query).reply == Bare(NO_CONTENT_204)
  {
    var m := map["$ne" := Str("")];
    assert "$ne" in m && "$ne"[0] == '$';
    assert IsOperatorDocument(m);
    assert CodeFilter(NotEmptyCode, query).value(t.tokens[0]);
    assert FindIndex(t.tokens, CodeFilter(NotEmptyCode, query).value) == Some(0);
  }

  /** The evidently intended confirm: a `code` that is not a string is
      refused like an unknown code, so only a stored code confirms. */
  function ConfirmStringCode(t: Tables, code: JsValue, now: Instant, query: QueryParser): Effect<()> {
    if code.Str? then ConfirmEffect(t, code, now, query) else Effect(CodeError(NoCodeMessage), t)
  }

  /** What the intended confirm promises: the server's operator reading
      plays no part; it never rejects the filter; it refuses exactly the
      non-strings and the codes no token carries; and it succeeds only
      with the code of a stored, unexpired token. */
  lemma ConfirmStringCodeNeedsCode(t: Tables, code: JsValue, now: Instant, query: QueryParser, other: QueryParser)
    ensures ConfirmStringCode(t, code, now, query) == ConfirmStringCode(t, code, now, other)
    ensures var e := ConfirmStringCode(t, code, now, query);
            && (e.reply == CodeError(NoCodeMessage) <==>
                  !code.Str? || forall k :: 0 <= k < |t.tokens| ==> t.tokens[k].token != code.s)
            && (e.reply == Bare(NO_CONTENT_204) ==>
                  code.Str? && exists k :: 0 <= k < |t.tokens| && t.tokens[k].token == code.s
                                         && now.ms <= t.tokens[k].expirationDate)
            && (e.reply != Bare(NO_CONTENT_204) ==> e.after == t)
  {
    ConfirmOutcomes(t, code, now, query);
    if code.Str? {
      var search := FindTokenInfo(t.tokens, code, query);
      if search.TokenFound? {
        var k :| 0 <= k < |t.tokens| && t.tokens[k] == search.token;
      }
    }
  }

  // ---------------------------------------------------------------------
  // resend

  const NoUserMessage: string := "no user with that email address"
  const AlreadyConfirmedMessage: string := "the user is already confirmed"

  function EmailError(message: string): Reply<()> {
    Errors(BAD_REQUEST_400, [FieldError(message, "email")])
  }

  /** resend: the bare e-mail is validated, its errors reported under the
      empty path; the account is found by the trimmed e-mail. */
  function ResendEffect(t: Tables, email: JsValue, now: Instant, random: seq<Byte>): (m: Mailing)
    ensures m.effect.after == t.(tokens := m.effect.after.tokens)
    ensures m.effect.after != t || m.letters != [] ==> m.effect.reply == Bare(NO_CONTENT_204)
  {
    match CheckString(EmailRule, email)
    case Invalid(msgs) => Mailing(Effect(Errors(BAD_REQUEST_400, TransformJoiError(BareDetails(msgs), "")), t), [])
    case Valid(address) => ResendToAddress(t, address, now, random)
  }

  /** The part of resend after the e-mail passed: an unknown or confirmed
      account is refused, else a new code is stored and mailed. */
  function ResendToAddress(t: Tables, address: string, now: Instant, random: seq<Byte>): Mailing {
    match FindUserByEmail(t.users, address)
    case None => Mailing(Effect(EmailError(NoUserMessage), t), [])
    case Some(u) =>
      if u.body.isConfirmed then Mailing(Effect(EmailError(AlreadyConfirmedMessage), t), [])
      else
        var token := NewToken(u.id, random, now);
        Mailing(Effect(Bare(NO_CONTENT_204), t.(tokens := t.tokens + [token])), [Letter(address, token.token)])
  }

  method Resend(db: Db, mailer: Mailer, email: JsValue, now: Instant, random: seq<Byte>) returns (r: Reply<()>)
    modifies db`tokens, mailer
    ensures var m := ResendEffect(old(db.Snapshot()), email, now, random);
            Effect(r, db.Snapshot()) == m.effect && mailer.sent == old(mailer.sent) + m.letters
  {
    var checked := CheckString(EmailRule, email);
    if checked.Invalid? {
      return Errors(BAD_REQUEST_400, TransformJoiError(BareDetails(checked.messages), ""));
    }
    r := ResendTo(db, mailer, checked.value, now, random);
  }

  method ResendTo(db: Db, mailer: Mailer, address: string, now: Instant, random: seq<Byte>) returns (r: Reply<()>)
    modifies db`tokens, mailer
    ensures var m := ResendToAddress(old(db.Snapshot()), address, now, random);
            Effect(r, db.Snapshot()) == m.effect && mailer.sent == old(mailer.sent) + m.letters
  {
    var user := FindUserByEmail(db.users, address);
    if user.None? {
      return EmailError(NoUserMessage);
    }
    if user.value.body.isConfirmed {
      return EmailError(AlreadyConfirmedMessage);
    }
    var code := CreateConfirmationToken(db, user.value.id, random, now);
    mailer.Send(Letter(address, code));
    r := Bare(NO_CONTENT_204);
  }

  /** The outcomes of a resend: an invalid e-mail is 400 with one entry
      under the empty field; an address no account has, or a confirmed
      account's, is 400 on "email"; otherwise exactly one token is
      appended for that account, expiring one minute from now, all earlier
      tokens are kept, and one letter carries its code. Users never
      change. */
  lemma ResendOutcomes(t: Tables, email: JsValue, now: Instant, random: seq<Byte>)
    ensures var m := ResendEffect(t, email, now, random);
            && m.effect.after.users == t.users
            && (!Accepts(EmailRule, email) ==>
                  m.effect.after == t && m.letters == [] && m.effect.reply.Errors?
                  && m.effect.reply.code == BAD_REQUEST_400
                  && |m.effect.reply.errorsMessages| == 1 && m.effect.reply.errorsMessages[0].field == "")
            && (Accepts(EmailRule, email) ==>
                  var address := Trim(email.s);
                  var user := FindUserByEmail(t.users, address);
                  && (user.None? ==> m == Mailing(Effect(EmailError(NoUserMessage), t), []))
                  && (user.Some? && user.value.body.isConfirmed ==>
                        m == Mailing(Effect(EmailError(AlreadyConfirmedMessage), t), []))
                  && (user.Some? && !user.value.body.isConfirmed ==>
                        var token := NewToken(user.value.id, random, now);
                        && m.effect.reply == Bare(NO_CONTENT_204)
                        && m.effect.after == t.(tokens := t.tokens + [token])
                        && user.value.body.email == address
                        && m.letters == [Letter(address, token.token)]))
  {
    var checked := CheckString(EmailRule, email);
    if checked.Invalid? {
      var errs := MapDetails(BareDetails(checked.messages), "");
      forall i | 0 <= i < |errs| ensures errs[i].field == "" { }
      OneFieldKeepsFirst(errs, "", |errs|);
    }
  }

  /** A resend keeps every token owned, when they were. */
  lemma ResendKeepsTokensOwned(t: Tables, email: JsValue, now: Instant, random: seq<Byte>)
    requires TokensOwned(t)
    ensures TokensOwned(ResendEffect(t, email, now, random).effect.after)
  {
    var checked := CheckString(EmailRule, email);
    if checked.Valid? {
      var user := FindUserByEmail(t.users, checked.value);
      if user.Some? && !user.value.body.isConfirmed {
        AppendOwnedToken(t, user.value, NewToken(user.value.id, random, now));
      }
    }
  }

  /** Appending a token for a stored account keeps every token owned. */
  lemma AppendOwnedToken(t: Tables, u: Doc<User>, token: Token)
    requires TokensOwned(t) && u in t.users && token.userId == u.id
    ensures TokensOwned(t.(tokens := t.tokens + [token]))
  {
    var j :| 0 <= j < |t.users| && t.users[j] == u;
    assert u.id in Ids(t.users);
    var r := t.tokens + [token];
    forall k | 0 <= k < |r| ensures r[k].userId in Ids(t.users) {
      if k < |t.tokens| { assert r[k] == t.tokens[k]; }
    }
  }
}
