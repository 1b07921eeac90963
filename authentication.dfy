/** The two gates in front of the protected routes: `adminBasicAuth`, the
    HTTP Basic scheme of section 2 of RFC 7617 with the one fixed pair
    admin/qwerty, and `bearerAuth`, the Bearer scheme of section 2.1 of
    RFC 6750 with a JWT whose `userId` must name a stored user.

    Both split the Authorization header at spaces and take the first two
    pieces as the scheme word and the credentials. The decoded Basic
    credentials are compared as bytes: UTF-8 decoding maps the ASCII bytes
    to themselves and every other byte to a non-ASCII character, and `:`
    never occurs inside a multi-byte sequence, so splitting the bytes at
    `:` and comparing them with "admin" and "qwerty" gives the same answer
    as decoding first. */
module Authentication {
  import opened Common
  import opened Js
  import opened ObjectIds
  import opened Base64
  import opened Mongo
  import opened Store
  import opened UtilityFunctions
  import opened UsersRepository

  /** What a gate does with the request: call `next` (with the locals it
      set), answer 401, or throw (Express answers 500). */
  datatype Gate<L> = Next(locals: L) | Unauthorized | Crashes

  /** `const [kind, token] = authHeader.split(" ")`: the token is undefined
      when the header has no space. */
  datatype SchemeAndToken = SchemeAndToken(kind: string, token: Option<string>)

  function HeaderParts(h: string): (r: SchemeAndToken)
    ensures r.token.None? <==> ' ' !in h
  {
    var parts := Split(h, ' ');
    JoinOfSplit(h, ' ');
    if |parts| < 2 then
      SchemeAndToken(parts[0], None)
    else
      SchemeAndToken(parts[0], Some(parts[1]))
  }

  // ---------------------------------------------------------------------
  // adminBasicAuth

  const Colon: Byte := 58
  /** "admin" and "qwerty" in ASCII. */
  const AdminName: seq<Byte> := [97, 100, 109, 105, 110]
  const AdminPassword: seq<Byte> := [113, 119, 101, 114, 116, 121]
  /** "admin:qwerty". */
  const AdminCredentials: seq<Byte> := AdminName + [Colon] + AdminPassword

  /** adminBasicAuth. A missing or empty header is refused; a header with
      no space makes `Buffer.from(undefined, "base64")` throw; otherwise the
      scheme word must be exactly "Basic" and the first two `:`-separated
      parts of the decoded token must be "admin" and "qwerty". */
  function AdminBasicAuth(header: Option<string>): (g: Gate<()>)
    ensures header.None? || header == Some("") ==> g == Unauthorized
  {
    match header
    case None => Unauthorized
    case Some(h) =>
      if h == "" then Unauthorized
      else
        var p := HeaderParts(h);
        match p.token
        case None => Crashes
        case Some(token) =>
          var fields := Split(Decode(token), Colon);
          if p.kind == "Basic" && fields[0] == AdminName && |fields| >= 2 && fields[1] == AdminPassword
          then Next(())
          else Unauthorized
  }

  /** The decoded credentials name the admin: they are "admin:qwerty",
      alone or followed by `:` and anything at all. */
  predicate NamesAdmin(b: seq<Byte>) {
    |b| >= |AdminCredentials| && b[..|AdminCredentials|] == AdminCredentials
    && (|b| == |AdminCredentials| || b[|AdminCredentials|] == Colon)
  }

  /** The split comparison the gate makes is the prefix reading above. */
  lemma SplitNamesAdmin(b: seq<Byte>)
    ensures (var fields := Split(b, Colon);
             fields[0] == AdminName && |fields| >= 2 && fields[1] == AdminPassword)
            <==> NamesAdmin(b)
  {
    var fields := Split(b, Colon);
    if fields[0] == AdminName && |fields| >= 2 && fields[1] == AdminPassword {
      SplitComparisonNamesAdmin(b);
    }
    if NamesAdmin(b) {
      NamesAdminSplit(b);
    }
  }

  lemma SplitComparisonNamesAdmin(b: seq<Byte>)
    requires var fields := Split(b, Colon);
             fields[0] == AdminName && |fields| >= 2 && fields[1] == AdminPassword
    ensures NamesAdmin(b)
  {
    var fields := Split(b, Colon);
    JoinOfSplit(b, Colon);
    var rest := JoinWith(fields[1..], Colon);
    assert b == AdminName + [Colon] + rest;
    var tail: seq<Byte> := if |fields| == 2 then [] else [Colon] + JoinWith(fields[2..], Colon);
    assert fields[1..][1..] == fields[2..];
    assert rest == AdminPassword + tail;
    assert b == AdminCredentials + tail;
    assert b[..|AdminCredentials|] == AdminCredentials;
  }

  lemma NamesAdminSplit(b: seq<Byte>)
    requires NamesAdmin(b)
    ensures var fields := Split(b, Colon);
            fields[0] == AdminName && |fields| >= 2 && fields[1] == AdminPassword
  {
    AdminPrefix(b);
    assert Colon !in AdminName;
    SplitAt(b, Colon, 5);
    PasswordField(b[6..]);
  }

  /** Credentials naming the admin start with the name, `:`, and the
      password, then end or go on with `:`. */
  lemma AdminPrefix(b: seq<Byte>)
    requires NamesAdmin(b)
    ensures b[..5] == AdminName && b[5] == Colon
    ensures |b[6..]| >= 6 && b[6..][..6] == AdminPassword && (|b[6..]| == 6 || b[6..][6] == Colon)
  {
    var head := b[..12];
    assert head == AdminCredentials;
    assert b[..5] == head[..5];
    assert b[6..][..6] == head[6..];
  }

  /** The first `:`-separated part of the password and what follows it is
      the password. */
  lemma PasswordField(c: seq<Byte>)
    requires |c| >= 6 && c[..6] == AdminPassword && (|c| == 6 || c[6] == Colon)
    ensures Split(c, Colon)[0] == AdminPassword
  {
    assert Colon !in AdminPassword;
    if |c| == 6 {
      assert c == c[..6];
      SplitWhole(c, Colon);
    } else {
      SplitAt(c, Colon, 6);
    }
  }

  /** The gate passes exactly when the header's scheme word is "Basic" and
      its token decodes to credentials naming the admin. */
  lemma AdminBasicAuthPasses(h: string)
    ensures AdminBasicAuth(Some(h)) == Next(()) <==>
              h != "" && HeaderParts(h).kind == "Basic" && HeaderParts(h).token.Some?
              && NamesAdmin(Decode(HeaderParts(h).token.value))
  {
    if HeaderParts(h).token.Some? {
      SplitNamesAdmin(Decode(HeaderParts(h).token.value));
    }
  }

  /** The text a client sends: the scheme word, a space, and the encoded
      credentials. */
  function BasicHeader(scheme: string, credentials: seq<Byte>): string {
    scheme + " " + Encode(credentials)
  }

  lemma HeaderPartsOfBasicHeader(scheme: string, credentials: seq<Byte>)
    requires ' ' !in scheme
    ensures HeaderParts(BasicHeader(scheme, credentials)) == SchemeAndToken(scheme, Some(Encode(credentials)))
  {
    var token := Encode(credentials);
    EncodeHasNoSpace(credentials);
    SplitOfJoin([scheme, token], ' ');
    assert JoinWith([scheme, token], ' ') == scheme + [' '] + JoinWith([token], ' ');
  }

  lemma EncodeHasNoSpace(b: seq<Byte>)
    ensures ' ' !in Encode(b)
  {
  }

  /** "admin:qwerty" is let in, and so is "admin:qwerty:" with anything
      after it, since only the first two parts are compared. */
  lemma AdminCredentialsPass(extra: seq<Byte>)
    requires extra == [] || extra[0] == Colon
    ensures AdminBasicAuth(Some(BasicHeader("Basic", AdminCredentials + extra))) == Next(())
  {
    var b := AdminCredentials + extra;
    HeaderPartsOfBasicHeader("Basic", b);
    DecodeEncode(b);
    assert b[..|AdminCredentials|] == AdminCredentials;
    if extra != [] {
      assert b[|AdminCredentials|] == extra[0];
    }
    AdminBasicAuthPasses(BasicHeader("Basic", b));
  }

  /** The scheme word is compared case-sensitively, and the password must
      be the whole second part. */
  lemma AdminBasicAuthRefusals()
    ensures AdminBasicAuth(Some(BasicHeader("basic", AdminCredentials))) == Unauthorized
    ensures AdminBasicAuth(Some(BasicHeader("Bearer", AdminCredentials))) == Unauthorized
    ensures AdminBasicAuth(Some(BasicHeader("Basic", AdminName + [Colon] + AdminPassword + [33]))) == Unauthorized
    ensures AdminBasicAuth(Some("Basic")) == Crashes
  {
    HeaderPartsOfBasicHeader("basic", AdminCredentials);
    HeaderPartsOfBasicHeader("Bearer", AdminCredentials);
    var b := AdminName + [Colon] + AdminPassword + [33];
    HeaderPartsOfBasicHeader("Basic", b);
    DecodeEncode(b);
    AdminBasicAuthPasses(BasicHeader("Basic", b));
    assert b[|AdminCredentials|] == 33;
    assert ' ' !in "Basic";
  }

  // ---------------------------------------------------------------------
  // bearerAuth

  /** What `res.locals.user` is set to. */
  datatype Locals = Locals(id: string, login: string, email: string)

  /** extractUserIdFromJWT. `verify` stands for `jwt.verify` with the
      server's secret: the payload's `userId` value when the signature and
      the expiry check out, None when it throws. A missing token throws, and
      so does an id the ObjectId constructor refuses; both give null. A
      payload without a usable `userId` makes a newly generated id, which
      names no stored user (Generated). */
  function ExtractUserId(token: Option<string>, verify: string -> Option<JsValue>): (r: IdFromValue)
    ensures token.None? ==> r == Throws
  {
    match token
    case None => Throws
    case Some(t) =>
      match verify(t)
      case None => Throws
      case Some(v) => ObjectIdOfValue(v)
  }

  /** `String(extractUserIdFromJWT(token))`, then `isValidMongoId` and
      `findViewUserById`: the stored user the token names, if any. */
  function ResolveUser(token: Option<string>, verify: string -> Option<JsValue>,
                       users: seq<Doc<User>>): (r: Option<Doc<User>>)
    ensures r.Some? ==> r.value in users
    ensures r.Some? ==> ExtractUserId(token, verify) == Parsed(r.value.id)
  {
    match ExtractUserId(token, verify)
    case Parsed(id) =>
      var text := IdString(id);
      IsValidMongoIdIff(text);
      ParseObjectIdOfIdString(id);
      if IsValidMongoId(text) then FindUserById(users, ParseObjectId(text).value)
      else None
    case _ => None
  }

  /** bearerAuth: a missing or empty header, a scheme word other than
      "Bearer", a token that does not verify and a user that is not stored
      all end in the same 401. */
  function BearerAuth(header: Option<string>, verify: string -> Option<JsValue>,
                      users: seq<Doc<User>>): (g: Gate<Locals>)
    ensures !g.Crashes?
    ensures header.None? || header == Some("") ==> g == Unauthorized
  {
    match header
    case None => Unauthorized
    case Some(h) =>
      if h == "" then Unauthorized
      else
        var p := HeaderParts(h);
        match ResolveUser(p.token, verify, users)
        case Some(u) =>
          var view := MapMongoToView(u);
          if p.kind == "Bearer" then Next(Locals(view.id, view.body.login, view.body.email)) else Unauthorized
        case None => Unauthorized
  }

  /** The gate calls `next` exactly when the scheme word is "Bearer" and the
      token resolves to a stored user, and then the locals are that user's
      id text, login and email, and nothing else. */
  lemma BearerAuthPasses(h: string, verify: string -> Option<JsValue>, users: seq<Doc<User>>)
    ensures BearerAuth(Some(h), verify, users).Next? <==>
              h != "" && HeaderParts(h).kind == "Bearer" && ResolveUser(HeaderParts(h).token, verify, users).Some?
    ensures BearerAuth(Some(h), verify, users).Next? ==>
              var u := ResolveUser(HeaderParts(h).token, verify, users).value;
              u in users
              && BearerAuth(Some(h), verify, users).locals == Locals(IdString(u.id), u.body.login, u.body.email)
              && ParseObjectId(BearerAuth(Some(h), verify, users).locals.id) == Some(u.id)
  {
    if BearerAuth(Some(h), verify, users).Next? {
      var u := ResolveUser(HeaderParts(h).token, verify, users).value;
      ParseObjectIdOfIdString(u.id);
    }
  }

  /** A token the server signed for a stored user, sent as
      "Bearer <token>", lets that user through. */
  lemma BearerAcceptsSignedToken(token: string, verify: string -> Option<JsValue>,
                                 users: seq<Doc<User>>, k: nat)
    requires k < |users| && DistinctIds(users)
    requires token != "" && ' ' !in token
    requires verify(token) == Some(Str(IdString(users[k].id)))
    ensures BearerAuth(Some("Bearer " + token), verify, users)
              == Next(Locals(IdString(users[k].id), users[k].body.login, users[k].body.email))
  {
    var id := users[k].id;
    var h := "Bearer " + token;
    SplitOfJoin(["Bearer", token], ' ');
    assert JoinWith(["Bearer", token], ' ') == "Bearer" + [' '] + JoinWith([token], ' ');
    assert h == JoinWith(["Bearer", token], ' ');
    assert HeaderParts(h) == SchemeAndToken("Bearer", Some(token));
    ParseObjectIdOfIdString(id);
    IsValidMongoIdIff(IdString(id));
    assert ExtractUserId(Some(token), verify) == Parsed(id);
    FindByIdOfStored(users, k);
  }
}
