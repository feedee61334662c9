/** Reading the bearer credential and the admin guard: `requireAuth` and `requireAdmin`
    of order-svc/src/jwt.js, and the `authRequired` middleware of the two services. The
    signature check itself (`jwt.verify`) is the parameter `verify`. */
module Auth {
  import opened Domain
  import opened Text

  /** Outcome of an authentication middleware: the request goes on with a principal,
      or is answered with an error. */
  datatype Auth = Authenticated(user: Principal) | Rejected(code: int, error: string)

  /** Outcome of a guard that only decides whether the request goes on. */
  datatype Gate = Continue | Stop(code: int, error: string)

  const BearerPrefix: string := "Bearer "

  /** jwt.js: the token is what follows "Bearer " when the header starts with exactly that. */
  function PrefixToken(header: string): (t: Option<string>)
    ensures t.Some? <==> StartsWith(header, BearerPrefix)
    ensures t.Some? ==> header == BearerPrefix + t.value
  {
    if StartsWith(header, BearerPrefix) then Some(header[|BearerPrefix|..]) else None
  }

  /** jwt.js `requireAuth`; a missing header is the empty string. */
  function RequireAuth(header: string, verify: string -> Option<Principal>): (a: Auth)
    ensures a == Rejected(401, "missing token") <==> !StartsWith(header, BearerPrefix) || header == BearerPrefix
    ensures a == Rejected(401, "invalid token") <==>
      StartsWith(header, BearerPrefix) && header != BearerPrefix && verify(header[7..]).None?
    ensures a.Authenticated? <==> StartsWith(header, BearerPrefix) && |header| > 7 && verify(header[7..]).Some?
    ensures a.Authenticated? ==> verify(header[7..]) == Some(a.user)
  {
    match PrefixToken(header)
    case None => Rejected(401, "missing token")
    case Some(token) =>
      if token == [] then Rejected(401, "missing token")
      else
        match verify(token)
        case None => Rejected(401, "invalid token")
        case Some(user) => Authenticated(user)
  }

  /** jwt.js `requireAdmin`, given what the previous middleware left in `req.user`. */
  function RequireAdmin(user: Option<Principal>): (g: Gate)
    ensures g == Continue <==> user.Some? && IsAdmin(user.value)
    ensures user.None? ==> g == Stop(401, "unauthorized")
    ensures user.Some? && !IsAdmin(user.value) ==> g == Stop(403, "forbidden")
  {
    match user
    case None => Stop(401, "unauthorized")
    case Some(u) => if !IsAdmin(u) then Stop(403, "forbidden") else Continue
  }

  /** Behind `requireAuth`, `requireAdmin` never answers 401: it lets admins through and
      answers every other authenticated caller with 403. */
  lemma AdminAfterAuth(header: string, verify: string -> Option<Principal>)
    requires RequireAuth(header, verify).Authenticated?
    ensures var u := RequireAuth(header, verify).user;
      RequireAdmin(Some(u)) == if IsAdmin(u) then Continue else Stop(403, "forbidden")
  {
  }

  /** `authRequired` of the services: the header is split at every space, the first field
      must be exactly "Bearer" and the second must be non-empty. Further fields are ignored. */
  function FieldsToken(header: string): (t: Option<string>)
    ensures t.Some? ==> t.value != [] && ' ' !in t.value
  {
    var fields := Split(header, ' ');
    if fields[0] == "Bearer" && |fields| >= 2 && fields[1] != [] then Some(fields[1]) else None
  }

  /** The services' parser accepts exactly the headers made of "Bearer ", a token free of
      spaces, and then nothing or a space followed by anything. */
  lemma FieldsTokenExactly(header: string, t: string)
    ensures FieldsToken(header) == Some(t) <==>
      && t != [] && ' ' !in t
      && StartsWith(header, BearerPrefix + t)
      && (|header| == 7 + |t| || header[7 + |t|] == ' ')
  {
    if FieldsToken(header) == Some(t) {
      FieldsTokenShape(header, t);
    }
    if && t != [] && ' ' !in t
       && StartsWith(header, BearerPrefix + t)
       && (|header| == 7 + |t| || header[7 + |t|] == ' ')
    {
      ShapeGivesFieldsToken(header, t);
    }
  }

  /** What the parser accepts has that shape. */
  lemma FieldsTokenShape(header: string, t: string)
    requires FieldsToken(header) == Some(t)
    ensures t != [] && ' ' !in t
    ensures StartsWith(header, BearerPrefix + t)
    ensures |header| == 7 + |t| || header[7 + |t|] == ' '
  {
    var scheme: string := "Bearer";
    var f := Split(header, ' ');
    assert f[0] == scheme && |f| >= 2 && f[1] == t;
    JoinSplit(header, ' ');
    assert header == scheme + [' '] + Join(f[1..], ' ');
    var rest := f[1..];
    assert rest[0] == t;
    if |rest| == 1 {
      assert Join(rest, ' ') == t;
      assert header == BearerPrefix + t;
    } else {
      var more := Join(rest[1..], ' ');
      assert Join(rest, ' ') == t + [' '] + more;
      assert header == BearerPrefix + t + ([' '] + more);
      assert header[7 + |t|] == ' ';
    }
    assert header[..7 + |t|] == BearerPrefix + t;
  }

  /** A header of that shape is accepted with that token. */
  lemma ShapeGivesFieldsToken(header: string, t: string)
    requires t != [] && ' ' !in t
    requires StartsWith(header, BearerPrefix + t)
    requires |header| == 7 + |t| || header[7 + |t|] == ' '
    ensures FieldsToken(header) == Some(t)
  {
    var scheme: string := "Bearer";
    assert ' ' !in scheme;
    var rest := header[7..];
    assert header == scheme + [' '] + rest;
    SplitAfterField(scheme, ' ', rest);
    if |header| == 7 + |t| {
      assert rest == t;
      SplitWhole(t, ' ');
    } else {
      assert rest == t + [' '] + header[8 + |t|..];
      SplitAfterField(t, ' ', header[8 + |t|..]);
    }
  }

  /** `authRequired`: both a malformed header and a failed verification answer 401 "unauthorized". */
  function ServiceAuth(header: string, verify: string -> Option<Principal>): (a: Auth)
    ensures a.Rejected? ==> a == Rejected(401, "unauthorized")
    ensures a.Authenticated? <==> FieldsToken(header).Some? && verify(FieldsToken(header).value).Some?
    ensures a.Authenticated? ==> verify(FieldsToken(header).value) == Some(a.user)
  {
    match FieldsToken(header)
    case None => Rejected(401, "unauthorized")
    case Some(token) =>
      match verify(token)
      case None => Rejected(401, "unauthorized")
      case Some(user) => Authenticated(user)
  }

  /** On a well-formed header, "Bearer " followed by one token without spaces, the two
      parsers extract the same token, so the two middlewares admit the same principal. */
  lemma ParsersAgree(t: string, verify: string -> Option<Principal>)
    requires t != [] && ' ' !in t
    ensures PrefixToken(BearerPrefix + t) == Some(t) == FieldsToken(BearerPrefix + t)
    ensures RequireAuth(BearerPrefix + t, verify).Authenticated? <==> ServiceAuth(BearerPrefix + t, verify).Authenticated?
  {
    FieldsTokenExactly(BearerPrefix + t, t);
    assert (BearerPrefix + t)[7..] == t;
  }

  /** Where they differ: a header with a second space keeps it in jwt.js's token but cuts the
      token short in the services. */
  lemma ParsersDifferOnSecondSpace()
    ensures PrefixToken("Bearer a b") == Some("a b") && FieldsToken("Bearer a b") == Some("a")
  {
    var h: string := "Bearer a b";
    assert h[7..] == "a b";
    assert StartsWith(h, BearerPrefix + "a") && h[8] == ' ';
    FieldsTokenExactly(h, "a");
  }

  /** A doubled space yields a token only in jwt.js. */
  lemma ParsersDifferOnDoubleSpace()
    ensures PrefixToken("Bearer  x") == Some(" x") && FieldsToken("Bearer  x") == None
  {
    var h: string := "Bearer  x";
    assert h[7..] == " x";
    assert h == "Bearer" + [' '] + ([' '] + "x");
    SplitAfterField("Bearer", ' ', [' '] + "x");
    assert Split([' '] + "x", ' ')[0] == [];
  }
}
