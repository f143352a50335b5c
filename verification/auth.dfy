/**
  Request authentication: how `token_required` takes the token out of the
  `Authorization` header and which 401 it answers, and the demo login.
  Signing and checking JWTs is a library call, passed in as a function.
*/
module Auth {
  import opened Wrappers
  import opened Text
  import Json
  import Http

  const TokenFormatInvalid := "Token format invalid"
  const TokenMissing := "Token is missing"
  const TokenExpired := "Token has expired"
  const TokenInvalid := "Token is invalid"

  /**
    `auth_header.split(' ')[1]`: the text between the first and the second
    space (or the end). A header without a space has no second field, and the
    `IndexError` is reported as `None`. The first field is never looked at.
  */
  function ExtractToken(header: string): (r: Option<string>)
    ensures r.None? <==> ' ' !in header
    ensures r.Some? ==> |SplitOn(header, ' ')| >= 2 && r.value == SplitOn(header, ' ')[1]
    ensures r.Some? ==>
      var i := IndexOf(header, ' ');
      ' ' !in r.value && StartsWith(header[i + 1..], r.value)
      && (i + 1 + |r.value| == |header| || header[i + 1 + |r.value|] == ' ')
  {
    if ' ' !in header then None
    else
      var i := IndexOf(header, ' ');
      var rest := header[i + 1..];
      SplitAtFirst(header, ' ');
      var t := SplitOn(rest, ' ')[0];
      FirstPiece(rest, ' ');
      Some(t)
  }

  /** A string with a separator splits at its first one. */
  lemma SplitAtFirst(s: string, c: char)
    requires c in s
    ensures var i := IndexOf(s, c); |SplitOn(s, c)| >= 2 && SplitOn(s, c)[1] == SplitOn(s[i + 1..], c)[0]
  {
  }

  /** The first piece of a split is the text before the first separator, or all of it. */
  lemma FirstPiece(s: string, c: char)
    ensures var p := SplitOn(s, c)[0];
      c !in p && StartsWith(s, p) && (|p| == |s| || s[|p|] == c)
  {
    if c in s {
      var i := IndexOf(s, c);
      assert SplitOn(s, c)[0] == s[..i];
    }
  }

  /** The header the web client sends: `Bearer ${token}`. */
  function BearerHeader(token: string): string {
    "Bearer " + token
  }

  /** A token without spaces comes back out of the header the client builds. */
  lemma BearerRoundTrip(token: string)
    requires ' ' !in token
    ensures ExtractToken(BearerHeader(token)) == Some(token)
  {
    AnySchemeAccepted("Bearer", token);
  }

  /** The first word is not checked: any space-free scheme in front of the token does as well. */
  lemma AnySchemeAccepted(scheme: string, token: string)
    requires ' ' !in scheme && ' ' !in token
    ensures ExtractToken(scheme + " " + token) == Some(token)
  {
    SchemeThenRest(scheme, token);
    SplitOnWithout(token, ' ');
  }

  /** After a space-free first word and a space, the token is the first piece of the rest. */
  lemma SchemeThenRest(scheme: string, rest: string)
    requires ' ' !in scheme
    ensures ExtractToken(scheme + " " + rest) == Some(SplitOn(rest, ' ')[0])
  {
    var h := scheme + " " + rest;
    assert h[..|scheme|] == scheme;
    IndexOfAt(h, ' ', |scheme|);
    assert h[|scheme| + 1..] == rest;
  }

  /** The result of the JWT library's decode. */
  datatype Decoded = Valid(claims: Json.Object) | Expired | Invalid

  /** Whether the wrapped handler runs, with the token's claims, or the request is refused with 401. */
  datatype Gate = Admit(claims: Json.Object) | Refuse(message: string)

  /** `token_required` on the optional `Authorization` header. */
  function TokenRequired(header: Option<string>, decode: string -> Decoded): (g: Gate)
    ensures header.None? ==> g == Refuse(TokenMissing)
    ensures header.Some? ==> (g == Refuse(TokenFormatInvalid) <==> ' ' !in header.value)
    ensures header.Some? && ExtractToken(header.value) == Some("") ==> g == Refuse(TokenMissing)
    ensures g.Admit? <==>
      header.Some? && ExtractToken(header.value).Some? && ExtractToken(header.value).value != []
      && decode(ExtractToken(header.value).value).Valid?
    ensures g.Admit? ==> g.claims == decode(ExtractToken(header.value).value).claims
  {
    match header
    case None => Refuse(TokenMissing)
    case Some(h) =>
      match ExtractToken(h)
      case None => Refuse(TokenFormatInvalid)
      case Some(t) =>
        if t == [] then Refuse(TokenMissing)
        else match decode(t)
          case Valid(c) => Admit(c)
          case Expired => Refuse(TokenExpired)
          case Invalid => Refuse(TokenInvalid)
  }

  /**
    A first word followed by a space and nothing else (`Bearer `), or by two
    spaces before the token, is a missing token, whatever the first word is.
  */
  lemma EmptyTokenMissing(scheme: string, token: string, decode: string -> Decoded)
    requires ' ' !in scheme
    ensures TokenRequired(Some(scheme + " "), decode) == Refuse(TokenMissing)
    ensures TokenRequired(Some(scheme + "  " + token), decode) == Refuse(TokenMissing)
  {
    TrailingSpaceEmpty(scheme);
    DoubleSpaceEmpty(scheme, token);
  }

  /** A first word and a space alone leave an empty token. */
  lemma TrailingSpaceEmpty(scheme: string)
    requires ' ' !in scheme
    ensures ExtractToken(scheme + " ") == Some("")
  {
    SchemeThenRest(scheme, "");
    assert scheme + " " + "" == scheme + " ";
  }

  /** Two spaces after the first word leave an empty token between them. */
  lemma DoubleSpaceEmpty(scheme: string, token: string)
    requires ' ' !in scheme
    ensures ExtractToken(scheme + "  " + token) == Some("")
  {
    var rest := " " + token;
    LeadingSeparator(rest, ' ');
    SchemeThenRest(scheme, rest);
    TwoSpaces(scheme, token);
  }

  /** Regrouping two single spaces as one two-space literal. */
  lemma TwoSpaces(a: string, b: string)
    ensures a + " " + (" " + b) == a + "  " + b
  {
  }

  /** A string that starts with the separator splits into an empty first piece. */
  lemma LeadingSeparator(s: string, c: char)
    requires |s| > 0 && s[0] == c
    ensures SplitOn(s, c)[0] == []
  {
    FirstPiece(s, c);
  }

  /** A client that stores a space-free token gets past the header checks, and the decoder decides. */
  lemma ClientHeaderAdmitted(token: string, decode: string -> Decoded)
    requires token != [] && ' ' !in token
    ensures TokenRequired(Some(BearerHeader(token)), decode).Admit? <==> decode(token).Valid?
  {
    BearerRoundTrip(token);
  }

  const DemoUsername := "admin"
  const DemoPassword := "admin123"
  const DemoEmail := "admin@apru40.local"
  const DemoRole := "admin"

  const CredentialsRequired := "Username and password required"
  const InvalidCredentials := "Invalid credentials"

  /** What a successful login answers: the signed token and the demo user. */
  datatype LoginReply = LoginReply(token: string, username: string, email: string, role: string)

  /** `POST /auth/login`; `token` is what the JWT library signs for the demo user. */
  function Login(body: Option<Json.Object>, token: string): (a: Http.Outcome<LoginReply>)
    ensures (a.Failure? && a.code == 400) <==>
      Json.Blank(body) || !Json.Truthy(Json.Get(body.value, "username")) || !Json.Truthy(Json.Get(body.value, "password"))
    ensures a.Success? <==>
      body.Some? && Json.Get(body.value, "username") == Json.JStr(DemoUsername)
      && Json.Get(body.value, "password") == Json.JStr(DemoPassword)
    ensures a.Success? ==> a.code == 200 && a.value == LoginReply(token, DemoUsername, DemoEmail, DemoRole)
    ensures a.Failure? ==> a.code in {400, 401}
  {
    if Json.Blank(body) || !Json.Truthy(Json.Get(body.value, "username")) || !Json.Truthy(Json.Get(body.value, "password")) then
      Http.Failure(400, CredentialsRequired)
    else if body.value["username"] == Json.JStr(DemoUsername) && body.value["password"] == Json.JStr(DemoPassword) then
      Http.Success(200, LoginReply(token, DemoUsername, DemoEmail, DemoRole))
    else
      Http.Failure(401, InvalidCredentials)
  }
  /**
    A token issued by a successful login, sent back as the client sends it
    (`Bearer <token>`), reaches the decoder unchanged: the request is admitted
    exactly when the decoder accepts that token.
  */
  lemma LoginTokenAdmitted(body: Option<Json.Object>, token: string, decode: string -> Decoded)
    requires Login(body, token).Success? && token != [] && ' ' !in token
    ensures var t := Login(body, token).value.token;
      t == token
      && ExtractToken(BearerHeader(t)) == Some(token)
      && (TokenRequired(Some(BearerHeader(t)), decode).Admit? <==> decode(token).Valid?)
  {
    BearerRoundTrip(token);
    ClientHeaderAdmitted(token, decode);
  }

}
