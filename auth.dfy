/**
  The credentials sign-in of the admin area: `authorize` decides whether an e-mail,
  password and optional one-time code open a session, and the `jwt` and `session`
  callbacks carry the user's id from the sign-in into the token and from the token into
  the session object the pages see.
  The user collection, bcrypt and the TOTP library are parameters: `findUser` is the
  lookup by e-mail, `passwordMatches(password, hash)` is bcrypt.compare, and
  `verifyTotp(secret, token)` stands for constructing the TOTP object from the secret and
  awaiting its `verify(token)`: Valid when the awaited result is truthy, Invalid when it is
  falsy, Threw when the call throws inside the try.
*/
module Auth {
  import opened Wrappers
  import opened JsString
  import opened JsValue

  /** The submitted form; a field the form did not send is None. */
  datatype Credentials = Credentials(email: Option<string>, password: Option<string>, mfaCode: Option<string>)

  /** The user document fields authorize reads. */
  datatype StoredUser = StoredUser(
    id: string, email: string, name: string, passwordHash: string,
    mfaEnabled: Value, mfaSecret: Value)

  /** The object authorize returns on success. */
  datatype Identity = Identity(id: string, email: string, name: string)

  /** The awaited result of the one-time-code check: truthy, falsy, or an exception caught by the try. */
  datatype TotpOutcome = Valid | Invalid | Threw

  /** A form field that is neither missing nor the empty string. */
  predicate Given(field: Option<string>) {
    field.Some? && field.value != ""
  }

  /** `user.mfaEnabled && user.mfaSecret` */
  predicate MfaApplies(user: StoredUser) {
    Truthy(user.mfaEnabled) && Truthy(user.mfaSecret)
  }

  /** /^[0-9]{6}$/: exactly six ASCII digits and nothing else. */
  predicate SixDigits(t: string)
    ensures SixDigits(t) ==> forall i :: 0 <= i < |t| ==> !IsSpace(t[i])
  {
    |t| == 6 && forall i :: 0 <= i < 6 ==> IsDigit(t[i])
  }

  /** The code that reaches the TOTP check: String(mfaCode ?? '').trim() */
  function CodeToken(code: Option<string>): (r: string)
    ensures code.None? ==> r == ""
    ensures |r| <= |code.GetOr("")|
    ensures r != [] ==> !IsSpace(r[0]) && !IsSpace(r[|r| - 1])
  {
    Trim(code.GetOr(""))
  }

  /** The second factor for a user with MFA: the guards of the MFA branch, in their order. */
  predicate SecondFactorOk(user: StoredUser, code: Option<string>, verifyTotp: (Value, string) -> TotpOutcome) {
    && Given(code) && code.value != "undefined"
    && SixDigits(CodeToken(code))
    && verifyTotp(user.mfaSecret, CodeToken(code)) == Valid
  }

  /**
    authorize: null (None) unless the e-mail and password are given, a user with that
    e-mail exists, the password matches its hash and, when MFA applies to the user, the
    code is well formed and accepted; then the user's id, e-mail and name.
  */
  function Authorize(
    credentials: Option<Credentials>,
    findUser: string -> Option<StoredUser>,
    passwordMatches: (string, string) -> bool,
    verifyTotp: (Value, string) -> TotpOutcome): (r: Option<Identity>)
    ensures r.Some? ==> credentials.Some? && Given(credentials.value.email) && Given(credentials.value.password)
    ensures r.Some? ==>
      var user := findUser(credentials.value.email.value);
      && user.Some?
      && passwordMatches(credentials.value.password.value, user.value.passwordHash)
      && (MfaApplies(user.value) ==> SecondFactorOk(user.value, credentials.value.mfaCode, verifyTotp))
      && r.value == Identity(user.value.id, user.value.email, user.value.name)
  {
    if credentials.None? || !Given(credentials.value.email) || !Given(credentials.value.password) then None
    else
      var c := credentials.value;
      match findUser(c.email.value)
      case None => None
      case Some(user) =>
        if !passwordMatches(c.password.value, user.passwordHash) then None
        else if MfaApplies(user) && (!Given(c.mfaCode) || c.mfaCode.value == "undefined") then None
        else if MfaApplies(user) && !SixDigits(CodeToken(c.mfaCode)) then None
        else if MfaApplies(user) && verifyTotp(user.mfaSecret, CodeToken(c.mfaCode)) != Valid then None
        else Some(Identity(user.id, user.email, user.name))
  }

  // ---------------------------------------------------------------------------
  // Properties of authorize

  /** The converse of the contract: when every guard passes, the identity is returned. */
  lemma AuthorizeComplete(
    c: Credentials,
    findUser: string -> Option<StoredUser>,
    passwordMatches: (string, string) -> bool,
    verifyTotp: (Value, string) -> TotpOutcome)
    requires Given(c.email) && Given(c.password)
    requires findUser(c.email.value).Some?
    requires var user := findUser(c.email.value).value;
      passwordMatches(c.password.value, user.passwordHash)
      && (MfaApplies(user) ==> SecondFactorOk(user, c.mfaCode, verifyTotp))
    ensures var user := findUser(c.email.value).value;
      Authorize(Some(c), findUser, passwordMatches, verifyTotp) == Some(Identity(user.id, user.email, user.name))
  {
  }

  /** A missing e-mail or password is refused whatever the database, bcrypt and TOTP would say. */
  lemma MissingCredentials(
    c: Credentials,
    findUser: string -> Option<StoredUser>,
    passwordMatches: (string, string) -> bool,
    verifyTotp: (Value, string) -> TotpOutcome)
    requires !Given(c.email) || !Given(c.password)
    ensures Authorize(Some(c), findUser, passwordMatches, verifyTotp) == None
    ensures Authorize(None, findUser, passwordMatches, verifyTotp) == None
  {
  }

  /** With MFA on, the literal code "undefined" (what a form sends for an unset field) is refused. */
  lemma UndefinedCodeRefused(
    c: Credentials,
    findUser: string -> Option<StoredUser>,
    passwordMatches: (string, string) -> bool,
    verifyTotp: (Value, string) -> TotpOutcome)
    requires Given(c.email) && findUser(c.email.value).Some? && MfaApplies(findUser(c.email.value).value)
    requires c.mfaCode == Some("undefined") || !Given(c.mfaCode)
    ensures Authorize(Some(c), findUser, passwordMatches, verifyTotp) == None
  {
  }

  /**
    A code that is not six digits once trimmed is refused before the TOTP check: the outcome
    is the same whichever verifier is plugged in, and it is a refusal.
  */
  lemma MalformedCodeNotVerified(
    c: Credentials,
    findUser: string -> Option<StoredUser>,
    passwordMatches: (string, string) -> bool,
    verify1: (Value, string) -> TotpOutcome,
    verify2: (Value, string) -> TotpOutcome)
    requires Given(c.email) && findUser(c.email.value).Some? && MfaApplies(findUser(c.email.value).value)
    requires !SixDigits(CodeToken(c.mfaCode))
    ensures Authorize(Some(c), findUser, passwordMatches, verify1) == None
    ensures Authorize(Some(c), findUser, passwordMatches, verify2) == None
  {
  }

  /** With MFA on, a code the verifier rejects, or one on which it throws, is refused. */
  lemma TotpFailureRefused(
    c: Credentials,
    findUser: string -> Option<StoredUser>,
    passwordMatches: (string, string) -> bool,
    verifyTotp: (Value, string) -> TotpOutcome)
    requires Given(c.email) && findUser(c.email.value).Some? && MfaApplies(findUser(c.email.value).value)
    requires verifyTotp(findUser(c.email.value).value.mfaSecret, CodeToken(c.mfaCode)) != Valid
    ensures Authorize(Some(c), findUser, passwordMatches, verifyTotp) == None
  {
  }

  /** For a user without MFA the code is never looked at: any two codes give the same outcome. */
  lemma CodeIgnoredWithoutMfa(
    c: Credentials,
    code: Option<string>,
    findUser: string -> Option<StoredUser>,
    passwordMatches: (string, string) -> bool,
    verifyTotp: (Value, string) -> TotpOutcome)
    requires Given(c.email) ==> findUser(c.email.value).Some? ==> !MfaApplies(findUser(c.email.value).value)
    ensures Authorize(Some(c), findUser, passwordMatches, verifyTotp)
         == Authorize(Some(c.(mfaCode := code)), findUser, passwordMatches, verifyTotp)
  {
  }

  /** White space around a well-formed code is ignored: the verifier sees the six digits alone. */
  lemma PaddedCode(pad1: string, digits: string, pad2: string)
    requires AllSpace(pad1) && AllSpace(pad2) && SixDigits(digits)
    ensures CodeToken(Some(pad1 + digits + pad2)) == digits
  {
    TrimPadded(pad1, digits, pad2);
  }

  // ---------------------------------------------------------------------------
  // The session callbacks

  /** The signed token; `id` is the custom claim the jwt callback adds. */
  class Token {
    var sub: Option<string>
    var id: Option<string>

    constructor (sub: Option<string>)
      ensures this.sub == sub && id.None?
    {
      this.sub := sub;
      id := None;
    }
  }

  /** The user part of the session object handed to pages. */
  class SessionUser {
    var name: Option<string>
    var email: Option<string>
    var id: Option<string>

    constructor (name: Option<string>, email: Option<string>)
      ensures this.name == name && this.email == email && id.None?
    {
      this.name := name;
      this.email := email;
      id := None;
    }
  }

  class Session {
    var user: SessionUser?
    var expires: string

    constructor (user: SessionUser?, expires: string)
      ensures this.user == user && this.expires == expires
    {
      this.user := user;
      this.expires := expires;
    }
  }

  /** The jwt callback: on sign-in (a user is passed) the user's id becomes the token's id claim. */
  method Jwt(token: Token, user: Option<Identity>) returns (result: Token)
    modifies token
    ensures result == token
    ensures token.id == (if user.Some? then Some(user.value.id) else old(token.id))
    ensures token.sub == old(token.sub)
  {
    if user.Some? {
      token.id := Some(user.value.id);
    }
    result := token;
  }

  /** The session callback: the token's id claim is copied into session.user when there is one. */
  method SessionCallback(session: Session, token: Token) returns (result: Session)
    modifies session.user
    ensures result == session
    ensures session.user != null ==> session.user.id == token.id
    ensures session.user != null ==> session.user.name == old(session.user.name) && session.user.email == old(session.user.email)
    ensures token.id == old(token.id) && token.sub == old(token.sub)
  {
    if session.user != null {
      session.user.id := token.id;
    }
    result := session;
  }
}
