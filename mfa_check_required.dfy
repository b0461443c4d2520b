/**
  The POST handler of /api/auth/mfa/check-required: given the e-mail typed on the login
  page it answers whether that account needs a second factor. The e-mail is trimmed and
  lower-cased, its regular-expression metacharacters are escaped, and the user collection
  is searched with the anchored, case-insensitive pattern built from it.
  The database is a parameter: `db` says what the search for a pattern returns.
*/
module MfaCheckRequired {
  import opened Wrappers
  import opened JsString
  import opened JsValue

  /** The two fields of a user document the handler reads. */
  datatype UserDoc = UserDoc(mfaEnabled: Value, mfaSecret: Value)

  /** The filter sent to findOne: `{ email: { $regex: pattern, $options: 'i' } }`. */
  datatype Query = Query(pattern: string, caseInsensitive: bool)

  /** What connecting and searching gives: a document, none, or an exception. */
  datatype Lookup = Found(user: UserDoc) | NoMatch | DbError

  /**
    The request body as req.json() and the destructuring `{ email }` see it: a body that
    is not JSON, the JSON null (destructuring it throws), or any other JSON value, whose
    `email` property may be undefined.
  */
  datatype Body = Unparsable | NullBody | Fields(email: Value)

  datatype Response = MfaStatus(mfaRequired: bool) | Error(status: int, message: string)

  /** The response, and the query sent to the database if one was. */
  datatype Outcome = Outcome(response: Response, query: Option<Query>)

  const EmailRequired := Error(400, "Email is required")
  const CheckFailed := Error(500, "Failed to check MFA status")

  /** The characters the handler escapes: . * + ? ^ $ { } ( ) | [ ] and the backslash. */
  predicate IsMeta(c: char) {
    || c == '.' || c == '*' || c == '+' || c == '?' || c == '^' || c == '$'
    || c == '{' || c == '}' || c == '(' || c == ')' || c == '|' || c == '[' || c == ']'
    || c == '\\'
  }

  function MetaCount(s: string): nat {
    if s == [] then 0 else (if IsMeta(s[0]) then 1 else 0) + MetaCount(s[1..])
  }

  /** String#replace(/[.*+?^${}()|[\]\\]/g, '\\$&'): a backslash before each metacharacter. */
  function Escape(s: string): (r: string)
    ensures |s| <= |r| <= 2 * |s|
  {
    if s == [] then []
    else if IsMeta(s[0]) then ['\\', s[0]] + Escape(s[1..])
    else [s[0]] + Escape(s[1..])
  }

  /** String(email).trim().toLowerCase() */
  function Normalize(email: Value): (r: string)
    ensures |r| <= |ToText(email)|
    ensures r == [] <==> AllSpace(ToText(email))
    ensures forall i :: 0 <= i < |r| ==> !('A' <= r[i] <= 'Z')
  {
    var t := Trim(ToText(email));
    NoUpper(t);
    ToLowerAscii(t)
  }

  lemma NoUpper(s: string)
    ensures forall i :: 0 <= i < |s| ==> !('A' <= ToLowerAscii(s)[i] <= 'Z')
  {
    forall i | 0 <= i < |s| ensures !('A' <= ToLowerAscii(s)[i] <= 'Z') {
      assert ToLowerAscii(s)[i] == LowerChar(s[i]);
    }
  }

  /** The anchored, case-insensitive pattern searched for. */
  function EmailQuery(normalized: string): Query {
    Query("^" + Escape(normalized) + "$", true)
  }

  /** The handler; any exception it raises ends in the 500 response of its catch block. */
  function CheckRequired(body: Body, db: Query -> Lookup): (o: Outcome)
    ensures o.query.Some? <==> body.Fields? && Truthy(body.email)
    ensures o.response.Error? ==> o.response in {EmailRequired, CheckFailed}
  {
    match body
    case Unparsable => Outcome(CheckFailed, None)
    case NullBody => Outcome(CheckFailed, None)
    case Fields(email) =>
      if !Truthy(email) then Outcome(EmailRequired, None)
      else
        var q := EmailQuery(Normalize(email));
        Outcome(Answer(db(q)), Some(q))
  }

  /** The response once the search has run: 500 if it threw, otherwise the MFA status. */
  function Answer(found: Lookup): (r: Response)
    ensures r.Error? <==> found.DbError?
    ensures r.Error? ==> r == CheckFailed
    ensures r == MfaStatus(true) ==> found.Found?
  {
    match found
    case DbError => CheckFailed
    case NoMatch => MfaStatus(false)
    case Found(user) => MfaStatus(Truthy(user.mfaEnabled) && Truthy(user.mfaSecret))
  }

  // ---------------------------------------------------------------------------
  // The escaped pattern read back as a regular expression

  /** A pattern made only of literal tokens: ordinary characters and escaped metacharacters. */
  predicate Literal(p: string) {
    if p == [] then true
    else if p[0] == '\\' then |p| >= 2 && IsMeta(p[1]) && Literal(p[2..])
    else !IsMeta(p[0]) && Literal(p[1..])
  }

  /** The text a literal pattern stands for: each escaping backslash removed. */
  function Unescape(p: string): string
    requires Literal(p)
  {
    if p == [] then []
    else if p[0] == '\\' then [p[1]] + Unescape(p[2..])
    else [p[0]] + Unescape(p[1..])
  }

  /** Equal up to the case of ASCII letters. */
  predicate CaseEq(a: string, b: string) {
    if a == [] || b == [] then a == [] && b == []
    else LowerChar(a[0]) == LowerChar(b[0]) && CaseEq(a[1..], b[1..])
  }

  /** Whether a literal pattern with the 'i' option, anchored at both ends, matches all of `e`. */
  predicate MatchesAll(p: string, e: string)
    requires Literal(p)
  {
    if p == [] then e == []
    else if p[0] == '\\' then e != [] && LowerChar(p[1]) == LowerChar(e[0]) && MatchesAll(p[2..], e[1..])
    else e != [] && LowerChar(p[0]) == LowerChar(e[0]) && MatchesAll(p[1..], e[1..])
  }

  // ---------------------------------------------------------------------------
  // Properties

  /** Escaping adds exactly one character per metacharacter. */
  lemma {:induction false} EscapeLength(s: string)
    ensures |Escape(s)| == |s| + MetaCount(s)
  {
    if s != [] {
      EscapeLength(s[1..]);
    }
  }

  /** Characters other than metacharacters are copied in order. */
  lemma {:induction false} EscapePlain(s: string)
    requires forall i :: 0 <= i < |s| ==> !IsMeta(s[i])
    ensures Escape(s) == s
  {
    if s != [] {
      EscapePlain(s[1..]);
      assert s == [s[0]] + s[1..];
    }
  }

  /** The escaped e-mail contains no unescaped metacharacter. */
  lemma {:induction false} EscapeLiteral(s: string)
    ensures Literal(Escape(s))
  {
    if s != [] {
      EscapeLiteral(s[1..]);
      var r := Escape(s);
      if IsMeta(s[0]) {
        assert r[2..] == Escape(s[1..]);
      } else {
        assert r[1..] == Escape(s[1..]);
      }
    }
  }

  /** Removing the escaping backslashes gives back the normalised e-mail. */
  lemma {:induction false} UnescapeEscape(s: string)
    ensures Literal(Escape(s)) && Unescape(Escape(s)) == s
  {
    EscapeLiteral(s);
    if s != [] {
      UnescapeEscape(s[1..]);
      var r := Escape(s);
      if IsMeta(s[0]) {
        assert r[2..] == Escape(s[1..]);
      } else {
        assert r[1..] == Escape(s[1..]);
      }
      assert s == [s[0]] + s[1..];
    }
  }

  /** And every literal pattern is the escaping of the text it stands for. */
  lemma {:induction false} EscapeUnescape(p: string)
    requires Literal(p)
    ensures Escape(Unescape(p)) == p
    decreases |p|
  {
    if p != [] {
      var u := Unescape(p);
      if p[0] == '\\' {
        EscapeUnescape(p[2..]);
        assert u[1..] == Unescape(p[2..]);
        assert p == [p[0], p[1]] + p[2..];
      } else {
        EscapeUnescape(p[1..]);
        assert u[1..] == Unescape(p[1..]);
        assert p == [p[0]] + p[1..];
      }
    }
  }

  /**
    The search finds exactly the stored e-mails equal to the normalised one up to the case
    of ASCII letters: no character of the typed e-mail acts as regular-expression syntax.
    MongoDB's `$` without the m option also matches before one final "\n"; a stored e-mail
    never ends in one, since the user schema trims e-mails before saving them.
  */
  lemma {:induction false} EscapedMatches(n: string, e: string)
    ensures Literal(Escape(n))
    ensures MatchesAll(Escape(n), e) <==> CaseEq(n, e)
  {
    EscapeLiteral(n);
    if n != [] {
      EscapedMatches(n[1..], if e == [] then [] else e[1..]);
      var p := Escape(n);
      if IsMeta(n[0]) {
        assert p[2..] == Escape(n[1..]);
      } else {
        assert p[1..] == Escape(n[1..]);
      }
    }
  }

  /** The pattern is the escaped normalised e-mail between ^ and $, searched case-insensitively. */
  lemma QueryShape(email: Value, db: Query -> Lookup)
    requires Truthy(email)
    ensures CheckRequired(Fields(email), db).query == Some(EmailQuery(Normalize(email)))
  {
  }

  /** Between its anchors the pattern reads back as the normalised e-mail. */
  lemma PatternShape(n: string)
    ensures var q := EmailQuery(n);
      q.caseInsensitive && |q.pattern| >= 2 && q.pattern[0] == '^' && q.pattern[|q.pattern| - 1] == '$'
      && Literal(q.pattern[1..|q.pattern| - 1]) && Unescape(q.pattern[1..|q.pattern| - 1]) == n
  {
    var p := "^" + Escape(n) + "$";
    assert p[1..|p| - 1] == Escape(n);
    UnescapeEscape(n);
  }

  /** A falsy e-mail gets the 400 response, whatever the database holds, and no query is made. */
  lemma MissingEmail(body: Body, db: Query -> Lookup)
    requires body.Fields? && !Truthy(body.email)
    ensures CheckRequired(body, db) == Outcome(EmailRequired, None)
  {
  }

  /**
    The answer is "MFA required" exactly when the body carries a truthy e-mail and the search
    returns a user whose mfaEnabled and mfaSecret are both truthy.
  */
  lemma MfaRequiredIff(body: Body, db: Query -> Lookup)
    ensures CheckRequired(body, db).response == MfaStatus(true) <==>
      body.Fields? && Truthy(body.email) && db(EmailQuery(Normalize(body.email))).Found?
      && Truthy(db(EmailQuery(Normalize(body.email))).user.mfaEnabled)
      && Truthy(db(EmailQuery(Normalize(body.email))).user.mfaSecret)
  {
  }

  /** A 500 response comes from an unreadable body, a null body or a failing database, and only from those. */
  lemma FailureIff(body: Body, db: Query -> Lookup)
    ensures CheckRequired(body, db).response == CheckFailed <==>
      body.Unparsable? || body.NullBody?
      || (Truthy(body.email) && db(EmailQuery(Normalize(body.email))).DbError?)
  {
  }

  /** An unknown e-mail and an account without MFA get the same answer, so existence is not revealed. */
  lemma NoMatchIndistinguishable(email: Value, db1: Query -> Lookup, db2: Query -> Lookup)
    requires Truthy(email)
    requires db1(EmailQuery(Normalize(email))) == NoMatch
    requires db2(EmailQuery(Normalize(email))).Found?
    requires var u := db2(EmailQuery(Normalize(email))).user; !(Truthy(u.mfaEnabled) && Truthy(u.mfaSecret))
    ensures CheckRequired(Fields(email), db1).response == CheckRequired(Fields(email), db2).response == MfaStatus(false)
  {
  }

  lemma LowerCharIdempotent(c: char)
    ensures LowerChar(LowerChar(c)) == LowerChar(c)
    ensures IsSpace(LowerChar(c)) <==> IsSpace(c)
  {
  }

  /** Normalising a normalised e-mail changes nothing. */
  lemma NormalizeIdempotent(email: Value)
    ensures Normalize(Text(Normalize(email))) == Normalize(email)
  {
    LowerTrimmed(Trim(ToText(email)));
  }

  lemma LowerTrimmed(t: string)
    requires t != [] ==> !IsSpace(t[0]) && !IsSpace(t[|t| - 1])
    ensures ToLowerAscii(Trim(ToLowerAscii(t))) == ToLowerAscii(t)
  {
    var n := ToLowerAscii(t);
    if n != [] {
      LowerCharIdempotent(t[0]);
      LowerCharIdempotent(t[|t| - 1]);
    }
    TrimUnchanged(n);
    LowerTwice(t);
  }

  lemma LowerTwice(t: string)
    ensures ToLowerAscii(ToLowerAscii(t)) == ToLowerAscii(t)
  {
    var n := ToLowerAscii(t);
    var m := ToLowerAscii(n);
    forall i | 0 <= i < |n|
      ensures m[i] == n[i]
    {
      LowerCharIdempotent(t[i]);
    }
  }
}
