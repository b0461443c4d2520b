/**
  The four global regular-expression replacements the editor preview applies inside a line:
  a backtick span becomes a code element, a double-asterisk span a strong element, a
  single-asterisk span an em element and a [text](url) pair an anchor.
  Each pattern is a delimiter, a non-empty run of characters other than the closing
  delimiter, and the closing delimiter, so at a given position it matches in at most one
  way (the greedy run has to stop at the first closing delimiter). String#replace with a
  global pattern scans left to right: after a match it resumes at the end of the match,
  after a failed position at the next character.
*/
module PreviewInline {
  import opened Wrappers
  import opened JsString

  datatype Pattern = CodeSpan | Strong | Emphasis | Anchor

  /** A match at the start of the input: how many characters it covers and what replaces them. */
  datatype Match = Match(length: nat, replacement: string)

  /** The character every match of the pattern starts with. */
  function Lead(p: Pattern): char {
    match p
    case CodeSpan => '`'
    case Strong => '*'
    case Emphasis => '*'
    case Anchor => '['
  }

  /** `d`, then one or more characters other than `d`, then `d`. */
  function Delimited(s: string, d: char, open: string, close: string): (m: Option<Match>)
    requires |open| >= 1 && |close| >= 1
    ensures m.Some? ==> 3 <= m.value.length <= |s| && |m.value.replacement| >= m.value.length
  {
    if s != [] && s[0] == d then
      var k := IndexOf(s[1..], d);
      if k >= 1 && k + 1 < |s| then Some(Match(k + 2, open + s[1..k + 1] + close)) else None
    else None
  }

  /** The match of `p` at the start of `s`, if there is one. */
  function MatchAt(p: Pattern, s: string): (m: Option<Match>)
    ensures m.Some? ==> 1 <= m.value.length <= |s| && |m.value.replacement| >= m.value.length
    ensures m.Some? ==> s[0] == Lead(p)
  {
    match p
    case CodeSpan => Delimited(s, '`', "<code>", "</code>")
    case Emphasis => Delimited(s, '*', "<em>", "</em>")
    case Strong =>
      if |s| >= 2 && s[0] == '*' && s[1] == '*' then
        var k := IndexOf(s[2..], '*');
        if k >= 1 && k + 3 < |s| && s[k + 3] == '*' then Some(Match(k + 4, "<strong>" + s[2..k + 2] + "</strong>"))
        else None
      else None
    case Anchor =>
      if s != [] && s[0] == '[' then
        var k := IndexOf(s[1..], ']');
        if k >= 1 && k + 2 < |s| && s[k + 2] == '(' then
          var j := IndexOf(s[k + 3..], ')');
          if j >= 1 && k + 3 + j < |s| then
            Some(Match(k + j + 4, AnchorHtml(s[k + 3..k + 3 + j], s[1..k + 1])))
          else None
        else None
      else None
  }

  /** The anchor a [text](url) pair becomes. */
  function AnchorHtml(url: string, text: string): string {
    "<a href=\"" + url + "\">" + text + "</a>"
  }

  /** String#replace with the global pattern `p`. */
  function ReplaceAll(p: Pattern, s: string): (r: string)
    ensures s == [] <==> r == []
    decreases |s|
  {
    if s == [] then []
    else
      match MatchAt(p, s)
      case Some(m) => m.replacement + ReplaceAll(p, s[m.length..])
      case None => [s[0]] + ReplaceAll(p, s[1..])
  }

  /** Bold, then italic, then links, each on the result of the previous one. */
  function Inline(line: string): (r: string)
    ensures line == [] <==> r == []
  {
    ReplaceAll(Anchor, ReplaceAll(Emphasis, ReplaceAll(Strong, line)))
  }

  // ---------------------------------------------------------------------------
  // Properties

  /** A replacement never shortens the line, so a non-empty line stays non-empty. */
  lemma {:induction false} ReplaceAllGrows(p: Pattern, s: string)
    ensures |ReplaceAll(p, s)| >= |s|
    decreases |s|
  {
    if s != [] {
      match MatchAt(p, s)
      case Some(m) => ReplaceAllGrows(p, s[m.length..]);
      case None => ReplaceAllGrows(p, s[1..]);
    }
  }

  /** Characters before the next possible match are copied as they are. */
  lemma {:induction false} ReplaceAllPlainPrefix(p: Pattern, x: string, rest: string)
    requires Lead(p) !in x
    ensures ReplaceAll(p, x + rest) == x + ReplaceAll(p, rest)
    decreases |x|
  {
    if x != [] {
      var s := x + rest;
      var r := ReplaceAll(p, rest);
      assert s[0] == x[0] && s[1..] == x[1..] + rest;
      assert x[0] in x;
      ReplaceAllSkip(p, s);
      assert ReplaceAll(p, s) == [x[0]] + ReplaceAll(p, x[1..] + rest);
      ReplaceAllPlainPrefix(p, x[1..], rest);
      assert ReplaceAll(p, s) == [x[0]] + (x[1..] + r);
      assert [x[0]] + (x[1..] + r) == x + r;
    } else {
      assert x + rest == rest;
    }
  }

  /** A position that does not start with the pattern's leading character is copied. */
  lemma ReplaceAllSkip(p: Pattern, s: string)
    requires s != [] && s[0] != Lead(p)
    ensures ReplaceAll(p, s) == [s[0]] + ReplaceAll(p, s[1..])
  {
    assert MatchAt(p, s).None?;
  }

  /** Where the pattern matches, the match is replaced and the scan resumes after it. */
  lemma ReplaceAllAtMatch(p: Pattern, s: string, m: Match)
    requires MatchAt(p, s) == Some(m)
    ensures ReplaceAll(p, s) == m.replacement + ReplaceAll(p, s[m.length..])
  {
  }

  /** A line without the pattern's leading character is left unchanged. */
  lemma ReplaceAllUnchanged(p: Pattern, s: string)
    requires Lead(p) !in s
    ensures ReplaceAll(p, s) == s
  {
    ReplaceAllPlainPrefix(p, s, []);
    assert s + [] == s;
  }

  /** Plain text, then a match: the text is copied and the match replaced. */
  lemma PrefixThenMatch(p: Pattern, x: string, span: string, m: Match)
    requires Lead(p) !in x && MatchAt(p, span) == Some(m)
    ensures ReplaceAll(p, x + span) == x + m.replacement + ReplaceAll(p, span[m.length..])
  {
    ReplaceAllPlainPrefix(p, x, span);
    ReplaceAllAtMatch(p, span, m);
  }

  lemma IndexOfAfter(y: string, c: char, z: string)
    requires c !in y
    ensures IndexOf(y + [c] + z, c) == |y|
  {
    var s := y + [c] + z;
    assert s[|y|] == c;
    assert s[..|y|] == y;
  }

  /** The match found at a delimited span, for the two single-character patterns. */
  lemma DelimitedAt(d: char, open: string, close: string, y: string, z: string)
    requires d !in y && y != [] && |open| >= 1 && |close| >= 1
    ensures Delimited([d] + y + [d] + z, d, open, close) == Some(Match(|y| + 2, open + y + close))
  {
    var s := [d] + y + [d] + z;
    assert s[1..] == y + [d] + z;
    IndexOfAfter(y, d, z);
    assert s[1..|y| + 1] == y;
  }

  /**
    One code span: the text before the first backtick is copied, the span becomes a code
    element and the scan resumes after its closing backtick.
  */
  lemma CodeSpanReplaced(x: string, y: string, z: string)
    requires '`' !in x && '`' !in y && y != []
    ensures ReplaceAll(CodeSpan, x + "`" + y + "`" + z) == x + "<code>" + y + "</code>" + ReplaceAll(CodeSpan, z)
  {
    var m := Match(|y| + 2, "<code>" + y + "</code>");
    SpanAt('`', "<code>", "</code>", y, z);
    PrefixThenMatch(CodeSpan, x, "`" + y + "`" + z, m);
    Spliced(x, "`", y, "`", z);
    Spliced(x, "<code>", y, "</code>", ReplaceAll(CodeSpan, z));
  }

  /** One emphasised span, likewise. */
  lemma EmphasisReplaced(x: string, y: string, z: string)
    requires '*' !in x && '*' !in y && y != []
    ensures ReplaceAll(Emphasis, x + "*" + y + "*" + z) == x + "<em>" + y + "</em>" + ReplaceAll(Emphasis, z)
  {
    var m := Match(|y| + 2, "<em>" + y + "</em>");
    SpanAt('*', "<em>", "</em>", y, z);
    PrefixThenMatch(Emphasis, x, "*" + y + "*" + z, m);
    Spliced(x, "*", y, "*", z);
    Spliced(x, "<em>", y, "</em>", ReplaceAll(Emphasis, z));
  }

  /** The match of a single-character delimiter at a delimited span, and what follows it. */
  lemma SpanAt(d: char, open: string, close: string, y: string, z: string)
    requires d !in y && y != [] && |open| >= 1 && |close| >= 1
    ensures Delimited([d] + y + [d] + z, d, open, close) == Some(Match(|y| + 2, open + y + close))
    ensures ([d] + y + [d] + z)[|y| + 2..] == z
  {
    DelimitedAt(d, open, close, y, z);
  }

  /** One strong span. */
  lemma StrongReplaced(x: string, y: string, z: string)
    requires '*' !in x && '*' !in y && y != []
    ensures ReplaceAll(Strong, x + "**" + y + "**" + z) == x + "<strong>" + y + "</strong>" + ReplaceAll(Strong, z)
  {
    var m := Match(|y| + 4, "<strong>" + y + "</strong>");
    StrongAt(y, z);
    PrefixThenMatch(Strong, x, "**" + y + "**" + z, m);
    Spliced(x, "**", y, "**", z);
    Spliced(x, "<strong>", y, "</strong>", ReplaceAll(Strong, z));
  }

  /** The match found at a double-asterisk span, and what follows it. */
  lemma StrongAt(y: string, z: string)
    requires '*' !in y && y != []
    ensures MatchAt(Strong, "**" + y + "**" + z) == Some(Match(|y| + 4, "<strong>" + y + "</strong>"))
    ensures ("**" + y + "**" + z)[|y| + 4..] == z
  {
    var span := "**" + y + "**" + z;
    assert span[2..] == y + ['*'] + ("*" + z);
    IndexOfAfter(y, '*', "*" + z);
    assert span[2..|y| + 2] == y;
  }

  /** Regrouping a string made of five pieces. */
  lemma Spliced(x: string, a: string, b: string, c: string, z: string)
    ensures x + a + b + c + z == x + (a + b + c + z)
    ensures x + (a + b + c) + z == x + a + b + c + z
  {
  }

  /** The match found at a [text](url) pair. */
  lemma AnchorAt(t: string, u: string, z: string)
    requires ']' !in t && t != [] && ')' !in u && u != []
    ensures MatchAt(Anchor, "[" + t + "](" + u + ")" + z) == Some(Match(|t| + |u| + 4, AnchorHtml(u, t)))
  {
    var span := "[" + t + "](" + u + ")" + z;
    var k := |t|;
    assert span[1..] == t + [']'] + ("(" + u + ")" + z);
    IndexOfAfter(t, ']', "(" + u + ")" + z);
    assert span[k + 2] == '(';
    assert span[k + 3..] == u + [')'] + z;
    IndexOfAfter(u, ')', z);
    assert span[k + 3..k + 3 + |u|] == u;
    assert span[1..k + 1] == t;
  }

  lemma AnchorRest(t: string, u: string, z: string)
    ensures ("[" + t + "](" + u + ")" + z)[|t| + |u| + 4..] == z
  {
    assert |"[" + t + "](" + u + ")"| == |t| + |u| + 4;
  }

  /** One link: [text](url) becomes an anchor around the text. */
  lemma AnchorReplaced(x: string, t: string, u: string, z: string)
    requires '[' !in x && ']' !in t && t != [] && ')' !in u && u != []
    ensures ReplaceAll(Anchor, x + ("[" + t + "](" + u + ")" + z)) == x + AnchorHtml(u, t) + ReplaceAll(Anchor, z)
  {
    var span := "[" + t + "](" + u + ")" + z;
    var a := AnchorHtml(u, t);
    AnchorAt(t, u, z);
    AnchorRest(t, u, z);
    PrefixThenMatch(Anchor, x, span, Match(|t| + |u| + 4, a));
  }

  /** A line with no '*' and no '[' is not touched by the paragraph substitutions. */
  lemma InlinePlain(line: string)
    requires '*' !in line && '[' !in line
    ensures Inline(line) == line
  {
    ReplaceAllUnchanged(Strong, line);
    ReplaceAllUnchanged(Emphasis, line);
    ReplaceAllUnchanged(Anchor, line);
  }
}
