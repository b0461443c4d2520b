/**
  The Lexical tree -> Markdown serialiser (lexicalToMarkdown and its convert* helpers).
  Each node kind has one fixed rule; the rules that shape a whole block
  (paragraph, heading, list, link, quote, code) are stated as functions of the
  already converted children text, so that their properties can be proved apart
  from the tree walk.
*/
module LexicalToMarkdown {
  import opened Wrappers
  import opened JsString
  import opened Lexical

  /**
    The exception the serialiser raises on a well-formed tree: '#'.repeat(level) with a
    negative level. Its count is that level.
  */
  datatype Error = InvalidCount(count: int)

  type Outcome = Result<string, Error>

  /**
    Entry point. A string is already Markdown and is returned as it is; anything that is
    not an object, and an object without a root, give "". Otherwise the root's own type
    is ignored and its children are converted in order.
  */
  function LexicalToMarkdown(content: Content): (r: Outcome)
    ensures content.Str? ==> r == Success(content.s)
    ensures content.Primitive? || content == Obj(None) ==> r == Success("")
    ensures content.Obj? && content.root.Some? && !content.root.value.hasChildren ==> r == Success("")
  {
    match content
    case Str(s) => Success(s)
    case Primitive => Success("")
    case Obj(None) => Success("")
    case Obj(Some(root)) => ConvertNodes(if root.hasChildren then root.children else [])
  }

  /** convertNodes: the conversions of `nodes`, in order, joined with nothing between them. */
  function ConvertNodes(nodes: seq<Node>): (r: Outcome)
    ensures r.Failure? ==> r.error.count < 0
    decreases nodes, 0
  {
    if nodes == [] then Success("")
    else
      var head := ConvertNode(nodes[0]);
      if head.Failure? then head
      else
        var tail := ConvertNodes(nodes[1..]);
        if tail.Failure? then tail else Success(head.value + tail.value)
  }

  /** `node.children ? convertNodes(node.children) : ''` */
  function Inner(n: Node): (r: Outcome)
    ensures r.Failure? ==> r.error.count < 0
    decreases n, 0
  {
    if n.hasChildren then ConvertNodes(n.children) else Success("")
  }

  /** convertNode: dispatch on the node's type; any other type gives its children's text. */
  function ConvertNode(n: Node): (r: Outcome)
    ensures r.Failure? ==> r.error.count < 0
    ensures n.kind == Text || n.kind == LineBreak ==> r.Success?
    decreases n, 2
  {
    match n.kind
    case Paragraph => ConvertParagraph(n)
    case Heading => ConvertHeading(n)
    case List => ConvertList(n)
    case ListItem => Inner(n)
    case Link => ConvertLink(n)
    case Text => Success(MarkdownText(n.text, n.format))
    case LineBreak => Success("  \n")
    case Code => ConvertCode(n)
    case Quote => ConvertQuote(n)
    case _ => Inner(n)
  }

  function ConvertParagraph(n: Node): (r: Outcome)
    ensures r.Failure? ==> r.error.count < 0
    decreases n, 1
  {
    var content := Inner(n);
    if content.Failure? then content else Success(ParagraphText(content.value))
  }

  /**
    The hashes are built before the children are converted, so a negative level throws
    first, whatever the children hold.
  */
  function ConvertHeading(n: Node): (r: Outcome)
    ensures HeadingLevel(n.tag) < 0 ==> r == Failure(InvalidCount(HeadingLevel(n.tag)))
    ensures HeadingLevel(n.tag) >= 0 ==> r.Failure? == Inner(n).Failure?
    ensures r.Success? ==> r.value == HeadingText(HeadingLevel(n.tag), Inner(n).value)
    decreases n, 1
  {
    var level := HeadingLevel(n.tag);
    if level < 0 then Failure(InvalidCount(level))
    else
      var content := Inner(n);
      if content.Failure? then content else Success(HeadingText(level, content.value))
  }

  function ConvertList(n: Node): (r: Outcome)
    ensures r.Failure? ==> r.error.count < 0
    ensures r.Success? <==> !n.hasChildren || ListContents(n.children).Success?
    ensures r.Success? ==> |r.value| >= 2 && r.value[|r.value| - 2..] == "\n\n"
    decreases n, 1
  {
    var items := if n.hasChildren then ListContents(n.children) else Success([]);
    if items.Failure? then Failure(items.error)
    else Success(ListText(ListLines(items.value, n.listType == "number")))
  }

  function ConvertLink(n: Node): (r: Outcome)
    ensures r.Failure? ==> r.error.count < 0
    ensures !n.hasChildren ==> r == Success(LinkText(n.url, n.url))
    ensures n.hasChildren ==> r.Failure? == ConvertNodes(n.children).Failure?
    decreases n, 1
  {
    var content := if n.hasChildren then ConvertNodes(n.children) else Success(n.url);
    if content.Failure? then content else Success(LinkText(n.url, content.value))
  }

  function ConvertCode(n: Node): (r: Outcome)
    ensures r.Failure? ==> r.error.count < 0
    decreases n, 1
  {
    var content := Inner(n);
    if content.Failure? then content else Success(CodeText(n.language, content.value))
  }

  function ConvertQuote(n: Node): (r: Outcome)
    ensures r.Failure? ==> r.error.count < 0
    decreases n, 1
  {
    var content := Inner(n);
    if content.Failure? then content else Success(QuoteText(content.value))
  }

  /**
    The trimmed text of each list item, in order: every child gives one entry, whatever
    its own type, made of its children's text (its own text and format are not read).
  */
  function ListContents(items: seq<Node>): (r: Result<seq<string>, Error>)
    ensures r.Failure? ==> r.error.count < 0
    decreases items, 0
  {
    if items == [] then Success([])
    else PrependItem(Inner(items[0]), ListContents(items[1..]))
  }

  /** The first item's text before the others'; the first failure, in list order, wins. */
  function PrependItem(first: Outcome, rest: Result<seq<string>, Error>): (r: Result<seq<string>, Error>)
    ensures r.Failure? ==> (first.Failure? && r.error == first.error) || (rest.Failure? && r.error == rest.error)
    ensures r.Success? <==> first.Success? && rest.Success?
    ensures r.Success? ==> r.value == [Trim(first.value)] + rest.value
    ensures first.Failure? ==> r == Failure(first.error)
  {
    if first.Failure? then Failure(first.error)
    else if rest.Failure? then rest
    else Success([Trim(first.value)] + rest.value)
  }

  /** A successful conversion gives exactly one entry per item. */
  lemma {:induction false} ListContentsLength(items: seq<Node>)
    ensures ListContents(items).Success? ==> |ListContents(items).value| == |items|
  {
    if items != [] {
      ListContentsLength(items[1..]);
    }
  }

  /** One line per item: its marker, then its text. */
  function ListLines(contents: seq<string>, ordered: bool): (r: seq<string>)
    ensures |r| == |contents|
    ensures forall k :: 0 <= k < |contents| ==> r[k] == ListMarker(ordered, k) + contents[k]
  {
    seq(|contents|, k requires 0 <= k < |contents| => ListMarker(ordered, k) + contents[k])
  }

  /** "N. " (1-based) for a numbered list, "- " otherwise. */
  function ListMarker(ordered: bool, index: nat): string {
    if ordered then Decimal(index + 1) + ". " else "- "
  }

  /** Non-blank content is followed by a blank line; blank content becomes a single newline. */
  function ParagraphText(content: string): (r: string)
    ensures !AllSpace(content) ==> r == content + "\n\n"
    ensures AllSpace(content) ==> r == "\n"
  {
    if Trim(content) != "" then content + "\n\n" else "\n"
  }

  /**
    `parseInt((tag || 'h1').replace('h', '')) || 1`: the missing tag reads as "h1", the
    first 'h' is dropped and the rest parsed; NaN and 0 become 1, any other value is kept.
  */
  function HeadingLevel(tag: string): (level: int)
    ensures level != 0
    ensures var parsed := ParseInt(RemoveFirst(if tag == "" then "h1" else tag, 'h'));
      && (parsed.None? || parsed == Some(0) ==> level == 1)
      && (parsed.Some? && parsed.value != 0 ==> level == parsed.value)
  {
    var t := if tag == "" then "h1" else tag;
    match ParseInt(RemoveFirst(t, 'h'))
    case None => 1
    case Some(v) => if v == 0 then 1 else v
  }

  function HeadingText(level: nat, content: string): string
  {
    Repeat('#', level) + " " + Trim(content) + "\n\n"
  }

  function ListText(items: seq<string>): string {
    Join(items, '\n') + "\n\n"
  }

  function LinkText(url: string, content: string): string {
    "[" + Trim(content) + "](" + url + ")"
  }

  function CodeText(language: string, content: string): string {
    "```" + language + "\n" + Trim(content) + "\n```\n\n"
  }

  /** Each line gets "> " in front; the quote ends with a blank line. */
  function QuoteText(content: string): string {
    Join(QuotedLines(Split(content, '\n')), '\n') + "\n\n"
  }

  function QuotedLines(lines: seq<string>): (r: seq<string>)
    ensures |r| == |lines| && forall k :: 0 <= k < |lines| ==> r[k] == "> " + lines[k]
  {
    seq(|lines|, k requires 0 <= k < |lines| => "> " + lines[k])
  }

  /** The delimiters a text node's format opens with, outermost first ... */
  function MarkdownOpen(f: Flags): string {
    (if f.code then "`" else "") + (if f.strikethrough then "~~" else "")
    + (if f.italic then "*" else "") + (if f.bold then "**" else "")
  }

  /** ... and closes with, innermost first. */
  function MarkdownClose(f: Flags): string {
    (if f.bold then "**" else "") + (if f.italic then "*" else "")
    + (if f.strikethrough then "~~" else "") + (if f.code then "`" else "")
  }

  /**
    convertText: bold, italic, strikethrough and code wrap the text one after the other,
    each around the previous result, so code is outermost; underline has no delimiter.
  */
  function MarkdownText(text: string, format: int): (r: string)
    ensures r == MarkdownOpen(DecodeFormat(format)) + text + MarkdownClose(DecodeFormat(format))
  {
    MarkdownWrap(text, DecodeFormat(format))
  }

  function MarkdownWrap(text: string, f: Flags): (r: string)
    ensures r == MarkdownOpen(f) + text + MarkdownClose(f)
  {
    var bold := if f.bold then "**" + text + "**" else text;
    var italic := if f.italic then "*" + bold + "*" else bold;
    var strike := if f.strikethrough then "~~" + italic + "~~" else italic;
    var code := if f.code then "`" + strike + "`" else strike;
    var ob, oi, os, oc := (if f.bold then "**" else ""), (if f.italic then "*" else ""),
                          (if f.strikethrough then "~~" else ""), (if f.code then "`" else "");
    var cb, ci, cs, cc := ob, oi, os, oc;
    assert bold == ob + text + cb && italic == oi + bold + ci;
    assert strike == os + italic + cs && code == oc + strike + cc;
    FourLayers(text, ob, oi, os, oc, cb, ci, cs, cc, bold, italic, strike, code);
    code
  }

  lemma FourLayers(t: string, o1: string, o2: string, o3: string, o4: string,
                   c1: string, c2: string, c3: string, c4: string,
                   w1: string, w2: string, w3: string, w4: string)
    requires w1 == o1 + t + c1 && w2 == o2 + w1 + c2 && w3 == o3 + w2 + c3 && w4 == o4 + w3 + c4
    ensures w4 == (o4 + o3 + o2 + o1) + t + (c1 + c2 + c3 + c4)
  {
  }

  // ---------------------------------------------------------------------------
  // Properties of the tree walk

  /** The outcome of converting two node lists one after the other (the first exception wins). */
  function Then(x: Outcome, y: Outcome): Outcome {
    if x.Failure? then x else if y.Failure? then y else Success(x.value + y.value)
  }

  /** Conversion is compositional: the output for a + b is the output for a followed by that for b. */
  lemma {:induction false} ConvertNodesAppend(a: seq<Node>, b: seq<Node>)
    ensures ConvertNodes(a + b) == Then(ConvertNodes(a), ConvertNodes(b))
    decreases |a|
  {
    if a == [] {
      assert a + b == b;
      if ConvertNodes(b).Success? {
        assert "" + ConvertNodes(b).value == ConvertNodes(b).value;
      }
    } else {
      ConvertNodesAppend(a[1..], b);
      assert (a + b)[0] == a[0] && (a + b)[1..] == a[1..] + b;
      var h, ta, tb := ConvertNode(a[0]), ConvertNodes(a[1..]), ConvertNodes(b);
      if h.Success? && ta.Success? && tb.Success? {
        assert h.value + (ta.value + tb.value) == (h.value + ta.value) + tb.value;
      }
    }
  }

  /** Every heading anywhere in the tree has a tag whose level is not negative. */
  predicate HeadingsOk(n: Node)
    decreases n
  {
    && (n.kind.Heading? ==> HeadingLevel(n.tag) >= 0)
    && forall i :: 0 <= i < |n.children| ==> HeadingsOk(n.children[i])
  }

  /** A tree without a heading of negative level converts without an exception. */
  lemma {:induction false} NoThrow(n: Node)
    requires HeadingsOk(n)
    ensures ConvertNode(n).Success?
    decreases n, 1
  {
    if n.hasChildren {
      NoThrowAll(n.children);
      if n.kind.List? {
        NoThrowItems(n.children);
      }
    }
    match n.kind
    case Paragraph => assert ConvertParagraph(n).Success?;
    case Heading => assert ConvertHeading(n).Success?;
    case List => assert ConvertList(n).Success?;
    case Link => assert ConvertLink(n).Success?;
    case Code => assert ConvertCode(n).Success?;
    case Quote => assert ConvertQuote(n).Success?;
    case _ =>
  }

  lemma {:induction false} NoThrowAll(ns: seq<Node>)
    requires forall i :: 0 <= i < |ns| ==> HeadingsOk(ns[i])
    ensures ConvertNodes(ns).Success?
    decreases ns, 0
  {
    if ns != [] {
      NoThrow(ns[0]);
      NoThrowAll(ns[1..]);
    }
  }

  lemma {:induction false} NoThrowItems(items: seq<Node>)
    requires forall i :: 0 <= i < |items| ==> HeadingsOk(items[i])
    ensures ListContents(items).Success?
    decreases items, 0
  {
    if items != [] {
      if items[0].hasChildren {
        NoThrowAll(items[0].children);
      }
      NoThrowItems(items[1..]);
    }
  }

  /**
    Where the conversion throws: a heading of negative level, or a throwing node among the
    children the rule for this kind actually converts. Text and line breaks never look at
    their children, a heading of negative level throws before it does, and a list converts
    the children of each item rather than the item itself.
  */
  predicate Throws(n: Node)
    decreases n, 2
  {
    match n.kind
    case Heading => HeadingLevel(n.tag) < 0 || ChildThrows(n)
    case List => n.hasChildren && ItemThrows(n.children)
    case Text => false
    case LineBreak => false
    case _ => ChildThrows(n)
  }

  predicate ChildThrows(n: Node)
    decreases n, 1
  {
    n.hasChildren && AnyThrows(n.children)
  }

  predicate AnyThrows(ns: seq<Node>)
    decreases ns, 0
  {
    exists i :: 0 <= i < |ns| && Throws(ns[i])
  }

  predicate ItemThrows(items: seq<Node>)
    decreases items, 0
  {
    exists i :: 0 <= i < |items| && ChildThrows(items[i])
  }

  /** The conversion of a node fails exactly when the node throws somewhere it is visited. */
  lemma {:induction false} FailsExactly(n: Node)
    ensures ConvertNode(n).Failure? <==> Throws(n)
    decreases n, 1
  {
    if n.hasChildren {
      FailsExactlyAll(n.children);
      if n.kind.List? {
        FailsExactlyItems(n.children);
      }
    }
    match n.kind
    case Paragraph => assert ConvertParagraph(n).Failure? <==> ChildThrows(n);
    case Heading => assert ConvertHeading(n).Failure? <==> Throws(n);
    case List => assert ConvertList(n).Failure? <==> Throws(n);
    case Link => assert ConvertLink(n).Failure? <==> ChildThrows(n);
    case Code => assert ConvertCode(n).Failure? <==> ChildThrows(n);
    case Quote => assert ConvertQuote(n).Failure? <==> ChildThrows(n);
    case _ =>
  }

  lemma {:induction false} FailsExactlyAll(ns: seq<Node>)
    ensures ConvertNodes(ns).Failure? <==> AnyThrows(ns)
    decreases ns, 0
  {
    if ns != [] {
      FailsExactly(ns[0]);
      FailsExactlyAll(ns[1..]);
      AnyThrowsCons(ns);
    }
  }

  lemma {:induction false} FailsExactlyItems(items: seq<Node>)
    ensures ListContents(items).Failure? <==> ItemThrows(items)
    decreases items, 0
  {
    if items != [] {
      if items[0].hasChildren {
        FailsExactlyAll(items[0].children);
      }
      FailsExactlyItems(items[1..]);
      ItemThrowsCons(items);
    }
  }

  lemma AnyThrowsCons(ns: seq<Node>)
    requires ns != []
    ensures AnyThrows(ns) <==> Throws(ns[0]) || AnyThrows(ns[1..])
  {
    if AnyThrows(ns[1..]) {
      var i :| 0 <= i < |ns[1..]| && Throws(ns[1..][i]);
      assert Throws(ns[i + 1]);
    }
    if AnyThrows(ns) && !Throws(ns[0]) {
      var i :| 0 <= i < |ns| && Throws(ns[i]);
      assert ns[1..][i - 1] == ns[i];
    }
  }

  lemma ItemThrowsCons(items: seq<Node>)
    requires items != []
    ensures ItemThrows(items) <==> ChildThrows(items[0]) || ItemThrows(items[1..])
  {
    if ItemThrows(items[1..]) {
      var i :| 0 <= i < |items[1..]| && ChildThrows(items[1..][i]);
      assert ChildThrows(items[i + 1]);
    }
    if ItemThrows(items) && !ChildThrows(items[0]) {
      var i :| 0 <= i < |items| && ChildThrows(items[i]);
      assert items[1..][i - 1] == items[i];
    }
  }

  /** A heading of negative level fails with that count, whatever its children are. */
  lemma NegativeHeadingFails(n: Node)
    requires n.kind == Heading && HeadingLevel(n.tag) < 0
    ensures ConvertNode(n) == Failure(InvalidCount(HeadingLevel(n.tag)))
  {
  }

  /** One throwing node among the nodes converted in sequence makes the whole sequence fail. */
  lemma FailurePropagates(ns: seq<Node>, i: nat)
    requires i < |ns| && ConvertNode(ns[i]).Failure?
    ensures ConvertNodes(ns).Failure?
  {
    FailsExactly(ns[i]);
    FailsExactlyAll(ns);
  }

  // ---------------------------------------------------------------------------
  // Properties of the per-kind rules

  /** "h<k>" gives level k; the missing tag counts as "h1". */
  lemma HeadingLevelOfTag(k: nat)
    requires k >= 1
    ensures HeadingLevel("h" + Decimal(k)) == k
    ensures HeadingLevel("") == 1
  {
    TagLevel(k);
    TagLevel(1);
    assert Decimal(1) == "1";
  }

  lemma TagLevel(k: nat)
    requires k >= 1
    ensures HeadingLevel("h" + Decimal(k)) == k
  {
    RemoveLeading('h', Decimal(k));
    ParseDecimal(k);
  }

  /** A tag such as "h-2" parses to a negative level: '#'.repeat throws and the whole conversion fails. */
  lemma NegativeHeadingThrows(n: Node)
    requires n.kind == Heading && n.tag == "h-2"
    ensures ConvertNode(n) == Failure(InvalidCount(-2))
  {
    MinusTwo();
    assert ConvertHeading(n) == Failure(InvalidCount(-2));
  }

  lemma MinusTwo()
    ensures HeadingLevel("h-2") == -2
  {
    assert IndexOf("h-2", 'h') == 0;
    assert RemoveFirst("h-2", 'h') == "-" + "2";
    assert DigitsValue("2", 10) == 2 by {
      assert "2"[..0] == [];
    }
    MagnitudeDigits("2");
    ParseMinus("2", 2);
  }

  /** The heading line: exactly `level` hashes, a space, the trimmed text and a blank line. */
  lemma HeadingShape(level: nat, content: string)
    ensures var r := HeadingText(level, content);
      && |r| == level + 1 + |Trim(content)| + 2
      && (forall i :: 0 <= i < level ==> r[i] == '#')
      && r[level] == ' '
      && r[level + 1..|r| - 2] == Trim(content)
      && r[|r| - 2..] == "\n\n"
  {
    var r := HeadingText(level, content);
    var h := Repeat('#', level);
    assert r == h + [' '] + Trim(content) + "\n\n";
    assert r[..level] == h;
    assert r[level + 1..|r| - 2] == Trim(content);
  }

  lemma MarkerHasNoNewline(ordered: bool, k: nat)
    ensures '\n' !in ListMarker(ordered, k)
  {
    if ordered {
      var d := Decimal(k + 1);
      assert ListMarker(ordered, k) == d + ". ";
      assert forall i :: 0 <= i < |d| ==> d[i] != '\n';
    }
  }

  /** The body of a non-empty list splits into its item lines followed by two empty lines. */
  lemma ListTextLines(lines: seq<string>)
    requires |lines| >= 1
    requires forall k :: 0 <= k < |lines| ==> '\n' !in lines[k]
    ensures Split(ListText(lines), '\n') == lines + ["", ""]
  {
    JoinAppend(lines, ["", ""], '\n');
    assert Join(["", ""], '\n') == "\n";
    assert Join(lines, '\n') + "\n\n" == Join(lines, '\n') + ['\n'] + Join(["", ""], '\n');
    SplitJoin(lines + ["", ""], '\n');
  }

  /**
    A list node gives exactly one line per child, numbered from 1 when listType is "number",
    followed by a blank line (provided no item text holds a newline of its own).
  */
  lemma ListOneLinePerChild(n: Node)
    requires n.kind == List && n.hasChildren && |n.children| >= 1
    requires ListContents(n.children).Success?
    requires forall k :: 0 <= k < |ListContents(n.children).value| ==> '\n' !in ListContents(n.children).value[k]
    ensures ConvertNode(n).Success? && |ListContents(n.children).value| == |n.children|
    ensures var lines := Split(ConvertNode(n).value, '\n');
      && |lines| == |n.children| + 2
      && lines[|n.children|] == "" && lines[|n.children| + 1] == ""
      && forall k :: 0 <= k < |n.children| ==>
           lines[k] == ListMarker(n.listType == "number", k) + ListContents(n.children).value[k]
  {
    ListContentsLength(n.children);
    var items := ListContents(n.children).value;
    var ls := ListLines(items, n.listType == "number");
    forall k | 0 <= k < |ls| ensures '\n' !in ls[k] {
      MarkerHasNoNewline(n.listType == "number", k);
    }
    ListTextLines(ls);
  }

  /** A list with no children array, or an empty one, is just the closing blank line. */
  lemma EmptyList(n: Node)
    requires n.kind == List && (!n.hasChildren || n.children == [])
    ensures ConvertNode(n) == Success("\n\n")
  {
    assert ConvertNode(n) == ConvertList(n);
    assert ListContents([]) == Success([]);
    assert ListLines([], n.listType == "number") == [];
    assert ListText([]) == "\n\n";
  }

  /** A link reads back as its trimmed text in brackets followed by its URL in parentheses. */
  lemma LinkTextShape(url: string, content: string)
    ensures var r, t := LinkText(url, content), Trim(content);
      && |r| == |t| + |url| + 4
      && r[0] == '[' && r[1..1 + |t|] == t && r[1 + |t|] == ']'
      && r[|r| - |url| - 2..] == "(" + url + ")"
  {
    var r, t := LinkText(url, content), Trim(content);
    assert r == "[" + t + "]" + ("(" + url + ")");
  }

  /** With no children array the link text is its URL ... */
  lemma LinkWithoutChildren(n: Node)
    requires n.kind == Link && !n.hasChildren
    ensures ConvertNode(n) == Success("[" + Trim(n.url) + "](" + n.url + ")")
  {
  }

  /** ... while an empty children array (still truthy) gives empty link text. */
  lemma LinkWithEmptyChildren(n: Node)
    requires n.kind == Link && n.hasChildren && n.children == []
    ensures ConvertNode(n) == Success("[](" + n.url + ")")
  {
    NoNodes(n.children);
    EmptyLinkText(n.url);
  }

  lemma NoNodes(ns: seq<Node>)
    requires ns == []
    ensures ConvertNodes(ns) == Success("")
  {
  }

  lemma EmptyLinkText(url: string)
    ensures LinkText(url, "") == "[](" + url + ")"
  {
    assert Trim("") == "";
  }

  /**
    A code block reads back line by line: the opening fence with the language, the lines of
    the trimmed content, the closing fence and a blank line.
  */
  lemma CodeLines(language: string, content: string)
    requires '\n' !in language
    ensures Split(CodeText(language, content), '\n') == ["```" + language] + Split(Trim(content), '\n') + ["```", "", ""]
  {
    var parts := ["```" + language] + Split(Trim(content), '\n') + ["```", "", ""];
    CodeJoin(language, content);
    forall k | 0 <= k < |parts|
      ensures '\n' !in parts[k]
    {
      if 0 < k < |parts| - 3 {
        assert parts[k] == Split(Trim(content), '\n')[k - 1];
      }
    }
    SplitJoin(parts, '\n');
  }

  lemma CodeJoin(language: string, content: string)
    ensures CodeText(language, content) == Join(["```" + language] + Split(Trim(content), '\n') + ["```", "", ""], '\n')
  {
    var t := Trim(content);
    var head := "```" + language;
    var rest := Split(t, '\n') + ["```", "", ""];
    assert Join(rest, '\n') == t + ['\n'] + "```\n\n" by {
      FenceJoin(Split(t, '\n'), t);
    }
    assert Join([head] + rest, '\n') == head + ['\n'] + Join(rest, '\n') by {
      assert ([head] + rest)[1..] == rest;
    }
    assert ["```" + language] + Split(t, '\n') + ["```", "", ""] == [head] + rest;
    Glue(head, t, CodeText(language, content));
  }

  lemma FenceJoin(body: seq<string>, t: string)
    requires |body| >= 1 && Join(body, '\n') == t
    ensures Join(body + ["```", "", ""], '\n') == t + ['\n'] + "```\n\n"
  {
    assert Join(["```", "", ""], '\n') == "```\n\n";
    JoinAppend(body, ["```", "", ""], '\n');
  }

  lemma Glue(head: string, t: string, code: string)
    requires code == head + "\n" + t + "\n```\n\n"
    ensures code == head + ['\n'] + (t + ['\n'] + "```\n\n")
  {
  }

  /** The lines of a quote's body are the lines of its content, each behind "> ". */
  lemma QuoteLines(content: string)
    ensures var r := QuoteText(content);
      && |r| >= 2 && r[|r| - 2..] == "\n\n"
      && Split(r[..|r| - 2], '\n') == QuotedLines(Split(content, '\n'))
  {
    var lines := Split(content, '\n');
    var quoted := QuotedLines(lines);
    forall k | 0 <= k < |quoted| ensures '\n' !in quoted[k] {
      assert quoted[k] == "> " + lines[k];
    }
    var body := Join(quoted, '\n');
    assert QuoteText(content)[..|body|] == body;
    SplitJoin(quoted, '\n');
  }

  /** Drops the "> " of every line and the closing blank line: undoes QuoteText. */
  function Unquote(md: string): string
    requires |md| >= 2
  {
    var lines := Split(md[..|md| - 2], '\n');
    Join(seq(|lines|, k requires 0 <= k < |lines| => if |lines[k]| >= 2 then lines[k][2..] else lines[k]), '\n')
  }

  lemma QuoteRoundTrip(content: string)
    ensures |QuoteText(content)| >= 2 && Unquote(QuoteText(content)) == content
  {
    QuoteLines(content);
    var lines := Split(content, '\n');
    var quoted := QuotedLines(lines);
    var r := QuoteText(content);
    assert Split(r[..|r| - 2], '\n') == quoted;
    var stripped := seq(|quoted|, k requires 0 <= k < |quoted| => if |quoted[k]| >= 2 then quoted[k][2..] else quoted[k]);
    assert stripped == lines by {
      forall k | 0 <= k < |quoted| ensures stripped[k] == lines[k] {
        assert quoted[k] == "> " + lines[k];
        assert quoted[k][2..] == lines[k];
      }
    }
  }

  /** Underline has no Markdown delimiter: formats that differ only in bit 8 give the same text. */
  lemma UnderlineIgnored(text: string, f: int, g: int)
    requires var a, b := DecodeFormat(f), DecodeFormat(g);
      a.bold == b.bold && a.italic == b.italic && a.strikethrough == b.strikethrough && a.code == b.code
    ensures MarkdownText(text, f) == MarkdownText(text, g)
  {
  }

  // ---------------------------------------------------------------------------
  // Worked examples

  /** An unformatted text node converts to its text. */
  lemma PlainText(t: string)
    ensures ConvertNode(TextNode(t)) == Success(t)
  {
    assert DecodeFormat(0) == Flags(false, false, false, false, false);
  }

  lemma Single(n: Node)
    requires ConvertNode(n).Success?
    ensures ConvertNodes([n]) == ConvertNode(n)
  {
    assert [n][1..] == [];
    assert ConvertNode(n).value + "" == ConvertNode(n).value;
  }

  /** A third-level heading around one text node. */
  lemma HeadingExample()
    ensures ConvertNode(WithChildren(Blank(Heading).(tag := "h3"), [TextNode("Title")])) == Success("### Title\n\n")
  {
    LevelThree();
    HeadingOfText("h3", 3, "Title");
    TitleLine();
  }

  lemma HeadingOfText(tag: string, level: nat, t: string)
    requires HeadingLevel(tag) == level
    ensures ConvertNode(WithChildren(Blank(Heading).(tag := tag), [TextNode(t)])) == Success(HeadingText(level, t))
  {
    var n := WithChildren(Blank(Heading).(tag := tag), [TextNode(t)]);
    assert Inner(n) == Success(t) by {
      SingleText(t);
    }
    HeadingOf(n, level, t);
    DispatchHeading(n);
  }

  lemma DispatchHeading(n: Node)
    requires n.kind == Heading
    ensures ConvertNode(n) == ConvertHeading(n)
  {
  }

  lemma HeadingOf(n: Node, level: nat, content: string)
    requires n.kind == Heading && HeadingLevel(n.tag) == level && Inner(n) == Success(content)
    ensures ConvertHeading(n) == Success(HeadingText(level, content))
  {
  }

  lemma SingleText(t: string)
    ensures ConvertNodes([TextNode(t)]) == Success(t)
  {
    PlainText(t);
    Single(TextNode(t));
  }

  lemma LevelThree()
    ensures HeadingLevel("h3") == 3
  {
    HeadingLevelOfTag(3);
    TagThree();
  }

  lemma TagThree()
    ensures "h" + Decimal(3) == "h3"
  {
    assert Decimal(3) == "3";
  }

  lemma TitleLine()
    ensures HeadingText(3, "Title") == "### Title\n\n"
  {
    TrimUnchanged("Title");
    ThreeHashes();
  }

  lemma ThreeHashes()
    ensures Repeat('#', 3) == "###"
  {
  }

  /** A numbered list of two items, each holding one text node. */
  lemma NumberedList()
    ensures ConvertNode(WithChildren(Blank(List).(listType := "number"),
              [WithChildren(Blank(ListItem), [TextNode("a")]), WithChildren(Blank(ListItem), [TextNode("b")])]))
            == Success("1. a\n2. b\n\n")
  {
    hide ConvertNode, ConvertNodes, ListContents, Inner, ConvertList, ListText, ListLines;
    var a, b := WithChildren(Blank(ListItem), [TextNode("a")]), WithChildren(Blank(ListItem), [TextNode("b")]);
    ItemText(a, "a");
    ItemText(b, "b");
    TwoItems(a, b);
    assert ["a"] + ["b"] == ["a", "b"];
    ListOf(WithChildren(Blank(List).(listType := "number"), [a, b]), ["a", "b"]);
    NumberedLines();
  }

  lemma ListOf(n: Node, items: seq<string>)
    requires n.kind == List && n.hasChildren && ListContents(n.children) == Success(items)
    ensures ConvertNode(n) == Success(ListText(ListLines(items, n.listType == "number")))
  {
    hide ListContents;
    assert ConvertNode(n) == ConvertList(n);
  }

  lemma ItemText(item: Node, t: string)
    requires item.hasChildren && item.children == [TextNode(t)]
    requires t != [] ==> !IsSpace(t[0]) && !IsSpace(t[|t| - 1])
    ensures ListContents([item]) == Success([t])
  {
    SingleText(t);
    TrimUnchanged(t);
    assert Inner(item) == Success(t);
    OneItem(item);
    assert [Trim(t)] + [] == [t];
  }

  lemma OneItem(item: Node)
    ensures ListContents([item]) == PrependItem(Inner(item), Success([]))
  {
    assert [item][1..] == [];
  }

  lemma TwoItems(a: Node, b: Node)
    requires ListContents([a]).Success? && ListContents([b]).Success?
    ensures ListContents([a, b]) == Success(ListContents([a]).value + ListContents([b]).value)
  {
    hide Inner;
    OneItem(a);
    var x := Inner(a).value;
    assert ListContents([a]).value == [Trim(x)] + [] == [Trim(x)];
    assert [a, b][1..] == [b];
    assert ListContents([a, b]) == PrependItem(Inner(a), ListContents([b]));
  }

  /** The body of a numbered list of two items. */
  lemma NumberedLines()
    ensures ListText(ListLines(["a", "b"], true)) == "1. a\n2. b\n\n"
  {
    FirstMarkers();
    var lines := ListLines(["a", "b"], true);
    assert lines[0] == "1. a" && lines[1] == "2. b";
    assert Join(lines, '\n') == "1. a\n2. b" by {
      assert lines[1..] == ["2. b"];
    }
  }

  lemma FirstMarkers()
    ensures ListMarker(true, 0) == "1. " && ListMarker(true, 1) == "2. "
  {
    assert Decimal(1) == "1" && Decimal(2) == "2";
  }

  lemma LinkNode(n: Node, t: string)
    requires n.kind == Link && n.hasChildren && n.children == [TextNode(t)]
    ensures ConvertNode(n) == Success(LinkText(n.url, t))
  {
    SingleText(t);
  }

  /** A link with one text child. */
  lemma LinkExample()
    ensures ConvertNode(WithChildren(Blank(Link).(url := "https://x.test"), [TextNode("go")])) == Success("[go](https://x.test)")
  {
    LinkNode(WithChildren(Blank(Link).(url := "https://x.test"), [TextNode("go")]), "go");
    LinkGo();
  }

  lemma LinkGo()
    ensures LinkText("https://x.test", "go") == "[go](https://x.test)"
  {
    TrimUnchanged("go");
  }

  /** Bold, italic and code together: code outermost, then italic, then bold. */
  lemma FormatExample()
    ensures MarkdownText("x", 19) == "`***x***`"
  {
    assert DecodeFormat(19) == Flags(true, true, false, false, true);
  }
}
