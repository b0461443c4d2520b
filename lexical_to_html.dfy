/**
  The Lexical tree -> HTML serialiser (lexicalToHtml and its recursive processNode).
  Text is emitted as it is (no escaping), every other kind wraps the concatenated
  HTML of its children in a fixed element.
*/
module LexicalToHtml {
  import opened Wrappers
  import opened JsString
  import opened Lexical

  /**
    Entry point. Only an object with a root is converted (a string has no root either);
    the root node itself goes through the dispatch like any other node.
  */
  function LexicalToHtml(content: Content): (r: string)
    ensures !(content.Obj? && content.root.Some?) ==> r == ""
  {
    match content
    case Obj(Some(root)) => ProcessNode(root)
    case _ => ""
  }

  /** processNode: a text node is its formatted text; any other node is built around its children. */
  function ProcessNode(n: Node): (h: string)
    ensures n.kind == Root || n.kind.Unknown? ==> h == ChildrenHtml(n)
    ensures n.kind != Text && n.kind != Root && !n.kind.Unknown? ==> |h| >= 4 && h[0] == '<' && h[|h| - 1] == '>'
    decreases n, 1
  {
    if n.kind == Text then HtmlText(n.text, n.format)
    else
      var inner := ChildrenHtml(n);
      match n.kind
      case Root => inner
      case Paragraph => Element("p", inner)
      case Heading => Element(HeadingTag(n.tag), inner)
      case List => Element(ListTag(n.listType), inner)
      case ListItem => Element("li", inner)
      case Quote => Element("blockquote", inner)
      case Code => "<pre><code>" + inner + "</code></pre>"
      case Link => LinkHtml(LinkHref(n), LinkNewTab(n), inner)
      case LineBreak => "<br>"
      case HorizontalRule => "<hr>"
      case _ => inner
  }

  /** `node.children ? node.children.map(processNode).join('') : ''` */
  function ChildrenHtml(n: Node): string
    decreases n, 0
  {
    if n.hasChildren then ProcessNodes(n.children) else ""
  }

  function ProcessNodes(ns: seq<Node>): string
    decreases ns, 0
  {
    if ns == [] then "" else ProcessNode(ns[0]) + ProcessNodes(ns[1..])
  }

  function Element(tag: string, inner: string): string {
    "<" + tag + ">" + inner + "</" + tag + ">"
  }

  /** The heading's tag is used verbatim as the element name; h2 when it is missing. */
  function HeadingTag(tag: string): (t: string)
    ensures t != []
    ensures tag != "" ==> t == tag
    ensures tag == "" ==> t == "h2"
  {
    if tag == "" then "h2" else tag
  }

  function ListTag(listType: string): (t: string)
    ensures t == "ol" <==> listType == "number"
    ensures t == "ol" || t == "ul"
  {
    if listType == "number" then "ol" else "ul"
  }

  /** `node.fields?.url || node.url || '#'` */
  function LinkHref(n: Node): (href: string)
    ensures href != []
    ensures n.fields.Some? && n.fields.value.url != "" ==> href == n.fields.value.url
    ensures (n.fields.None? || n.fields.value.url == "") && n.url != "" ==> href == n.url
    ensures (n.fields.None? || n.fields.value.url == "") && n.url == "" ==> href == "#"
  {
    if n.fields.Some? && n.fields.value.url != "" then n.fields.value.url
    else if n.url != "" then n.url
    else "#"
  }

  /** `node.fields?.newTab || node.newTab` */
  function LinkNewTab(n: Node): bool {
    (n.fields.Some? && n.fields.value.newTab) || n.newTab
  }

  /** The attributes are laid out with fixed spaces, present or not. */
  function LinkHtml(href: string, newTab: bool, inner: string): (r: string)
    ensures |r| >= |href| + |inner| + 15 && r[|r| - 4..] == "</a>"
  {
    var target := if newTab then "target=\"_blank\"" else "";
    var rel := if newTab then "rel=\"noopener noreferrer\"" else "";
    "<a href=\"" + href + "\" " + target + " " + rel + ">" + inner + "</a>"
  }

  /** The opening tags of a text node's format, outermost (code) first ... */
  function HtmlOpen(f: Flags): string {
    (if f.code then "<code>" else "") + (if f.underline then "<u>" else "")
    + (if f.strikethrough then "<s>" else "") + (if f.italic then "<em>" else "")
    + (if f.bold then "<strong>" else "")
  }

  /** ... and its closing tags, innermost (bold) first. */
  function HtmlClose(f: Flags): string {
    (if f.bold then "</strong>" else "") + (if f.italic then "</em>" else "")
    + (if f.strikethrough then "</s>" else "") + (if f.underline then "</u>" else "")
    + (if f.code then "</code>" else "")
  }

  /**
    A text node: when the format is non-zero, strong, em, s, u and code wrap the text one
    after the other, each around the previous result. A non-zero format whose five low
    bits are clear leaves the text as it is, exactly like format 0.
  */
  function HtmlText(text: string, format: int): (r: string)
    ensures r == HtmlOpen(DecodeFormat(format)) + text + HtmlClose(DecodeFormat(format))
  {
    if format == 0 then
      assert DecodeFormat(0) == Flags(false, false, false, false, false);
      assert text == "" + text + "";
      text
    else HtmlWrap(text, DecodeFormat(format))
  }

  function HtmlWrap(text: string, f: Flags): (r: string)
    ensures r == HtmlOpen(f) + text + HtmlClose(f)
  {
    var bold := if f.bold then "<strong>" + text + "</strong>" else text;
    var italic := if f.italic then "<em>" + bold + "</em>" else bold;
    var strike := if f.strikethrough then "<s>" + italic + "</s>" else italic;
    var underline := if f.underline then "<u>" + strike + "</u>" else strike;
    var code := if f.code then "<code>" + underline + "</code>" else underline;
    var ob, oi, os, ou, oc :=
      (if f.bold then "<strong>" else ""), (if f.italic then "<em>" else ""), (if f.strikethrough then "<s>" else ""),
      (if f.underline then "<u>" else ""), (if f.code then "<code>" else "");
    var cb, ci, cs, cu, cc :=
      (if f.bold then "</strong>" else ""), (if f.italic then "</em>" else ""), (if f.strikethrough then "</s>" else ""),
      (if f.underline then "</u>" else ""), (if f.code then "</code>" else "");
    assert bold == ob + text + cb && italic == oi + bold + ci && strike == os + italic + cs;
    assert underline == ou + strike + cu && code == oc + underline + cc;
    FiveLayers(text, ob, oi, os, ou, oc, cb, ci, cs, cu, cc, bold, italic, strike, underline, code);
    code
  }

  lemma FiveLayers(t: string, o1: string, o2: string, o3: string, o4: string, o5: string,
                   c1: string, c2: string, c3: string, c4: string, c5: string,
                   w1: string, w2: string, w3: string, w4: string, w5: string)
    requires w1 == o1 + t + c1 && w2 == o2 + w1 + c2 && w3 == o3 + w2 + c3
    requires w4 == o4 + w3 + c4 && w5 == o5 + w4 + c5
    ensures w5 == (o5 + o4 + o3 + o2 + o1) + t + (c1 + c2 + c3 + c4 + c5)
  {
  }

  // ---------------------------------------------------------------------------
  // Properties of the tree walk

  /** Serialisation is compositional: the HTML of a + b is the HTML of a followed by that of b. */
  lemma {:induction false} ProcessNodesAppend(a: seq<Node>, b: seq<Node>)
    ensures ProcessNodes(a + b) == ProcessNodes(a) + ProcessNodes(b)
    decreases |a|
  {
    if a == [] {
      assert a + b == b;
    } else {
      ProcessNodesAppend(a[1..], b);
      AppendStep(a, b);
    }
  }

  lemma AppendStep(a: seq<Node>, b: seq<Node>)
    requires a != [] && ProcessNodes(a[1..] + b) == ProcessNodes(a[1..]) + ProcessNodes(b)
    ensures ProcessNodes(a + b) == ProcessNodes(a) + ProcessNodes(b)
  {
    FirstOfAppend(a, b);
    FirstNode(a);
    Regroup(ProcessNode(a[0]), ProcessNodes(a[1..]), ProcessNodes(b));
  }

  /** The first node of a + b is the first node of a. */
  lemma FirstOfAppend(a: seq<Node>, b: seq<Node>)
    requires a != []
    ensures ProcessNodes(a + b) == ProcessNode(a[0]) + ProcessNodes(a[1..] + b)
  {
    assert (a + b)[0] == a[0] && (a + b)[1..] == a[1..] + b;
    FirstNode(a + b);
  }

  lemma Regroup(h: string, t: string, u: string)
    ensures h + (t + u) == (h + t) + u
  {
  }

  lemma FirstNode(ns: seq<Node>)
    requires ns != []
    ensures ProcessNodes(ns) == ProcessNode(ns[0]) + ProcessNodes(ns[1..])
  {
  }

  // The element each kind of node becomes, around the concatenated HTML of its children.

  lemma ParagraphHtml(n: Node)
    requires n.kind == Paragraph
    ensures ProcessNode(n) == "<p>" + ChildrenHtml(n) + "</p>"
  {
    ElementTags("p", ChildrenHtml(n), "<p>", "</p>");
  }

  /** The heading's own tag names the element, h2 when it has none. */
  lemma HeadingHtml(n: Node)
    requires n.kind == Heading
    ensures var t := if n.tag == "" then "h2" else n.tag;
      ProcessNode(n) == "<" + t + ">" + ChildrenHtml(n) + "</" + t + ">"
  {
  }

  lemma ListHtml(n: Node)
    requires n.kind == List
    ensures n.listType == "number" ==> ProcessNode(n) == "<ol>" + ChildrenHtml(n) + "</ol>"
    ensures n.listType != "number" ==> ProcessNode(n) == "<ul>" + ChildrenHtml(n) + "</ul>"
  {
    ElementTags("ol", ChildrenHtml(n), "<ol>", "</ol>");
    ElementTags("ul", ChildrenHtml(n), "<ul>", "</ul>");
  }

  lemma ListItemHtml(n: Node)
    requires n.kind == ListItem
    ensures ProcessNode(n) == "<li>" + ChildrenHtml(n) + "</li>"
  {
    ElementTags("li", ChildrenHtml(n), "<li>", "</li>");
  }

  lemma QuoteHtml(n: Node)
    requires n.kind == Quote
    ensures ProcessNode(n) == "<blockquote>" + ChildrenHtml(n) + "</blockquote>"
  {
    ElementTags("blockquote", ChildrenHtml(n), "<blockquote>", "</blockquote>");
  }

  /** A code node's language is not shown. */
  lemma CodeHtml(n: Node)
    requires n.kind == Code
    ensures ProcessNode(n) == "<pre><code>" + ChildrenHtml(n) + "</code></pre>"
    ensures ProcessNode(n) == ProcessNode(n.(language := ""))
  {
  }

  lemma BreakAndRuleHtml(n: Node)
    requires n.kind == LineBreak || n.kind == HorizontalRule
    ensures ProcessNode(n) == if n.kind == LineBreak then "<br>" else "<hr>"
  {
  }

  /** The root and any node of an unknown type are exactly their children's HTML. */
  lemma TransparentHtml(n: Node)
    requires n.kind == Root || n.kind.Unknown?
    ensures ProcessNode(n) == ChildrenHtml(n)
    ensures n.hasChildren ==> ProcessNode(n) == ProcessNodes(n.children)
    ensures !n.hasChildren ==> ProcessNode(n) == ""
  {
  }

  lemma ElementTags(tag: string, inner: string, open: string, close: string)
    requires open == "<" + tag + ">" && close == "</" + tag + ">"
    ensures Element(tag, inner) == open + inner + close
  {
  }

  /** Text, line break and horizontal rule nodes never show their children. */
  lemma ChildrenIgnored(n: Node, hasChildren: bool, children: seq<Node>)
    requires n.kind == Text || n.kind == LineBreak || n.kind == HorizontalRule
    ensures ProcessNode(n.(hasChildren := hasChildren, children := children)) == ProcessNode(n)
  {
  }

  // ---------------------------------------------------------------------------
  // What a reader sees: the output with its tags removed is the tree's text

  /**
    The characters of `s` that lie outside tags, scanning from state `inTag`:
    a '<' opens a tag and the next '>' closes it.
  */
  function Strip(s: string, inTag: bool): string {
    if s == [] then []
    else if inTag then Strip(s[1..], s[0] != '>')
    else if s[0] == '<' then Strip(s[1..], true)
    else [s[0]] + Strip(s[1..], false)
  }

  /** The scanning state after `s`. */
  function After(s: string, inTag: bool): bool {
    if s == [] then inTag
    else if inTag then After(s[1..], s[0] != '>')
    else After(s[1..], s[0] == '<')
  }

  lemma {:induction false} StripAppend(a: string, b: string, inTag: bool)
    ensures Strip(a + b, inTag) == Strip(a, inTag) + Strip(b, After(a, inTag))
    ensures After(a + b, inTag) == After(b, After(a, inTag))
    decreases |a|
  {
    if a == [] {
      assert a + b == b;
    } else {
      assert (a + b)[0] == a[0] && (a + b)[1..] == a[1..] + b;
      var next := if inTag then a[0] != '>' else a[0] == '<';
      StripAppend(a[1..], b, next);
    }
  }

  /** Text outside any tag that holds no '<' is shown as it is. */
  lemma {:induction false} StripPlain(t: string)
    requires '<' !in t
    ensures Strip(t, false) == t && !After(t, false)
    decreases |t|
  {
    if t != [] {
      StripPlain(t[1..]);
    }
  }

  /** Inside a tag, anything without '>' is hidden and the tag stays open. */
  lemma {:induction false} StripInside(t: string)
    requires '>' !in t
    ensures Strip(t, true) == [] && After(t, true)
    decreases |t|
  {
    if t != [] {
      StripInside(t[1..]);
    }
  }

  /** Markup: shows nothing and leaves the scanner outside a tag. */
  predicate Markup(s: string) {
    Strip(s, false) == [] && !After(s, false)
  }

  lemma TagMarkup(name: string)
    requires '>' !in name
    ensures Markup("<" + name + ">")
  {
    StripInside(name);
    StripAppend("<" + name, ">", false);
    StripAppend("<", name, false);
  }

  lemma MarkupConcat(a: string, b: string)
    requires Markup(a) && Markup(b)
    ensures Markup(a + b)
  {
    StripAppend(a, b, false);
  }

  /** Markup around a closed piece of HTML adds nothing to what is shown. */
  lemma Around(open: string, x: string, close: string)
    requires Markup(open) && Markup(close) && !After(x, false)
    ensures Strip(open + x + close, false) == Strip(x, false) && !After(open + x + close, false)
  {
    StripAppend(open, x, false);
    StripAppend(open + x, close, false);
  }

  lemma ElementStrip(tag: string, inner: string)
    requires '>' !in tag && !After(inner, false)
    ensures Strip(Element(tag, inner), false) == Strip(inner, false) && !After(Element(tag, inner), false)
  {
    TagMarkup(tag);
    TagMarkup("/" + tag);
    assert Element(tag, inner) == ("<" + tag + ">") + inner + ("<" + ("/" + tag) + ">");
    Around("<" + tag + ">", inner, "<" + ("/" + tag) + ">");
  }

  lemma CodeStrip(inner: string)
    requires !After(inner, false)
    ensures var h := "<pre><code>" + inner + "</code></pre>";
      Strip(h, false) == Strip(inner, false) && !After(h, false)
  {
    CodeBlockTags();
    Around("<pre><code>", inner, "</code></pre>");
  }

  /** The opening tag of a link, between its '<' and '>'. */
  function LinkAttributes(href: string, newTab: bool): string {
    var target := if newTab then "target=\"_blank\"" else "";
    var rel := if newTab then "rel=\"noopener noreferrer\"" else "";
    "a href=\"" + href + "\" " + target + " " + rel
  }

  lemma LinkShape(href: string, newTab: bool, inner: string)
    ensures LinkHtml(href, newTab, inner) == ("<" + LinkAttributes(href, newTab) + ">") + inner + "</a>"
    ensures '>' !in href ==> '>' !in LinkAttributes(href, newTab)
  {
    var target := if newTab then "target=\"_blank\"" else "";
    var rel := if newTab then "rel=\"noopener noreferrer\"" else "";
    var pre := "a href=\"" + href + "\" " + target + " " + rel;
    assert '>' !in target && '>' !in rel;
    assert "<a href=\"" + href + "\" " + target + " " + rel == "<" + pre;
  }

  lemma LinkStrip(href: string, newTab: bool, inner: string)
    requires '>' !in href && !After(inner, false)
    ensures Strip(LinkHtml(href, newTab, inner), false) == Strip(inner, false)
    ensures !After(LinkHtml(href, newTab, inner), false)
  {
    LinkShape(href, newTab, inner);
    TagMarkup(LinkAttributes(href, newTab));
    Tag("/a", "</a>");
    Around("<" + LinkAttributes(href, newTab) + ">", inner, "</a>");
  }

  lemma Tag(name: string, tag: string)
    requires '>' !in name && tag == "<" + name + ">"
    ensures Markup(tag)
  {
    TagMarkup(name);
  }

  /** The opening and closing tags of each format are markup. */
  lemma StrongTags()
    ensures Markup("<strong>") && Markup("</strong>")
  {
    Tag("strong", "<strong>");
    Tag("/strong", "</strong>");
  }

  lemma EmTags()
    ensures Markup("<em>") && Markup("</em>")
  {
    Tag("em", "<em>");
    Tag("/em", "</em>");
  }

  lemma STags()
    ensures Markup("<s>") && Markup("</s>")
  {
    Tag("s", "<s>");
    Tag("/s", "</s>");
  }

  lemma UTags()
    ensures Markup("<u>") && Markup("</u>")
  {
    Tag("u", "<u>");
    Tag("/u", "</u>");
  }

  lemma CodeTags()
    ensures Markup("<code>") && Markup("</code>")
  {
    Tag("code", "<code>");
    Tag("/code", "</code>");
  }

  lemma FormatTags()
    ensures Markup("<strong>") && Markup("<em>") && Markup("<s>") && Markup("<u>") && Markup("<code>")
    ensures Markup("</strong>") && Markup("</em>") && Markup("</s>") && Markup("</u>") && Markup("</code>")
  {
    StrongTags();
    EmTags();
    STags();
    UTags();
    CodeTags();
  }

  lemma PreTags()
    ensures Markup("<pre>") && Markup("</pre>")
  {
    Tag("pre", "<pre>");
    Tag("/pre", "</pre>");
  }

  lemma CodeBlockTags()
    ensures Markup("<pre><code>") && Markup("</code></pre>")
  {
    PreTags();
    CodeTags();
    MarkupConcat("<pre>", "<code>");
    MarkupConcat("</code>", "</pre>");
    assert "<pre>" + "<code>" == "<pre><code>";
    assert "</code>" + "</pre>" == "</code></pre>";
  }

  lemma TextStrip(text: string, format: int)
    requires '<' !in text
    ensures Strip(HtmlText(text, format), false) == text && !After(HtmlText(text, format), false)
  {
    var f := DecodeFormat(format);
    FormatTags();
    assert Markup("");
    var o1, o2, o3, o4, o5 := (if f.code then "<code>" else ""), (if f.underline then "<u>" else ""),
      (if f.strikethrough then "<s>" else ""), (if f.italic then "<em>" else ""), (if f.bold then "<strong>" else "");
    var c1, c2, c3, c4, c5 := (if f.bold then "</strong>" else ""), (if f.italic then "</em>" else ""),
      (if f.strikethrough then "</s>" else ""), (if f.underline then "</u>" else ""), (if f.code then "</code>" else "");
    MarkupConcat(o1, o2);
    MarkupConcat(o1 + o2, o3);
    MarkupConcat(o1 + o2 + o3, o4);
    MarkupConcat(o1 + o2 + o3 + o4, o5);
    MarkupConcat(c1, c2);
    MarkupConcat(c1 + c2, c3);
    MarkupConcat(c1 + c2 + c3, c4);
    MarkupConcat(c1 + c2 + c3 + c4, c5);
    StripPlain(text);
    Around(HtmlOpen(f), text, HtmlClose(f));
  }

  /** The text a reader sees: text nodes in document order; line breaks and rules show none. */
  function VisibleText(n: Node): string
    decreases n, 1
  {
    if n.kind == Text then n.text
    else if n.kind == LineBreak || n.kind == HorizontalRule then ""
    else if n.hasChildren then VisibleTexts(n.children)
    else ""
  }

  function VisibleTexts(ns: seq<Node>): string
    decreases ns, 0
  {
    if ns == [] then "" else VisibleText(ns[0]) + VisibleTexts(ns[1..])
  }

  /** No text holds '<', and no heading tag or link target holds '>': nothing can pass for markup. */
  predicate TagFree(n: Node)
    decreases n
  {
    && (n.kind == Text ==> '<' !in n.text)
    && (n.kind == Heading ==> '>' !in n.tag)
    && (n.kind == Link ==> '>' !in LinkHref(n))
    && forall i :: 0 <= i < |n.children| ==> TagFree(n.children[i])
  }

  /** Removing the tags from the HTML of a tag-free tree leaves exactly its visible text. */
  lemma {:induction false} StripNode(n: Node)
    requires TagFree(n)
    ensures Strip(ProcessNode(n), false) == VisibleText(n)
    ensures !After(ProcessNode(n), false)
    decreases n, 1
  {
    if n.kind == Text {
      TextStrip(n.text, n.format);
    } else {
      if n.hasChildren {
        StripNodes(n.children);
      }
      StripShell(n);
    }
  }

  /** One level of the tree: the markup a non-text node adds around its children's HTML shows nothing. */
  lemma StripShell(n: Node)
    requires n.kind != Text && TagFree(n) && !After(ChildrenHtml(n), false)
    ensures Strip(ProcessNode(n), false)
         == if n.kind == LineBreak || n.kind == HorizontalRule then "" else Strip(ChildrenHtml(n), false)
    ensures !After(ProcessNode(n), false)
  {
    var inner := ChildrenHtml(n);
    match n.kind
    case Root =>
    case Paragraph => ElementStrip("p", inner);
    case Heading => ElementStrip(HeadingTag(n.tag), inner);
    case List => ElementStrip(ListTag(n.listType), inner);
    case ListItem => ElementStrip("li", inner);
    case Quote => ElementStrip("blockquote", inner);
    case Code => CodeStrip(inner);
    case Link => LinkStrip(LinkHref(n), LinkNewTab(n), inner);
    case LineBreak => Tag("br", "<br>");
    case HorizontalRule => Tag("hr", "<hr>");
    case Unknown(_) =>
  }

  lemma {:induction false} StripNodes(ns: seq<Node>)
    requires forall i :: 0 <= i < |ns| ==> TagFree(ns[i])
    ensures Strip(ProcessNodes(ns), false) == VisibleTexts(ns)
    ensures !After(ProcessNodes(ns), false)
    decreases ns, 0
  {
    if ns != [] {
      StripNode(ns[0]);
      StripNodes(ns[1..]);
      StripAppend(ProcessNode(ns[0]), ProcessNodes(ns[1..]), false);
    }
  }

  // ---------------------------------------------------------------------------
  // Worked examples

  /** Mask 3: bold is applied first, so it ends up inside italic. */
  lemma BoldItalicExample()
    ensures HtmlText("x", 3) == "<em><strong>x</strong></em>"
  {
    assert DecodeFormat(3) == Flags(true, true, false, false, false);
  }

  /** A third-level heading around one text node keeps its tag. */
  lemma HeadingHtmlExample()
    ensures ProcessNode(WithChildren(Blank(Heading).(tag := "h3"), [TextNode("Title")])) == "<h3>Title</h3>"
  {
    var n := WithChildren(Blank(Heading).(tag := "h3"), [TextNode("Title")]);
    PlainHtml("Title");
    OneChild(n);
  }

  /** A numbered list of two items, each holding one text node. */
  lemma ListHtmlExample()
    ensures ProcessNode(WithChildren(Blank(List).(listType := "number"),
              [WithChildren(Blank(ListItem), [TextNode("a")]), WithChildren(Blank(ListItem), [TextNode("b")])]))
            == "<ol><li>a</li><li>b</li></ol>"
  {
    var a, b := WithChildren(Blank(ListItem), [TextNode("a")]), WithChildren(Blank(ListItem), [TextNode("b")]);
    PlainHtml("a");
    OneChild(a);
    PlainHtml("b");
    OneChild(b);
    TwoChildren(WithChildren(Blank(List).(listType := "number"), [a, b]));
  }

  lemma PlainHtml(t: string)
    ensures ProcessNode(TextNode(t)) == t
  {
    assert DecodeFormat(0) == Flags(false, false, false, false, false);
  }

  lemma OneChild(n: Node)
    requires n.hasChildren && |n.children| == 1
    ensures ChildrenHtml(n) == ProcessNode(n.children[0])
  {
    FirstNode(n.children);
    assert n.children[1..] == [];
    assert ProcessNode(n.children[0]) + "" == ProcessNode(n.children[0]);
  }

  lemma TwoChildren(n: Node)
    requires n.hasChildren && |n.children| == 2
    ensures ChildrenHtml(n) == ProcessNode(n.children[0]) + ProcessNode(n.children[1])
  {
    FirstNode(n.children);
    var rest := n.children[1..];
    FirstNode(rest);
    assert rest[1..] == [];
    assert ProcessNode(rest[0]) + "" == ProcessNode(rest[0]);
  }

  /** Without a new tab the two empty attributes leave two spaces before '>'. */
  lemma LinkSameTabLayout(href: string, inner: string)
    ensures LinkHtml(href, false, inner) == "<a href=\"" + href + "\"  >" + inner + "</a>"
  {
    assert "\" " + "" + " " + "" + ">" == "\"  >";
  }
}
