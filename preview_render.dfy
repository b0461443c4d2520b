/**
  The editor's live preview: a line-by-line scanner that turns Markdown into HTML.
  The text is split at '\n'. Fence lines (three backticks) switch a code block on and
  off, lines inside a code block are copied verbatim, and every other line is a heading,
  an item of a bulleted or numbered list, a paragraph with inline code, a paragraph
  with bold/italic/link substitutions, or a blank line.

  The scanner decides whether to open a list by looking at the end of the HTML built so
  far, and whether to close it by looking at the next line. `Fragment` below states
  the same decisions in terms of the neighbouring lines only, and `PreviewRender`, which
  follows the scanner step by step, is proved to produce exactly the concatenation of
  the fragments.
*/
module PreviewRender {
  import opened JsString
  import opened PreviewInline

  /** The two kinds of list the preview recognises. */
  datatype ListKind = Bulleted | Numbered

  /** How the scanner treats a line, in the order it tests the cases. */
  datatype Block =
    | Fence              // starts with three backticks
    | CodeLine           // inside a code block
    | Heading(level: nat)
    | Item(kind: ListKind)
    | InlineCode         // contains a backtick
    | Para
    | Blank              // whitespace only

  predicate IsFence(line: string) {
    StartsWith(line, "```")
  }

  /** `/^- /` */
  predicate IsBullet(line: string) {
    StartsWith(line, "- ")
  }

  /** `/^\d+\. /`: one or more ASCII digits, a dot and a space. */
  predicate IsNumbered(line: string) {
    var n := DigitRun(line, 10);
    n >= 1 && StartsWith(line[n..], ". ")
  }

  predicate ItemLine(k: ListKind, line: string) {
    match k
    case Bulleted => IsBullet(line)
    case Numbered => IsNumbered(line)
  }

  /** The item's text: the marker removed (`substring(2)`, or the `/^\d+\. /` match replaced by ""). */
  function ItemText(k: ListKind, line: string): string
    requires ItemLine(k, line)
  {
    match k
    case Bulleted => line[2..]
    case Numbered => line[DigitRun(line, 10) + 2..]
  }

  function ListOpen(k: ListKind): string {
    match k
    case Bulleted => "<ul>"
    case Numbered => "<ol>"
  }

  function ListClose(k: ListKind): string {
    match k
    case Bulleted => "</ul>"
    case Numbered => "</ol>"
  }

  /** One list item, preceded by the list's opening tag and followed by its closing tag when asked. */
  function ItemHtml(k: ListKind, opens: bool, text: string, closes: bool): string {
    (if opens then ListOpen(k) else "") + "<li>" + text + "</li>" + (if closes then ListClose(k) else "")
  }

  function HeadingOpen(level: nat): string {
    if level == 3 then "<h3>" else if level == 2 then "<h2>" else "<h1>"
  }

  function HeadingClose(level: nat): string {
    if level == 3 then "</h3>" else if level == 2 then "</h2>" else "</h1>"
  }

  function HeadingHtml(level: nat, text: string): string {
    HeadingOpen(level) + text + HeadingClose(level)
  }

  function ParagraphHtml(text: string): string {
    "<p>" + text + "</p>"
  }

  function CodeOpen(language: string): string {
    "<pre><code class=\"language-" + language + "\">"
  }

  /** Whether a code block is open before line `i`: an odd number of fence lines precede it. */
  predicate InCode(lines: seq<string>, i: nat)
    requires i <= |lines|
  {
    if i == 0 then false
    else if IsFence(lines[i - 1]) then !InCode(lines, i - 1)
    else InCode(lines, i - 1)
  }

  /** The branch the scanner takes for line `i`. */
  function Classify(lines: seq<string>, i: nat): (b: Block)
    requires i < |lines|
    ensures b.Item? ==> ItemLine(b.kind, lines[i])
    ensures b.Heading? ==> 1 <= b.level <= 3 && StartsWith(lines[i], Repeat('#', b.level) + " ")
  {
    var line := lines[i];
    if IsFence(line) then Fence
    else if InCode(lines, i) then CodeLine
    else if StartsWith(line, "### ") then (assert Repeat('#', 3) + " " == "### "; Heading(3))
    else if StartsWith(line, "## ") then (assert Repeat('#', 2) + " " == "## "; Heading(2))
    else if StartsWith(line, "# ") then (assert Repeat('#', 1) + " " == "# "; Heading(1))
    else if IsBullet(line) then Item(Bulleted)
    else if IsNumbered(line) then Item(Numbered)
    else if '`' in line then InlineCode
    else if !AllSpace(line) then Para
    else Blank
  }

  /**
    The HTML for line `i`. A list is opened unless the previous line is an item of the
    same kind, and closed unless the next line is one.
  */
  function Fragment(lines: seq<string>, i: nat): (r: string)
    requires i < |lines|
  {
    var line := lines[i];
    match Classify(lines, i)
    case Fence => if InCode(lines, i) then "</code></pre>" else CodeOpen(Trim(line[3..]))
    case CodeLine => line + "\n"
    case Heading(level) => HeadingHtml(level, line[level + 1..])
    case Item(k) =>
      ItemHtml(k, !(i > 0 && ItemLine(k, lines[i - 1])), ItemText(k, line), !(i + 1 < |lines| && ItemLine(k, lines[i + 1])))
    case InlineCode =>
      var processed := ReplaceAll(CodeSpan, line);
      if processed != [] then ParagraphHtml(processed) else ""
    case Para => ParagraphHtml(Inline(line))
    case Blank => "<br>"
  }

  /** The HTML for the first `n` lines. */
  function RenderLines(lines: seq<string>, n: nat): string
    requires n <= |lines|
  {
    if n == 0 then "" else RenderLines(lines, n - 1) + Fragment(lines, n - 1)
  }

  /** The preview of a whole text. */
  function Render(text: string): (r: string)
    ensures '\n' !in text ==> r == Fragment([text], 0)
  {
    OneLine(text);
    var lines := Split(text, '\n');
    RenderLines(lines, |lines|)
  }

  /** A text without a newline is one line, rendered by its own fragment. */
  lemma OneLine(text: string)
    ensures '\n' !in text ==> Split(text, '\n') == [text] && RenderLines([text], 1) == Fragment([text], 0)
  {
    if '\n' !in text {
      SplitNoSepPrefix(text, "", '\n');
      assert text + "" == text;
    }
  }

  /** Line `j` is a list item and line `j + 1` continues its list, so the list is still open. */
  predicate OpenItem(lines: seq<string>, j: nat)
    requires j < |lines|
  {
    var b := Classify(lines, j);
    j + 1 < |lines| && b.Item? && ItemLine(b.kind, lines[j + 1])
  }

  // ---------------------------------------------------------------------------
  // The scanner

  /** `previewRender`: one pass over the lines, carrying the HTML so far and the code-block flag. */
  method PreviewRender(text: string) returns (html: string)
    ensures html == Render(text)
  {
    var lines := Split(text, '\n');
    html := "";
    var inCodeBlock := false;
    for i := 0 to |lines|
      invariant html == RenderLines(lines, i)
      invariant inCodeBlock == InCode(lines, i)
    {
      html, inCodeBlock := ScanLine(lines, i, html, inCodeBlock);
    }
  }

  /**
    One iteration of the loop. A fence line toggles the code block, and a line inside a
    code block is copied; both end the iteration early. Any other line goes to `AppendLine`.
  */
  method ScanLine(lines: seq<string>, i: nat, html: string, inCodeBlock: bool) returns (result: string, inCode: bool)
    requires i < |lines| && html == RenderLines(lines, i) && inCodeBlock == InCode(lines, i)
    ensures result == RenderLines(lines, i + 1) && inCode == InCode(lines, i + 1)
  {
    var line := lines[i];
    if StartsWith(line, "```") {
      if inCodeBlock {
        result := html + "</code></pre>";
        inCode := false;
        FenceCloseStep(lines, i, html, result);
      } else {
        var codeLanguage := Trim(line[3..]);
        result := html + "<pre><code class=\"language-" + codeLanguage + "\">";
        inCode := true;
        FenceOpenStep(lines, i, html, result);
      }
      return;
    }
    inCode := inCodeBlock;
    if inCodeBlock {
      result := html + line + "\n";
      CodeLineStep(lines, i, html, result);
      return;
    }
    result := AppendLine(lines, i, html);
  }

  /** Lines outside code blocks: headings, list items, paragraphs and blank lines. */
  method AppendLine(lines: seq<string>, i: nat, html: string) returns (result: string)
    requires i < |lines| && !IsFence(lines[i]) && !InCode(lines, i) && html == RenderLines(lines, i)
    ensures result == RenderLines(lines, i + 1)
  {
    var line := lines[i];
    ghost var before := html;
    result := html;
    if StartsWith(line, "### ") {
      result := result + "<h3>" + line[4..] + "</h3>";
      HeadingStep(lines, i, 3, before, result);
    } else if StartsWith(line, "## ") {
      result := result + "<h2>" + line[3..] + "</h2>";
      HeadingStep(lines, i, 2, before, result);
    } else if StartsWith(line, "# ") {
      result := result + "<h1>" + line[2..] + "</h1>";
      HeadingStep(lines, i, 1, before, result);
    } else if IsBullet(line) {
      result := AppendItem(lines, i, Bulleted, html);
    } else if IsNumbered(line) {
      result := AppendItem(lines, i, Numbered, html);
    } else if '`' in line {
      var processed := ReplaceAll(CodeSpan, line);
      result := result + (if processed != [] then "<p>" + processed + "</p>" else "");
      ParagraphStep(lines, i, before, result);
    } else if !AllSpace(line) {
      var processed := Inline(line);
      result := result + "<p>" + processed + "</p>";
      ParagraphStep(lines, i, before, result);
    } else {
      result := result + "<br>";
      ParagraphStep(lines, i, before, result);
    }
  }

  /**
    A list line: the list is opened unless the HTML so far ends with an item or an opening
    tag, and closed unless the next line is an item of the same kind.
  */
  method AppendItem(lines: seq<string>, i: nat, k: ListKind, html: string) returns (result: string)
    requires i < |lines| && !InCode(lines, i) && ItemLine(k, lines[i]) && html == RenderLines(lines, i)
    ensures result == RenderLines(lines, i + 1)
  {
    OpenTest(lines, i, k, html);
    var opens := !EndsWith(html, "</li>") && !EndsWith(html, ListOpen(k));
    result := html;
    if opens {
      result := result + ListOpen(k);
    }
    ghost var withOpen := result;
    var text := ItemText(k, lines[i]);
    result := result + "<li>" + text + "</li>";
    ghost var item := result;
    var closes := i == |lines| - 1 || !ItemLine(k, lines[i + 1]);
    if closes {
      result := result + ListClose(k);
    }
    ItemStep(lines, i, k, opens, closes, html, withOpen, item, result);
  }

  // ---------------------------------------------------------------------------
  // One step of the scanner for each kind of line

  lemma FenceCloseStep(lines: seq<string>, i: nat, before: string, after: string)
    requires i < |lines| && IsFence(lines[i]) && InCode(lines, i) && before == RenderLines(lines, i)
    requires after == before + "</code></pre>"
    ensures after == RenderLines(lines, i + 1) && !InCode(lines, i + 1)
  {
    Extend(lines, i, before, "</code></pre>");
  }

  lemma FenceOpenStep(lines: seq<string>, i: nat, before: string, after: string)
    requires i < |lines| && IsFence(lines[i]) && !InCode(lines, i) && before == RenderLines(lines, i)
    requires after == before + "<pre><code class=\"language-" + Trim(lines[i][3..]) + "\">"
    ensures after == RenderLines(lines, i + 1) && InCode(lines, i + 1)
  {
    var language := Trim(lines[i][3..]);
    Concat3(before, "<pre><code class=\"language-", language, "\">");
    Extend(lines, i, before, CodeOpen(language));
  }

  lemma CodeLineStep(lines: seq<string>, i: nat, before: string, after: string)
    requires i < |lines| && !IsFence(lines[i]) && InCode(lines, i) && before == RenderLines(lines, i)
    requires after == before + lines[i] + "\n"
    ensures after == RenderLines(lines, i + 1) && InCode(lines, i + 1)
  {
    Extend(lines, i, before, lines[i] + "\n");
  }

  lemma HeadingStep(lines: seq<string>, i: nat, level: nat, before: string, after: string)
    requires i < |lines| && !IsFence(lines[i]) && !InCode(lines, i) && before == RenderLines(lines, i)
    requires level == 3 ==> StartsWith(lines[i], "### ")
    requires level == 2 ==> StartsWith(lines[i], "## ") && !StartsWith(lines[i], "### ")
    requires level == 1 ==> StartsWith(lines[i], "# ") && !StartsWith(lines[i], "### ") && !StartsWith(lines[i], "## ")
    requires 1 <= level <= 3 && after == before + HeadingOpen(level) + lines[i][level + 1..] + HeadingClose(level)
    ensures after == RenderLines(lines, i + 1) && !InCode(lines, i + 1)
  {
    HeadingClassified(lines, i, level);
    var text := lines[i][level + 1..];
    HeadingFragment(lines, i, level);
    Concat3(before, HeadingOpen(level), text, HeadingClose(level));
    Extend(lines, i, before, HeadingHtml(level, text));
  }

  lemma HeadingClassified(lines: seq<string>, i: nat, level: nat)
    requires i < |lines| && !IsFence(lines[i]) && !InCode(lines, i)
    requires level == 3 ==> StartsWith(lines[i], "### ")
    requires level == 2 ==> StartsWith(lines[i], "## ") && !StartsWith(lines[i], "### ")
    requires level == 1 ==> StartsWith(lines[i], "# ") && !StartsWith(lines[i], "### ") && !StartsWith(lines[i], "## ")
    requires 1 <= level <= 3
    ensures Classify(lines, i) == Heading(level)
  {
  }

  lemma HeadingFragment(lines: seq<string>, i: nat, level: nat)
    requires i < |lines| && Classify(lines, i) == Heading(level)
    ensures Fragment(lines, i) == HeadingHtml(level, lines[i][level + 1..])
  {
  }

  /** The scanner's test for opening a list, on the HTML so far, is the test on the previous line. */
  lemma OpenTest(lines: seq<string>, i: nat, k: ListKind, h: string)
    requires i < |lines| && !InCode(lines, i) && ItemLine(k, lines[i]) && h == RenderLines(lines, i)
    ensures Classify(lines, i) == Item(k)
    ensures (!EndsWith(h, "</li>") && !EndsWith(h, ListOpen(k))) <==> !(i > 0 && ItemLine(k, lines[i - 1]))
  {
    ItemClassified(lines, i, k);
    RenderEnd(lines, i);
    PreviousItem(lines, i, k);
  }

  lemma ItemStep(lines: seq<string>, i: nat, k: ListKind, opens: bool, closes: bool,
                  before: string, withOpen: string, item: string, after: string)
    requires i < |lines| && Classify(lines, i) == Item(k) && before == RenderLines(lines, i)
    requires opens <==> !(i > 0 && ItemLine(k, lines[i - 1]))
    requires closes <==> !(i + 1 < |lines| && ItemLine(k, lines[i + 1]))
    requires withOpen == if opens then before + ListOpen(k) else before
    requires item == withOpen + "<li>" + ItemText(k, lines[i]) + "</li>"
    requires after == if closes then item + ListClose(k) else item
    ensures after == RenderLines(lines, i + 1) && !InCode(lines, i + 1)
  {
    var text := ItemText(k, lines[i]);
    var open := if opens then ListOpen(k) else "";
    var close := if closes then ListClose(k) else "";
    assert withOpen == before + open;
    assert after == item + close;
    ItemFragment(lines, i, k, opens, closes);
    Concat5(before, open, "<li>", text, "</li>", close);
    Extend(lines, i, before, ItemHtml(k, opens, text, closes));
  }

  lemma ItemFragment(lines: seq<string>, i: nat, k: ListKind, opens: bool, closes: bool)
    requires i < |lines| && Classify(lines, i) == Item(k)
    requires opens <==> !(i > 0 && ItemLine(k, lines[i - 1]))
    requires closes <==> !(i + 1 < |lines| && ItemLine(k, lines[i + 1]))
    ensures Fragment(lines, i) == ItemHtml(k, opens, ItemText(k, lines[i]), closes)
  {
  }

  lemma ParagraphStep(lines: seq<string>, i: nat, before: string, after: string)
    requires i < |lines| && before == RenderLines(lines, i)
    requires Classify(lines, i) == InlineCode || Classify(lines, i) == Para || Classify(lines, i) == Blank
    requires Classify(lines, i) == InlineCode ==>
      var processed := ReplaceAll(CodeSpan, lines[i]);
      after == before + (if processed != [] then "<p>" + processed + "</p>" else "")
    requires Classify(lines, i) == Para ==> after == before + "<p>" + Inline(lines[i]) + "</p>"
    requires Classify(lines, i) == Blank ==> after == before + "<br>"
    ensures after == RenderLines(lines, i + 1) && !InCode(lines, i + 1)
  {
    var line := lines[i];
    match Classify(lines, i)
    case InlineCode =>
      var processed := ReplaceAll(CodeSpan, line);
      var f := if processed != [] then "<p>" + processed + "</p>" else "";
      assert Fragment(lines, i) == f;
      Extend(lines, i, before, f);
    case Para =>
      assert Fragment(lines, i) == ParagraphHtml(Inline(line));
      Concat3(before, "<p>", Inline(line), "</p>");
      Extend(lines, i, before, ParagraphHtml(Inline(line)));
    case Blank =>
      assert Fragment(lines, i) == "<br>";
      Extend(lines, i, before, "<br>");
  }

  /** Appending the fragment of line `i` to the HTML of the lines before it. */
  lemma Extend(lines: seq<string>, i: nat, before: string, f: string)
    requires i < |lines| && before == RenderLines(lines, i) && Fragment(lines, i) == f
    ensures before + f == RenderLines(lines, i + 1)
    ensures InCode(lines, i + 1) == (InCode(lines, i) != IsFence(lines[i]))
  {
  }

  lemma Concat3(a: string, b: string, c: string, d: string)
    ensures a + b + c + d == a + (b + c + d)
  {
  }

  lemma Concat2(a: string, b: string, c: string)
    ensures a + b + c == a + (b + c)
  {
  }

  lemma Concat5(a: string, b: string, c: string, d: string, e: string, f: string)
    ensures a + b + c + d + e + f == a + (b + c + d + e + f)
  {
  }

  // ---------------------------------------------------------------------------
  // Why the end of the HTML tells the scanner what the previous line was

  /** A list line is neither a fence nor a heading, and a numbered line is not a bullet. */
  lemma ItemLineShape(k: ListKind, line: string)
    requires ItemLine(k, line)
    ensures !IsFence(line) && !StartsWith(line, "### ") && !StartsWith(line, "## ") && !StartsWith(line, "# ")
    ensures k == Numbered ==> !IsBullet(line)
    ensures k == Bulleted ==> !IsNumbered(line)
  {
    assert line[0] == (if k == Bulleted then '-' else line[0]);
    if k == Numbered {
      assert IsDigit(line[0]);
    } else {
      assert DigitRun(line, 10) == 0;
    }
  }

  /** Outside a code block an item line is classified as an item of its own kind. */
  lemma ItemClassified(lines: seq<string>, i: nat, k: ListKind)
    requires i < |lines| && !InCode(lines, i) && ItemLine(k, lines[i])
    ensures Classify(lines, i) == Item(k)
  {
    ItemLineShape(k, lines[i]);
  }

  /**
    For an item on line `i`, the list is still open after line `i - 1` exactly when
    line `i - 1` is an item of the same kind.
  */
  lemma PreviousItem(lines: seq<string>, i: nat, k: ListKind)
    requires i < |lines| && Classify(lines, i) == Item(k)
    ensures i > 0 ==> (OpenItem(lines, i - 1) <==> ItemLine(k, lines[i - 1]))
  {
    if i > 0 {
      ItemLineShape(k, lines[i]);
      if ItemLine(k, lines[i - 1]) {
        ItemLineShape(k, lines[i - 1]);
        ItemClassified(lines, i - 1, k);
      }
      if OpenItem(lines, i - 1) {
        var k' := Classify(lines, i - 1).kind;
        ItemLineShape(k', lines[i]);
      }
    }
  }

  /**
    The HTML for the first `i` lines ends with "</li>" exactly when line `i - 1` is a list
    item whose list continues on line `i`, and it never ends with an opening list tag.
  */
  lemma RenderEnd(lines: seq<string>, i: nat)
    requires i <= |lines|
    ensures EndsWith(RenderLines(lines, i), "</li>") <==> i > 0 && OpenItem(lines, i - 1)
    ensures !EndsWith(RenderLines(lines, i), "<ul>") && !EndsWith(RenderLines(lines, i), "<ol>")
  {
    if i > 0 {
      RenderEndAfter(lines, i - 1);
    }
  }

  lemma RenderEndAfter(lines: seq<string>, j: nat)
    requires j < |lines|
    ensures EndsWith(RenderLines(lines, j + 1), "</li>") <==> OpenItem(lines, j)
    ensures !EndsWith(RenderLines(lines, j + 1), "<ul>") && !EndsWith(RenderLines(lines, j + 1), "<ol>")
  {
    var p, c := LastClosing(lines, j);
    SuffixTests(RenderLines(lines, j + 1), p, c);
  }

  /** The HTML for the lines up to `j` ends with the closing string of line `j`. */
  lemma LastClosing(lines: seq<string>, j: nat) returns (p: string, c: Closing)
    requires j < |lines|
    ensures RenderLines(lines, j + 1) == p + ClosingText(c)
    ensures c == ItemClose <==> OpenItem(lines, j)
  {
    var q;
    q, c := FragmentSuffix(lines, j);
    RenderStep(lines, j, q, ClosingText(c));
    p := RenderLines(lines, j) + q;
  }

  /** The closing strings a fragment can end with. */
  datatype Closing = PreClose | AttributeEnd | Newline | HeadingEnd(level: nat) | ItemClose | ListEnd(kind: ListKind) | ParagraphClose | Break

  function ClosingText(c: Closing): string {
    match c
    case PreClose => "</code></pre>"
    case AttributeEnd => "\">"
    case Newline => "\n"
    case HeadingEnd(level) => HeadingClose(level)
    case ItemClose => "</li>"
    case ListEnd(k) => ListClose(k)
    case ParagraphClose => "</p>"
    case Break => "<br>"
  }

  /** Appending one fragment, seen as a prefix and a tail. */
  lemma RenderStep(lines: seq<string>, j: nat, p: string, s: string)
    requires j < |lines| && Fragment(lines, j) == p + s
    ensures RenderLines(lines, j + 1) == (RenderLines(lines, j) + p) + s
  {
  }

  /** Every fragment ends with a closing string, "</li>" exactly when its list stays open. */
  lemma FragmentSuffix(lines: seq<string>, j: nat) returns (p: string, c: Closing)
    requires j < |lines|
    ensures Fragment(lines, j) == p + ClosingText(c)
    ensures c == ItemClose <==> OpenItem(lines, j)
  {
    hide InCode, ItemLine, ItemText, Inline, ReplaceAll, Trim, IsBullet, IsNumbered, AllSpace;
    var line := lines[j];
    match Classify(lines, j)
    case Fence =>
      if InCode(lines, j) {
        p, c := "", PreClose;
      } else {
        p := CodeOpenSuffix(Trim(line[3..]));
        c := AttributeEnd;
      }
    case CodeLine =>
      p, c := line, Newline;
    case Heading(level) =>
      p := HeadingSuffix(level, line[level + 1..]);
      c := HeadingEnd(level);
    case Item(k) =>
      p, c := ItemSuffix(k, !(j > 0 && ItemLine(k, lines[j - 1])), ItemText(k, line), !(j + 1 < |lines| && ItemLine(k, lines[j + 1])));
    case InlineCode =>
      ReplaceAllGrows(CodeSpan, line);
      p := ParagraphSuffix(ReplaceAll(CodeSpan, line));
      c := ParagraphClose;
    case Para =>
      p := ParagraphSuffix(Inline(line));
      c := ParagraphClose;
    case Blank =>
      p, c := "", Break;
  }

  lemma CodeOpenSuffix(language: string) returns (p: string)
    ensures CodeOpen(language) == p + ClosingText(AttributeEnd)
  {
    p := "<pre><code class=\"language-" + language;
  }

  lemma HeadingSuffix(level: nat, text: string) returns (p: string)
    ensures HeadingHtml(level, text) == p + ClosingText(HeadingEnd(level))
  {
    p := HeadingOpen(level) + text;
  }

  lemma ParagraphSuffix(text: string) returns (p: string)
    ensures ParagraphHtml(text) == p + ClosingText(ParagraphClose)
  {
    p := "<p>" + text;
  }

  lemma ItemSuffix(k: ListKind, opens: bool, text: string, closes: bool) returns (p: string, c: Closing)
    ensures ItemHtml(k, opens, text, closes) == p + ClosingText(c)
    ensures c == ItemClose <==> !closes
  {
    var open := if opens then ListOpen(k) else "";
    if closes {
      p, c := open + "<li>" + text + "</li>", ListEnd(k);
    } else {
      p, c := open + "<li>" + text, ItemClose;
    }
  }

  /** A string whose `k`-th character from the end differs from `t`'s does not end with `t`. */
  lemma NoSuffix(x: string, t: string, k: nat)
    requires 1 <= k <= |t| && k <= |x| && x[|x| - k] != t[|t| - k]
    ensures !EndsWith(x, t)
  {
  }

  /** `p + s` does not end with "</li>" when the `a`-th character from the end of `s` rules it out. */
  lemma NoItemSuffix(x: string, p: string, s: string, a: nat)
    requires x == p + s && 1 <= a <= |s| && a <= 5 && s[|s| - a] != "</li>"[5 - a]
    ensures !EndsWith(x, "</li>")
  {
    assert x[|x| - a] == s[|s| - a];
    NoSuffix(x, "</li>", a);
  }

  /** `p + s` ends with neither opening list tag when the `b`-th character from the end of `s` rules them out. */
  lemma NoOpenSuffix(x: string, p: string, s: string, b: nat)
    requires x == p + s && 1 <= b <= |s| && b <= 4 && s[|s| - b] != "<ul>"[4 - b] && s[|s| - b] != "<ol>"[4 - b]
    ensures !EndsWith(x, "<ul>") && !EndsWith(x, "<ol>")
  {
    assert x[|x| - b] == s[|s| - b];
    NoSuffix(x, "<ul>", b);
    NoSuffix(x, "<ol>", b);
  }

  /** The three suffix tests the scanner makes on `p + s` are decided by the closing string. */
  lemma SuffixTests(x: string, p: string, c: Closing)
    requires x == p + ClosingText(c)
    ensures EndsWith(x, "</li>") <==> c == ItemClose
    ensures !EndsWith(x, "<ul>") && !EndsWith(x, "<ol>")
  {
    var s := ClosingText(c);
    match c
    case ItemClose =>
      EndsWithConcat(p, s, "</li>");
      NoOpenSuffix(x, p, s, 2);
    case Newline =>
      NoItemSuffix(x, p, s, 1);
      NoOpenSuffix(x, p, s, 1);
    case ListEnd(_) =>
      NoItemSuffix(x, p, s, 2);
      NoOpenSuffix(x, p, s, 4);
    case _ =>
      NoItemSuffix(x, p, s, 2);
      NoOpenSuffix(x, p, s, 2);
  }

  // ---------------------------------------------------------------------------
  // What the preview makes of each kind of line

  /** Lines `a` to `b - 1` copied verbatim, each followed by a newline. */
  function Verbatim(lines: seq<string>, a: nat, b: nat): string
    requires a <= b <= |lines|
    decreases b
  {
    if a == b then "" else Verbatim(lines, a, b - 1) + lines[b - 1] + "\n"
  }

  /**
    From an opening fence on line `i` up to line `j`, with no fence in between: after
    the fence's own HTML come the lines copied verbatim, and the block is still open.
  */
  lemma CodeBlockBody(lines: seq<string>, i: nat, j: nat)
    requires i < j <= |lines| && IsFence(lines[i]) && !InCode(lines, i)
    requires forall x :: i < x < j ==> !IsFence(lines[x])
    ensures RenderLines(lines, j) == RenderLines(lines, i + 1) + Verbatim(lines, i + 1, j)
    ensures InCode(lines, j)
  {
    assert InCode(lines, i + 1);
    CodeRun(lines, i + 1, j);
  }

  /** Lines that are not fences keep an open block open. */
  lemma {:induction false} StaysOpen(lines: seq<string>, a: nat, b: nat)
    requires a <= b <= |lines| && InCode(lines, a)
    requires forall x :: a <= x < b ==> !IsFence(lines[x])
    ensures forall x :: a <= x <= b ==> InCode(lines, x)
    decreases b
  {
    if a < b {
      StaysOpen(lines, a, b - 1);
      assert InCode(lines, b - 1) && !IsFence(lines[b - 1]);
    }
  }

  /** Inside an open block, lines that are not fences are copied verbatim and the block stays open. */
  lemma CodeRun(lines: seq<string>, a: nat, b: nat)
    requires a <= b <= |lines| && InCode(lines, a)
    requires forall x :: a <= x < b ==> !IsFence(lines[x])
    ensures RenderLines(lines, b) == RenderLines(lines, a) + Verbatim(lines, a, b)
    ensures InCode(lines, b)
  {
    StaysOpen(lines, a, b);
    CopiedLines(lines, a, b);
  }

  lemma CopiedLines(lines: seq<string>, a: nat, b: nat)
    requires a <= b <= |lines|
    requires forall x :: a <= x < b ==> !IsFence(lines[x]) && InCode(lines, x)
    ensures RenderLines(lines, b) == RenderLines(lines, a) + Verbatim(lines, a, b)
  {
    var start := RenderLines(lines, a);
    assert start + "" == start;
    var m := a;
    while m < b
      invariant a <= m <= b
      invariant RenderLines(lines, m) == start + Verbatim(lines, a, m)
    {
      CodeStep(lines, a, m, start);
      m := m + 1;
    }
  }

  /** The fence's own HTML: the code element, labelled with the trimmed rest of the line. */
  lemma CodeBlockOpen(lines: seq<string>, i: nat)
    requires i < |lines| && IsFence(lines[i]) && !InCode(lines, i)
    ensures RenderLines(lines, i + 1) == RenderLines(lines, i) + CodeOpen(Trim(lines[i][3..]))
  {
    Extend(lines, i, RenderLines(lines, i), CodeOpen(Trim(lines[i][3..])));
  }

  /** One more line inside the block. */
  lemma CodeStep(lines: seq<string>, a: nat, m: nat, start: string)
    requires a <= m < |lines| && !IsFence(lines[m]) && InCode(lines, m)
    requires RenderLines(lines, m) == start + Verbatim(lines, a, m)
    ensures RenderLines(lines, m + 1) == start + Verbatim(lines, a, m + 1)
    ensures InCode(lines, m + 1)
  {
    var h := RenderLines(lines, m);
    var l := lines[m];
    CodeLineStep(lines, m, h, h + l + "\n");
    Snoc(h, start, Verbatim(lines, a, m), l + "\n", Verbatim(lines, a, m + 1));
  }

  lemma Snoc(h: string, s: string, v: string, x: string, w: string)
    requires h == s + v && w == v + x
    ensures h + x == s + w
  {
  }

  lemma Regroup(h: string, s: string, r: string, o: string, v: string)
    requires h == s + v && s == r + o
    ensures h == r + o + v
  {
  }

  /** A closing fence on line `j` ends the block with "</code></pre>" and leaves code mode. */
  lemma CodeBlockClosed(lines: seq<string>, i: nat, j: nat)
    requires i < j < |lines| && IsFence(lines[i]) && !InCode(lines, i) && IsFence(lines[j])
    requires forall x :: i < x < j ==> !IsFence(lines[x])
    ensures RenderLines(lines, j + 1) == RenderLines(lines, i) + CodeOpen(Trim(lines[i][3..])) + Verbatim(lines, i + 1, j) + "</code></pre>"
    ensures !InCode(lines, j + 1)
  {
    var h := RenderLines(lines, j);
    CodeBlockBody(lines, i, j);
    CodeBlockOpen(lines, i);
    Regroup(h, RenderLines(lines, i + 1), RenderLines(lines, i), CodeOpen(Trim(lines[i][3..])), Verbatim(lines, i + 1, j));
    FenceCloseStep(lines, j, h, h + "</code></pre>");
  }

  /** A fence that is never closed: the preview ends inside the code element, nothing closes it. */
  lemma UnclosedFence(text: string, i: nat)
    requires var lines := Split(text, '\n');
      i < |lines| && IsFence(lines[i]) && !InCode(lines, i) && forall x :: i < x < |lines| ==> !IsFence(lines[x])
    ensures var lines := Split(text, '\n');
      Render(text) == RenderLines(lines, i) + CodeOpen(Trim(lines[i][3..])) + Verbatim(lines, i + 1, |lines|)
  {
    var lines := Split(text, '\n');
    CodeBlockBody(lines, i, |lines|);
    CodeBlockOpen(lines, i);
    Regroup(RenderLines(lines, |lines|), RenderLines(lines, i + 1), RenderLines(lines, i), CodeOpen(Trim(lines[i][3..])), Verbatim(lines, i + 1, |lines|));
  }

  /** "### t", "## t" and "# t" outside a code block are headings of level 3, 2 and 1 around `t`. */
  lemma HeadingLine(lines: seq<string>, i: nat, level: nat, t: string)
    requires i < |lines| && !InCode(lines, i) && 1 <= level <= 3
    requires lines[i] == Repeat('#', level) + " " + t
    ensures Fragment(lines, i) == HeadingHtml(level, t)
  {
    var line := lines[i];
    assert line[0] == '#' && line[level] == ' ';
    assert !IsFence(line);
    if level == 3 {
      assert line[..4] == "### ";
    } else if level == 2 {
      assert line[..3] == "## ";
    } else {
      assert line[..2] == "# ";
    }
    HeadingClassified(lines, i, level);
    HeadingFragment(lines, i, level);
    assert line[level + 1..] == t;
  }

  /** Four hashes are no heading: such a line is a paragraph. */
  lemma FourHashesParagraph(lines: seq<string>, i: nat, t: string)
    requires i < |lines| && !InCode(lines, i) && lines[i] == "#### " + t && '`' !in t
    ensures Fragment(lines, i) == ParagraphHtml(Inline(lines[i]))
  {
    hide Inline, ReplaceAll, InCode;
    var line := lines[i];
    assert line[0] == '#' && line[1] == '#' && line[2] == '#' && line[3] == '#';
    assert !IsSpace(line[0]) && !IsDigit(line[0]);
    assert DigitRun(line, 10) == 0;
    assert '`' !in line by {
      assert forall c :: c in line && c !in t ==> c in "#### ";
    }
    assert Classify(lines, i) == Para;
  }

  /** A line the scanner treats as text: not a fence, a heading or a list item. */
  predicate TextLine(line: string) {
    && !IsFence(line) && !StartsWith(line, "### ") && !StartsWith(line, "## ") && !StartsWith(line, "# ")
    && !IsBullet(line) && !IsNumbered(line)
  }

  /**
    A text line with a backtick is a paragraph with its code spans replaced and nothing
    else substituted; the paragraph is never empty.
  */
  lemma InlineCodeLine(lines: seq<string>, i: nat)
    requires i < |lines| && !InCode(lines, i) && TextLine(lines[i]) && '`' in lines[i]
    ensures Fragment(lines, i) == ParagraphHtml(ReplaceAll(CodeSpan, lines[i]))
  {
    ReplaceAllGrows(CodeSpan, lines[i]);
  }

  /** A text line without a backtick that is not all white space gets the bold/italic/link substitutions. */
  lemma ParagraphLine(lines: seq<string>, i: nat)
    requires i < |lines| && !InCode(lines, i) && TextLine(lines[i]) && '`' !in lines[i] && !AllSpace(lines[i])
    ensures Fragment(lines, i) == ParagraphHtml(Inline(lines[i]))
  {
  }

  /** A line of white space only (the empty line included) outside a code block is a line break. */
  lemma BlankLine(lines: seq<string>, i: nat)
    requires i < |lines| && !InCode(lines, i) && AllSpace(lines[i])
    ensures Fragment(lines, i) == "<br>"
  {
    BlankShape(lines[i]);
  }

  /** White space is no fence, heading, list marker or backtick. */
  lemma BlankShape(line: string)
    requires AllSpace(line)
    ensures TextLine(line) && '`' !in line
  {
    if line != [] {
      assert IsSpace(line[0]) && !IsDigit(line[0]);
      assert DigitRun(line, 10) == 0;
    }
    forall m | 0 <= m < |line|
      ensures line[m] != '`'
    {
      assert IsSpace(line[m]);
    }
  }

  /** The fragments of all lines, in order. */
  function Fragments(lines: seq<string>): (fs: seq<string>)
    ensures |fs| == |lines|
  {
    seq(|lines|, x requires 0 <= x < |lines| => Fragment(lines, x))
  }

  /** The concatenation of `fs[a]` to `fs[b - 1]`. */
  function Concat(fs: seq<string>, a: nat, b: nat): string
    requires a <= b <= |fs|
    decreases b
  {
    if a == b then "" else Concat(fs, a, b - 1) + fs[b - 1]
  }

  /** The HTML for the first `n` lines is the concatenation of their fragments. */
  lemma {:induction false} RenderConcat(lines: seq<string>, n: nat)
    requires n <= |lines|
    ensures RenderLines(lines, n) == Concat(Fragments(lines), 0, n)
    decreases n
  {
    if n > 0 {
      RenderConcat(lines, n - 1);
      ConcatStep(lines, n);
    }
  }

  lemma ConcatStep(lines: seq<string>, n: nat)
    requires 0 < n <= |lines| && RenderLines(lines, n - 1) == Concat(Fragments(lines), 0, n - 1)
    ensures RenderLines(lines, n) == Concat(Fragments(lines), 0, n)
  {
    assert Fragments(lines)[n - 1] == Fragment(lines, n - 1);
  }

  lemma {:induction false} ConcatSplit(fs: seq<string>, a: nat, m: nat, b: nat)
    requires a <= m <= b <= |fs|
    ensures Concat(fs, a, b) == Concat(fs, a, m) + Concat(fs, m, b)
    decreases b
  {
    if m < b {
      ConcatSplit(fs, a, m, b - 1);
      Snoc(Concat(fs, a, b - 1), Concat(fs, a, m), Concat(fs, m, b - 1), fs[b - 1], Concat(fs, m, b));
    } else {
      assert Concat(fs, a, b) + "" == Concat(fs, a, b);
    }
  }

  /** The HTML for lines `i` to `j - 1` follows the HTML for the lines before them. */
  lemma RenderRange(lines: seq<string>, i: nat, j: nat)
    requires i <= j <= |lines|
    ensures RenderLines(lines, j) == RenderLines(lines, i) + Concat(Fragments(lines), i, j)
  {
    RenderConcat(lines, i);
    RenderConcat(lines, j);
    ConcatSplit(Fragments(lines), 0, i, j);
  }

  /** Lines `a` to `b - 1` are all items of kind `k`. */
  predicate AllItems(k: ListKind, lines: seq<string>, a: nat, b: nat)
    requires a <= b <= |lines|
    decreases b
  {
    a == b || (ItemLine(k, lines[b - 1]) && AllItems(k, lines, a, b - 1))
  }

  lemma {:induction false} AllItemsAt(k: ListKind, lines: seq<string>, a: nat, b: nat, x: nat)
    requires a <= x < b <= |lines| && AllItems(k, lines, a, b)
    ensures ItemLine(k, lines[x]) && AllItems(k, lines, a, x + 1)
    decreases b
  {
    if x + 1 < b {
      AllItemsAt(k, lines, a, b - 1, x);
    }
  }

  /** The li element of an item line (nothing for any other line). */
  function ItemCell(k: ListKind, line: string): string {
    if ItemLine(k, line) then "<li>" + ItemText(k, line) + "</li>" else ""
  }

  function ItemCells(k: ListKind, lines: seq<string>): (cs: seq<string>)
    ensures |cs| == |lines|
  {
    seq(|lines|, x requires 0 <= x < |lines| => ItemCell(k, lines[x]))
  }

  /** The li elements of lines `a` to `b - 1`. */
  function Items(k: ListKind, lines: seq<string>, a: nat, b: nat): string
    requires a <= b <= |lines|
  {
    Concat(ItemCells(k, lines), a, b)
  }

  /** Lines `i` to `j - 1` are items of kind `k`, and neither line `i - 1` nor line `j` is. */
  predicate ItemRun(lines: seq<string>, k: ListKind, i: nat, j: nat) {
    && i < j <= |lines|
    && AllItems(k, lines, i, j)
    && (i == 0 || !ItemLine(k, lines[i - 1]))
    && (j == |lines| || !ItemLine(k, lines[j]))
  }

  /** A maximal run of items becomes one list: the opening tag, one li per line, the closing tag. */
  lemma ListRun(lines: seq<string>, k: ListKind, i: nat, j: nat)
    requires ItemRun(lines, k, i, j) && !InCode(lines, i)
    ensures RenderLines(lines, j) == RenderLines(lines, i) + ListOpen(k) + Items(k, lines, i, j) + ListClose(k)
  {
    hide Fragment;  // only the step lemmas below look inside a fragment
    var start := RenderLines(lines, i);
    if j == i + 1 {
      RunFirst(lines, k, i, j, start);
    } else {
      var m := RunBody(lines, k, i, j, start);
      RunLast(lines, k, i, j, m, start);
    }
  }

  /** Every line of the run but the last leaves the list open, holding the li elements so far. */
  lemma RunBody(lines: seq<string>, k: ListKind, i: nat, j: nat, start: string) returns (m: nat)
    requires ItemRun(lines, k, i, j) && !InCode(lines, i) && i + 1 < j && start == RenderLines(lines, i)
    ensures i < m && m + 1 == j
    ensures RenderLines(lines, m) == start + ListOpen(k) + Items(k, lines, i, m)
  {
    hide Fragment;  // only the step lemmas below look inside a fragment
    RunFirst(lines, k, i, j, start);
    m := i + 1;
    while m + 1 < j
      invariant i < m < j
      invariant RenderLines(lines, m) == start + ListOpen(k) + Items(k, lines, i, m)
    {
      RunMiddle(lines, k, i, j, m, start);
      m := m + 1;
    }
  }

  /** The run's first line opens the list, and closes it too when it is also the last. */
  lemma RunFirst(lines: seq<string>, k: ListKind, i: nat, j: nat, start: string)
    requires ItemRun(lines, k, i, j) && !InCode(lines, i) && start == RenderLines(lines, i)
    ensures j == i + 1 ==> RenderLines(lines, i + 1) == start + ListOpen(k) + Items(k, lines, i, i + 1) + ListClose(k)
    ensures j > i + 1 ==> RenderLines(lines, i + 1) == start + ListOpen(k) + Items(k, lines, i, i + 1)
  {
    var li := FirstCellHtml(lines, k, i, j);
    Concat3(start, ListOpen(k), li, ListClose(k));
    Concat2(start, ListOpen(k), li);
  }

  lemma FirstCellHtml(lines: seq<string>, k: ListKind, i: nat, j: nat) returns (li: string)
    requires ItemRun(lines, k, i, j) && !InCode(lines, i)
    ensures Items(k, lines, i, i + 1) == li
    ensures j == i + 1 ==> RenderLines(lines, i + 1) == RenderLines(lines, i) + (ListOpen(k) + li + ListClose(k))
    ensures j > i + 1 ==> RenderLines(lines, i + 1) == RenderLines(lines, i) + (ListOpen(k) + li)
  {
    RunCell(lines, k, i, j, i);
    li := ItemCell(k, lines[i]);
    CellCases(k, lines[i]);
    ItemsSnoc(k, lines, i, i);
    assert Items(k, lines, i, i) == "";
  }

  /** A line strictly inside the run adds its li element alone. */
  lemma RunMiddle(lines: seq<string>, k: ListKind, i: nat, j: nat, m: nat, start: string)
    requires ItemRun(lines, k, i, j) && !InCode(lines, i) && i < m && m + 1 < j
    requires RenderLines(lines, m) == start + ListOpen(k) + Items(k, lines, i, m)
    ensures RenderLines(lines, m + 1) == start + ListOpen(k) + Items(k, lines, i, m + 1)
  {
    var li := MiddleCell(lines, k, i, j, m);
    var h := RenderLines(lines, m);
    Extend(lines, m, h, li);
    Snoc(h, start + ListOpen(k), Items(k, lines, i, m), li, Items(k, lines, i, m + 1));
  }

  lemma MiddleCell(lines: seq<string>, k: ListKind, i: nat, j: nat, m: nat) returns (li: string)
    requires ItemRun(lines, k, i, j) && !InCode(lines, i) && i < m && m + 1 < j
    ensures Items(k, lines, i, m + 1) == Items(k, lines, i, m) + li
    ensures Fragment(lines, m) == li
  {
    RunCell(lines, k, i, j, m);
    li := ItemCell(k, lines[m]);
    CellCases(k, lines[m]);
    ItemsSnoc(k, lines, i, m);
  }

  /** The run's last line adds its li element and closes the list. */
  lemma RunLast(lines: seq<string>, k: ListKind, i: nat, j: nat, m: nat, start: string)
    requires ItemRun(lines, k, i, j) && !InCode(lines, i) && i < m && m + 1 == j
    requires RenderLines(lines, m) == start + ListOpen(k) + Items(k, lines, i, m)
    ensures RenderLines(lines, j) == start + ListOpen(k) + Items(k, lines, i, j) + ListClose(k)
  {
    var li := LastCell(lines, k, i, j, m);
    SnocClose(RenderLines(lines, m), start + ListOpen(k), Items(k, lines, i, m), li, Items(k, lines, i, j), ListClose(k));
  }

  lemma LastCell(lines: seq<string>, k: ListKind, i: nat, j: nat, m: nat) returns (li: string)
    requires ItemRun(lines, k, i, j) && !InCode(lines, i) && i < m && m + 1 == j
    ensures Items(k, lines, i, j) == Items(k, lines, i, m) + li
    ensures RenderLines(lines, j) == RenderLines(lines, m) + (li + ListClose(k))
  {
    RunCell(lines, k, i, j, m);
    li := ItemCell(k, lines[m]);
    CellCases(k, lines[m]);
    ItemsSnoc(k, lines, i, m);
  }

  /** One more line adds that line's li element. */
  lemma ItemsSnoc(k: ListKind, lines: seq<string>, a: nat, b: nat)
    requires a <= b < |lines|
    ensures Items(k, lines, a, b + 1) == Items(k, lines, a, b) + ItemCell(k, lines[b])
  {
    assert ItemCells(k, lines)[b] == ItemCell(k, lines[b]);
  }

  lemma SnocClose(f: string, open: string, v: string, c: string, w: string, close: string)
    requires f == open + v && w == v + c
    ensures f + (c + close) == open + w + close
  {
  }

  /** A line of a run is an item, opened on the run's first line and closed on its last. */
  lemma RunCell(lines: seq<string>, k: ListKind, i: nat, j: nat, x: nat)
    requires ItemRun(lines, k, i, j) && !InCode(lines, i) && i <= x < j
    ensures ItemLine(k, lines[x])
    ensures Fragment(lines, x) == ItemHtml(k, x == i, ItemText(k, lines[x]), x == j - 1)
  {
    AllItemsAt(k, lines, i, j, x);
    if x > i {
      AllItemsAt(k, lines, i, j, x - 1);
    }
    if x + 1 < j {
      AllItemsAt(k, lines, i, j, x + 1);
    }
    NoCodeInRun(lines, k, i, x);
    ItemClassified(lines, x, k);
    ItemFragment(lines, x, k, x == i, x == j - 1);
  }

  /** The fragment of an item line in terms of its li element. */
  lemma CellCases(k: ListKind, line: string)
    requires ItemLine(k, line)
    ensures ItemHtml(k, true, ItemText(k, line), true) == ListOpen(k) + ItemCell(k, line) + ListClose(k)
    ensures ItemHtml(k, true, ItemText(k, line), false) == ListOpen(k) + ItemCell(k, line)
    ensures ItemHtml(k, false, ItemText(k, line), false) == ItemCell(k, line)
    ensures ItemHtml(k, false, ItemText(k, line), true) == ItemCell(k, line) + ListClose(k)
  {
    ItemHtmlCases(k, ItemText(k, line));
  }

  lemma ItemHtmlCases(k: ListKind, text: string)
    ensures ItemHtml(k, true, text, true) == ListOpen(k) + ("<li>" + text + "</li>") + ListClose(k)
    ensures ItemHtml(k, true, text, false) == ListOpen(k) + ("<li>" + text + "</li>")
    ensures ItemHtml(k, false, text, false) == "<li>" + text + "</li>"
    ensures ItemHtml(k, false, text, true) == ("<li>" + text + "</li>") + ListClose(k)
  {
    var li := "<li>" + text + "</li>";
    assert "" + "<li>" + text + "</li>" == li;
    assert li + "" == li;
  }

  /** Item lines are no fences, so a run that starts outside a code block stays outside. */
  lemma {:induction false} NoCodeInRun(lines: seq<string>, k: ListKind, i: nat, x: nat)
    requires i <= x <= |lines| && AllItems(k, lines, i, x) && !InCode(lines, i)
    ensures !InCode(lines, x)
    decreases x
  {
    if x > i {
      NoCodeInRun(lines, k, i, x - 1);
      ItemLineShape(k, lines[x - 1]);
    }
  }
}
