# Blog CMS core, modelled in Dafny

This project models the parts of the blog's Next.js code base that hold actual logic:

- **lexicalToMarkdown** (`lexical_to_markdown.dfy`). It turns the Lexical rich-text tree saved by the Payload editor into Markdown. The tree is described in `lexical_node.dfy`: node kinds, optional children, attributes and the five format bits of a text node.
- **lexicalToHtml** (`lexical_to_html.dfy`). It turns the same tree into HTML.
- **previewRender** (`preview_render.dfy`, `preview_inline.dfy`). This is the live preview of the Markdown editor: a loop over the lines of the text. It keeps the HTML built so far and a flag saying whether a code block is open. The `PreviewRender` method keeps that loop, and its invariant ties the state to `RenderLines`, a function that gives each line a fragment computed from the neighbouring lines only. The inline regular-expression substitutions (code spans, bold, italic, links) are modelled in `preview_inline.dfy` as a left-to-right scan that replaces each match.
- **POST /api/auth/mfa/check-required** (`mfa_check_required.dfy`). It handles the e-mail guard, the normalisation, the escaping of regular-expression metacharacters, the anchored case-insensitive query and the `mfaRequired` answer. The database is a parameter: a function from the query to a user document, no document, or an error.
- **authorize, jwt and session in src/auth.ts** (`auth.dfy`).
  - `authorize` is a function of the credentials and three oracles: the user lookup, bcrypt.compare and the TOTP verifier.
  - The two callbacks are methods of small classes (`Token`, `Session`, `SessionUser`) whose fields they update in place.

Supporting modules:

- `wrappers.dfy` has Option and Result.
- `js_string.dfy` has the JavaScript string built-ins the code uses: trim, split/join, startsWith/endsWith, repeat, ASCII toLowerCase and parseInt.
- `js_value.dfy` has JavaScript truthiness and `String(x)` for the values a request body or a user document can hold.

Behaviour of the code worth knowing before reading the model:

- `'#'.repeat(level)` throws a RangeError for a negative level (src/lib/lexicalToMarkdown.ts:73-75), so the Markdown converter returns a `Result`. A heading whose tag parses to a negative number, such as "h-2", makes the whole conversion fail. `FailsExactly` states exactly which trees fail, and `NoThrow` states that a tree without such a heading always converts.
- A legacy Markdown string is sent to a Markdown-to-HTML renderer by the caller (src/lib/api.ts:26-32). `lexicalToHtml` itself returns "" for a string, because a string has no `root`.
- A link without a new tab is emitted as `<a href="U"  >…</a>`, with two spaces before `>`, because the two empty attributes keep their separating spaces.

## Model

| member | source | states |
|---|---|---|
| Lexical.EncodeFlags | src/lib/lexicalToMarkdown.ts:106-111 | the bitmask of five format flags lies in 0..31 |
| Lexical.DecodeEncode | src/lib/lexicalToMarkdown.ts:106-111 | reading the bits 1, 2, 4, 8, 16 of an encoded flag set gives the flags back |
| Lexical.EncodeDecode | src/lib/lexicalToHtml.ts:14-19 | every mask below 32 is the encoding of the flags read from it |
| Lexical.DecodeFormat | src/lib/lexicalToHtml.ts:15-19 | the five flags read with `format & 1` … `format & 16` are exactly the five low bits: encoding them gives `format % 32` (negative formats included) |
| Lexical.LowBits | src/lib/lexicalToMarkdown.ts:108-111 | an integer's value modulo 32 is the sum of its five low bits, each weighted by its power of two |
| LexicalToMarkdown.LexicalToMarkdown | src/lib/lexicalToMarkdown.ts:23-36 | a string is returned unchanged; null, non-objects, objects without root, and a root without children give "" |
| LexicalToMarkdown.ConvertNodesAppend | src/lib/lexicalToMarkdown.ts:38-40 | converting a + b gives the output for a followed by the output for b, and the first exception wins |
| LexicalToMarkdown.ConvertNodes | src/lib/lexicalToMarkdown.ts:38-40 | the only exception a node list raises is a negative repeat count |
| LexicalToMarkdown.Inner | src/lib/lexicalToMarkdown.ts:63 | the children's conversion raises only a negative repeat count |
| LexicalToMarkdown.ConvertNode | src/lib/lexicalToMarkdown.ts:42-65 | the only exception is a negative repeat count; text and line break nodes never throw |
| LexicalToMarkdown.ConvertParagraph | src/lib/lexicalToMarkdown.ts:67-70 | a paragraph raises only its children's negative repeat count |
| LexicalToMarkdown.ConvertHeading | src/lib/lexicalToMarkdown.ts:72-78 | a negative level fails with that count before the children are looked at; otherwise it fails exactly when the children do, and succeeds with the heading line of the parsed level |
| LexicalToMarkdown.ConvertList | src/lib/lexicalToMarkdown.ts:80-90 | a list fails exactly when some item's children fail, only with a negative count, and otherwise ends in "\n\n" |
| LexicalToMarkdown.ListContents | src/lib/lexicalToMarkdown.ts:82-88 | the item texts raise only a negative repeat count |
| LexicalToMarkdown.PrependItem | src/lib/lexicalToMarkdown.ts:82-88 | the first item's trimmed text comes before the others'; the result fails exactly when one part does, with the first failure's error |
| LexicalToMarkdown.ConvertLink | src/lib/lexicalToMarkdown.ts:96-100 | without a children array the URL is also the link text; with one, the link fails exactly when its children do |
| LexicalToMarkdown.ConvertCode | src/lib/lexicalToMarkdown.ts:116-120 | a code block raises only its children's negative repeat count |
| LexicalToMarkdown.ConvertQuote | src/lib/lexicalToMarkdown.ts:122-125 | a quote raises only its children's negative repeat count |
| LexicalToMarkdown.FailsExactly | src/lib/lexicalToMarkdown.ts:42-90 | a node's conversion fails if and only if a heading of negative level sits where the walk visits it: not under text or line breaks, not under a negative heading, and in a list only among the items' children |
| LexicalToMarkdown.FailsExactlyAll | src/lib/lexicalToMarkdown.ts:38-40 | a node list fails if and only if one of its nodes throws |
| LexicalToMarkdown.FailsExactlyItems | src/lib/lexicalToMarkdown.ts:82-88 | the item texts of a list fail if and only if the children of one item throw |
| LexicalToMarkdown.AnyThrowsCons | src/lib/lexicalToMarkdown.ts:38-40 | a node list throws if and only if its first node or the rest does |
| LexicalToMarkdown.ItemThrowsCons | src/lib/lexicalToMarkdown.ts:82-88 | a list's items throw if and only if the first item's children or the other items do |
| LexicalToMarkdown.FailurePropagates | src/lib/lexicalToMarkdown.ts:38-40 | one failing node among the nodes converted in sequence makes the whole sequence fail |
| LexicalToMarkdown.NegativeHeadingFails | src/lib/lexicalToMarkdown.ts:72-78 | every heading of negative level fails with InvalidCount of that level, whatever its children |
| LexicalToMarkdown.NoThrow | src/lib/lexicalToMarkdown.ts:42-65 | a tree with no heading of negative level converts without an exception |
| LexicalToMarkdown.NoThrowAll | src/lib/lexicalToMarkdown.ts:38-40 | a list of such trees converts without an exception |
| LexicalToMarkdown.NoThrowItems | src/lib/lexicalToMarkdown.ts:82-88 | the item texts of a list of such trees are all computed |
| LexicalToMarkdown.NegativeHeadingThrows | src/lib/lexicalToMarkdown.ts:72-78 | a heading tagged "h-2" makes the conversion fail with '#'.repeat's range error |
| LexicalToMarkdown.ParagraphText | src/lib/lexicalToMarkdown.ts:67-70 | content with a non-space character is followed by "\n\n"; all-white-space content becomes exactly "\n" |
| LexicalToMarkdown.HeadingLevel | src/lib/lexicalToMarkdown.ts:73-74 | a missing tag reads as "h1"; after the first 'h' is removed, an unparsable rest or 0 gives 1 and any other parsed value is kept; so the level is never 0 |
| LexicalToMarkdown.HeadingLevelOfTag | src/lib/lexicalToMarkdown.ts:73-74 | tag "h<k>" gives level k, and a missing tag gives level 1 |
| LexicalToMarkdown.HeadingShape | src/lib/lexicalToMarkdown.ts:75-77 | a heading is exactly `level` hashes, a space, the trimmed text and "\n\n" |
| LexicalToMarkdown.TagLevel | src/lib/lexicalToMarkdown.ts:74 | stripping the 'h' of "h<k>" and parsing the rest gives k back |
| LexicalToMarkdown.HeadingOfText | src/lib/lexicalToMarkdown.ts:72-78 | a heading of the parsed level around one text node gives the hashes, a space, the trimmed text and a blank line |
| LexicalToMarkdown.HeadingExample | src/lib/lexicalToMarkdown.ts:72-78 | an h3 heading around "Title" gives "### Title\n\n" |
| LexicalToMarkdown.ListContentsLength | src/lib/lexicalToMarkdown.ts:82-88 | every child of a list yields exactly one item text, whatever its type |
| LexicalToMarkdown.ListLines | src/lib/lexicalToMarkdown.ts:82-88 | line k is the marker for index k followed by the k-th item text |
| LexicalToMarkdown.MarkerHasNoNewline | src/lib/lexicalToMarkdown.ts:84-87 | neither "N. " nor "- " contains a newline |
| LexicalToMarkdown.ListTextLines | src/lib/lexicalToMarkdown.ts:88-89 | the joined list body splits back into its item lines followed by two empty lines |
| LexicalToMarkdown.ListOneLinePerChild | src/lib/lexicalToMarkdown.ts:80-90 | a list node with at least one child gives one line per child, "k. " for listType "number" and "- " otherwise, then a blank line |
| LexicalToMarkdown.EmptyList | src/lib/lexicalToMarkdown.ts:80-90 | a list node with no children array, or an empty one, gives exactly "\n\n" |
| LexicalToMarkdown.NumberedList | src/lib/lexicalToMarkdown.ts:80-90 | a list node with listType "number" and two list items holding "a" and "b" converts to "1. a\n2. b\n\n" |
| LexicalToMarkdown.ListOf | src/lib/lexicalToMarkdown.ts:80-90 | a list node with a children array is its item lines joined with newlines and followed by a blank line |
| LexicalToMarkdown.ItemText | src/lib/lexicalToMarkdown.ts:82-83 | an item holding one untrimmable text node contributes that text |
| LexicalToMarkdown.NumberedLines | src/lib/lexicalToMarkdown.ts:84-89 | numbered lines of "a" and "b" join to "1. a\n2. b\n\n" |
| LexicalToMarkdown.LinkTextShape | src/lib/lexicalToMarkdown.ts:99 | a link is "[", the trimmed text, "]", then the URL in parentheses, and nothing else |
| LexicalToMarkdown.LinkWithoutChildren | src/lib/lexicalToMarkdown.ts:96-100 | a link without a children array shows its trimmed URL as its text |
| LexicalToMarkdown.LinkWithEmptyChildren | src/lib/lexicalToMarkdown.ts:96-100 | an empty children array still counts as present and gives empty link text |
| LexicalToMarkdown.LinkExample | src/lib/lexicalToMarkdown.ts:96-100 | a link with one text child "go" gives "[go](url)" |
| LexicalToMarkdown.MarkdownText | src/lib/lexicalToMarkdown.ts:102-114 | the text is wrapped in the delimiters of its format bits, bold innermost and code outermost |
| LexicalToMarkdown.MarkdownWrap | src/lib/lexicalToMarkdown.ts:108-111 | the four sequential wrappings equal the opening delimiters, the text, and the closing delimiters in reverse order |
| LexicalToMarkdown.UnderlineIgnored | src/lib/lexicalToMarkdown.ts:106-111 | formats that differ only in the underline bit give the same Markdown |
| LexicalToMarkdown.PlainText | src/lib/lexicalToMarkdown.ts:102-114 | an unformatted text node converts to its text |
| LexicalToMarkdown.FormatExample | src/lib/lexicalToMarkdown.ts:108-111 | format 19 (bold, italic, code) turns "x" into "`***x***`" |
| LexicalToMarkdown.CodeLines | src/lib/lexicalToMarkdown.ts:116-120 | a code block reads back as the fence with the language, the lines of the trimmed content, the closing fence and a blank line |
| LexicalToMarkdown.CodeJoin | src/lib/lexicalToMarkdown.ts:119 | the code block is the newline-join of those lines |
| LexicalToMarkdown.QuotedLines | src/lib/lexicalToMarkdown.ts:124 | every line of the content gets "> " in front, and the number of lines is kept |
| LexicalToMarkdown.QuoteLines | src/lib/lexicalToMarkdown.ts:122-125 | the quote ends in "\n\n", and its body splits into the content's lines, each behind "> " |
| LexicalToMarkdown.QuoteRoundTrip | src/lib/lexicalToMarkdown.ts:122-125 | dropping the "> " prefixes and the trailing blank line gives the content back |
| LexicalToHtml.LexicalToHtml | src/lib/lexicalToHtml.ts:1-4 | anything but an object with a root, strings included, gives "" |
| LexicalToHtml.ProcessNode | src/lib/lexicalToHtml.ts:6-71 | root and unknown kinds are exactly their children's HTML; every other non-text kind is a piece of markup that starts with '<' and ends with '>' |
| LexicalToHtml.HeadingTag | src/lib/lexicalToHtml.ts:39 | the heading's tag is used verbatim, and "h2" when it is missing |
| LexicalToHtml.ParagraphHtml | src/lib/lexicalToHtml.ts:35-36 | a paragraph is `<p>` around its children's HTML |
| LexicalToHtml.HeadingHtml | src/lib/lexicalToHtml.ts:38-40 | a heading is the element named by its tag (h2 when missing) around its children's HTML |
| LexicalToHtml.ListHtml | src/lib/lexicalToHtml.ts:42-44 | a list is `<ol>` around its children when listType is "number", `<ul>` otherwise |
| LexicalToHtml.ListItemHtml | src/lib/lexicalToHtml.ts:46-47 | a list item is `<li>` around its children's HTML |
| LexicalToHtml.QuoteHtml | src/lib/lexicalToHtml.ts:49-50 | a quote is `<blockquote>` around its children's HTML |
| LexicalToHtml.CodeHtml | src/lib/lexicalToHtml.ts:52-53 | a code node is `<pre><code>` around its children's HTML, and its language is not shown |
| LexicalToHtml.BreakAndRuleHtml | src/lib/lexicalToHtml.ts:62-66 | a line break is exactly `<br>` and a horizontal rule exactly `<hr>` |
| LexicalToHtml.TransparentHtml | src/lib/lexicalToHtml.ts:31-33 | the root and any unknown kind give exactly their children's HTML, "" without a children array |
| LexicalToHtml.HeadingHtmlExample | src/lib/lexicalToHtml.ts:38-40 | an h3 heading around "Title" gives `<h3>Title</h3>` |
| LexicalToHtml.ListHtmlExample | src/lib/lexicalToHtml.ts:42-47 | a numbered list of two items "a" and "b" gives `<ol><li>a</li><li>b</li></ol>` |
| LexicalToHtml.PlainHtml | src/lib/lexicalToHtml.ts:10-22 | an unformatted text node is its text |
| LexicalToHtml.OneChild | src/lib/lexicalToHtml.ts:26-28 | one child's HTML is the children's HTML |
| LexicalToHtml.TwoChildren | src/lib/lexicalToHtml.ts:26-28 | two children's HTML is their HTML in order |
| LexicalToHtml.ListTag | src/lib/lexicalToHtml.ts:42-44 | the list element is ol if and only if listType is "number", and ul otherwise |
| LexicalToHtml.LinkHref | src/lib/lexicalToHtml.ts:56 | href is fields.url if non-empty, else url if non-empty, else "#" |
| LexicalToHtml.LinkSameTabLayout | src/lib/lexicalToHtml.ts:57-60 | without newTab the anchor is `<a href="U"  >`, with two spaces and no target or rel |
| LexicalToHtml.LinkShape | src/lib/lexicalToHtml.ts:55-60 | a link is one opening tag, the children's HTML and "</a>"; the opening tag holds no '>' when the URL holds none |
| LexicalToHtml.LinkHtml | src/lib/lexicalToHtml.ts:55-60 | an anchor is longer than its URL and children by at least its fixed markup and ends in "</a>"; its exact layout is LinkShape and LinkSameTabLayout |
| LexicalToHtml.HtmlText | src/lib/lexicalToHtml.ts:10-23 | the text is wrapped in strong, em, s, u, code in that order, the first applied innermost; format 0 leaves it raw |
| LexicalToHtml.HtmlWrap | src/lib/lexicalToHtml.ts:15-19 | the five sequential wrappings equal the opening tags, the text, and the closing tags in reverse order |
| LexicalToHtml.BoldItalicExample | src/lib/lexicalToHtml.ts:15-16 | mask 3 gives `<em><strong>x</strong></em>` |
| LexicalToHtml.ProcessNodesAppend | src/lib/lexicalToHtml.ts:26-28 | the HTML of a + b is the HTML of a followed by that of b |
| LexicalToHtml.ChildrenIgnored | src/lib/lexicalToHtml.ts:10-23 | text, linebreak and horizontalrule nodes give the same HTML whatever their children |
| LexicalToHtml.StripNode | src/lib/lexicalToHtml.ts:6-71 | for a tree with no '<' in its texts and no '>' in its tags and URLs, removing all tags from its HTML leaves exactly its text nodes' text in document order |
| LexicalToHtml.StripNodes | src/lib/lexicalToHtml.ts:26-28 | the same for a list of nodes |
| LexicalToHtml.StripShell | src/lib/lexicalToHtml.ts:31-69 | the element a non-text node puts around its children's HTML shows nothing |
| LexicalToHtml.TextStrip | src/lib/lexicalToHtml.ts:10-23 | the tags around a formatted text show nothing but the text |
| LexicalToHtml.LinkStrip | src/lib/lexicalToHtml.ts:55-60 | the anchor's markup shows nothing but its children |
| LexicalToHtml.CodeStrip | src/lib/lexicalToHtml.ts:52-53 | the pre/code wrapper shows nothing but its children |
| LexicalToHtml.ElementStrip | src/lib/lexicalToHtml.ts:35-50 | a plain element shows nothing but its children |
| PreviewRender.PreviewRender | src/components/MarkdownEditor.tsx:43-118 | the scanning loop returns exactly the concatenation of the line fragments (`Render`) |
| PreviewRender.ScanLine | src/components/MarkdownEditor.tsx:52-115 | one loop iteration extends the HTML by the fragment of line i and updates the code-block flag |
| PreviewRender.AppendLine | src/components/MarkdownEditor.tsx:72-114 | the non-code branches append the fragment of the line |
| PreviewRender.Fragment | src/components/MarkdownEditor.tsx:52-115 | the HTML of one line, chosen by Classify; its contract is the one of the loop body, stated by ScanLine, FragmentSuffix, CodeLineStep, HeadingStep, ItemStep and ParagraphStep |
| PreviewRender.Render | src/components/MarkdownEditor.tsx:46-118 | a text without a newline is one line and renders as that line's fragment; the loop computes it (PreviewRender) and it is the concatenation of the fragments (RenderConcat) |
| PreviewRender.OneLine | src/components/MarkdownEditor.tsx:46 | splitting a text without a newline gives that text as the only line |
| PreviewRender.AppendItem | src/components/MarkdownEditor.tsx:81-98 | a list line, with the open tag decided from the end of the HTML and the close tag from the next line, extends the HTML by exactly its fragment |
| PreviewRender.Classify | src/components/MarkdownEditor.tsx:55-114 | an item classification means the line carries the list's marker; a heading of level 1-3 starts with that many hashes and a space |
| PreviewRender.OpenTest | src/components/MarkdownEditor.tsx:82-84 | the scanner's test on the end of the HTML is true exactly when the previous line is not an item of the same list |
| PreviewRender.RenderEnd | src/components/MarkdownEditor.tsx:82-84 | the HTML so far ends in "</li>" exactly when the previous line leaves its list open, and never ends in "<ul>" or "<ol>" |
| PreviewRender.LastClosing | src/components/MarkdownEditor.tsx:51-117 | the HTML after line j ends in line j's closing string, which is "</li>" exactly when that line leaves its list open |
| PreviewRender.RenderEndAfter | src/components/MarkdownEditor.tsx:82-84 | after line j the HTML ends in "</li>" exactly when line j leaves its list open, and never ends in "<ul>" or "<ol>" |
| PreviewRender.FragmentSuffix | src/components/MarkdownEditor.tsx:55-114 | every fragment ends in a fixed closing string, which is "</li>" exactly when the list stays open |
| PreviewRender.SuffixTests | src/components/MarkdownEditor.tsx:82-84 | the endsWith tests on HTML ending in a closing string are decided by that string |
| PreviewRender.ItemLineShape | src/components/MarkdownEditor.tsx:73-98 | a list line is no fence or heading, and a line cannot be both a bullet and a numbered item |
| PreviewRender.ItemClassified | src/components/MarkdownEditor.tsx:81-98 | outside a code block an item line takes its list's branch |
| PreviewRender.FenceOpenStep | src/components/MarkdownEditor.tsx:55-65 | an opening fence appends `<pre><code class="language-L">`, with L the trimmed rest of the line, and enters code mode |
| PreviewRender.FenceCloseStep | src/components/MarkdownEditor.tsx:55-65 | a fence inside a code block appends "</code></pre>" and leaves code mode |
| PreviewRender.CodeLineStep | src/components/MarkdownEditor.tsx:67-70 | a line inside a code block is appended verbatim with "\n" |
| PreviewRender.HeadingStep | src/components/MarkdownEditor.tsx:73-79 | "### ", "## ", "# " are tested in that order and stripped into h3, h2, h1 |
| PreviewRender.ItemStep | src/components/MarkdownEditor.tsx:81-98 | an item appends the optional open tag, its li and the optional close tag |
| PreviewRender.ParagraphStep | src/components/MarkdownEditor.tsx:100-114 | inline-code lines, other text lines and blank lines append their paragraph or "<br>" |
| PreviewRender.HeadingClassified | src/components/MarkdownEditor.tsx:73-79 | outside code, a non-fence line starting with "### ", "## " or "# " (tested in that order) takes the heading branch of that level |
| PreviewRender.StaysOpen | src/components/MarkdownEditor.tsx:55-70 | inside an open block, lines that are no fences keep the block open |
| PreviewRender.CodeRun | src/components/MarkdownEditor.tsx:67-70 | inside an open block, lines that are no fences are appended verbatim and the block stays open |
| PreviewRender.CodeBlockOpen | src/components/MarkdownEditor.tsx:60-63 | the opening fence contributes only the code element labelled with the trimmed language |
| PreviewRender.CodeBlockBody | src/components/MarkdownEditor.tsx:67-70 | the lines after an opening fence up to the next fence are copied verbatim, with no heading, list or inline processing |
| PreviewRender.CodeBlockClosed | src/components/MarkdownEditor.tsx:55-70 | a fenced block renders as the code element, the verbatim lines and "</code></pre>", and leaves code mode |
| PreviewRender.UnclosedFence | src/components/MarkdownEditor.tsx:51-117 | a fence never closed leaves the HTML ending inside the code element, with no closing tag after the loop |
| PreviewRender.HeadingLine | src/components/MarkdownEditor.tsx:73-79 | "# t", "## t", "### t" outside code become h1, h2, h3 around t |
| PreviewRender.FourHashesParagraph | src/components/MarkdownEditor.tsx:73-79 | "#### t" is no heading: it becomes a paragraph |
| PreviewRender.InlineCodeLine | src/components/MarkdownEditor.tsx:100-103 | a text line with a backtick becomes a paragraph with code spans replaced and no bold/italic/link substitution |
| PreviewRender.ParagraphLine | src/components/MarkdownEditor.tsx:105-111 | any other non-blank text line becomes a paragraph with bold, then italic, then link substitution |
| PreviewRender.BlankLine | src/components/MarkdownEditor.tsx:112-114 | a white-space-only line becomes "<br>" |
| PreviewRender.RenderConcat | src/components/MarkdownEditor.tsx:51-117 | the HTML for the first n lines is the concatenation of their fragments |
| PreviewRender.RenderRange | src/components/MarkdownEditor.tsx:51-117 | the HTML after line j is the HTML after line i followed by the fragments of lines i to j-1 |
| PreviewRender.ListRun | src/components/MarkdownEditor.tsx:81-98 | a maximal run of bullet (or numbered) lines becomes one list: the open tag, one li per line with its marker stripped, and the close tag |
| PreviewRender.RunCell | src/components/MarkdownEditor.tsx:81-98 | inside a run, every line takes the list branch, only the first line opens the list and only the last closes it |
| PreviewRender.RunFirst | src/components/MarkdownEditor.tsx:81-98 | the run's first line opens the list with its li, and also closes it when the run has one line |
| PreviewRender.RunMiddle | src/components/MarkdownEditor.tsx:81-98 | a line strictly inside the run only adds its li, leaving the list open |
| PreviewRender.RunLast | src/components/MarkdownEditor.tsx:81-98 | the run's last line adds its li and the closing tag |
| PreviewRender.NoCodeInRun | src/components/MarkdownEditor.tsx:55-65 | item lines are no fences, so a run that starts outside code stays outside |
| PreviewInline.ReplaceAllGrows | src/components/MarkdownEditor.tsx:101-111 | no substitution shortens a line |
| PreviewInline.ReplaceAll | src/components/MarkdownEditor.tsx:101 | a global replace gives "" exactly for ""; its growth, its copying of text without a match and its step at a match are ReplaceAllGrows, ReplaceAllPlainPrefix and ReplaceAllAtMatch |
| PreviewInline.Inline | src/components/MarkdownEditor.tsx:107-110 | the bold, italic and link substitutions give "" exactly for ""; InlinePlain, StrongAt and AnchorAt state what they replace |
| PreviewInline.ReplaceAllUnchanged | src/components/MarkdownEditor.tsx:101-111 | a line without the pattern's first character is left unchanged |
| PreviewInline.ReplaceAllPlainPrefix | src/components/MarkdownEditor.tsx:101-111 | text before the first possible match is copied as it is |
| PreviewInline.ReplaceAllAtMatch | src/components/MarkdownEditor.tsx:101-111 | at a match the replacement is emitted and scanning resumes after the match |
| PreviewInline.CodeSpanReplaced | src/components/MarkdownEditor.tsx:101 | a backtick span of non-backticks becomes a code element |
| PreviewInline.StrongReplaced | src/components/MarkdownEditor.tsx:108 | "**y**" with no '*' in y becomes a strong element |
| PreviewInline.EmphasisReplaced | src/components/MarkdownEditor.tsx:109 | "*y*" with no '*' in y becomes an em element |
| PreviewInline.StrongAt | src/components/MarkdownEditor.tsx:108 | the bold pattern matches "**y**" with y non-empty and free of '*', consumes exactly it, and gives the strong element |
| PreviewInline.AnchorAt | src/components/MarkdownEditor.tsx:110 | the link pattern matches "[t](u)" with t free of ']' and u free of ')', consumes exactly it, and gives the anchor |
| PreviewInline.AnchorReplaced | src/components/MarkdownEditor.tsx:110 | "[t](u)" becomes `<a href="u">t</a>` |
| PreviewInline.InlinePlain | src/components/MarkdownEditor.tsx:107-110 | a line with no '*' and no '[' passes the paragraph substitutions unchanged |
| JsString.TrimUnchanged | src/lib/lexicalToMarkdown.ts:77 | a string that neither starts nor ends with white space is its own trim, so trim is idempotent |
| JsString.Trim | src/lib/lexicalToMarkdown.ts:69 | trim never lengthens a string, gives "" exactly for all-white-space input, and leaves no white space at either end |
| JsString.Split | src/components/MarkdownEditor.tsx:46 | split gives at least one piece, none holding the separator, and joining the pieces with it gives the string back |
| JsString.ParseInt | src/lib/lexicalToMarkdown.ts:74 | white space alone is NaN, and a negative result comes from a leading '-' after the white space; ParseDecimal reads back every numeral |
| JsString.TrimPadded | src/auth.ts:53 | trim removes exactly the white space around a string that starts and ends with a non-space |
| JsString.SplitJoin | src/lib/lexicalToMarkdown.ts:124 | splitting the join of separator-free pieces gives the pieces back |
| JsString.JoinAppend | src/lib/lexicalToMarkdown.ts:88 | joining two non-empty lists puts one separator between their joins |
| JsString.EndsWithConcat | src/components/MarkdownEditor.tsx:82-84 | an endsWith test on a + b is decided by b when b is at least as long as the suffix |
| JsString.ParseDecimal | src/lib/lexicalToMarkdown.ts:74 | parseInt reads back the decimal numeral of a natural number |
| JsString.RemoveLeading | src/lib/lexicalToMarkdown.ts:74 | replace('h', '') on a string starting with 'h' drops that first 'h' only |
| MfaCheckRequired.CheckRequired | src/app/api/auth/mfa/check-required/route.ts:4-40 | a query is made exactly when the body holds a truthy e-mail; every error response is the 400 or the 500 one |
| MfaCheckRequired.MissingEmail | src/app/api/auth/mfa/check-required/route.ts:8-13 | a falsy e-mail gives 400 "Email is required" and no query |
| MfaCheckRequired.QueryShape | src/app/api/auth/mfa/check-required/route.ts:15-23 | the query is the escaped normalised e-mail |
| MfaCheckRequired.PatternShape | src/app/api/auth/mfa/check-required/route.ts:21-23 | the pattern is "^", the escaped e-mail, "$", with the case-insensitive option, and unescaping its middle gives the e-mail back |
| MfaCheckRequired.NormalizeIdempotent | src/app/api/auth/mfa/check-required/route.ts:15 | trimming and lower-casing an already normalised e-mail changes nothing |
| MfaCheckRequired.Normalize | src/app/api/auth/mfa/check-required/route.ts:15 | the normalised e-mail holds no upper-case ASCII letter, is no longer than String(email), and is "" exactly when that is all white space |
| MfaCheckRequired.NoUpper | src/app/api/auth/mfa/check-required/route.ts:15 | toLowerCase leaves no upper-case ASCII letter |
| MfaCheckRequired.Escape | src/app/api/auth/mfa/check-required/route.ts:20 | escaping at most doubles the length and never shortens; EscapeLength gives the exact growth and UnescapeEscape undoes it |
| MfaCheckRequired.Answer | src/app/api/auth/mfa/check-required/route.ts:25-32 | the answer is the 500 error exactly when the search threw, and mfaRequired is true only for a found user |
| JsValue.Truthy | src/app/api/auth/mfa/check-required/route.ts:8 | a value is truthy exactly when it is not undefined, null, false, 0 or "" |
| JsValue.ToText | src/app/api/auth/mfa/check-required/route.ts:15 | String(x) of a string is the string itself, and of a number starts with '-' exactly when the number is negative |
| MfaCheckRequired.EscapeLength | src/app/api/auth/mfa/check-required/route.ts:20 | escaping lengthens the e-mail by exactly its number of metacharacters |
| MfaCheckRequired.EscapePlain | src/app/api/auth/mfa/check-required/route.ts:20 | an e-mail without metacharacters is unchanged by escaping |
| MfaCheckRequired.EscapeLiteral | src/app/api/auth/mfa/check-required/route.ts:20 | the escaped e-mail contains only ordinary characters and escaped metacharacters |
| MfaCheckRequired.UnescapeEscape | src/app/api/auth/mfa/check-required/route.ts:20 | removing the escaping backslashes gives the normalised e-mail back |
| MfaCheckRequired.EscapeUnescape | src/app/api/auth/mfa/check-required/route.ts:20 | every literal pattern is the escaping of the text it stands for |
| MfaCheckRequired.EscapedMatches | src/app/api/auth/mfa/check-required/route.ts:20-24 | the anchored case-insensitive pattern matches a stored e-mail exactly when it equals the normalised one up to ASCII case |
| MfaCheckRequired.MfaRequiredIff | src/app/api/auth/mfa/check-required/route.ts:25-32 | mfaRequired is true exactly when a user is found with truthy mfaEnabled and truthy mfaSecret |
| MfaCheckRequired.FailureIff | src/app/api/auth/mfa/check-required/route.ts:4-40 | the 500 response comes exactly from an unreadable or null body, or a failing database |
| MfaCheckRequired.NoMatchIndistinguishable | src/app/api/auth/mfa/check-required/route.ts:25-28 | an unknown e-mail and an account without MFA get the same answer |
| Auth.Authorize | src/auth.ts:17-74 | an identity is returned only if the e-mail and password are given, the user exists, the password matches and, when MFA applies, the code is well formed and the TOTP valid; it is then the user's id, e-mail and name |
| Auth.AuthorizeComplete | src/auth.ts:17-74 | conversely, when every guard passes the identity is returned |
| Auth.MissingCredentials | src/auth.ts:18-20 | a missing e-mail or password, or missing credentials, is refused whatever the oracles say |
| Auth.UndefinedCodeRefused | src/auth.ts:38-44 | with MFA on, an absent, empty or "undefined" code is refused |
| Auth.MalformedCodeNotVerified | src/auth.ts:53-56 | with MFA on, a code that is not six ASCII digits after trimming is refused whichever TOTP verifier is used |
| Auth.TotpFailureRefused | src/auth.ts:58-66 | with MFA on, a code the verifier rejects or throws on is refused |
| Auth.CodeIgnoredWithoutMfa | src/auth.ts:38 | for a user without MFA, replacing the code changes nothing |
| Auth.PaddedCode | src/auth.ts:53 | white space around six digits is trimmed away before verification |
| Auth.SixDigits | src/auth.ts:54 | a code that passes /^[0-9]{6}$/ holds no white space |
| Auth.CodeToken | src/auth.ts:53 | the token is "" for a missing code, never longer than the code, and has no white space at either end |
| Auth.Jwt | src/auth.ts:84-89 | on sign-in the token's id becomes the user's id, otherwise it is kept; nothing else changes |
| Auth.SessionCallback | src/auth.ts:90-95 | session.user.id becomes the token's id when session.user exists; name and e-mail are kept |

## Left out

- The database, bcrypt and the TOTP library are parameters, not implementations. Connecting to MongoDB is folded into the lookup's error case.
- Auth.Authorize: the one-time-code oracle stands for the truthiness of the awaited `totp.verify(token)` (src/auth.ts:58-62), not for the TOTP algorithm of RFC 6238, whose correctness is the library's.
- Auth.Authorize: `new TOTP({...})` (src/auth.ts:47-51) sits outside the try, so a throw there propagates to the framework instead of returning null. The oracle's Threw outcome covers only throws inside the try (src/auth.ts:52-66).
- Exceptions thrown by the user lookup or by bcrypt inside authorize are not modelled. They propagate to the authentication framework rather than returning null.
- The NextAuth wrapper, the provider configuration, the sign-in page setting and the React component around the preview are not part of this model.
- Auth.Authorize: the lookup by e-mail is an oracle; Mongoose query semantics are not modelled.
- MfaCheckRequired.EscapedMatches: the 'i' option is modelled as ASCII case-folding only. MongoDB's case-insensitive matching also folds non-ASCII letters.
- MfaCheckRequired.Normalize: toLowerCase is modelled on ASCII letters only. Other letters are kept as they are.
- JsValue: numbers are integers. Fractions, NaN, the infinities and arrays are not modelled, since an e-mail field holds a string in practice.
- Strings are sequences of Dafny `char`, which are Unicode scalar values, not the UTF-16 code units of JavaScript. A character outside the Basic Multilingual Plane is one `char` here but two code units in JavaScript, and a lone surrogate cannot be represented. Counts over strings, such as the one in MfaCheckRequired.EscapeLength, are per scalar value. No Unicode normalisation is done.
- previewRender's `codeLanguage` variable is local to the fence branch in the model. The source keeps it between iterations, but it is only read right after it is assigned.
- PreviewInline: each regular expression is modelled by a scanner written for its shape: delimiter, a non-empty run free of the closing delimiter, closing delimiter. A general regular-expression engine is not modelled.
- Heading levels in the Markdown converter are computed with parseInt on integers. Tags whose level overflows a double are not modelled.
- LexicalToMarkdown.NoThrow: its hypothesis covers the negative level only. `'#'.repeat(level)` also throws a RangeError when the result would pass the engine's maximum string length (a tag such as "h1000000000"), and the model gives such a heading its hashes. The maximum is engine-specific, so no bound is modelled.
- LexicalToMarkdown.ConvertHeading: a level beyond the engine's maximum string length succeeds in the model, while `'#'.repeat` throws a RangeError for it.
- LexicalToMarkdown.ConvertNode: a `null` entry in a children array is not representable, since a child is always a node. `convertNode(null)` throws a TypeError on `node.type` (src/lib/lexicalToMarkdown.ts:42-43), while the HTML converter's `processNode(null)` returns "" (src/lib/lexicalToHtml.ts:7).
- The HTML converter does no escaping. The model keeps that and states its strip property only for trees whose texts hold no '<'.
