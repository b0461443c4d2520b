/**
  The Payload/Lexical rich-text tree both serialisers walk.
  A node is the JSON object the editor saves: a `type`, optional ordered `children`
  and the attributes the serialisers read. A string attribute equal to "" stands
  both for an absent attribute and for an empty one, since the serialisers only
  ever test them for truthiness.
*/
module Lexical {
  import opened Wrappers

  /** The `type` field. Unknown carries any other type name. */
  datatype Kind =
    | Root | Paragraph | Heading | List | ListItem | Quote | Code | Link | Text
    | LineBreak | HorizontalRule
    | Unknown(name: string)

  /** The `fields` object a link node may carry (url and newTab). */
  datatype LinkFields = LinkFields(url: string, newTab: bool)

  datatype Node = Node(
    kind: Kind,
    hasChildren: bool,            // whether `children` is present: an empty array is still truthy
    children: seq<Node>,          // read only when hasChildren
    text: string,                 // text nodes
    format: int,                  // text nodes: the format bitmask (0 when absent)
    tag: string,                  // heading nodes: "h1" ... "h6"
    listType: string,             // list nodes: "number", "bullet", ...
    url: string,                  // link nodes
    newTab: bool,                 // link nodes
    fields: Option<LinkFields>,   // link nodes
    language: string)             // code nodes

  /**
    The `content` value handed to a serialiser: a legacy Markdown string, an object
    whose `root` may be missing, or any other value (null, undefined, a number, a boolean).
  */
  datatype Content = Str(s: string) | Obj(root: Option<Node>) | Primitive

  /** A node of the given kind with no attributes and no children array. */
  function Blank(kind: Kind): Node {
    Node(kind, false, [], "", 0, "", "", "", false, None, "")
  }

  /** An unformatted text node. */
  function TextNode(text: string): Node {
    Blank(Text).(text := text)
  }

  /** `n` with a children array. */
  function WithChildren(n: Node, children: seq<Node>): Node {
    n.(hasChildren := true, children := children)
  }

  /** The five independent format flags of a text node. */
  datatype Flags = Flags(bold: bool, italic: bool, strikethrough: bool, underline: bool, code: bool)

  /**
    `format & 2^k != 0` for k = 0..4. JavaScript's `&` works on the 32-bit two's-complement
    value; for an integer its low bits are those of the Euclidean quotient used here,
    negative formats included.
  */
  function DecodeFormat(format: int): (f: Flags)
    ensures EncodeFlags(f) == format % 32
  {
    LowBits(format);
    Flags(
      format % 2 == 1,
      (format / 2) % 2 == 1,
      (format / 4) % 2 == 1,
      (format / 8) % 2 == 1,
      (format / 16) % 2 == 1)
  }

  /** The five low bits of an integer, in Euclidean arithmetic. */
  lemma LowBits(x: int)
    ensures x % 32 == x % 2 + 2 * ((x / 2) % 2) + 4 * ((x / 4) % 2) + 8 * ((x / 8) % 2) + 16 * ((x / 16) % 2)
  {
    var q1, q2, q3, q4 := x / 2, x / 4, x / 8, x / 16;
    assert q2 == q1 / 2 && q3 == q2 / 2 && q4 == q3 / 2 && x / 32 == q4 / 2;
    assert x == 2 * q1 + x % 2;
    assert q1 == 2 * q2 + q1 % 2;
    assert q2 == 2 * q3 + q2 % 2;
    assert q3 == 2 * q4 + q3 % 2;
    assert q4 == 2 * (x / 32) + q4 % 2;
  }

  /** The bitmask the editor writes for a set of flags. */
  function EncodeFlags(f: Flags): (m: int)
    ensures 0 <= m < 32
  {
    (if f.bold then 1 else 0) + (if f.italic then 2 else 0) + (if f.strikethrough then 4 else 0)
    + (if f.underline then 8 else 0) + (if f.code then 16 else 0)
  }

  /** Every flag combination survives encoding and decoding ... */
  lemma DecodeEncode(f: Flags)
    ensures DecodeFormat(EncodeFlags(f)) == f
  {
  }

  /** ... and every mask of five bits is the encoding of its own flags. */
  lemma EncodeDecode(m: int)
    requires 0 <= m < 32
    ensures EncodeFlags(DecodeFormat(m)) == m
  {
  }
}
