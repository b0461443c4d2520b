/**
  The handful of JavaScript string built-ins the modelled code relies on:
  trim, split/join on one character, startsWith/endsWith, repeat,
  replace of the first occurrence of a character, ASCII lower-casing,
  Number#toString for naturals and parseInt without a radix.
  A JavaScript string is modelled as a sequence of Unicode scalar values (`char`); the
  difference from UTF-16 code units is listed in the README's "Left out" section.
*/
module JsString {
  import opened Wrappers

  /** WhiteSpace and LineTerminator code points of ECMA-262, the set trim() and parseInt() skip. */
  predicate IsSpace(c: char) {
    || c == '\t' || c == '\n' || c == '\U{000B}' || c == '\U{000C}' || c == '\r' || c == ' '
    || c == '\U{00A0}' || c == '\U{1680}' || ('\U{2000}' <= c <= '\U{200A}')
    || c == '\U{2028}' || c == '\U{2029}' || c == '\U{202F}' || c == '\U{205F}'
    || c == '\U{3000}' || c == '\U{FEFF}'
  }

  predicate AllSpace(s: string) {
    forall i :: 0 <= i < |s| ==> IsSpace(s[i])
  }

  /** String#trimStart: the suffix of `s` left after its leading white space. */
  function TrimStart(s: string): (r: string)
    ensures |r| <= |s| && r == s[|s| - |r|..]
    ensures AllSpace(s[..|s| - |r|])
    ensures r != [] ==> !IsSpace(r[0])
  {
    if s != [] && IsSpace(s[0]) then TrimStart(s[1..]) else s
  }

  /** String#trimEnd: the prefix of `s` left before its trailing white space. */
  function TrimEnd(s: string): (r: string)
    ensures |r| <= |s| && r == s[..|r|]
    ensures AllSpace(s[|r|..])
    ensures r != [] ==> !IsSpace(r[|r| - 1])
  {
    if s != [] && IsSpace(s[|s| - 1]) then TrimEnd(s[..|s| - 1]) else s
  }

  /** String#trim: empty exactly when `s` is all white space; otherwise starts and ends with a non-space. */
  function Trim(s: string): (r: string)
    ensures |r| <= |s|
    ensures r == [] <==> AllSpace(s)
    ensures r != [] ==> !IsSpace(r[0]) && !IsSpace(r[|r| - 1])
  {
    var t := TrimStart(s);
    var r := TrimEnd(t);
    assert r == [] ==> AllSpace(s) by {
      if r == [] {
        assert AllSpace(t[0..]);
        assert s == s[..|s| - |t|] + t;
      }
    }
    assert t != [] ==> !IsSpace(s[|s| - |t|]);
    r
  }

  /** A string that neither starts nor ends with white space is its own trim; so trim is idempotent. */
  lemma TrimUnchanged(s: string)
    requires s != [] ==> !IsSpace(s[0]) && !IsSpace(s[|s| - 1])
    ensures Trim(s) == s
    ensures Trim(Trim(s)) == Trim(s)
  {
    assert TrimStart(s) == s;
    assert TrimEnd(s) == s;
  }

  /** Leading white space before a non-space character is all trimStart removes. */
  lemma {:induction false} TrimStartPadded(pad: string, t: string)
    requires AllSpace(pad) && t != [] && !IsSpace(t[0])
    ensures TrimStart(pad + t) == t
  {
    if pad != [] {
      assert (pad + t)[1..] == pad[1..] + t;
      TrimStartPadded(pad[1..], t);
    } else {
      assert pad + t == t;
    }
  }

  /** Trailing white space after a non-space character is all trimEnd removes. */
  lemma {:induction false} TrimEndPadded(t: string, pad: string)
    requires AllSpace(pad) && t != [] && !IsSpace(t[|t| - 1])
    ensures TrimEnd(t + pad) == t
  {
    if pad != [] {
      var s := t + pad;
      assert s[..|s| - 1] == t + pad[..|pad| - 1];
      assert s[|s| - 1] == pad[|pad| - 1];
      TrimEndPadded(t, pad[..|pad| - 1]);
    } else {
      assert t + pad == t;
    }
  }

  /** trim() of a string surrounded by white space gives the string back. */
  lemma TrimPadded(pad1: string, t: string, pad2: string)
    requires AllSpace(pad1) && AllSpace(pad2) && t != [] && !IsSpace(t[0]) && !IsSpace(t[|t| - 1])
    ensures Trim(pad1 + t + pad2) == t
  {
    assert pad1 + t + pad2 == pad1 + (t + pad2);
    TrimStartPadded(pad1, t + pad2);
    TrimEndPadded(t, pad2);
  }

  lemma {:induction false} TrimInfix(s: string) returns (i: nat, j: nat)
    ensures i <= j <= |s| && Trim(s) == s[i..j]
    ensures AllSpace(s[..i]) && AllSpace(s[j..])
  {
    var t := TrimStart(s);
    var r := TrimEnd(t);
    i := |s| - |t|;
    j := i + |r|;
    assert t[..|r|] == s[i..j];
    assert t[|r|..] == s[j..];
  }

  predicate StartsWith(s: string, prefix: string) {
    |prefix| <= |s| && s[..|prefix|] == prefix
  }

  predicate EndsWith(s: string, suffix: string) {
    |suffix| <= |s| && s[|s| - |suffix|..] == suffix
  }

  /** What a suffix test on `a + b` can see: `b`'s own end, or `b` as a tail of the suffix. */
  lemma EndsWithConcat(a: string, b: string, t: string)
    ensures |b| >= |t| ==> (EndsWith(a + b, t) <==> EndsWith(b, t))
    ensures |b| < |t| && EndsWith(a + b, t) ==> EndsWith(t, b)
  {
    var s := a + b;
    if |b| >= |t| {
      assert s[|s| - |t|..] == b[|b| - |t|..];
    } else if EndsWith(s, t) {
      assert t[|t| - |b|..] == s[|s| - |b|..] == b;
    }
  }

  /** String#repeat for a count that is not negative. */
  function Repeat(c: char, n: nat): (r: string)
    ensures |r| == n && forall i :: 0 <= i < n ==> r[i] == c
  {
    if n == 0 then [] else [c] + Repeat(c, n - 1)
  }

  /** Array#join(sep) over strings. */
  function Join(parts: seq<string>, sep: char): (r: string)
  {
    if |parts| == 0 then []
    else if |parts| == 1 then parts[0]
    else parts[0] + [sep] + Join(parts[1..], sep)
  }

  /** String#split(sep) on a one-character separator: the separator-free pieces that Join glues back. */
  function Split(s: string, sep: char): (parts: seq<string>)
    ensures |parts| >= 1
    ensures forall k :: 0 <= k < |parts| ==> sep !in parts[k]
    ensures Join(parts, sep) == s
    decreases |s|
  {
    if s == [] then [[]]
    else
      var rest := Split(s[1..], sep);
      if s[0] == sep then
        var parts := [[]] + rest;
        assert parts[1..] == rest;
        assert s == [sep] + s[1..];
        parts
      else
        var parts := [[s[0]] + rest[0]] + rest[1..];
        assert s == [s[0]] + s[1..];
        assert |rest| > 1 ==> parts[1..] == rest[1..] && Join(rest, sep) == rest[0] + [sep] + Join(rest[1..], sep);
        parts
  }

  lemma {:induction false} SplitNoSepPrefix(p: string, t: string, sep: char)
    requires sep !in p
    ensures Split(p + t, sep) == [p + Split(t, sep)[0]] + Split(t, sep)[1..]
    decreases |p|
  {
    if p != [] {
      SplitNoSepPrefix(p[1..], t, sep);
      assert (p + t)[1..] == p[1..] + t;
      assert [p[0]] + (p[1..] + Split(t, sep)[0]) == p + Split(t, sep)[0];
    } else {
      assert p + t == t;
      var parts := Split(t, sep);
      assert [] + parts[0] == parts[0];
      assert parts == [parts[0]] + parts[1..];
    }
  }

  /** Splitting the join of separator-free pieces gives the pieces back. */
  lemma {:induction false} SplitJoin(parts: seq<string>, sep: char)
    requires |parts| >= 1
    requires forall k :: 0 <= k < |parts| ==> sep !in parts[k]
    ensures Split(Join(parts, sep), sep) == parts
    decreases |parts|
  {
    if |parts| == 1 {
      SplitJoinOne(parts, sep);
    } else {
      SplitJoin(parts[1..], sep);
      SplitJoinStep(parts, sep);
    }
  }

  lemma SplitJoinOne(parts: seq<string>, sep: char)
    requires |parts| == 1 && sep !in parts[0]
    ensures Split(Join(parts, sep), sep) == parts
  {
    SplitNoSepPrefix(parts[0], [], sep);
    assert parts[0] + [] == parts[0];
    assert Split([], sep) == [[]];
    assert parts == [parts[0]];
  }

  lemma SplitJoinStep(parts: seq<string>, sep: char)
    requires |parts| >= 2 && sep !in parts[0]
    requires Split(Join(parts[1..], sep), sep) == parts[1..]
    ensures Split(Join(parts, sep), sep) == parts
  {
    var rest := Join(parts[1..], sep);
    JoinHead(parts, sep);
    SplitCons(parts[0], rest, sep);
    assert parts == [parts[0]] + parts[1..];
  }

  lemma JoinHead(parts: seq<string>, sep: char)
    requires |parts| >= 2
    ensures Join(parts, sep) == parts[0] + ([sep] + Join(parts[1..], sep))
  {
  }

  /** A separator-free piece, a separator, then the rest: the piece comes first in the split. */
  lemma SplitCons(p: string, rest: string, sep: char)
    requires sep !in p
    ensures Split(p + ([sep] + rest), sep) == [p] + Split(rest, sep)
  {
    var sr := [sep] + rest;
    SplitNoSepPrefix(p, sr, sep);
    SplitAfterSep(rest, sep);
    Reassemble(p, Split(sr, sep), Split(rest, sep));
  }

  lemma Reassemble(p: string, q: seq<string>, tail: seq<string>)
    requires q == [[]] + tail
    ensures [p + q[0]] + q[1..] == [p] + tail
  {
    assert q[1..] == tail;
    assert p + [] == p;
  }

  lemma SplitAfterSep(rest: string, sep: char)
    ensures Split([sep] + rest, sep) == [[]] + Split(rest, sep)
  {
    assert ([sep] + rest)[1..] == rest;
  }

  /** Joining two non-empty lists puts one separator between their joins. */
  lemma {:induction false} JoinAppend(a: seq<string>, b: seq<string>, sep: char)
    requires |a| >= 1 && |b| >= 1
    ensures Join(a + b, sep) == Join(a, sep) + [sep] + Join(b, sep)
    decreases |a|
  {
    if |a| == 1 {
      assert (a + b)[1..] == b;
    } else {
      JoinAppend(a[1..], b, sep);
      assert (a + b)[1..] == a[1..] + b;
    }
  }

  /** The position of the first `c` in `s`, or |s| when there is none. */
  function IndexOf(s: string, c: char): (k: nat)
    ensures k <= |s| && c !in s[..k]
    ensures k < |s| ==> s[k] == c
  {
    if s == [] || s[0] == c then 0 else 1 + IndexOf(s[1..], c)
  }

  /** String#replace(c, '') with a string pattern: drops the first occurrence of `c` only. */
  function RemoveFirst(s: string, c: char): (r: string)
    ensures c !in s ==> r == s
    ensures c in s ==> |r| == |s| - 1 && s == r[..IndexOf(s, c)] + [c] + r[IndexOf(s, c)..]
  {
    var k := IndexOf(s, c);
    if k == |s| then s
    else
      var r := s[..k] + s[k + 1..];
      assert r[..k] == s[..k] && r[k..] == s[k + 1..];
      assert s == s[..k] + [c] + s[k + 1..];
      r
  }

  /** Dropping the first `c` of a string that starts with `c` leaves the rest. */
  lemma RemoveLeading(c: char, d: string)
    ensures RemoveFirst([c] + d, c) == d
  {
    var t := [c] + d;
    assert IndexOf(t, c) == 0;
    assert t[1..] == d;
  }

  function LowerChar(c: char): char {
    if 'A' <= c <= 'Z' then (c as int + 32) as char else c
  }

  /** String#toLowerCase restricted to the ASCII letters. */
  function ToLowerAscii(s: string): (r: string)
    ensures |r| == |s| && forall i :: 0 <= i < |s| ==> r[i] == LowerChar(s[i])
  {
    if s == [] then [] else [LowerChar(s[0])] + ToLowerAscii(s[1..])
  }

  predicate IsDigit(c: char) {
    '0' <= c <= '9'
  }

  function DigitChar(d: nat): (c: char)
    requires d < 10
    ensures IsDigit(c)
  {
    ('0' as int + d) as char
  }

  /** Number#toString for a natural number: its shortest decimal numeral. */
  function Decimal(n: nat): (s: string)
    ensures |s| >= 1 && forall i :: 0 <= i < |s| ==> IsDigit(s[i])
  {
    if n < 10 then [DigitChar(n)] else Decimal(n / 10) + [DigitChar(n % 10)]
  }

  /** A digit of radix 10 or 16 (parseInt accepts either case of a–f). */
  predicate IsRadixDigit(c: char, radix: nat) {
    if radix == 16 then IsDigit(c) || 'a' <= c <= 'f' || 'A' <= c <= 'F' else IsDigit(c)
  }

  function RadixDigitValue(c: char): nat {
    if IsDigit(c) then c as int - '0' as int
    else if 'a' <= c <= 'f' then c as int - 'a' as int + 10
    else if 'A' <= c <= 'F' then c as int - 'A' as int + 10
    else 0
  }

  /** Length of the longest prefix of `s` made of digits of `radix`. */
  function DigitRun(s: string, radix: nat): (n: nat)
    ensures n <= |s|
    ensures forall i :: 0 <= i < n ==> IsRadixDigit(s[i], radix)
    ensures n < |s| ==> !IsRadixDigit(s[n], radix)
  {
    if s != [] && IsRadixDigit(s[0], radix) then 1 + DigitRun(s[1..], radix) else 0
  }

  /** The value of a numeral, most significant digit first. */
  function DigitsValue(ds: string, radix: nat): nat
  {
    if ds == [] then 0
    else
      var high := DigitsValue(ds[..|ds| - 1], radix);
      (if radix == 16 then high * 16 else high * 10) + RadixDigitValue(ds[|ds| - 1])
  }

  /** The digits parseInt reads from `u` once white space and sign are gone; None when there is none. */
  function ParseMagnitude(u: string): Option<nat>
  {
    var hex := |u| >= 2 && u[0] == '0' && (u[1] == 'x' || u[1] == 'X');
    var radix := if hex then 16 else 10;
    var body := if hex then u[2..] else u;
    var n := DigitRun(body, radix);
    if n == 0 then None else Some(DigitsValue(body[..n], radix))
  }

  /**
    parseInt(s) with no radix argument: skip leading white space, take an optional sign,
    switch to radix 16 after a "0x"/"0X" prefix, then read the longest run of digits.
    None stands for NaN (no digit at all).
  */
  function ParseInt(s: string): (r: Option<int>)
    ensures AllSpace(s) ==> r.None?
    ensures r.Some? && r.value < 0 ==> TrimStart(s)[0] == '-'
  {
    var t := TrimStart(s);
    var negative := t != [] && t[0] == '-';
    var u := if t != [] && (t[0] == '-' || t[0] == '+') then t[1..] else t;
    match ParseMagnitude(u)
    case None => None
    case Some(v) => Some(if negative then -(v as int) else v as int)
  }

  lemma {:induction false} DecimalValue(n: nat)
    ensures DigitsValue(Decimal(n), 10) == n
  {
    if n >= 10 {
      DecimalValue(n / 10);
      var s := Decimal(n);
      assert s[..|s| - 1] == Decimal(n / 10);
    }
  }

  lemma DigitRunAll(s: string, radix: nat)
    requires forall i :: 0 <= i < |s| ==> IsRadixDigit(s[i], radix)
    ensures DigitRun(s, radix) == |s|
  {
  }

  lemma ParseUnsigned(u: string, v: nat)
    requires u != [] && !IsSpace(u[0]) && u[0] != '-' && u[0] != '+'
    requires ParseMagnitude(u) == Some(v)
    ensures ParseInt(u) == Some(v)
  {
    assert TrimStart(u) == u;
  }

  lemma ParseMinus(u: string, v: nat)
    requires ParseMagnitude(u) == Some(v)
    ensures ParseInt("-" + u) == Some(-(v as int))
  {
    var m := "-" + u;
    assert m[0] == '-';
    assert TrimStart(m) == m;
    assert m[1..] == u;
  }

  /** The digits of a plain numeral are all read, in radix 10 (a digit is never 'x'). */
  lemma MagnitudeDigits(d: string)
    requires |d| >= 1 && forall i :: 0 <= i < |d| ==> IsDigit(d[i])
    ensures ParseMagnitude(d) == Some(DigitsValue(d, 10))
  {
    assert !(|d| >= 2 && d[0] == '0' && (d[1] == 'x' || d[1] == 'X')) by {
      if |d| >= 2 {
        assert IsDigit(d[1]);
      }
    }
    assert DigitRun(d, 10) == |d| by {
      DigitRunAll(d, 10);
    }
    assert d[..|d|] == d;
  }

  /** A plain numeral: parseInt reads all of it, in radix 10. */
  lemma ParseDigits(d: string)
    requires |d| >= 1 && forall i :: 0 <= i < |d| ==> IsDigit(d[i])
    ensures ParseInt(d) == Some(DigitsValue(d, 10))
  {
    MagnitudeDigits(d);
    assert IsDigit(d[0]);
    ParseUnsigned(d, DigitsValue(d, 10));
  }

  /** parseInt reads back what Number#toString writes. */
  lemma ParseDecimal(n: nat)
    ensures ParseInt(Decimal(n)) == Some(n)
  {
    DecimalValue(n);
    ParseDigits(Decimal(n));
  }
}
