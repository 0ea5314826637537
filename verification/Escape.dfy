/** The two escapers of the program and the readers that undo them. */
module Escape {
  import opened Options
  import opened Decimal
  import opened Utf8

  /** Escaping one character at a time. */
  function Mapped(f: char -> string, s: string): string {
    if s == "" then "" else Mapped(f, s[..|s| - 1]) + f(s[|s| - 1])
  }

  lemma MappedStep(f: char -> string, s: string, i: nat)
    requires i < |s|
    ensures Mapped(f, s[..i + 1]) == Mapped(f, s[..i]) + f(s[i])
  {
    assert s[..i + 1][..i] == s[..i];
  }

  /** A decoded text and the input that follows it. */
  datatype Read = Read(text: string, rest: string)

  function PrependText(text: string, r: Option<Read>): Option<Read> {
    if r.None? then None else Some(Read(text + r.value.text, r.value.rest))
  }

  lemma PrependTwice(a: string, b: string, r: Option<Read>)
    ensures PrependText(a, PrependText(b, r)) == PrependText(a + b, r)
    ensures PrependText("", r) == r
  {
    if r.Some? {
      assert a + (b + r.value.text) == a + b + r.value.text;
      assert "" + r.value.text == r.value.text;
    }
  }

  /** A reader that undoes the escaping of each character undoes the escaping of the whole text. */
  lemma {:induction false} MappedReadsBack(f: char -> string, reader: string -> Option<Read>, s: string, more: string)
    requires forall i, rest | 0 <= i < |s| :: reader(f(s[i]) + rest) == PrependText([s[i]], reader(rest))
    ensures reader(Mapped(f, s) + more) == PrependText(s, reader(more))
    decreases |s|
  {
    if s == "" {
      assert Mapped(f, s) + more == more;
      PrependTwice("", "", reader(more));
    } else {
      var front, last := s[..|s| - 1], s[|s| - 1];
      assert Mapped(f, s) + more == Mapped(f, front) + (f(last) + more);
      MappedReadsBack(f, reader, front, f(last) + more);
      PrependTwice(front, [last], reader(more));
      assert s == front + [last];
    }
  }

  // ------------------------------------------------------------------
  // JSON strings, as the settings reader prints them.
  // ------------------------------------------------------------------

  function HexDigit(d: nat): char
    requires d < 16
  {
    if d < 10 then DigitChar(d) else ('a' as int + d - 10) as char
  }

  function QuotedChar(c: char): string {
    if c == '"' || c == '\\' then ['\\', c]
    else if c < ' ' then ['\\', 'u', '0', '0', HexDigit(c as int / 16), HexDigit(c as int % 16)]
    else [c]
  }

  function Quoted(s: string): string {
    ['"'] + Mapped(QuotedChar, s) + ['"']
  }

  method QuoteChar(c: char) returns (piece: string)
    ensures piece == QuotedChar(c)
  {
    piece := "";
    if c == '"' || c == '\\' {
      piece := piece + ['\\'];
      piece := piece + [c];
    } else if c < ' ' {
      piece := piece + ['\\', 'u', '0', '0'];
      piece := piece + [HexDigit(c as int / 16)];
      piece := piece + [HexDigit(c as int % 16)];
    } else {
      piece := piece + [c];
    }
  }

  method Quote(s: string) returns (out: string)
    ensures out == Quoted(s)
  {
    out := ['"'];
    var i := 0;
    while i < |s|
      invariant 0 <= i <= |s|
      invariant out == ['"'] + Mapped(QuotedChar, s[..i])
    {
      MappedStep(QuotedChar, s, i);
      var piece := QuoteChar(s[i]);
      out := out + piece;
      i := i + 1;
    }
    assert s[..i] == s;
    out := out + ['"'];
  }

  /** The value of a hexadecimal digit in either case. */
  function HexValue(c: char): Option<nat> {
    if '0' <= c <= '9' then Some(c as int - '0' as int)
    else if 'a' <= c <= 'f' then Some(c as int - 'a' as int + 10)
    else if 'A' <= c <= 'F' then Some(c as int - 'A' as int + 10)
    else None
  }

  function FourHex(a: char, b: char, c: char, d: char): Option<nat> {
    var v, w, x, y := HexValue(a), HexValue(b), HexValue(c), HexValue(d);
    if v.Some? && w.Some? && x.Some? && y.Some?
    then Some(v.value * 4096 + w.value * 256 + x.value * 16 + y.value)
    else None
  }

  /** Section 7 of RFC 8259, after the backslash; \u escapes become UTF-8, and surrogates are refused. */
  function ReadEscape(t: string): (r: Option<Read>)
    ensures r.Some? ==> |r.value.rest| < |t|
  {
    if t == "" then None
    else if t[0] == '"' || t[0] == '\\' || t[0] == '/' then Some(Read([t[0]], t[1..]))
    else if t[0] == 'b' then Some(Read([8 as char], t[1..]))
    else if t[0] == 'f' then Some(Read([12 as char], t[1..]))
    else if t[0] == 'n' then Some(Read(['\n'], t[1..]))
    else if t[0] == 'r' then Some(Read(['\r'], t[1..]))
    else if t[0] == 't' then Some(Read(['\t'], t[1..]))
    else if t[0] == 'u' && |t| >= 5 then
      var v := FourHex(t[1], t[2], t[3], t[4]);
      if v.Some? && Scalar(v.value) then Some(Read(Encode(v.value), t[5..])) else None
    else None
  }

  /** The text up to the closing quotation mark, and what follows it. */
  function ReadBody(t: string): Option<Read>
    decreases |t|
  {
    if t == "" || t[0] < ' ' then None
    else if t[0] == '"' then Some(Read("", t[1..]))
    else if t[0] == '\\' then
      var escape := ReadEscape(t[1..]);
      if escape.None? then None else PrependText(escape.value.text, ReadBody(escape.value.rest))
    else PrependText([t[0]], ReadBody(t[1..]))
  }

  function ReadString(t: string): Option<Read> {
    if t != "" && t[0] == '"' then ReadBody(t[1..]) else None
  }

  lemma HexReadsBack(c: char)
    requires c < ' '
    ensures FourHex('0', '0', HexDigit(c as int / 16), HexDigit(c as int % 16)) == Some(c as int)
  {
  }

  lemma QuotedCharReadsBack(c: char, more: string)
    ensures ReadBody(QuotedChar(c) + more) == PrependText([c], ReadBody(more))
  {
    var t := QuotedChar(c) + more;
    if c == '"' || c == '\\' {
      assert t[1..] == [c] + more;
      assert t[1..][1..] == more;
    } else if c < ' ' {
      HexReadsBack(c);
      assert t[1..] == ['u', '0', '0', HexDigit(c as int / 16), HexDigit(c as int % 16)] + more;
      assert t[1..][5..] == more;
      assert Encode(c as int) == [c];
    } else {
      assert t[1..] == more;
    }
  }

  /** A quoted string reads back as itself, and the reader stops at its closing mark whatever comes after. */
  lemma QuotedReadsBack(s: string, rest: string)
    ensures ReadString(Quoted(s) + rest) == Some(Read(s, rest))
  {
    var closing := ['"'] + rest;
    assert (Quoted(s) + rest)[1..] == Mapped(QuotedChar, s) + closing;
    forall c, more ensures ReadBody(QuotedChar(c) + more) == PrependText([c], ReadBody(more)) {
      QuotedCharReadsBack(c, more);
    }
    MappedReadsBack(QuotedChar, ReadBody, s, closing);
    assert closing[1..] == rest;
    assert ReadBody(closing) == Some(Read("", rest));
    assert s + "" == s;
  }

  // ------------------------------------------------------------------
  // XML attribute values, as the daemon prints them.
  // ------------------------------------------------------------------

  /** std::string elements are bytes. */
  predicate Bytes(s: string) {
    forall i | 0 <= i < |s| :: s[i] < 256 as char
  }

  predicate Verbatim(c: char) {
    32 <= c as int <= 127 && c != '&' && c != '<' && c != '>' && c != '"' && c != '\''
  }

  function ReferenceName(c: char): string {
    if c == '&' then "amp"
    else if c == '<' then "lt"
    else if c == '>' then "gt"
    else if c == '"' then "quot"
    else if c == '\'' then "apos"
    else "#" + Print(c as int)
  }

  function XmlChar(c: char): string {
    if Verbatim(c) then [c] else ['&'] + ReferenceName(c) + [';']
  }

  function Encoded(s: string): string {
    Mapped(XmlChar, s)
  }

  method EncodeChar(c: char) returns (piece: string)
    ensures piece == XmlChar(c)
  {
    match c {
      case '&' => piece := "&amp;";
      case '<' => piece := "&lt;";
      case '>' => piece := "&gt;";
      case '"' => piece := "&quot;";
      case '\'' => piece := "&apos;";
      case _ =>
        if c as int < 32 || c as int > 127 {
          piece := "&#" + Print(c as int) + ";";
        } else {
          piece := [c];
        }
    }
  }

  method EncodeForXml(source: string) returns (out: string)
    ensures out == Encoded(source)
  {
    out := "";
    var i := 0;
    while i < |source|
      invariant 0 <= i <= |source|
      invariant out == Mapped(XmlChar, source[..i])
    {
      MappedStep(XmlChar, source, i);
      var piece := EncodeChar(source[i]);
      out := out + piece;
      i := i + 1;
    }
    assert source[..i] == source;
  }

  /** Sections 4.1 and 4.6 of XML 1.0: decimal references, read as bytes, and the predefined entities. */
  function Referenced(name: string): Option<char> {
    if name != "" && name[0] == '#' then
      var digits := name[1..];
      if digits != "" && AllDigits(digits) && Value(digits) < 256 then Some(Value(digits) as char) else None
    else if name == "amp" then Some('&')
    else if name == "lt" then Some('<')
    else if name == "gt" then Some('>')
    else if name == "quot" then Some('"')
    else if name == "apos" then Some('\'')
    else None
  }

  /** The text before the first semicolon; all of it when there is none. */
  function UpToSemicolon(t: string): (name: string)
    ensures |name| <= |t|
  {
    if t == "" || t[0] == ';' then "" else [t[0]] + UpToSemicolon(t[1..])
  }

  /** After an ampersand. */
  function ReadReference(t: string): (r: Option<Read>)
    ensures r.Some? ==> |r.value.rest| < |t|
  {
    var name := UpToSemicolon(t);
    if |name| < |t| && Referenced(name).Some? then Some(Read([Referenced(name).value], t[|name| + 1..])) else None
  }

  /** An attribute value up to its closing double quote, and what follows it. */
  function ReadAttribute(t: string): Option<Read>
    decreases |t|
  {
    if t == "" || t[0] == '<' then None
    else if t[0] == '"' then Some(Read("", t[1..]))
    else if t[0] == '&' then
      var reference := ReadReference(t[1..]);
      if reference.None? then None else PrependText(reference.value.text, ReadAttribute(reference.value.rest))
    else PrependText([t[0]], ReadAttribute(t[1..]))
  }

  lemma {:induction false} UpToSemicolonOf(name: string, more: string)
    requires ';' !in name
    ensures UpToSemicolon(name + [';'] + more) == name
  {
    if name != "" {
      UpToSemicolonOf(name[1..], more);
      assert (name + [';'] + more)[1..] == name[1..] + [';'] + more;
    }
  }

  lemma NumberReadsBack(n: nat)
    requires n < 256
    ensures Referenced("#" + Print(n)) == Some(n as char) && ';' !in "#" + Print(n)
  {
    PrintThenValue(n);
    var name := "#" + Print(n);
    assert name[1..] == Print(n) && name[0] == '#';
  }

  lemma ReferenceNameReadsBack(c: char)
    requires c as int < 256 && !Verbatim(c)
    ensures Referenced(ReferenceName(c)) == Some(c) && ';' !in ReferenceName(c)
  {
    if c !in ['&', '<', '>', '"', '\''] {
      NumberReadsBack(c as int);
    }
  }

  lemma XmlCharReadsBack(c: char, more: string)
    requires c as int < 256
    ensures ReadAttribute(XmlChar(c) + more) == PrependText([c], ReadAttribute(more))
  {
    var t := XmlChar(c) + more;
    if Verbatim(c) {
      assert t[1..] == more;
    } else {
      var name := ReferenceName(c);
      ReferenceNameReadsBack(c);
      UpToSemicolonOf(name, more);
      assert t[1..] == name + [';'] + more;
      assert (name + [';'] + more)[|name| + 1..] == more;
    }
  }

  /** An encoded attribute value reads back as itself, up to the closing quote and no further. */
  lemma AttributeReadsBack(s: string, rest: string)
    requires Bytes(s)
    ensures ReadAttribute(Encoded(s) + ['"'] + rest) == Some(Read(s, rest))
  {
    var closing := ['"'] + rest;
    assert Encoded(s) + ['"'] + rest == Encoded(s) + closing;
    forall i, more | 0 <= i < |s|
      ensures ReadAttribute(XmlChar(s[i]) + more) == PrependText([s[i]], ReadAttribute(more))
    {
      XmlCharReadsBack(s[i], more);
    }
    MappedReadsBack(XmlChar, ReadAttribute, s, closing);
    assert closing[1..] == rest;
    assert s + "" == s;
  }

  predicate Delimiter(c: char) {
    c == '<' || c == '>' || c == '"' || c == '\''
  }

  /** What an encoded text is made of. */
  predicate Harmless(s: string) {
    forall i | 0 <= i < |s| :: !Delimiter(s[i]) && 32 <= s[i] as int <= 127
  }

  lemma PrintedIsHarmless(n: nat)
    ensures Harmless(Print(n))
  {
    PrintThenValue(n);
    assert forall i | 0 <= i < |Print(n)| :: IsDigit(Print(n)[i]);
  }

  lemma ReferenceIsHarmless(c: char)
    ensures Harmless(ReferenceName(c))
  {
    PrintedIsHarmless(c as int);
  }

  lemma XmlCharIsHarmless(c: char)
    ensures Harmless(XmlChar(c))
  {
    ReferenceIsHarmless(c);
  }

  /** No `<`, `>` or quotation mark, no control character below 32 and no byte above 127 survives. */
  lemma {:induction false} EncodedHasNoDelimiter(s: string)
    ensures Harmless(Encoded(s))
    decreases |s|
  {
    if s != "" {
      EncodedHasNoDelimiter(s[..|s| - 1]);
      XmlCharIsHarmless(s[|s| - 1]);
      assert Encoded(s) == Encoded(s[..|s| - 1]) + XmlChar(s[|s| - 1]);
    }
  }

  // ------------------------------------------------------------------
  // Nothing is escaped without need.
  // ------------------------------------------------------------------

  lemma {:induction false} MappedToItself(f: char -> string, s: string)
    requires forall i | 0 <= i < |s| :: f(s[i]) == [s[i]]
    ensures Mapped(f, s) == s
  {
    if s != "" {
      MappedToItself(f, s[..|s| - 1]);
      assert s == s[..|s| - 1] + [s[|s| - 1]];
    }
  }

  /** Quoting leaves ordinary text as it is, and prints a control character with lower-case digits. */
  lemma QuotedAsIs(s: string)
    requires forall i | 0 <= i < |s| :: s[i] as int >= 32 && s[i] != '"' && s[i] != '\\'
    ensures Quoted(s) == ['"'] + s + ['"']
    ensures forall d: nat | d < 16 :: HexDigit(d) == "0123456789abcdef"[d]
  {
    MappedToItself(QuotedChar, s);
  }

  /** Encoding leaves ordinary text as it is. */
  lemma EncodedAsIs(s: string)
    requires forall i | 0 <= i < |s| :: 32 <= s[i] as int <= 127 && s[i] !in ['&', '<', '>', '"', '\'']
    ensures Encoded(s) == s
  {
    MappedToItself(XmlChar, s);
  }
}
