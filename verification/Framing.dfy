/** The daemon's socket: the receive loop, the reading of frame headers, and the framing of replies. */
module Framing {
  import opened Options
  import opened Decimal
  import opened MessageStream

  const END: string := "</isr>"

  /** The root element libxml2 finds in a text. */
  datatype XmlRoot = XmlRoot(name: string, attributes: map<string, string>)

  /** The libraries: an XML reader (None when there is no root) and zlib's inflate ("" on failure). */
  datatype Libraries = Libraries(xml: string -> Option<XmlRoot>, inflate: string -> string)

  function ReadHeader(libraries: Libraries, text: string): Header {
    match libraries.xml(text)
    case None => Plain
    case Some(root) =>
      if root.name == "isr" && "type" in root.attributes && Atoi(root.attributes["type"]) == 105
         && "length" in root.attributes
      then
        Framed(StrToUnsigned(root.attributes["length"]),
               "c" in root.attributes && Atoi(root.attributes["c"]) == 1)
      else Plain
  }

  function CutterOf(libraries: Libraries): Cutter {
    Cutter(END, (text: string) => ReadHeader(libraries, text), libraries.inflate)
  }

  // ------------------------------------------------------------------
  // Framed replies are recovered.
  // ------------------------------------------------------------------

  function FrameHeader(length: nat, compressed: bool): string {
    "<?xml version=\"1.0\" " + "encoding=\"UTF-8\"?>" + "<isr type=\"105\" " + "length=\"" + Print(length) + "\""
    + (if compressed then " c=\"1\"" else "") + ">" + END
  }

  function FrameAttributes(length: nat, compressed: bool): map<string, string> {
    var plain := map["type" := "105", "length" := Print(length)];
    if compressed then plain["c" := "1"] else plain
  }

  /** One reply: the body is deflated when zlib produces something, and the header announces its size. */
  function FrameReply(deflate: string -> string, data: string): Message {
    var deflated := deflate(data);
    if deflated != "" then Frame(FrameHeader(|deflated|, true), deflated, true, data)
    else Frame(FrameHeader(|data|, false), data, false, data)
  }

  /** What peers send each other: requests as they are, replies in frames. */
  datatype Item = Request(text: string) | Reply(data: string)

  function MessageOf(deflate: string -> string, item: Item): Message {
    if item.Request? then Text(item.text) else FrameReply(deflate, item.data)
  }

  function ContentOf(item: Item): string {
    if item.Request? then item.text else item.data
  }

  function Sent(deflate: string -> string, items: seq<Item>): seq<Message> {
    if items == [] then [] else [MessageOf(deflate, items[0])] + Sent(deflate, items[1..])
  }

  function Received(items: seq<Item>): seq<string> {
    if items == [] then [] else [ContentOf(items[0])] + Received(items[1..])
  }

  /** The XML reader reads frame headers, and inflate undoes deflate. */
  ghost predicate Matching(libraries: Libraries, deflate: string -> string) {
    && (forall length: nat, compressed: bool ::
          libraries.xml(FrameHeader(length, compressed)) == Some(XmlRoot("isr", FrameAttributes(length, compressed))))
    && (forall data :: deflate(data) != "" ==> libraries.inflate(deflate(data)) == data)
  }

  ghost predicate Sendable(deflate: string -> string, data: string) {
    data != "" && |Bytes(FrameReply(deflate, data))| <= SIZE_MAX
  }

  /** One element, closed by its tag, whose type is printed and is not that of a frame. */
  ghost predicate IsRequest(libraries: Libraries, text: string) {
    && EndsWithFirst(END, text)
    && libraries.xml(text).Some?
    && var attributes := libraries.xml(text).value.attributes;
    && "type" in attributes
    && exists n: nat :: n < 0x8000_0000 && n != 105 && attributes["type"] == Print(n)
  }

  ghost predicate CanBeSent(libraries: Libraries, deflate: string -> string, item: Item) {
    match item
    case Request(text) => IsRequest(libraries, text)
    case Reply(data) => Sendable(deflate, data)
  }

  lemma FindAfterSlashFree(tag: string, before: string)
    requires '/' !in before
    requires |tag| > 1 && tag[0] != '/' && tag[1] == '/'
    ensures EndsWithFirst(tag, before + tag)
  {
    var s := before + tag;
    assert s[|before|..|before| + |tag|] == tag;
    forall i: nat | i < |before| && i + |tag| <= |s| ensures !OccursAt(tag, s, i) {
      assert s[i + 1] == if i + 1 == |before| then tag[0] else before[i + 1];
      assert s[i..i + |tag|][1] == s[i + 1];
    }
    FindIsFirst(tag, s, |before|);
  }

  lemma HeaderEndsAtItsTag(length: nat, compressed: bool)
    ensures EndsWithFirst(END, FrameHeader(length, compressed))
  {
    PrintThenValue(length);
    var before := "<?xml version=\"1.0\" " + "encoding=\"UTF-8\"?>" + "<isr type=\"105\" " + "length=\"" + Print(length)
      + "\"" + (if compressed then " c=\"1\"" else "") + ">";
    assert '/' !in before;
    FindAfterSlashFree(END, before);
    assert FrameHeader(length, compressed) == before + END;
  }

  lemma TypeAndFlagReadBack()
    ensures Atoi("105") == 105 && Atoi("1") == 1
  {
    assert Print(1) == "1" && Print(10) == "10" && Print(105) == "105";
    PrintThenValue(1);
    PrintThenValue(105);
    AtoiOfSmall("1");
    AtoiOfSmall("105");
  }

  lemma FrameAttributesAre(length: nat, compressed: bool)
    ensures var attributes := FrameAttributes(length, compressed);
            && "type" in attributes && attributes["type"] == "105"
            && "length" in attributes && attributes["length"] == Print(length)
            && ("c" in attributes <==> compressed) && (compressed ==> attributes["c"] == "1")
  {
    assert |"c"| == 1 && |"type"| == 4 && |"length"| == 6;
  }

  lemma HeaderReadsBack(libraries: Libraries, deflate: string -> string, length: size_t, compressed: bool)
    requires Matching(libraries, deflate)
    ensures ReadHeader(libraries, FrameHeader(length, compressed)) == Framed(length, compressed)
  {
    var text, attributes := FrameHeader(length, compressed), FrameAttributes(length, compressed);
    assert libraries.xml(text) == Some(XmlRoot("isr", attributes));
    RootReadsBack(libraries, text, attributes, length, compressed);
  }

  lemma RootReadsBack(
    libraries: Libraries, text: string, attributes: map<string, string>, length: size_t, compressed: bool)
    requires libraries.xml(text) == Some(XmlRoot("isr", attributes))
    requires attributes == FrameAttributes(length, compressed)
    ensures ReadHeader(libraries, text) == Framed(length, compressed)
  {
    FrameAttributesAre(length, compressed);
    TypeAndFlagReadBack();
    UnsignedReadsBack(length);
  }

  /** A text is a frame header exactly as its root says: an `isr` element of type 105 that has a length. */
  lemma FramedExactly(libraries: Libraries, text: string, root: XmlRoot, kind: nat)
    requires libraries.xml(text) == Some(root) && kind < 0x8000_0000
    requires "type" in root.attributes && root.attributes["type"] == Print(kind)
    ensures ReadHeader(libraries, text).Framed? <==> root.name == "isr" && kind == 105 && "length" in root.attributes
  {
    PrintThenValue(kind);
    AtoiOfSmall(Print(kind));
  }

  lemma RequestIsPlain(libraries: Libraries, text: string)
    requires IsRequest(libraries, text)
    ensures WellFormed(CutterOf(libraries), Text(text))
  {
    var root := libraries.xml(text).value;
    var n: nat :| n < 0x8000_0000 && n != 105 && root.attributes["type"] == Print(n);
    FramedExactly(libraries, text, root, n);
  }

  lemma ReplyIsWellFramed(libraries: Libraries, deflate: string -> string, data: string)
    requires Matching(libraries, deflate) && Sendable(deflate, data)
    ensures var frame := FrameReply(deflate, data);
            && WellFormed(CutterOf(libraries), frame)
            && frame.Frame? && frame.content == data && (frame.compressed <==> deflate(data) != "")
  {
    var frame := FrameReply(deflate, data);
    HeaderEndsAtItsTag(|frame.body|, frame.compressed);
    HeaderReadsBack(libraries, deflate, |frame.body|, frame.compressed);
  }

  lemma ItemIsWellFormed(libraries: Libraries, deflate: string -> string, item: Item)
    requires Matching(libraries, deflate) && CanBeSent(libraries, deflate, item)
    ensures var message := MessageOf(deflate, item);
            WellFormed(CutterOf(libraries), message) && !message.Damaged? && message.content == ContentOf(item)
  {
    if item.Request? {
      RequestIsPlain(libraries, item.text);
    } else {
      ReplyIsWellFramed(libraries, deflate, item.data);
    }
  }

  lemma {:induction false} ItemsAreWellFormed(libraries: Libraries, deflate: string -> string, items: seq<Item>)
    requires Matching(libraries, deflate) && forall item | item in items :: CanBeSent(libraries, deflate, item)
    ensures forall message | message in Sent(deflate, items) :: WellFormed(CutterOf(libraries), message)
    ensures Contents(Sent(deflate, items)) == Received(items)
  {
    if items != [] {
      assert items[0] in items && forall item | item in items[1..] :: item in items;
      ItemsAreWellFormed(libraries, deflate, items[1..]);
      ItemIsWellFormed(libraries, deflate, items[0]);
      OneMoreItem(CutterOf(libraries), MessageOf(deflate, items[0]), Sent(deflate, items[1..]));
    }
  }

  lemma OneMoreItem(cutter: Cutter, message: Message, rest: seq<Message>)
    requires WellFormed(cutter, message) && !message.Damaged?
    requires forall m | m in rest :: WellFormed(cutter, m)
    ensures forall m | m in [message] + rest :: WellFormed(cutter, m)
    ensures Contents([message] + rest) == [message.content] + Contents(rest)
  {
    assert ([message] + rest)[1..] == rest;
  }

  /**
   * Requests and framed replies in any mixture come back whole and in order, whatever the bodies contain, with
   * nothing left over, over any connection that delivers the bytes in any pieces.
   */
  lemma ItemsSurviveTheWire(
    libraries: Libraries, deflate: string -> string, items: seq<Item>, chunks: seq<string>)
    requires Matching(libraries, deflate) && forall item | item in items :: CanBeSent(libraries, deflate, item)
    requires Concat(chunks) == Stream(Sent(deflate, items))
    ensures Feed(CutterOf(libraries), "", chunks) == Outcome(Received(items), "", false)
  {
    ItemsAreWellFormed(libraries, deflate, items);
    assert Stream(Sent(deflate, items)) + "" == Stream(Sent(deflate, items));
    MessagesArriveInAnyPieces(CutterOf(libraries), Sent(deflate, items), "", chunks);
  }

  // ------------------------------------------------------------------
  // Two headers that go wrong.
  // ------------------------------------------------------------------

  lemma {:induction false} PrintedSize(n: nat, digits: nat, power: nat)
    requires digits > 0 && power == Power(digits - 1) && power <= n < 10 * power && (digits == 1 ==> n < 10)
    ensures |Print(n)| == digits
    decreases digits
  {
    if digits > 1 {
      PrintedSize(n / 10, digits - 1, Power(digits - 2));
    }
  }

  /** Powers of ten. */
  function Power(k: nat): nat {
    if k == 0 then 1 else 10 * Power(k - 1)
  }

  lemma HeaderSize(length: nat)
    ensures |FrameHeader(length, false)| == 70 + |Print(length)|
  {
    var a, b, c, d := "<?xml version=\"1.0\" ", "encoding=\"UTF-8\"?>", "<isr type=\"105\" ", "length=\"";
    assert |a| == 20 && |b| == 18 && |c| == 16 && |d| == 8 && |END| == 6;
    assert |a + b + c + d + Print(length) + "\"" + "" + ">" + END| == 20 + 18 + 16 + 8 + |Print(length)| + 1 + 1 + 6;
  }

  const LARGEST: size_t := 18446744073709551615

  /** Header length and this length add up to 2^64. */
  const ZEROING: size_t := 18446744073709551526

  lemma PowersOfTen()
    ensures Power(19) == 10000000000000000000
  {
    assert Power(4) == 10000 && Power(8) == 10000 * Power(4) && Power(12) == 10000 * Power(8);
    assert Power(16) == 10000 * Power(12) && Power(19) == 1000 * Power(16);
  }

  lemma LargeHeaders()
    ensures |FrameHeader(LARGEST, false)| == 90 && |FrameHeader(ZEROING, false)| + ZEROING == SIZE_MAX + 1
  {
    PowersOfTen();
    PrintedSize(LARGEST, 20, Power(19));
    PrintedSize(ZEROING, 20, Power(19));
    HeaderSize(LARGEST);
    HeaderSize(ZEROING);
  }

  /** A frame header with the largest length, as the reader accepts it, and one byte: how it is read matters. */
  lemma WrappingInput(libraries: Libraries, deflate: string -> string)
    requires Matching(libraries, deflate)
    ensures var header, cutter := FrameHeader(LARGEST, false), CutterOf(libraries);
            Feed(cutter, "", [header, "x"]) != Drain(cutter, header + "x")
  {
    var header := FrameHeader(LARGEST, false);
    LargeHeaders();
    HeaderEndsAtItsTag(LARGEST, false);
    HeaderReadsBack(libraries, deflate, LARGEST, false);
    WrappingHeaderShows(CutterOf(libraries), header, LARGEST, "x");
  }

  /** A frame header on which the loop repeats for ever, handing over an empty text each time. */
  lemma RepeatingInput(libraries: Libraries, deflate: string -> string)
    requires Matching(libraries, deflate)
    ensures var header, cutter := FrameHeader(ZEROING, false), CutterOf(libraries);
            NextStep(cutter, header) == Take(Some(""), 0) && Drain(cutter, header).hung
  {
    var header := FrameHeader(ZEROING, false);
    LargeHeaders();
    HeaderEndsAtItsTag(ZEROING, false);
    HeaderReadsBack(libraries, deflate, ZEROING, false);
    ZeroHeaderRepeats(CutterOf(libraries), header, ZEROING);
  }
}
