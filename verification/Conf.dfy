/** The daemon's configuration reader. */
module Conf {
  import opened Options
  import opened Decimal
  import opened Text

  datatype Entry = Entry(key: string, value: string)

  /** What one line contributes; `Bad` when the line makes the reader throw. */
  datatype Line = Ignored | Bad | Good(entry: Entry)

  datatype Property = Property(name: string, val: string, items: seq<string>)

  /** Whitespace goes first, then the comment. */
  function ReadLine(line: string): Line {
    var l := UpTo(Trim(line), '#');
    if l == "" then Ignored
    else
      var gap := FindGap(l);
      if gap.None? then Bad else Good(Entry(l[..gap.value], Trim(l[gap.value..])))
  }

  predicate ArrayForm(val: string) {
    val != "" && val[0] == '(' && val[|val| - 1] == ')'
  }

  // ------------------------------------------------------------------
  // explode: splitting on any of the delimiters, with quoted pieces kept whole.
  // ------------------------------------------------------------------

  function IndexOf(s: string, c: char): (i: nat)
    ensures i <= |s|
  {
    |UpTo(s, c)|
  }

  /** The first position of any delimiter; |s| when there is none. */
  function FirstDelimiter(s: string, delimiters: string): (i: nat)
    ensures i <= |s|
  {
    if s == "" || s[0] in delimiters then 0 else 1 + FirstDelimiter(s[1..], delimiters)
  }

  lemma {:induction false} FirstDelimiterIs(s: string, delimiters: string, i: nat)
    requires i <= |s| && (i < |s| ==> s[i] in delimiters) && forall j | 0 <= j < i :: s[j] !in delimiters
    ensures FirstDelimiter(s, delimiters) == i
  {
    if i > 0 {
      FirstDelimiterIs(s[1..], delimiters, i - 1);
    }
  }

  predicate StartsQuoted(s: string) {
    s != "" && s[0] == '"' && '"' in s[1..]
  }

  /** Where the next piece ends. */
  function PieceEnd(s: string, delimiters: string): (i: nat)
    ensures i <= |s|
  {
    if StartsQuoted(s) then IndexOf(s[1..], '"') + 2 else FirstDelimiter(s, delimiters)
  }

  /** Empty pieces are not saved. */
  function Kept(piece: string): seq<string> {
    if piece == "" then [] else [piece]
  }

  function AfterPiece(s: string, end: nat): (rest: string)
    ensures s != "" ==> |rest| < |s|
  {
    if end < |s| then s[end + 1..] else ""
  }

  /** Pieces are cut off as long as some delimiter is left. */
  function Exploded(s: string, delimiters: string): seq<string>
    decreases |s|
  {
    if delimiters == "" then []
    else
      var end := PieceEnd(s, delimiters);
      if FirstDelimiter(s, delimiters) == |s| then Kept(s[..end])
      else Kept(s[..end]) + Exploded(AfterPiece(s, end), delimiters)
  }

  // ------------------------------------------------------------------
  // What the pieces are.
  // ------------------------------------------------------------------

  predicate FreeOf(s: string, delimiters: string) {
    forall i | 0 <= i < |s| :: s[i] !in delimiters
  }

  predicate Separator(s: string, delimiters: string) {
    forall i | 0 <= i < |s| :: s[i] in delimiters && s[i] != '"'
  }

  /** A text between two quotation marks, with the marks. */
  predicate Quoted(piece: string) {
    |piece| >= 2 && piece[0] == '"' && piece[1..] == UpTo(piece[1..], '"') + ['"']
  }

  /** What can come out as a piece. */
  predicate Piece(piece: string, delimiters: string) {
    Quoted(piece) || (piece != "" && FreeOf(piece, delimiters))
  }

  /** A piece that keeps its extent whatever stands behind it. */
  predicate Item(piece: string, delimiters: string) {
    Quoted(piece) || (piece != "" && piece[0] != '"' && FreeOf(piece, delimiters))
  }

  lemma {:induction false} FirstDelimiterSound(s: string, delimiters: string)
    ensures FreeOf(s[..FirstDelimiter(s, delimiters)], delimiters)
    ensures FirstDelimiter(s, delimiters) < |s| ==> s[FirstDelimiter(s, delimiters)] in delimiters
  {
    if s != "" && s[0] !in delimiters {
      FirstDelimiterSound(s[1..], delimiters);
      assert s[..FirstDelimiter(s, delimiters)] == [s[0]] + s[1..][..FirstDelimiter(s[1..], delimiters)];
    }
  }

  lemma CutIsPiece(s: string, delimiters: string)
    ensures forall p | p in Kept(s[..PieceEnd(s, delimiters)]) :: Piece(p, delimiters)
  {
    if StartsQuoted(s) {
      var inner := UpTo(s[1..], '"');
      assert |inner| < |s[1..]|;
      var piece := s[..|inner| + 2];
      assert piece[1..] == inner + ['"'];
      UpToOf(inner, '"', ['"']);
    } else {
      FirstDelimiterSound(s, delimiters);
    }
  }

  /** No piece is empty, and only a quoted one holds a delimiter. */
  lemma {:induction false} ExplodedIntoPieces(s: string, delimiters: string)
    ensures forall p | p in Exploded(s, delimiters) :: Piece(p, delimiters)
    decreases |s|
  {
    if delimiters != "" {
      CutIsPiece(s, delimiters);
      if FirstDelimiter(s, delimiters) < |s| {
        ExplodedIntoPieces(AfterPiece(s, PieceEnd(s, delimiters)), delimiters);
      }
    }
  }

  /** Each item followed by its gap. */
  function Spread(items: seq<string>, gaps: seq<string>): string
    requires |items| == |gaps|
  {
    if items == [] then "" else items[0] + (gaps[0] + Spread(items[1..], gaps[1..]))
  }

  ghost predicate Separates(gaps: seq<string>, delimiters: string) {
    && (forall i | 0 <= i < |gaps| :: Separator(gaps[i], delimiters))
    && (forall i | 0 <= i < |gaps| - 1 :: gaps[i] != "")
  }

  lemma LeadingDelimiter(c: char, s: string, delimiters: string)
    requires c in delimiters && c != '"'
    ensures Exploded([c] + s, delimiters) == Exploded(s, delimiters)
  {
    var t := [c] + s;
    assert t[..0] == "" && t[1..] == s;
    assert FirstDelimiter(t, delimiters) == 0 == PieceEnd(t, delimiters);
    assert AfterPiece(t, 0) == s;
    assert Exploded(t, delimiters) == Kept("") + Exploded(s, delimiters);
  }

  lemma {:induction false} LeadingSeparator(gap: string, s: string, delimiters: string)
    requires Separator(gap, delimiters)
    ensures Exploded(gap + s, delimiters) == Exploded(s, delimiters)
  {
    if gap == "" {
      assert gap + s == s;
    } else {
      assert gap + s == [gap[0]] + (gap[1..] + s);
      LeadingDelimiter(gap[0], gap[1..] + s, delimiters);
      LeadingSeparator(gap[1..], s, delimiters);
    }
  }

  lemma ItemEnds(item: string, more: string, delimiters: string)
    requires Item(item, delimiters) && (more != "" ==> more[0] in delimiters)
    ensures PieceEnd(item + more, delimiters) == |item|
  {
    var s := item + more;
    if Quoted(item) {
      var inner := UpTo(item[1..], '"');
      assert s[1..] == inner + (['"'] + more);
      assert s[1..][|inner|] == '"';
      UpToOf(inner, '"', ['"'] + more);
    } else {
      FirstDelimiterIs(s, delimiters, |item|);
    }
  }

  lemma {:induction false} DelimiterIsSeen(s: string, delimiters: string, i: nat)
    requires i < |s| && s[i] in delimiters
    ensures FirstDelimiter(s, delimiters) < |s|
  {
    if s[0] !in delimiters {
      DelimiterIsSeen(s[1..], delimiters, i - 1);
    }
  }

  lemma NothingIsExploded(delimiters: string)
    ensures Exploded("", delimiters) == []
  {
  }

  lemma ItemIsCut(item: string, gap: string, rest: string, delimiters: string)
    requires delimiters != "" && Item(item, delimiters) && Separator(gap, delimiters) && (gap == "" ==> rest == "")
    ensures Exploded(item + (gap + rest), delimiters) == [item] + Exploded(rest, delimiters)
  {
    var more := gap + rest;
    var s := item + more;
    ItemEnds(item, more, delimiters);
    NothingIsExploded(delimiters);
    assert s[..|item|] == item && Kept(item) == [item];
    if gap == "" {
      assert s == item;
      assert AfterPiece(s, |item|) == "";
    } else {
      assert s[|item|] == gap[0];
      DelimiterIsSeen(s, delimiters, |item|);
      assert AfterPiece(s, |item|) == gap[1..] + rest;
      LeadingSeparator(gap[1..], rest, delimiters);
    }
  }

  /** Items are recovered from any text in which delimiters separate them. */
  lemma {:induction false} ItemsAreRecovered(items: seq<string>, gaps: seq<string>, delimiters: string)
    requires delimiters != "" && |items| == |gaps| && Separates(gaps, delimiters)
    requires forall p | p in items :: Item(p, delimiters)
    ensures Exploded(Spread(items, gaps), delimiters) == items
  {
    if items == [] {
      NothingIsExploded(delimiters);
    } else {
      assert Separates(gaps[1..], delimiters) by {
        assert forall i | 0 <= i < |gaps| - 1 :: gaps[1..][i] == gaps[i + 1];
      }
      ItemsAreRecovered(items[1..], gaps[1..], delimiters);
      assert |gaps| > 1 ==> gaps[0] != "";
      ItemIsCut(items[0], gaps[0], Spread(items[1..], gaps[1..]), delimiters);
      assert items == [items[0]] + items[1..];
    }
  }

  /** The first occurring splitter, and how many splitters do not occur at all. */
  method FindSplit(s: string, delimiters: string) returns (split: nat, noMatch: nat)
    ensures split == FirstDelimiter(s, delimiters)
    ensures noMatch <= |delimiters| && (noMatch == |delimiters| <==> split == |s|)
  {
    split, noMatch := |s|, 0;
    var i := 0;
    while i < |delimiters|
      invariant 0 <= i <= |delimiters| && 0 <= noMatch <= i
      invariant split <= |s| && (split < |s| ==> s[split] in delimiters)
      invariant noMatch == i <==> split == |s|
      invariant forall j, k | 0 <= j < i && 0 <= k < split :: s[k] != delimiters[j]
    {
      var position := IndexOf(s, delimiters[i]);
      assert delimiters[i] !in s[..position];
      if position == |s| {
        noMatch := noMatch + 1;
      }
      if position < split {
        split := position;
      }
      i := i + 1;
    }
    FirstDelimiterIs(s, delimiters, split);
  }

  /** What is still to come after a round. */
  ghost function Later(s: string, delimiters: string, noMatch: nat): seq<string> {
    if noMatch < |delimiters| then Exploded(s, delimiters) else []
  }

  /** One round: the piece cut off, what is left, and how many delimiters no longer occur. */
  method CutPiece(s: string, delimiters: string) returns (piece: string, rest: string, noMatch: nat)
    requires delimiters != ""
    ensures noMatch <= |delimiters| && (noMatch < |delimiters| ==> |rest| < |s|)
    ensures Exploded(s, delimiters) == Kept(piece) + Later(rest, delimiters, noMatch)
  {
    var split;
    split, noMatch := FindSplit(s, delimiters);
    // A quoted piece runs up to its closing mark, whatever delimiters it holds.
    if StartsQuoted(s) {
      split := IndexOf(s[1..], '"') + 2;
    }
    piece := s[..split];
    rest := if split < |s| then s[split + 1..] else "";
    assert rest == AfterPiece(s, PieceEnd(s, delimiters));
  }

  lemma KeepPiece(pieces: seq<string>, piece: string, later: seq<string>)
    ensures pieces + (Kept(piece) + later) == (pieces + Kept(piece)) + later
    ensures piece == "" ==> pieces + Kept(piece) == pieces
  {
  }

  method Explode(source: string, delimiters: string) returns (pieces: seq<string>)
    ensures pieces == Exploded(source, delimiters)
    ensures forall p | p in pieces :: Piece(p, delimiters)
  {
    ExplodedIntoPieces(source, delimiters);
    var s := source;
    pieces := [];
    var noMatch: nat := 0;
    ghost var whole := Exploded(source, delimiters);
    while noMatch < |delimiters|
      invariant pieces + Later(s, delimiters, noMatch) == whole
      decreases noMatch < |delimiters|, |s|
    {
      var piece, rest, missing := CutPiece(s, delimiters);
      KeepPiece(pieces, piece, Later(rest, delimiters, missing));
      if piece != "" {
        pieces := pieces + [piece];
      }
      s, noMatch := rest, missing;
    }
  }

  // ------------------------------------------------------------------
  // The whole file.
  // ------------------------------------------------------------------

  function Entries(lines: seq<string>): Option<seq<Entry>> {
    if lines == [] then Some([])
    else WithLine(Entries(lines[..|lines| - 1]), ReadLine(lines[|lines| - 1]))
  }

  function WithLine(before: Option<seq<Entry>>, line: Line): Option<seq<Entry>> {
    match line
    case Ignored => before
    case Bad => None
    case Good(e) => if before.None? then None else Some(before.value + [e])
  }

  lemma EntriesStep(lines: seq<string>, n: nat)
    requires n < |lines|
    ensures Entries(lines[..n + 1]) == WithLine(Entries(lines[..n]), ReadLine(lines[n]))
  {
    assert lines[..n + 1][..n] == lines[..n];
  }

  /** What `get` sees of an entry: a value in parentheses is stored as an array and reads as "". */
  function Stored(value: string): string {
    if ArrayForm(value) then "" else value
  }

  const GAPS: string := " \t"

  /** The items between the parentheses. */
  function ItemsOf(value: string): seq<string>
    requires ArrayForm(value)
  {
    Exploded(Trim(value[1..|value| - 1]), GAPS)
  }

  /** The last array read: the property built for a line keeps it until another array replaces it. */
  function LastItems(entries: seq<Entry>): seq<string> {
    if entries == [] then []
    else
      var last := entries[|entries| - 1].value;
      if ArrayForm(last) then ItemsOf(last) else LastItems(entries[..|entries| - 1])
  }

  /** A property keeps the items of the last array up to its own line, or has none. */
  lemma {:induction false} LastItemsAre(entries: seq<Entry>, i: int)
    requires -1 <= i < |entries| && forall j | i < j < |entries| :: !ArrayForm(entries[j].value)
    ensures i == -1 ==> LastItems(entries) == []
    ensures i >= 0 && ArrayForm(entries[i].value) ==> LastItems(entries) == ItemsOf(entries[i].value)
  {
    if i < |entries| - 1 {
      LastItemsAre(entries[..|entries| - 1], i);
    }
  }

  function First(entries: seq<Entry>, key: string): Option<string> {
    if entries == [] then None
    else if entries[0].key == key then Some(entries[0].value)
    else First(entries[1..], key)
  }

  /** The property built for one entry. */
  predicate PropertyOf(property: Property, entries: seq<Entry>, i: nat)
    requires i < |entries|
  {
    && property.name == entries[i].key
    && property.val == Stored(entries[i].value)
    && property.items == LastItems(entries[..i + 1])
  }

  ghost predicate Represents(properties: seq<Property>, entries: seq<Entry>) {
    |properties| == |entries| && forall i | 0 <= i < |entries| :: PropertyOf(properties[i], entries, i)
  }

  lemma RepresentsOneMore(properties: seq<Property>, entries: seq<Entry>, property: Property, entry: Entry)
    requires Represents(properties, entries)
    requires property == Property(entry.key, Stored(entry.value), LastItems(entries + [entry]))
    ensures Represents(properties + [property], entries + [entry])
  {
    var all := entries + [entry];
    assert all[..|all|] == all;
    forall i | 0 <= i < |all| ensures PropertyOf((properties + [property])[i], all, i) {
      if i < |entries| {
        assert all[..i + 1] == entries[..i + 1];
        assert PropertyOf(properties[i], entries, i);
      }
    }
  }

  class Config {
    var properties: seq<Property>

    constructor ()
      ensures properties == []
    {
      properties := [];
    }

    /** One line that is neither blank nor a comment; `ok` is false when it makes the reader throw. */
    method StoreLine(line: string, items: seq<string>, ghost entries: seq<Entry>)
      returns (ok: bool, items': seq<string>, ghost entries': seq<Entry>)
      requires line != "" && Represents(properties, entries) && items == LastItems(entries)
      modifies this
      ensures ok <==> FindGap(line).Some?
      ensures ok ==>
        var gap := FindGap(line).value;
        entries' == entries + [Entry(line[..gap], Trim(line[gap..]))]
      ensures ok ==> Represents(properties, entries') && items' == LastItems(entries')
      ensures !ok ==> properties == old(properties)
    {
      items', entries' := items, entries;
      var gap := FindGap(line);
      if gap.None? {
        return false, items, entries;
      }
      var name, val := line[..gap.value], Trim(line[gap.value..]);
      var stored := val;
      if val != "" && val[0] == '(' && val[|val| - 1] == ')' {
        items' := Explode(Trim(val[1..|val| - 1]), GAPS);
        stored := "";
      }
      ghost var entry := Entry(name, val);
      entries' := entries + [entry];
      assert entries'[..|entries|] == entries;
      RepresentsOneMore(properties, entries, Property(name, stored, items'), entry);
      properties := properties + [Property(name, stored, items')];
      return true, items', entries';
    }

    /** `ok` is false when a line makes the reader throw. */
    method Parse(contents: string) returns (ok: bool)
      requires properties == []
      modifies this
      ensures ok <==> Entries(Lines(contents)).Some?
      ensures ok ==> Represents(properties, Entries(Lines(contents)).value)
    {
      var lines := Lines(contents);
      var items: seq<string> := [];
      ghost var entries: seq<Entry> := [];
      var n := 0;
      while n < |lines|
        invariant 0 <= n <= |lines|
        invariant Entries(lines[..n]) == Some(entries)
        invariant Represents(properties, entries) && items == LastItems(entries)
      {
        EntriesStep(lines, n);
        var line := UpTo(Trim(lines[n]), '#');
        n := n + 1;
        if line != "" {
          ok, items, entries := StoreLine(line, items, entries);
          if !ok {
            EntriesFail(lines, n);
            return;
          }
        }
      }
      assert lines[..n] == lines;
      return true;
    }

    method Get(name: string, default: string) returns (val: string)
      ensures forall entries | Represents(properties, entries) ::
        val == match First(entries, name) case None => default case Some(v) => Stored(v)
    {
      var i := 0;
      while i < |properties|
        invariant 0 <= i <= |properties|
        invariant forall entries | Represents(properties, entries) :: First(entries, name) == First(entries[i..], name)
      {
        if properties[i].name == name {
          return properties[i].val;
        }
        forall entries | Represents(properties, entries) ensures First(entries, name) == First(entries[i + 1..], name) {
          assert entries[i..][1..] == entries[i + 1..];
        }
        i := i + 1;
      }
      return default;
    }
  }

  /** A list in parentheses, however it is spaced, is read back as its items. */
  lemma ArrayReadsBack(items: seq<string>, gaps: seq<string>, before: string, after: string)
    requires |items| == |gaps| && Separates(gaps, GAPS) && forall p | p in items :: Item(p, GAPS)
    requires AllBlank(before) && AllBlank(after) && Trimmed(Spread(items, gaps))
    ensures var value := ['('] + (before + Spread(items, gaps) + after) + [')'];
            ArrayForm(value) && ItemsOf(value) == items
  {
    var inner := before + Spread(items, gaps) + after;
    var value := ['('] + inner + [')'];
    assert value[1..|value| - 1] == inner;
    TrimOf(before, Spread(items, gaps), after);
    ItemsAreRecovered(items, gaps, GAPS);
  }

  lemma {:induction false} EntriesFail(lines: seq<string>, n: nat)
    requires n <= |lines| && Entries(lines[..n]).None?
    ensures Entries(lines).None?
    decreases |lines|
  {
    if n < |lines| {
      assert lines[..|lines| - 1][..n] == lines[..n];
      EntriesFail(lines[..|lines| - 1], n);
    } else {
      assert lines[..n] == lines;
    }
  }
}
