/** Which configuration files are accepted and with what result, said without the two readers. */
module Acceptance {
  import opened Options
  import opened Decimal
  import opened Text
  import opened Utf8
  import opened Conf
  import opened Settings

  // ------------------------------------------------------------------
  // Lines.
  // ------------------------------------------------------------------

  /** The lines, each with its newline. */
  function Ended(lines: seq<string>): string {
    if lines == [] then "" else lines[0] + (['\n'] + Ended(lines[1..]))
  }

  ghost predicate AllOneLine(lines: seq<string>) {
    forall line | line in lines :: '\n' !in line
  }

  lemma LinesStep(s: string, line: string, rest: string)
    requires UpTo(s, '\n') == line && |line| < |s| && s[|line| + 1..] == rest
    ensures Lines(s) == [line] + Lines(rest)
  {
  }

  lemma FirstLine(line: string, rest: string)
    requires '\n' !in line
    ensures Lines(line + (['\n'] + rest)) == [line] + Lines(rest)
  {
    var s := line + (['\n'] + rest);
    UpToOf(line, '\n', ['\n'] + rest);
    assert s[|line| + 1..] == rest;
    LinesStep(s, line, rest);
  }

  lemma LastLine(last: string)
    requires '\n' !in last
    ensures Lines(last) == Kept(last)
  {
    UpToOf(last, '\n', "");
    assert last + "" == last;
  }

  lemma EndedFront(lines: seq<string>, last: string)
    requires lines != []
    ensures Ended(lines) + last == lines[0] + (['\n'] + (Ended(lines[1..]) + last))
  {
  }

  lemma FrontOfAll<T>(all: seq<T>, more: seq<T>)
    requires all != []
    ensures [all[0]] + (all[1..] + more) == all + more
  {
  }

  lemma {:induction false} LinesKept(lines: seq<string>, last: string)
    requires AllOneLine(lines) && '\n' !in last
    ensures Lines(Ended(lines) + last) == lines + Kept(last)
  {
    LastLine(last);
    if lines == [] {
      assert "" + last == last && [] + Kept(last) == Kept(last);
    } else {
      LinesKept(lines[1..], last);
      FirstLine(lines[0], Ended(lines[1..]) + last);
      EndedFront(lines, last);
      FrontOfAll(lines, Kept(last));
    }
  }

  /** A text is cut at its newlines; what follows the last one is a line if there is anything. */
  lemma LinesOf(lines: seq<string>, last: string)
    requires AllOneLine(lines) && '\n' !in last
    ensures Lines(Ended(lines) + last) == if last == "" then lines else lines + [last]
  {
    LinesKept(lines, last);
    assert lines + [] == lines;
  }

  /** And every text is of that form. */
  lemma {:induction false} TextIsLines(s: string) returns (lines: seq<string>, last: string)
    ensures AllOneLine(lines) && '\n' !in last && s == Ended(lines) + last
    decreases |s|
  {
    var line := UpTo(s, '\n');
    if |line| == |s| {
      lines, last := [], s;
    } else {
      var rest := s[|line| + 1..];
      var lines', last' := TextIsLines(rest);
      lines, last := [line] + lines', last';
      assert lines[1..] == lines';
      assert s == line + (['\n'] + rest);
      assert Ended(lines) + last == line + (['\n'] + (Ended(lines') + last));
    }
  }

  // ------------------------------------------------------------------
  // One line.
  // ------------------------------------------------------------------

  /** Nothing, or everything from a '#' on. */
  predicate Comment(s: string) {
    s == "" || s[0] == '#'
  }

  predicate Key(s: string) {
    s != "" && !Blank(s[0]) && ' ' !in s && '\t' !in s && '#' !in s
  }

  /** Blanks that begin with a space or a tab. */
  predicate Gap(s: string) {
    s != "" && s[0] in [' ', '\t'] && AllBlank(s)
  }

  predicate ValueText(s: string) {
    Trimmed(s) && '#' !in s
  }

  /** Blanks, a key, a gap, a value, blanks, a comment. */
  ghost predicate LaidOut(
    line: string, key: string, value: string, before: string, gap: string, after: string, comment: string)
  {
    && line == before + (key + (gap + value)) + after + comment
    && AllBlank(before) && Key(key) && Gap(gap) && ValueText(value) && AllBlank(after) && Comment(comment)
  }

  ghost predicate Sets(line: string, key: string, value: string) {
    value != "" && exists before, gap, after, comment :: LaidOut(line, key, value, before, gap, after, comment)
  }

  /** The daemon also takes a key with nothing but a comment behind it. */
  ghost predicate SetsForDaemon(line: string, key: string, value: string) {
    exists before, gap, after, comment ::
      LaidOut(line, key, value, before, gap, after, comment) && (value == "" ==> comment != "")
  }

  ghost predicate Idle(line: string) {
    exists before, comment :: AllBlank(before) && Comment(comment) && line == before + comment
  }

  lemma BlanksHoldNoHash(s: string)
    requires AllBlank(s)
    ensures '#' !in s
  {
  }

  lemma GapIsFound(key: string, gap: string, rest: string)
    requires Key(key) && Gap(gap)
    ensures FindGap(key + (gap + rest)) == Some(|key|)
    ensures (key + (gap + rest))[..|key|] == key && (key + (gap + rest))[|key|..] == gap + rest
  {
    var l := key + (gap + rest);
    var found := FindGap(l);
    assert l[|key|] == gap[0];
    forall i | 0 <= i < |key| ensures l[i] !in [' ', '\t'] {
      assert l[i] == key[i] && key[i] in key;
    }
    assert found.Some? && found.value >= |key|;
  }

  lemma TextIsTrimmed(key: string, gap: string, value: string)
    requires Key(key) && Gap(gap) && ValueText(value) && value != ""
    ensures Trimmed(key + (gap + value)) && '#' !in key + (gap + value)
  {
    var text := key + (gap + value);
    assert text[0] == key[0] && text[|text| - 1] == value[|value| - 1];
    BlanksHoldNoHash(gap);
  }

  lemma LaidOutIsRead(
    line: string, key: string, value: string, before: string, gap: string, after: string, comment: string)
    requires LaidOut(line, key, value, before, gap, after, comment) && value != ""
    ensures ReadSetting(line) == Good(Entry(key, value))
  {
    var text := key + (gap + value);
    TextIsTrimmed(key, gap, value);
    BlanksHoldNoHash(before);
    BlanksHoldNoHash(after);
    UpToOf(before + text + after, '#', comment);
    TrimOf(before, text, after);
    GapIsFound(key, gap, value);
    assert gap + value == gap + value + "";
    TrimOf(gap, value, "");
  }

  /** What stands from the first gap on, taken apart. */
  lemma TailSplits(tail: string) returns (gap: string, after: string)
    requires tail != "" && tail[0] in [' ', '\t']
    ensures Gap(gap) && AllBlank(after) && tail == gap + Trim(tail) + after && Trimmed(Trim(tail))
  {
    gap, after := TrimSplits(tail);
    if Trim(tail) == "" {
      gap, after := tail, "";
    } else {
      Front(gap + Trim(tail), after);
      Front(Trim(tail), "");
      if gap == "" {
        assert false;
      }
      Front(gap, Trim(tail));
    }
  }

  lemma Front(s: string, more: string)
    requires s != ""
    ensures (s + more)[0] == s[0]
  {
  }

  lemma KeyOfText(l: string, gap: nat)
    requires l != "" && !Blank(l[0]) && '#' !in l && FindGap(l) == Some(gap)
    ensures Key(l[..gap])
  {
    assert gap > 0 && l[..gap][0] == l[0];
    assert forall c | c in l[..gap] :: c in l;
  }

  /** A text before its comment, taken apart at its first gap. */
  lemma TextSplits(l: string, key: string) returns (gap: string, value: string, after: string)
    requires l != "" && !Blank(l[0]) && '#' !in l && FindGap(l) == Some(|key|) && key == l[..|key|]
    ensures Key(key) && Gap(gap) && ValueText(value) && AllBlank(after)
    ensures value == Trim(l[|key|..]) && l == key + (gap + value + after)
  {
    var tail := l[|key|..];
    value := Trim(tail);
    gap, after := TailSplits(tail);
    KeyOfText(l, |key|);
    assert l == key + tail;
    PartsKeepOut(l, key, tail, "", '#');
    PartsKeepOut(tail, gap, value, after, '#');
  }

  lemma Regroup(
    before: string, key: string, gap: string, value: string, after: string, blanks: string, comment: string)
    requires AllBlank(before) && Key(key) && Gap(gap) && ValueText(value) && AllBlank(after) && AllBlank(blanks)
    requires Comment(comment)
    ensures LaidOut(before + (key + (gap + value + after)) + blanks + comment, key, value,
                    before, gap, after + blanks, comment)
  {
    assert before + (key + (gap + value + after)) + blanks + comment
        == before + (key + (gap + value)) + (after + blanks) + comment;
  }

  /** A text and its trimmed form, with what the first gap leaves on either side. */
  ghost predicate ReadAs(cut: string, l: string, key: string, value: string) {
    && l == Trim(cut) && l != "" && FindGap(l) == Some(|key|) && key == l[..|key|]
    && value == Trim(l[|key|..]) && value != ""
  }

  lemma CutIsLaidOut(cut: string, comment: string, l: string, key: string, value: string)
    requires '#' !in cut && Comment(comment) && ReadAs(cut, l, key, value)
    ensures Sets(cut + comment, key, value)
  {
    var before, blanks := TrimSplits(cut);
    PartsKeepOut(cut, before, l, blanks, '#');
    var gap, value', after := TextSplits(l, key);
    Regroup(before, key, gap, value, after, blanks, comment);
  }

  lemma CutApart(line: string) returns (cut: string, comment: string)
    ensures cut == UpTo(line, '#') && '#' !in cut && Comment(comment) && line == cut + comment
  {
    cut := UpTo(line, '#');
    comment := line[|cut|..];
  }

  lemma SettingIsReadAs(line: string, cut: string, key: string, value: string)
    requires cut == UpTo(line, '#') && ReadSetting(line) == Good(Entry(key, value))
    ensures ReadAs(cut, Trim(cut), key, value)
  {
  }

  lemma ReadIsLaidOut(line: string, key: string, value: string)
    requires ReadSetting(line) == Good(Entry(key, value))
    ensures Sets(line, key, value)
  {
    var cut, comment := CutApart(line);
    SettingIsReadAs(line, cut, key, value);
    CutIsLaidOut(cut, comment, Trim(cut), key, value);
  }

  lemma IdleIsIgnored(line: string, before: string, comment: string)
    requires AllBlank(before) && Comment(comment) && line == before + comment
    ensures ReadSetting(line).Ignored? && ReadLine(line).Ignored?
  {
    BlanksHoldNoHash(before);
    UpToOf(before, '#', comment);
    assert before == before + "" + "";
    TrimOf(before, "", "");
    var more := CommentAndTrimCommute(line);
  }

  lemma IgnoredIsIdle(line: string)
    requires ReadSetting(line).Ignored?
    ensures Idle(line)
  {
    var cut, comment := CutApart(line);
    var a, b := TrimSplits(cut);
    assert cut == a + b;
  }

  /** What the settings reader makes of a line: a setting, nothing, or else a refusal. */
  lemma SettingReadExactly(line: string, key: string, value: string)
    ensures ReadSetting(line) == Good(Entry(key, value)) <==> Sets(line, key, value)
    ensures ReadSetting(line).Ignored? <==> Idle(line)
  {
    if ReadSetting(line) == Good(Entry(key, value)) {
      ReadIsLaidOut(line, key, value);
    }
    if Sets(line, key, value) {
      var before, gap, after, comment :| LaidOut(line, key, value, before, gap, after, comment);
      LaidOutIsRead(line, key, value, before, gap, after, comment);
    }
    if ReadSetting(line).Ignored? {
      IgnoredIsIdle(line);
    }
    if Idle(line) {
      var before, comment :| AllBlank(before) && Comment(comment) && line == before + comment;
      IdleIsIgnored(line, before, comment);
    }
  }

  // ------------------------------------------------------------------
  // The same line in the daemon's reader.
  // ------------------------------------------------------------------

  lemma DaemonReadsUncommented(
    line: string, key: string, value: string, before: string, gap: string, after: string)
    requires LaidOut(line, key, value, before, gap, after, "") && value != ""
    ensures ReadLine(line) == Good(Entry(key, value))
  {
    var text := key + (gap + value);
    TextIsTrimmed(key, gap, value);
    assert before + text + after + "" == before + text + after;
    TrimOf(before, text, after);
    UpToOf(text, '#', "");
    assert text + "" == text && gap + value == gap + value + "";
    GapIsFound(key, gap, value);
    TrimOf(gap, value, "");
  }

  lemma CommentedIsTrimmed(text: string, comment: string)
    requires text != "" && !Blank(text[0]) && comment != "" && !Blank(comment[|comment| - 1])
    ensures Trimmed(text + comment)
  {
  }

  lemma TrimCommented(text: string, before: string, comment: string) returns (shown: string)
    requires text != "" && !Blank(text[0]) && AllBlank(before) && comment != "" && comment[0] == '#'
    ensures Trim(before + text + comment) == text + shown && shown != "" && shown[0] == '#'
  {
    var none, blanks := TrimSplits(comment);
    shown := Trim(comment);
    HashIsNotBlank(comment, none, blanks);
    CommentedIsTrimmed(text, shown);
    assert before + text + comment == before + (text + shown) + blanks;
    TrimOf(before, text + shown, blanks);
  }

  lemma GapSplitsText(key: string, gap: string, value: string, after: string, shown: string)
    requires Key(key) && Gap(gap) && ValueText(value) && AllBlank(after) && shown != "" && shown[0] == '#'
    ensures var text := key + (gap + (value + after));
            && UpTo(text + shown, '#') == text && FindGap(text) == Some(|key|)
            && text[..|key|] == key && Trim(text[|key|..]) == value
  {
    var text := key + (gap + (value + after));
    BlanksHoldNoHash(gap);
    BlanksHoldNoHash(after);
    UpToOf(text, '#', shown);
    GapIsFound(key, gap, value + after);
    assert gap + (value + after) == gap + value + after;
    TrimOf(gap, value, after);
  }

  lemma DaemonReadsCommented(
    line: string, key: string, value: string, before: string, gap: string, after: string, comment: string)
    requires LaidOut(line, key, value, before, gap, after, comment) && comment != ""
    ensures ReadLine(line) == Good(Entry(key, value))
  {
    var text := key + (gap + (value + after));
    CommentMoves(before, key, gap, value, after, comment);
    var shown := TrimCommented(text, before, comment);
    GapSplitsText(key, gap, value, after, shown);
  }

  lemma CommentMoves(before: string, key: string, gap: string, value: string, after: string, comment: string)
    ensures before + (key + (gap + value)) + after + comment == before + (key + (gap + (value + after))) + comment
  {
  }

  lemma BlanksAtEnd(key: string, gap: string, after: string)
    requires Gap(gap) && AllBlank(after)
    ensures !Trimmed(key + (gap + "" + after))
  {
    var s := key + (gap + after);
    assert gap + "" + after == gap + after && (gap + after)[|gap + after| - 1] == s[|s| - 1];
  }

  lemma CommentApart(before: string, l: string, text: string, blanks: string)
    requires l <= text
    ensures before + text + blanks == before + l + "" + (text[|l|..] + blanks)
  {
  }

  lemma DaemonReadIsLaidOut(line: string, key: string, value: string)
    requires ReadLine(line) == Good(Entry(key, value))
    ensures SetsForDaemon(line, key, value)
  {
    var text := Trim(line);
    var before, blanks := TrimSplits(line);
    var l := UpTo(text, '#');
    assert l[0] == text[0];
    var gap, value', after := TextSplits(l, key);
    if |l| < |text| {
      Regroup(before, key, gap, value, after, "", text[|l|..] + blanks);
      CommentApart(before, l, text, blanks);
    } else {
      assert l == text;
      if value == "" {
        BlanksAtEnd(key, gap, after);
      }
      Regroup(before, key, gap, value, after, blanks, "");
      assert line == before + l + blanks + "";
    }
  }

  lemma DaemonIgnoresIdle(line: string)
    requires ReadLine(line).Ignored?
    ensures Idle(line)
  {
    var before, blanks := TrimSplits(line);
    var text := Trim(line);
    assert text != "" ==> text[0] == '#';
    if text == "" {
      assert line == before + blanks + "";
    } else {
      assert line == before + (text + blanks);
    }
  }

  /** What the daemon makes of a line: an entry, nothing, or else it throws. */
  lemma DaemonReadExactly(line: string, key: string, value: string)
    ensures ReadLine(line) == Good(Entry(key, value)) <==> SetsForDaemon(line, key, value)
    ensures ReadLine(line).Ignored? <==> Idle(line)
  {
    if ReadLine(line) == Good(Entry(key, value)) {
      DaemonReadIsLaidOut(line, key, value);
    }
    if SetsForDaemon(line, key, value) {
      var before, gap, after, comment :|
        LaidOut(line, key, value, before, gap, after, comment) && (value == "" ==> comment != "");
      if comment == "" {
        DaemonReadsUncommented(line, key, value, before, gap, after);
      } else {
        DaemonReadsCommented(line, key, value, before, gap, after, comment);
      }
    }
    if ReadLine(line).Ignored? {
      DaemonIgnoresIdle(line);
    }
    if Idle(line) {
      var before, comment :| AllBlank(before) && Comment(comment) && line == before + comment;
      IdleIsIgnored(line, before, comment);
    }
  }

  // ------------------------------------------------------------------
  // All lines of a file.
  // ------------------------------------------------------------------

  datatype Reader = Daemon | Protected

  function Read(reader: Reader, line: string): Line {
    match reader
    case Daemon => ReadLine(line)
    case Protected => ReadSetting(line)
  }

  function EntriesIn(reader: Reader, lines: seq<string>): Option<seq<Entry>> {
    match reader
    case Daemon => Entries(lines)
    case Protected => SettingEntries(lines)
  }

  ghost predicate SetsIn(reader: Reader, line: string, key: string, value: string) {
    match reader
    case Daemon => SetsForDaemon(line, key, value)
    case Protected => Sets(line, key, value)
  }

  ghost predicate Understood(reader: Reader, line: string) {
    Idle(line) || exists key, value :: SetsIn(reader, line, key, value)
  }

  ghost predicate SetSomewhere(reader: Reader, lines: seq<string>, key: string) {
    exists line, value :: line in lines && SetsIn(reader, line, key, value)
  }

  /** The first line that sets the key gives it this value. */
  ghost predicate SetFirst(reader: Reader, lines: seq<string>, key: string, value: string) {
    exists i :: 0 <= i < |lines| && SetsIn(reader, lines[i], key, value) && !SetSomewhere(reader, lines[..i], key)
  }

  lemma ReadExactly(reader: Reader, line: string, key: string, value: string)
    ensures Read(reader, line) == Good(Entry(key, value)) <==> SetsIn(reader, line, key, value)
    ensures Read(reader, line).Ignored? <==> Idle(line)
  {
    match reader
    case Daemon => DaemonReadExactly(line, key, value);
    case Protected => SettingReadExactly(line, key, value);
  }

  lemma UnderstoodExactly(reader: Reader, line: string)
    ensures !Read(reader, line).Bad? <==> Understood(reader, line)
  {
    ReadExactly(reader, line, "", "");
    if Read(reader, line).Good? {
      var e := Read(reader, line).entry;
      ReadExactly(reader, line, e.key, e.value);
    }
    if key, value :| SetsIn(reader, line, key, value) {
      ReadExactly(reader, line, key, value);
    }
  }

  lemma EntriesOfMore(reader: Reader, lines: seq<string>, line: string)
    ensures EntriesIn(reader, []) == Some([])
    ensures EntriesIn(reader, lines + [line]) == WithLine(EntriesIn(reader, lines), Read(reader, line))
  {
    assert (lines + [line])[..|lines|] == lines;
  }

  lemma LastOfLines(lines: seq<string>)
    requires lines != []
    ensures lines[..|lines| - 1] + [lines[|lines| - 1]] == lines
  {
  }

  /** A file is accepted, as far as its lines go, exactly if each line is understood. */
  lemma {:induction false} LinesAcceptedExactly(reader: Reader, lines: seq<string>)
    ensures EntriesIn(reader, lines).Some? <==> forall line | line in lines :: Understood(reader, line)
  {
    EntriesOfMore(reader, [], "");
    if lines != [] {
      var front, last := lines[..|lines| - 1], lines[|lines| - 1];
      LastOfLines(lines);
      LinesAcceptedExactly(reader, front);
      UnderstoodExactly(reader, last);
      EntriesOfMore(reader, front, last);
      assert forall line :: line in lines <==> line in front || line == last;
    }
  }

  lemma SetSomewhereOneMore(reader: Reader, lines: seq<string>, line: string, key: string)
    ensures SetSomewhere(reader, lines + [line], key) <==>
      SetSomewhere(reader, lines, key) || exists value :: SetsIn(reader, line, key, value)
  {
    assert forall l :: l in lines + [line] <==> l in lines || l == line;
  }

  lemma SetFirstOneMore(reader: Reader, lines: seq<string>, line: string, key: string, value: string)
    ensures SetFirst(reader, lines + [line], key, value) <==>
      || SetFirst(reader, lines, key, value)
      || (!SetSomewhere(reader, lines, key) && SetsIn(reader, line, key, value))
  {
    var all, n := lines + [line], |lines|;
    forall i | 0 <= i <= n ensures all[..i] == lines[..i] {
    }
    assert lines[..n] == lines && all[n] == line;
    if SetFirst(reader, lines, key, value) {
      var i :| 0 <= i < n && SetsIn(reader, lines[i], key, value) && !SetSomewhere(reader, lines[..i], key);
      assert all[i] == lines[i];
    }
  }

  lemma OneLineSets(reader: Reader, line: string, key: string, value: string)
    ensures SetsIn(reader, line, key, value) <==>
      var r := Read(reader, line);
      r.Good? && r.entry.key == key && r.entry.value == value
    ensures (exists v :: SetsIn(reader, line, key, v)) <==>
      Read(reader, line).Good? && Read(reader, line).entry.key == key
  {
    ReadExactly(reader, line, key, value);
    if v :| SetsIn(reader, line, key, v) {
      ReadExactly(reader, line, key, v);
    }
    if Read(reader, line).Good? {
      ReadExactly(reader, line, key, Read(reader, line).entry.value);
    }
  }

  /** What is found under a key is what the first line that sets it says. */
  lemma {:induction false} FirstLineDecides(reader: Reader, lines: seq<string>, key: string, value: string)
    requires EntriesIn(reader, lines).Some?
    ensures First(EntriesIn(reader, lines).value, key) == Some(value) <==> SetFirst(reader, lines, key, value)
    ensures First(EntriesIn(reader, lines).value, key).Some? <==> SetSomewhere(reader, lines, key)
  {
    EntriesOfMore(reader, [], "");
    if lines != [] {
      var front, last := lines[..|lines| - 1], lines[|lines| - 1];
      LastOfLines(lines);
      EntriesOfMore(reader, front, last);
      FirstLineDecides(reader, front, key, value);
      SetSomewhereOneMore(reader, front, last, key);
      SetFirstOneMore(reader, front, last, key, value);
      OneLineSets(reader, last, key, value);
      if Read(reader, last).Good? {
        FirstOfAppended(EntriesIn(reader, front).value, Read(reader, last).entry, key);
      }
    }
  }

  // ------------------------------------------------------------------
  // The whole file.
  // ------------------------------------------------------------------

  /** At most five characters: zeros, and then the numeral of a port. */
  ghost predicate IsPort(text: string, port: nat) {
    1 <= port <= 65535 && |text| <= 5 && IsNumeral(text, port)
  }

  /** A printed number of five digits. */
  ghost predicate FiveDigits(secret: string) {
    exists n: nat :: 10000 <= n <= 99999 && secret == Print(n)
  }

  /** What the file gives for a key. */
  ghost predicate Says(lines: seq<string>, key: string, default: string, value: string) {
    SetFirst(Protected, lines, key, value) || (!SetSomewhere(Protected, lines, key) && value == default)
  }

  ghost predicate Encodes(s: string, values: seq<int>) {
    (forall v | v in values :: Scalar(v)) && EncodeAll(values) == s
  }

  /** The UTF-8 encoding of Unicode scalar values, without control characters other than TAB, LF and CR. */
  ghost predicate IsText(s: string) {
    && (exists values :: Encodes(s, values))
    && forall i | 0 <= i < |s| :: s[i] as int >= 32 || s[i] as int == 9 || s[i] as int == 10 || s[i] as int == 13
  }

  lemma TextExactly(s: string)
    ensures Octets(s) && AllPermitted(s) <==> IsText(s)
  {
    if Octets(s) {
      var values := OctetsAreEncodings(s);
      assert Encodes(s, values);
    }
    if values :| Encodes(s, values) {
      EncodingsAreOctets(values);
    }
    assert forall i | 0 <= i < |s| ::
      Permitted(s[i]) <==> s[i] as int >= 32 || s[i] as int == 9 || s[i] as int == 10 || s[i] as int == 13;
  }

  /** Everything a file has to be, and what is then reported. */
  ghost predicate AcceptedAs(
    contents: string, inet: Inet, port: nat, address: string, passcode: bool, configured: bool, secret: string)
  {
    var lines := Lines(contents);
    && |contents| <= 262144 && IsText(contents)
    && (forall line | line in lines :: Understood(Protected, line))
    && (exists text :: Says(lines, "network_port", "5109", text) && IsPort(text, port))
    && Says(lines, "network_addr", "0.0.0.0", address) && (inet.v4(address) || inet.v6(address))
    && Says(lines, "server_code", "00000", secret) && 1 <= |secret| <= 4096
    && !(secret[0] == '(' && secret[|secret| - 1] == ')')
    && (passcode <==> FiveDigits(secret))
    && (configured <==> SetSomewhere(Protected, lines, "server_code"))
  }

  lemma PortExactly(text: string, port: nat)
    ensures PortText(text) && Value(text) == port <==> IsPort(text, port)
  {
    NumeralExactly(text, port);
  }

  lemma {:induction false} ValueIsLong(s: string)
    requires AllDigits(s) && s != "" && s[0] != '0'
    ensures Value(s) >= 1 && (|s| >= 2 ==> Value(s) >= 10) && (|s| >= 3 ==> Value(s) >= 100)
    ensures (|s| >= 4 ==> Value(s) >= 1000) && (|s| >= 5 ==> Value(s) >= 10000)
  {
    if |s| > 1 {
      ValueIsLong(s[..|s| - 1]);
    } else {
      assert s[..0] == "";
    }
  }

  lemma {:induction false} PrintedSize(n: nat)
    ensures |Print(n)| >= 1 && (|Print(n)| == 1 <==> n < 10) && (|Print(n)| <= 2 <==> n < 100)
    ensures (|Print(n)| <= 3 <==> n < 1000) && (|Print(n)| <= 4 <==> n < 10000) && (|Print(n)| <= 5 <==> n < 100000)
  {
    if n >= 10 {
      PrintedSize(n / 10);
    }
  }

  lemma FiveDigitsExactly(secret: string)
    ensures Passcode(secret) <==> FiveDigits(secret)
  {
    if Passcode(secret) {
      ValueIsLong(secret);
      ValueIsShort(secret);
      ValueThenPrint(secret);
    }
    if FiveDigits(secret) {
      var n: nat :| 10000 <= n <= 99999 && secret == Print(n);
      PrintThenValue(n);
      PrintedSize(n);
    }
  }

  lemma SaysExactly(lines: seq<string>, key: string, default: string, value: string)
    requires SettingEntries(lines).Some?
    ensures OrElse(First(SettingEntries(lines).value, key), default) == value <==> Says(lines, key, default, value)
  {
    FirstLineDecides(Protected, lines, key, value);
  }

  /** The report, from the three texts. */
  lemma ReportIs(
    text: string, port: nat, address: string, secret: string, set_: bool, inet: Inet, result: Result)
    requires result.Readable? && result.port == port && result.address == address && result.credential == secret
    ensures Report(text, address, secret, set_, inet) == result <==>
      && IsPort(text, port) && (inet.v4(address) || inet.v6(address)) && 1 <= |secret| <= 4096
      && !(secret[0] == '(' && secret[|secret| - 1] == ')')
      && (result.passcode <==> FiveDigits(secret)) && (result.configured <==> set_)
  {
    PortExactly(text, port);
    FiveDigitsExactly(secret);
  }

  lemma ReportShows(text: string, address: string, secret: string, set_: bool, inet: Inet)
    ensures var result := Report(text, address, secret, set_, inet);
            result.Readable? ==> result.address == address && result.credential == secret
  {
  }

  lemma ReportedExactly(
    lines: seq<string>, inet: Inet, port: nat, address: string, passcode: bool, configured: bool, secret: string)
    requires SettingEntries(lines).Some?
    ensures ReportOnEntries(SettingEntries(lines).value, inet) == Readable(port, address, passcode, configured, secret)
      <==>
      && (exists text :: Says(lines, "network_port", "5109", text) && IsPort(text, port))
      && Says(lines, "network_addr", "0.0.0.0", address) && (inet.v4(address) || inet.v6(address))
      && Says(lines, "server_code", "00000", secret) && 1 <= |secret| <= 4096
      && !(secret[0] == '(' && secret[|secret| - 1] == ')')
      && (passcode <==> FiveDigits(secret))
      && (configured <==> SetSomewhere(Protected, lines, "server_code"))
  {
    var entries := SettingEntries(lines).value;
    var text := OrElse(First(entries, "network_port"), "5109");
    forall t ensures Says(lines, "network_port", "5109", t) <==> t == text {
      SaysExactly(lines, "network_port", "5109", t);
    }
    SaysExactly(lines, "network_addr", "0.0.0.0", address);
    SaysExactly(lines, "server_code", "00000", secret);
    FirstLineDecides(Protected, lines, "server_code", secret);
    var address', secret' := OrElse(First(entries, "network_addr"), "0.0.0.0"),
                             OrElse(First(entries, "server_code"), "00000");
    ReportIs(text, port, address, secret, First(entries, "server_code").Some?, inet,
             Readable(port, address, passcode, configured, secret));
    ReportShows(text, address', secret', First(entries, "server_code").Some?, inet);
  }

  /** A file is accepted with a given report exactly if it is all that it has to be for this report. */
  lemma AcceptedExactly(
    contents: string, inet: Inet, port: nat, address: string, passcode: bool, configured: bool, secret: string)
    ensures Parsed(contents, inet) == Readable(port, address, passcode, configured, secret)
      <==> AcceptedAs(contents, inet, port, address, passcode, configured, secret)
  {
    var lines := Lines(contents);
    TextExactly(contents);
    LinesAcceptedExactly(Protected, lines);
    if SettingEntries(lines).Some? {
      ReportedExactly(lines, inet, port, address, passcode, configured, secret);
    }
  }

  /** Every port from 1 to 65535, printed, is a port the file may give. */
  lemma PrintedPortsAreAccepted(port: nat)
    requires 1 <= port <= 65535
    ensures IsPort(Print(port), port)
  {
    OneZero(0, Print(port));
    PrintedSize(port);
  }
}
