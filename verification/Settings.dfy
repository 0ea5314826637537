/** The protected-settings reader, written independently of the daemon's. */
module Settings {
  import opened Options
  import opened Decimal
  import opened Text
  import opened Utf8
  import opened Conf

  const LIMIT: nat := 262144

  /** libc's inet_pton for the two address families. */
  datatype Inet = Inet(v4: string -> bool, v6: string -> bool)

  datatype Result =
    | Failure
    | Readable(port: nat, address: string, passcode: bool, configured: bool, credential: string)

  /** The comment goes first, then the whitespace. */
  function ReadSetting(line: string): Line {
    var l := Trim(UpTo(line, '#'));
    if l == "" then Ignored
    else
      var gap := FindGap(l);
      if gap.None? then Bad
      else
        var value := Trim(l[gap.value..]);
        if value == "" then Bad else Good(Entry(l[..gap.value], value))
  }

  function SettingEntries(lines: seq<string>): Option<seq<Entry>> {
    if lines == [] then Some([])
    else
      var before := SettingEntries(lines[..|lines| - 1]);
      match ReadSetting(lines[|lines| - 1])
      case Ignored => before
      case Bad => None
      case Good(e) => if before.None? then None else Some(before.value + [e])
  }

  predicate Wanted(key: string) {
    key == "server_code" || key == "network_port" || key == "network_addr"
  }

  function OrElse(value: Option<string>, default: string): string {
    if value.Some? then value.value else default
  }

  predicate PortText(port: string) {
    port != "" && |port| <= 5 && AllDigits(port) && 1 <= Value(port) <= 65535
  }

  predicate Passcode(secret: string) {
    |secret| == 5 && '1' <= secret[0] <= '9' && AllDigits(secret)
  }

  /** The checks on the three settings, and the report. */
  function Report(port: string, address: string, secret: string, configured: bool, inet: Inet): Result {
    if !PortText(port) || !(inet.v4(address) || inet.v6(address))
       || |secret| > 4096 || secret == "" || ArrayForm(secret)
    then Failure
    else Readable(Value(port), address, Passcode(secret), configured, secret)
  }

  function ReportOnEntries(entries: seq<Entry>, inet: Inet): Result {
    Report(OrElse(First(entries, "network_port"), "5109"),
           OrElse(First(entries, "network_addr"), "0.0.0.0"),
           OrElse(First(entries, "server_code"), "00000"),
           First(entries, "server_code").Some?, inet)
  }

  function Parsed(contents: string, inet: Inet): Result {
    if |contents| > LIMIT || !(Octets(contents) && AllPermitted(contents)) then Failure
    else
      match SettingEntries(Lines(contents))
      case None => Failure
      case Some(entries) => ReportOnEntries(entries, inet)
  }

  /** The first occurrence of each wanted key. */
  ghost predicate Holds(values: map<string, string>, entries: seq<Entry>) {
    forall key | Wanted(key) ::
      (key in values <==> First(entries, key).Some?) && (key in values ==> Some(values[key]) == First(entries, key))
  }

  lemma {:induction false} FirstOfAppended(entries: seq<Entry>, e: Entry, key: string)
    ensures First(entries + [e], key) ==
      if First(entries, key).Some? then First(entries, key) else if e.key == key then Some(e.value) else None
  {
    if entries == [] {
      assert (entries + [e])[1..] == [];
    } else {
      assert (entries + [e])[1..] == entries[1..] + [e];
      FirstOfAppended(entries[1..], e, key);
    }
  }

  lemma {:induction false} SettingEntriesFail(lines: seq<string>, n: nat)
    requires n <= |lines| && SettingEntries(lines[..n]).None?
    ensures SettingEntries(lines).None?
    decreases |lines|
  {
    if n < |lines| {
      assert lines[..|lines| - 1][..n] == lines[..n];
      SettingEntriesFail(lines[..|lines| - 1], n);
    } else {
      assert lines[..n] == lines;
    }
  }

  method CollectValues(lines: seq<string>) returns (ok: bool, values: map<string, string>)
    ensures ok <==> SettingEntries(lines).Some?
    ensures ok ==> Holds(values, SettingEntries(lines).value)
  {
    values := map[];
    var n := 0;
    while n < |lines|
      invariant 0 <= n <= |lines|
      invariant SettingEntries(lines[..n]).Some? && Holds(values, SettingEntries(lines[..n]).value)
    {
      ghost var before := SettingEntries(lines[..n]).value;
      assert lines[..n + 1][..n] == lines[..n];
      var line := Trim(UpTo(lines[n], '#'));
      n := n + 1;
      if line != "" {
        var split := FindGap(line);
        if split.None? {
          SettingEntriesFail(lines, n);
          return false, map[];
        }
        var key, value := line[..split.value], Trim(line[split.value..]);
        if value == "" {
          SettingEntriesFail(lines, n);
          return false, map[];
        }
        forall k ensures First(before + [Entry(key, value)], k) ==
          if First(before, k).Some? then First(before, k) else if key == k then Some(value) else None
        {
          FirstOfAppended(before, Entry(key, value), k);
        }
        if Wanted(key) && key !in values {
          values := values[key := value];
        }
      }
    }
    assert lines[..n] == lines;
    ok := true;
  }

  method ValueOf(
    values: map<string, string>, ghost entries: seq<Entry>, key: string, default: string) returns (text: string)
    requires Holds(values, entries) && Wanted(key)
    ensures text == OrElse(First(entries, key), default)
  {
    text := if key in values then values[key] else default;
  }

  method ReportOn(values: map<string, string>, ghost entries: seq<Entry>, inet: Inet) returns (result: Result)
    requires Holds(values, entries)
    ensures result == ReportOnEntries(entries, inet)
  {
    var port := ValueOf(values, entries, "network_port", "5109");
    var address := ValueOf(values, entries, "network_addr", "0.0.0.0");
    var secret := ValueOf(values, entries, "server_code", "00000");
    result := Report(port, address, secret, "server_code" in values, inet);
  }

  method Parse(contents: string, inet: Inet) returns (result: Result)
    ensures result == Parsed(contents, inet)
  {
    if |contents| > LIMIT {
      return Failure;
    }
    var wellFormed := Check(contents);
    if !wellFormed {
      return Failure;
    }
    var ok, values := CollectValues(Lines(contents));
    if !ok {
      return Failure;
    }
    result := ReportOn(values, SettingEntries(Lines(contents)).value, inet);
  }

  // ------------------------------------------------------------------
  // The two readers agree.
  // ------------------------------------------------------------------

  lemma TrimmedPrefixEndsInGap(l: string)
    requires Trimmed(l) && FindGap(l).Some?
    ensures Trim(l[FindGap(l).value..]) != ""
  {
    var tail := l[FindGap(l).value..];
    var a, b := TrimSplits(tail);
    assert tail[|tail| - 1] == l[|l| - 1];
    assert Trim(tail) == "" ==> tail == a + b;
  }

  lemma FindGapWithMore(l: string, more: string)
    requires FindGap(l).Some?
    ensures FindGap(l + more) == FindGap(l)
  {
    var gap := FindGap(l).value;
    var other := FindGap(l + more);
    assert (l + more)[gap] == l[gap];
    assert forall i | 0 <= i < gap :: (l + more)[i] == l[i];
    assert other.Some? && other.value >= gap;
  }

  /** A commented line, taken apart: blanks, text, blanks, comment, blanks. */
  lemma CommentedLine(a: string, core: string, b: string, comment: string, d: string)
    requires AllBlank(a) && AllBlank(b) && AllBlank(d) && Trimmed(core) && '#' !in core && '#' !in b
    requires Trimmed(comment) && comment != "" && comment[0] == '#'
    ensures UpTo(Trim(a + core + b + comment + d), '#') == if core == "" then "" else core + b
  {
    if core == "" {
      assert a + core + b + comment + d == (a + b) + comment + d;
      TrimOf(a + b, comment, d);
      UpToOf("", '#', comment);
      assert "" + comment == comment;
    } else {
      var middle := core + b + comment;
      assert a + core + b + comment + d == a + middle + d;
      TrimOf(a, middle, d);
      UpToOf(core + b, '#', comment);
    }
  }

  /**
   * Removing the comment before or after the whitespace leaves the same text, up to trailing blanks in front
   * of the comment.
   */
  lemma CommentAndTrimCommute(line: string) returns (more: string)
    ensures AllBlank(more) && UpTo(Trim(line), '#') == Trim(UpTo(line, '#')) + more
    ensures Trim(UpTo(line, '#')) == "" ==> more == ""
  {
    var cut := UpTo(line, '#');
    var a, b := TrimSplits(cut);
    PartsKeepOut(cut, a, Trim(cut), b, '#');
    if |cut| == |line| {
      assert cut == line;
      UpToOf(Trim(line), '#', "");
      assert Trim(line) + "" == Trim(line);
      more := "";
    } else {
      more := CutAndTrim(line, cut, a, b);
    }
  }

  lemma PartsKeepOut(s: string, a: string, core: string, b: string, c: char)
    requires s == a + core + b && c !in s
    ensures c !in core && c !in b
  {
    assert forall d | d in core || d in b :: d in s;
  }

  lemma CutAndTrim(line: string, cut: string, a: string, b: string) returns (more: string)
    requires cut == UpTo(line, '#') && |cut| < |line|
    requires AllBlank(a) && AllBlank(b) && cut == a + Trim(cut) + b && '#' !in Trim(cut) && '#' !in b
    requires Trimmed(Trim(cut))
    ensures AllBlank(more) && UpTo(Trim(line), '#') == Trim(cut) + more
    ensures Trim(cut) == "" ==> more == ""
  {
    var rest := line[|cut|..];
    var c, d := TrimSplits(rest);
    HashIsNotBlank(rest, c, d);
    assert line == cut + rest == a + Trim(cut) + b + Trim(rest) + d;
    CommentedLine(a, Trim(cut), b, Trim(rest), d);
    more := if Trim(cut) == "" then "" else b;
  }

  lemma StartsBlank(blanks: string, more: string)
    requires blanks != "" && AllBlank(blanks)
    ensures Blank((blanks + more)[0])
  {
  }

  lemma HashIsNotBlank(rest: string, c: string, d: string)
    requires rest != "" && rest[0] == '#' && AllBlank(c) && AllBlank(d) && rest == c + Trim(rest) + d
    ensures c == "" && Trim(rest) != "" && Trim(rest)[0] == '#'
  {
    assert rest == c + (Trim(rest) + d);
    if c != "" {
      StartsBlank(c, Trim(rest) + d);
    } else if Trim(rest) == "" {
      assert Trim(rest) + d == d;
      StartsBlank(d, "");
    }
  }

  /** Trailing blanks change neither the key nor the value of a line. */
  lemma SplitWithBlanks(l: string, more: string, gap: nat)
    requires AllBlank(more) && gap <= |l|
    ensures (l + more)[..gap] == l[..gap] && Trim((l + more)[gap..]) == Trim(l[gap..])
  {
    assert (l + more)[gap..] == l[gap..] + more;
    TrimWithBlanks(l[gap..], more);
  }

  /** A line the settings reader accepts contributes the same to both readers. */
  lemma LinesAgree(line: string)
    ensures ReadSetting(line).Ignored? ==> ReadLine(line).Ignored?
    ensures ReadSetting(line).Good? ==> ReadLine(line) == ReadSetting(line)
    ensures ReadLine(line).Bad? ==> ReadSetting(line).Bad?
  {
    var l := Trim(UpTo(line, '#'));
    var a, b := TrimSplits(UpTo(line, '#'));
    var more := CommentAndTrimCommute(line);
    if l == "" {
      assert l + more == "";
    } else if FindGap(l).Some? {
      FindGapWithMore(l, more);
      TrimmedPrefixEndsInGap(l);
      SplitWithBlanks(l, more, FindGap(l).value);
    }
  }

  lemma TrimWithBlanks(s: string, more: string)
    requires AllBlank(more)
    ensures Trim(s + more) == Trim(s)
  {
    var a, b := TrimSplits(s);
    assert s + more == a + Trim(s) + (b + more);
    TrimOf(a, Trim(s), b + more);
  }

  lemma {:induction false} EntriesAgree(lines: seq<string>)
    requires SettingEntries(lines).Some?
    ensures Entries(lines) == SettingEntries(lines)
  {
    if lines != [] {
      LinesAgree(lines[|lines| - 1]);
      EntriesAgree(lines[..|lines| - 1]);
    }
  }

  /** The daemon asks for a numeric passcode when the text prints back as itself and has five characters. */
  predicate DaemonPasscode(secret: string) {
    secret == PrintSigned(Atoi(secret)) && |secret| == 5
  }

  /** A minus sign and a four-digit number without a leading zero. */
  predicate NegativeCode(secret: string) {
    |secret| == 5 && secret[0] == '-' && '1' <= secret[1] <= '9' && AllDigits(secret[1..])
  }

  lemma {:induction false} ValueIsShort(s: string)
    requires AllDigits(s) && |s| <= 5
    ensures Value(s) < 100000
    ensures |s| <= 4 ==> Value(s) < 10000
    ensures |s| <= 3 ==> Value(s) < 1000
    ensures |s| <= 2 ==> Value(s) < 100
    ensures |s| <= 1 ==> Value(s) < 10
  {
    if s != "" {
      ValueIsShort(s[..|s| - 1]);
    }
  }

  lemma AtoiOfDigits(digits: string)
    requires Canonical(digits) && |digits| <= 5
    ensures PrintSigned(Atoi(digits)) == digits
  {
    ValueIsShort(digits);
    ValueThenPrint(digits);
    AtoiOfSmall(digits);
  }

  lemma AtoiOfNegative(secret: string)
    requires NegativeCode(secret)
    ensures PrintSigned(Atoi(secret)) == secret
  {
    var digits := secret[1..];
    assert digits[0] == secret[1];
    ValueIsShort(digits);
    ValueThenPrint(digits);
    LeadingDigitCounts(digits);
    DigitRunOfDigits(digits, "");
    assert digits + "" == digits;
    ToInt32OfSmall(-(Value(digits) as int));
    assert secret == "-" + digits;
  }

  lemma PrintedForm(n: int)
    ensures n >= 0 ==> Canonical(PrintSigned(n))
    ensures n < 0 ==> PrintSigned(n)[0] == '-' && Canonical(PrintSigned(n)[1..]) && PrintSigned(n)[1] != '0'
  {
    if n >= 0 {
      PrintThenValue(n);
    } else {
      PrintThenValue(-n);
      assert PrintSigned(n)[1..] == Print(-n);
    }
  }

  /** The two classifications differ exactly on negative four-digit numbers. */
  lemma PasscodesAgreeExactly(secret: string)
    ensures DaemonPasscode(secret) == Passcode(secret) <==> !NegativeCode(secret)
  {
    if Passcode(secret) {
      AtoiOfDigits(secret);
    } else if NegativeCode(secret) {
      AtoiOfNegative(secret);
    } else if secret == PrintSigned(Atoi(secret)) {
      PrintedForm(Atoi(secret));
    }
  }

  lemma NegativeCodeExample()
    ensures NegativeCode("-1234") && DaemonPasscode("-1234") && !Passcode("-1234")
  {
    assert "-1234"[1..] == "1234";
    AtoiOfNegative("-1234");
  }

  /** What the daemon's `get` returns. */
  function SeenByDaemon(entries: seq<Entry>, key: string, default: string): string {
    match First(entries, key) case None => default case Some(v) => Stored(v)
  }

  /** to_int on a stream: here, of at most five digits. */
  function DaemonPort(text: string): int {
    StrToLong(text)
  }

  /**
   * On every file the settings reader accepts, the daemon's reader does not throw, both see the same port,
   * address and credential, and they classify the credential alike unless it is a negative number.
   */
  lemma ReadersAgree(contents: string, inet: Inet)
    requires Parsed(contents, inet).Readable?
    requires forall address | inet.v4(address) || inet.v6(address) :: !ArrayForm(address)
    ensures Entries(Lines(contents)).Some?
    ensures var entries := Entries(Lines(contents)).value;
            var seen := Parsed(contents, inet);
            && DaemonPort(SeenByDaemon(entries, "network_port", "5109")) == seen.port
            && SeenByDaemon(entries, "network_addr", "0.0.0.0") == seen.address
            && SeenByDaemon(entries, "server_code", "00000") == seen.credential
            && (seen.configured <==> First(entries, "server_code").Some?)
            && (seen.passcode == DaemonPasscode(seen.credential) <==> !NegativeCode(seen.credential))
  {
    EntriesAgree(Lines(contents));
    var entries := Entries(Lines(contents)).value;
    var port := OrElse(First(entries, "network_port"), "5109");
    PortReadsAlike(port);
    PasscodesAgreeExactly(Parsed(contents, inet).credential);
  }

  lemma PortReadsAlike(port: string)
    requires PortText(port)
    ensures !ArrayForm(port) && DaemonPort(port) == Value(port)
  {
    assert IsDigit(port[0]);
    LongOfDigits(port);
  }
}
