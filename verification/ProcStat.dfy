/** The reader of Linux process records, exact in its overflow checks. */
module ProcStat {
  import opened Options
  import opened Decimal

  datatype LinuxProcStat = LinuxProcStat(userTicks: nat, systemTicks: nat, residentPages: nat, threads: nat)

  // ------------------------------------------------------------------
  // Unsigned fields.
  // ------------------------------------------------------------------

  predicate UnsignedField(text: string) {
    text != "" && AllDigits(text) && Value(text) <= ULONG_MAX
  }

  lemma {:induction false} PrefixValue(s: string, n: nat)
    requires n <= |s| && AllDigits(s)
    ensures Value(s[..n]) <= Value(s)
    decreases |s|
  {
    if n < |s| {
      assert s[..|s| - 1][..n] == s[..n];
      PrefixValue(s[..|s| - 1], n);
    } else {
      assert s[..n] == s;
    }
  }

  /** The overflow test by division rejects exactly the products that do not fit. */
  lemma OverflowTest(parsed: nat, digit: nat)
    requires digit < 10
    ensures parsed > (ULONG_MAX - digit) / 10 <==> parsed * 10 + digit > ULONG_MAX
  {
  }

  method ParseUnsignedProcField(text: string, value: nat) returns (ok: bool, value': nat)
    ensures ok <==> UnsignedField(text)
    ensures value' == if ok then Value(text) else value
  {
    if text == "" {
      return false, value;
    }
    var parsed: nat := 0;
    var i := 0;
    while i < |text|
      invariant 0 <= i <= |text|
      invariant AllDigits(text[..i]) && parsed == Value(text[..i]) <= ULONG_MAX
    {
      if text[i] < '0' || text[i] > '9' {
        return false, value;
      }
      var digit := DigitValue(text[i]);
      assert text[..i + 1][..i] == text[..i];
      OverflowTest(parsed, digit);
      if parsed > (ULONG_MAX - digit) / 10 {
        if AllDigits(text) {
          PrefixValue(text, i + 1);
        }
        return false, value;
      }
      parsed := parsed * 10 + digit;
      i := i + 1;
    }
    assert text[..i] == text;
    return true, parsed;
  }

  // ------------------------------------------------------------------
  // The record.
  // ------------------------------------------------------------------

  /** std::string::find and rfind of one character; None for npos. */
  function FindChar(s: string, c: char): (r: Option<nat>)
    ensures r.Some? ==> r.value < |s| && s[r.value] == c && c !in s[..r.value]
    ensures r.None? ==> c !in s
  {
    if s == "" then None
    else if s[0] == c then Some(0)
    else
      var rest := FindChar(s[1..], c);
      if rest.None? then None else Some(rest.value + 1)
  }

  function FindLastChar(s: string, c: char): (r: Option<nat>)
    ensures r.Some? ==> r.value < |s| && s[r.value] == c && c !in s[r.value + 1..]
    ensures r.None? ==> c !in s
  {
    if s == "" then None
    else if s[|s| - 1] == c then Some(|s| - 1)
    else FindLastChar(s[..|s| - 1], c)
  }

  /** The longest prefix without white space. */
  function Word(s: string): (w: string)
    ensures w <= s && (forall i | 0 <= i < |w| :: !IsSpace(w[i]))
    ensures |w| < |s| ==> IsSpace(s[|w|])
  {
    if s == "" || IsSpace(s[0]) then "" else [s[0]] + Word(s[1..])
  }

  function AfterSpaces(s: string): (t: string)
    ensures |t| <= |s| && (t != "" ==> !IsSpace(t[0]))
  {
    if s != "" && IsSpace(s[0]) then AfterSpaces(s[1..]) else s
  }

  /** What operator>> extracts, one after another, until the stream is exhausted. */
  function Words(s: string): seq<string>
    decreases |s|
  {
    var t := AfterSpaces(s);
    if t == "" then [] else [Word(t)] + Words(t[|Word(t)|..])
  }

  /** Fields 3 to 24 as words. */
  function ReadFields(words: seq<string>): Option<LinuxProcStat> {
    if |words| >= 22 && |words[0]| == 1
       && UnsignedField(words[11]) && UnsignedField(words[12])
       && UnsignedField(words[17]) && Value(words[17]) <= LONG_MAX
       && UnsignedField(words[21])
    then Some(LinuxProcStat(Value(words[11]), Value(words[12]), Value(words[21]), Value(words[17])))
    else None
  }

  /** Where the fields after the parenthesised name start, if the head of the record is well formed. */
  function FieldsStart(text: string): (r: Option<nat>)
    ensures r.Some? ==> r.value <= |text|
  {
    var open, close := FindChar(text, '('), FindLastChar(text, ')');
    if open.None? || close.None? || close.value <= open.value || open.value < 2 || text[open.value - 1] != ' '
       || close.value + 2 >= |text| || text[close.value + 1] != ' '
    then None
    else
      var pid := text[..open.value - 1];
      if UnsignedField(pid) && Value(pid) != 0 then Some(close.value + 2) else None
  }

  function Parsed(text: string): Option<LinuxProcStat> {
    var start := FieldsStart(text);
    if start.None? then None else ReadFields(Words(text[start.value..]))
  }

  ghost function Updated(field: nat, token: string, parsed: LinuxProcStat): LinuxProcStat
    requires field in {14, 15, 20, 24} ==> UnsignedField(token)
  {
    if field == 14 then parsed.(userTicks := Value(token))
    else if field == 15 then parsed.(systemTicks := Value(token))
    else if field == 20 then parsed.(threads := Value(token))
    else if field == 24 then parsed.(residentPages := Value(token))
    else parsed
  }

  /** One of the 22 fields; `ok` is false when it stops the reader. */
  method ReadField(field: nat, token: string, parsed: LinuxProcStat) returns (ok: bool, parsed': LinuxProcStat)
    requires 3 <= field <= 24
    ensures ok <==>
      && (field == 3 ==> |token| == 1)
      && (field in {14, 15, 20, 24} ==> UnsignedField(token))
      && (field == 20 ==> Value(token) <= LONG_MAX)
    ensures ok ==> parsed' == Updated(field, token, parsed)
  {
    ok, parsed' := true, parsed;
    if field == 3 && |token| != 1 {
      return false, parsed;
    }
    if field == 14 {
      var userTicks;
      ok, userTicks := ParseUnsignedProcField(token, parsed.userTicks);
      parsed' := parsed.(userTicks := userTicks);
    }
    if field == 15 {
      var systemTicks;
      ok, systemTicks := ParseUnsignedProcField(token, parsed.systemTicks);
      parsed' := parsed.(systemTicks := systemTicks);
    }
    if field == 20 {
      var count;
      ok, count := ParseUnsignedProcField(token, 0);
      if !ok || count > LONG_MAX {
        return false, parsed;
      }
      parsed' := parsed.(threads := count);
    }
    if field == 24 {
      var residentPages;
      ok, residentPages := ParseUnsignedProcField(token, parsed.residentPages);
      parsed' := parsed.(residentPages := residentPages);
    }
  }

  /** The fields read so far are as the words say. */
  ghost predicate ReadSoFar(words: seq<string>, n: nat, parsed: LinuxProcStat) {
    && n <= 22 && n <= |words|
    && (n > 0 ==> |words[0]| == 1)
    && (n > 11 ==> UnsignedField(words[11]) && parsed.userTicks == Value(words[11]))
    && (n > 12 ==> UnsignedField(words[12]) && parsed.systemTicks == Value(words[12]))
    && (n > 17 ==> UnsignedField(words[17]) && Value(words[17]) <= LONG_MAX && parsed.threads == Value(words[17]))
    && (n > 21 ==> UnsignedField(words[21]) && parsed.residentPages == Value(words[21]))
  }

  method ReadAllFields(stream: string) returns (ok: bool, parsed: LinuxProcStat)
    ensures ok <==> ReadFields(Words(stream)).Some?
    ensures ok ==> ReadFields(Words(stream)) == Some(parsed)
  {
    ghost var words := Words(stream);
    parsed := LinuxProcStat(0, 0, 0, 0);
    var rest := stream;
    var field := 3;
    while field <= 24
      invariant 3 <= field <= 25
      invariant ReadSoFar(words, field - 3, parsed)
      invariant Words(rest) == words[field - 3..]
    {
      rest := AfterSpaces(rest);
      if rest == "" {
        assert |words| == field - 3;
        return false, parsed;
      }
      var token := Word(rest);
      assert words[field - 3..][0] == token;
      assert words[field - 3..][1..] == words[field - 2..];
      ok, parsed := ReadField(field, token, parsed);
      if !ok {
        return;
      }
      rest := rest[|token|..];
      field := field + 1;
    }
    return true, parsed;
  }

  /** A failed parse leaves the caller's result alone. */
  method ParseLinuxProcStat(text: string, result: LinuxProcStat) returns (ok: bool, result': LinuxProcStat)
    ensures ok <==> Parsed(text).Some?
    ensures result' == if ok then Parsed(text).value else result
  {
    result' := result;
    var open, close := FindChar(text, '('), FindLastChar(text, ')');
    if open.None? || close.None? || close.value <= open.value || open.value < 2 || text[open.value - 1] != ' '
       || close.value + 2 >= |text| || text[close.value + 1] != ' ' {
      return false, result;
    }
    var numeric, pid := ParseUnsignedProcField(text[..open.value - 1], 0);
    if !numeric || pid == 0 {
      return false, result;
    }
    var parsed;
    ok, parsed := ReadAllFields(text[close.value + 2..]);
    if ok {
      result' := parsed;
    }
  }

  method ResidentBytes(stat: LinuxProcStat, pageSize: nat, bytes: nat) returns (ok: bool, bytes': nat)
    ensures ok <==> pageSize != 0 && stat.residentPages * pageSize <= ULONG_MAX
    ensures bytes' == if ok then stat.residentPages * pageSize else bytes
  {
    if pageSize == 0 {
      return false, bytes;
    }
    QuotientBound(stat.residentPages, pageSize);
    if stat.residentPages > ULONG_MAX / pageSize {
      return false, bytes;
    }
    return true, stat.residentPages * pageSize;
  }

  lemma QuotientBound(pages: nat, size: nat)
    requires size > 0
    ensures pages <= ULONG_MAX / size <==> pages * size <= ULONG_MAX
  {
    var q := ULONG_MAX / size;
    assert q * size <= ULONG_MAX < (q + 1) * size by {
      assert ULONG_MAX == size * q + ULONG_MAX % size;
    }
    if pages <= q {
      assert pages * size <= q * size;
    } else {
      assert pages * size >= (q + 1) * size;
    }
  }

  // ------------------------------------------------------------------
  // Printed records read back.
  // ------------------------------------------------------------------

  /** A field as the kernel prints it: no white space, no closing parenthesis. */
  predicate FieldText(s: string) {
    s != "" && forall i | 0 <= i < |s| :: !IsSpace(s[i]) && s[i] != ')'
  }

  function Joined(fields: seq<string>): string {
    if fields == [] then "\n" else if |fields| == 1 then fields[0] + "\n" else fields[0] + ([' '] + Joined(fields[1..]))
  }

  function Record(pid: nat, name: string, fields: seq<string>): string {
    Head(Print(pid), name) + ([' '] + Joined(fields))
  }

  lemma {:induction false} WordOf(word: string, more: string)
    requires (forall i | 0 <= i < |word| :: !IsSpace(word[i])) && (more != "" ==> IsSpace(more[0]))
    ensures Word(word + more) == word
  {
    if word == "" {
      assert word + more == more;
    } else {
      assert (word + more)[1..] == word[1..] + more;
      WordOf(word[1..], more);
    }
  }

  lemma WordsSkipSpace(c: char, s: string)
    requires IsSpace(c)
    ensures Words([c] + s) == Words(s)
  {
    assert ([c] + s)[1..] == s;
    assert AfterSpaces(AfterSpaces(s)) == AfterSpaces(s);
  }

  lemma WordsStep(word: string, tail: string)
    requires FieldText(word) && tail != "" && IsSpace(tail[0])
    ensures Words(word + tail) == [word] + Words(tail)
  {
    var s := word + tail;
    assert s[0] == word[0];
    WordOf(word, tail);
    assert s[|word|..] == tail;
  }

  lemma {:induction false} WordsOfJoined(fields: seq<string>)
    requires forall i | 0 <= i < |fields| :: FieldText(fields[i])
    ensures Words(Joined(fields)) == fields
  {
    WordsSkipSpace('\n', "");
    assert ['\n'] + "" == "\n";
    if fields != [] {
      assert fields == [fields[0]] + fields[1..];
      if |fields| == 1 {
        WordsStep(fields[0], "\n");
      } else {
        var rest := Joined(fields[1..]);
        WordsOfJoined(fields[1..]);
        WordsSkipSpace(' ', rest);
        WordsStep(fields[0], [' '] + rest);
      }
    }
  }

  lemma {:induction false} JoinedHasNoParenthesis(fields: seq<string>)
    requires forall i | 0 <= i < |fields| :: FieldText(fields[i])
    ensures ')' !in Joined(fields) && Joined(fields) != ""
  {
    if fields != [] {
      assert ')' !in fields[0];
      JoinedHasNoParenthesis(fields[1..]);
    }
  }

  lemma FieldsStartAt(text: string, open: nat, close: nat)
    requires 2 <= open < close && close + 2 < |text|
    requires text[open] == '(' && text[close] == ')' && text[open - 1] == ' ' && text[close + 1] == ' '
    requires '(' !in text[..open] && ')' !in text[close + 1..]
    requires UnsignedField(text[..open - 1]) && Value(text[..open - 1]) != 0
    ensures FieldsStart(text) == Some(close + 2)
  {
    FirstAndLast(text, open, close);
  }

  lemma FirstAndLast(text: string, open: nat, close: nat)
    requires open < |text| && text[open] == '(' && '(' !in text[..open]
    requires close < |text| && text[close] == ')' && ')' !in text[close + 1..]
    ensures FindChar(text, '(') == Some(open) && FindLastChar(text, ')') == Some(close)
  {
    var first, last := FindChar(text, '('), FindLastChar(text, ')');
    assert first.Some? && last.Some?;
  }

  /** The head of a record: the number, a space, and the name in parentheses. */
  function Head(pid: string, name: string): string {
    pid + ([' ', '('] + (name + [')']))
  }

  lemma HeadFacts(pid: string, name: string)
    requires '(' !in pid
    ensures var head := Head(pid, name);
            && |head| == |pid| + 3 + |name|
            && head[|pid|] == ' ' && head[|pid| + 1] == '(' && head[|head| - 1] == ')'
            && head[..|pid|] == pid && '(' !in head[..|pid| + 1]
  {
    var head := Head(pid, name);
    assert head[..|pid| + 1] == pid + [' '];
  }

  lemma PrefixStays(front: string, tail: string, k: nat)
    requires k < |front|
    ensures (front + tail)[k] == front[k] && (front + tail)[..k] == front[..k]
  {
  }

  lemma HeadInText(pid: string, name: string, tail: string)
    requires '(' !in pid
    ensures var head := Head(pid, name);
            var text := head + tail;
            && |head| == |pid| + 3 + |name|
            && text[|pid|] == ' ' && text[|pid| + 1] == '(' && text[|head| - 1] == ')'
            && text[..|pid|] == pid && '(' !in text[..|pid| + 1] && text[|head|..] == tail
  {
    var head := Head(pid, name);
    HeadFacts(pid, name);
    PrefixStays(head, tail, |pid|);
    PrefixStays(head, tail, |pid| + 1);
    PrefixStays(head, tail, |head| - 1);
  }

  lemma BlankAhead(text: string, i: nat, fields: string)
    requires i <= |text| && text[i..] == [' '] + fields && ')' !in fields
    ensures i < |text| && text[i] == ' ' && ')' !in text[i..] && |text| == i + 1 + |fields|
    ensures text[i + 1..] == fields
  {
    assert text[i] == text[i..][0];
    assert text[i + 1..] == text[i..][1..];
  }

  lemma FieldsAreFound(text: string, open: nat, close: nat, fields: string)
    requires 2 <= open < close < |text| && fields != "" && ')' !in fields
    requires text[open] == '(' && text[close] == ')' && text[open - 1] == ' ' && '(' !in text[..open]
    requires UnsignedField(text[..open - 1]) && Value(text[..open - 1]) != 0
    requires text[close + 1..] == [' '] + fields
    ensures FieldsStart(text).Some? && text[FieldsStart(text).value..] == fields
  {
    BlankAhead(text, close + 1, fields);
    FieldsStartAt(text, open, close);
  }

  /** The name between the parentheses may hold anything at all, parentheses and line breaks included. */
  lemma RecordHead(pid: string, name: string, fields: string)
    requires UnsignedField(pid) && Value(pid) != 0 && ')' !in fields && fields != ""
    ensures var text := Head(pid, name) + ([' '] + fields);
            FieldsStart(text).Some? && text[FieldsStart(text).value..] == fields
  {
    HeadInText(pid, name, [' '] + fields);
    FieldsAreFound(Head(pid, name) + ([' '] + fields), |pid| + 1, |Head(pid, name)| - 1, fields);
  }

  /** Reading back a printed record: accepted exactly when the four numbers are in range, and then exact. */
  lemma RecordReadsBack(
    pid: nat, name: string, fields: seq<string>, userTicks: nat, systemTicks: nat, threads: nat, residentPages: nat)
    requires 0 < pid <= ULONG_MAX
    requires |fields| >= 22 && |fields[0]| == 1 && forall i | 0 <= i < |fields| :: FieldText(fields[i])
    requires fields[11] == Print(userTicks) && fields[12] == Print(systemTicks)
    requires fields[17] == Print(threads) && fields[21] == Print(residentPages)
    ensures Parsed(Record(pid, name, fields)) ==
      if userTicks <= ULONG_MAX && systemTicks <= ULONG_MAX && residentPages <= ULONG_MAX && threads <= LONG_MAX
      then Some(LinuxProcStat(userTicks, systemTicks, residentPages, threads))
      else None
  {
    PrintThenValue(pid);
    JoinedHasNoParenthesis(fields);
    RecordHead(Print(pid), name, Joined(fields));
    WordsOfJoined(fields);
    PrintThenValue(userTicks);
    PrintThenValue(systemTicks);
    PrintThenValue(threads);
    PrintThenValue(residentPages);
  }

  // ------------------------------------------------------------------
  // Exactly which records are accepted.
  // ------------------------------------------------------------------

  /** A non-zero number, a space, a name in parentheses, a space, and a rest without closing parentheses. */
  ghost predicate Headed(text: string, pid: string, name: string, rest: string) {
    && text == Head(pid, name) + ([' '] + rest) && rest != "" && ')' !in rest
    && exists n :: 0 < n <= ULONG_MAX && IsNumeral(pid, n)
  }

  lemma HeadApart(text: string, open: nat, close: nat)
    requires 1 <= open < close && close + 1 < |text|
    requires text[open] == '(' && text[close] == ')' && text[open - 1] == ' ' && text[close + 1] == ' '
    ensures text == Head(text[..open - 1], text[open + 1..close]) + ([' '] + text[close + 2..])
  {
    var pid, name, rest := text[..open - 1], text[open + 1..close], text[close + 2..];
    assert text[open - 1..] == [' ', '('] + (name + ([')', ' '] + rest));
    assert [')', ' '] + rest == [')'] + ([' '] + rest);
  }

  lemma HeadIsForm(text: string, start: nat) returns (pid: string, name: string)
    requires FieldsStart(text) == Some(start)
    ensures Headed(text, pid, name, text[start..])
  {
    var open, close := FindChar(text, '(').value, FindLastChar(text, ')').value;
    pid, name := text[..open - 1], text[open + 1..close];
    HeadApart(text, open, close);
    NumeralExactly(pid, Value(pid));
    assert text[close + 1..][1..] == text[start..];
  }

  lemma FormIsHead(text: string, pid: string, name: string, rest: string)
    requires Headed(text, pid, name, rest)
    ensures FieldsStart(text).Some? && text[FieldsStart(text).value..] == rest
  {
    var n :| 0 < n <= ULONG_MAX && IsNumeral(pid, n);
    NumeralExactly(pid, n);
    RecordHead(pid, name, rest);
  }

  /** The head of a record is recognised exactly if it is of that form, and then the rest is what is read. */
  lemma HeadExactly(text: string, rest: string)
    ensures (FieldsStart(text).Some? && text[FieldsStart(text).value..] == rest)
      <==> exists pid, name :: Headed(text, pid, name, rest)
  {
    if FieldsStart(text).Some? && text[FieldsStart(text).value..] == rest {
      var pid, name := HeadIsForm(text, FieldsStart(text).value);
    }
    if pid, name :| Headed(text, pid, name, rest) {
      FormIsHead(text, pid, name, rest);
    }
  }

  predicate IsWord(s: string) {
    s != "" && forall i | 0 <= i < |s| :: !IsSpace(s[i])
  }

  /** The words in order, with white space before, between and possibly behind them. */
  ghost predicate Separated(s: string, words: seq<string>)
    decreases |words|
  {
    if words == [] then AllSpace(s)
    else exists spaces, tail :: LeadsWith(s, spaces, words[0], tail) && Separated(tail, words[1..])
  }

  ghost predicate LeadsWith(s: string, spaces: string, word: string, tail: string) {
    s == spaces + (word + tail) && AllSpace(spaces) && IsWord(word) && (tail != "" ==> IsSpace(tail[0]))
  }

  lemma {:induction false} AfterSpacesOf(spaces: string, rest: string)
    requires AllSpace(spaces) && (rest != "" ==> !IsSpace(rest[0]))
    ensures AfterSpaces(spaces + rest) == rest
  {
    if spaces == "" {
      assert spaces + rest == rest;
    } else {
      assert (spaces + rest)[1..] == spaces[1..] + rest;
      AfterSpacesOf(spaces[1..], rest);
    }
  }

  lemma {:induction false} SpacesApart(s: string) returns (spaces: string)
    ensures AllSpace(spaces) && s == spaces + AfterSpaces(s)
  {
    if s != "" && IsSpace(s[0]) {
      var spaces' := SpacesApart(s[1..]);
      spaces := [s[0]] + spaces';
      PutInFront(s, spaces', AfterSpaces(s));
    } else {
      spaces := "";
    }
  }

  lemma PutInFront(s: string, a: string, b: string)
    requires s != "" && s[1..] == a + b
    ensures s == [s[0]] + a + b
  {
  }

  lemma WordIsRead(s: string, spaces: string, word: string, tail: string)
    requires LeadsWith(s, spaces, word, tail)
    ensures Words(s) == [word] + Words(tail)
  {
    var t := word + tail;
    assert t[0] == word[0];
    AfterSpacesOf(spaces, t);
    WordOf(word, tail);
    assert t[|word|..] == tail;
  }

  lemma NoWordsExactly(s: string)
    ensures Words(s) == [] <==> AllSpace(s)
  {
    var spaces := SpacesApart(s);
    if AllSpace(s) {
      assert s + "" == s;
      AfterSpacesOf(s, "");
    } else {
      assert spaces + "" == spaces;
    }
  }

  lemma FirstWord(s: string) returns (spaces: string, tail: string)
    requires Words(s) != []
    ensures LeadsWith(s, spaces, Words(s)[0], tail) && Words(s) == [Words(s)[0]] + Words(tail)
  {
    spaces := SpacesApart(s);
    var t := AfterSpaces(s);
    tail := t[|Word(t)|..];
    assert t == Word(t) + tail;
  }

  /** What is extracted from a text are exactly the words that white space separates. */
  lemma {:induction false} WordsExactly(s: string, words: seq<string>)
    ensures Words(s) == words <==> Separated(s, words)
    decreases |words|
  {
    NoWordsExactly(s);
    if words != [] {
      if Words(s) == words {
        var spaces, tail := FirstWord(s);
        assert words[1..] == Words(tail);
        WordsExactly(tail, words[1..]);
      }
      if spaces, tail :| LeadsWith(s, spaces, words[0], tail) && Separated(tail, words[1..]) {
        WordIsRead(s, spaces, words[0], tail);
        WordsExactly(tail, words[1..]);
        assert words == [words[0]] + words[1..];
      }
    }
  }

  /** At least 22 words, the first of one letter, with these four numbers in their places. */
  ghost predicate Gives(words: seq<string>, stat: LinuxProcStat) {
    && |words| >= 22 && |words[0]| == 1
    && IsNumeral(words[11], stat.userTicks) && stat.userTicks <= 0xFFFF_FFFF_FFFF_FFFF
    && IsNumeral(words[12], stat.systemTicks) && stat.systemTicks <= 0xFFFF_FFFF_FFFF_FFFF
    && IsNumeral(words[17], stat.threads) && stat.threads <= 0x7FFF_FFFF_FFFF_FFFF
    && IsNumeral(words[21], stat.residentPages) && stat.residentPages <= 0xFFFF_FFFF_FFFF_FFFF
  }

  lemma FieldsExactly(words: seq<string>, stat: LinuxProcStat)
    ensures ReadFields(words) == Some(stat) <==> Gives(words, stat)
  {
    if |words| >= 22 {
      NumeralExactly(words[11], stat.userTicks);
      NumeralExactly(words[12], stat.systemTicks);
      NumeralExactly(words[17], stat.threads);
      NumeralExactly(words[21], stat.residentPages);
    }
  }

  /** A text is accepted with a result exactly if it is a record that gives this result. */
  lemma RecordExactly(text: string, stat: LinuxProcStat)
    ensures Parsed(text) == Some(stat) <==>
      exists pid, name, rest, words :: Headed(text, pid, name, rest) && Separated(rest, words) && Gives(words, stat)
  {
    if Parsed(text) == Some(stat) {
      var rest := text[FieldsStart(text).value..];
      HeadExactly(text, rest);
      WordsExactly(rest, Words(rest));
      FieldsExactly(Words(rest), stat);
      var pid, name :| Headed(text, pid, name, rest);
      assert Separated(rest, Words(rest)) && Gives(Words(rest), stat);
    }
    if pid, name, rest, words :| Headed(text, pid, name, rest) && Separated(rest, words) && Gives(words, stat) {
      HeadExactly(text, rest);
      WordsExactly(rest, words);
      FieldsExactly(words, stat);
    }
  }
}
