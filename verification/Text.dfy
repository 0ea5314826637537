/** Lines, blanks and trimming: the string work the two configuration readers share. */
module Text {
  import opened Options

  predicate Blank(c: char) {
    c == ' ' || c == '\t' || c == '\r' || c == '\n'
  }

  predicate AllBlank(s: string) {
    forall i | 0 <= i < |s| :: Blank(s[i])
  }

  predicate Trimmed(s: string) {
    s != "" ==> !Blank(s[0]) && !Blank(s[|s| - 1])
  }

  function SkipBlanks(s: string): string {
    if s != "" && Blank(s[0]) then SkipBlanks(s[1..]) else s
  }

  function DropBlanks(s: string): string {
    if s != "" && Blank(s[|s| - 1]) then DropBlanks(s[..|s| - 1]) else s
  }

  /** `s` without leading and trailing blanks. */
  function Trim(s: string): string {
    SkipBlanks(DropBlanks(s))
  }

  lemma {:induction false} DropBlanksOf(t: string, b: string)
    requires AllBlank(b) && (t != "" ==> !Blank(t[|t| - 1]))
    ensures DropBlanks(t + b) == t
    decreases |b|
  {
    if b == "" {
      assert t + b == t;
    } else {
      assert (t + b)[..|t + b| - 1] == t + b[..|b| - 1];
      DropBlanksOf(t, b[..|b| - 1]);
    }
  }

  lemma {:induction false} SkipBlanksOf(a: string, t: string)
    requires AllBlank(a) && (t != "" ==> !Blank(t[0]))
    ensures SkipBlanks(a + t) == t
  {
    if a == "" {
      assert a + t == t;
    } else {
      assert (a + t)[1..] == a[1..] + t;
      SkipBlanksOf(a[1..], t);
    }
  }

  /** Trimming is determined by what is left: there is only one way to strip blanks down to a trimmed text. */
  lemma TrimOf(a: string, t: string, b: string)
    requires AllBlank(a) && AllBlank(b) && Trimmed(t)
    ensures Trim(a + t + b) == t
  {
    if t == "" {
      assert a + t + b == "" + (a + b);
      DropBlanksOf("", a + b);
    } else {
      DropBlanksOf(a + t, b);
      SkipBlanksOf(a, t);
    }
  }

  lemma {:induction false} DropBlanksSplits(s: string) returns (b: string)
    ensures AllBlank(b) && s == DropBlanks(s) + b
    ensures DropBlanks(s) != "" ==> !Blank(DropBlanks(s)[|DropBlanks(s)| - 1])
  {
    if s != "" && Blank(s[|s| - 1]) {
      var b' := DropBlanksSplits(s[..|s| - 1]);
      b := b' + [s[|s| - 1]];
      var front := s[..|s| - 1];
      assert s == front + [s[|s| - 1]] == (DropBlanks(front) + b') + [s[|s| - 1]] == DropBlanks(front) + b;
    } else {
      b := "";
    }
  }

  lemma {:induction false} SkipBlanksSplits(s: string) returns (a: string)
    ensures AllBlank(a) && s == a + SkipBlanks(s)
    ensures SkipBlanks(s) != "" ==> !Blank(SkipBlanks(s)[0])
  {
    if s != "" && Blank(s[0]) {
      var a' := SkipBlanksSplits(s[1..]);
      a := [s[0]] + a';
      assert s == [s[0]] + s[1..] == [s[0]] + (a' + SkipBlanks(s[1..])) == a + SkipBlanks(s[1..]);
    } else {
      a := "";
    }
  }

  lemma TrimSplits(s: string) returns (a: string, b: string)
    ensures AllBlank(a) && AllBlank(b) && Trimmed(Trim(s)) && s == a + Trim(s) + b
  {
    b := DropBlanksSplits(s);
    a := SkipBlanksSplits(DropBlanks(s));
  }

  /** The text before the first `c`; all of it when there is none. */
  function UpTo(s: string, c: char): (t: string)
    ensures t <= s && c !in t
    ensures |t| < |s| ==> s[|t|] == c
  {
    if s == "" || s[0] == c then "" else [s[0]] + UpTo(s[1..], c)
  }

  lemma {:induction false} UpToOf(t: string, c: char, more: string)
    requires c !in t && (more != "" ==> more[0] == c)
    ensures UpTo(t + more, c) == t
  {
    if t == "" {
      assert t + more == more;
    } else {
      assert (t + more)[1..] == t[1..] + more;
      UpToOf(t[1..], c, more);
    }
  }

  /** std::getline until the stream ends: a final newline does not start another line. */
  function Lines(s: string): seq<string>
    decreases |s|
  {
    if s == "" then []
    else
      var line := UpTo(s, '\n');
      [line] + if |line| == |s| then [] else Lines(s[|line| + 1..])
  }

  /** The first space or tab. */
  function FindGap(s: string): (r: Option<nat>)
    ensures r.Some? ==>
      r.value < |s| && s[r.value] in [' ', '\t'] && forall i | 0 <= i < r.value :: s[i] !in [' ', '\t']
    ensures r.None? ==> forall i | 0 <= i < |s| :: s[i] !in [' ', '\t']
  {
    if s == "" then None
    else if s[0] in [' ', '\t'] then Some(0)
    else
      var rest := FindGap(s[1..]);
      if rest.None? then None else Some(rest.value + 1)
  }
}
