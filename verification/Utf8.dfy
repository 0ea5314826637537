/** The UTF-8 check of the settings reader, against the grammar of RFC 3629. Bytes are characters below 256. */
module Utf8 {

  // ------------------------------------------------------------------
  // Section 4 of RFC 3629: the syntax of UTF-8 byte sequences.
  // ------------------------------------------------------------------

  predicate In(c: char, low: int, high: int) {
    low <= c as int <= high
  }

  predicate Tail(c: char) {
    In(c, 0x80, 0xBF)
  }

  predicate Utf8Char(s: string) {
    match |s|
    case 1 => In(s[0], 0, 0x7F)
    case 2 => In(s[0], 0xC2, 0xDF) && Tail(s[1])
    case 3 =>
      && (|| (In(s[0], 0xE0, 0xE0) && In(s[1], 0xA0, 0xBF))
          || (In(s[0], 0xE1, 0xEC) && Tail(s[1]))
          || (In(s[0], 0xED, 0xED) && In(s[1], 0x80, 0x9F))
          || (In(s[0], 0xEE, 0xEF) && Tail(s[1])))
      && Tail(s[2])
    case 4 =>
      && (|| (In(s[0], 0xF0, 0xF0) && In(s[1], 0x90, 0xBF))
          || (In(s[0], 0xF1, 0xF3) && Tail(s[1]))
          || (In(s[0], 0xF4, 0xF4) && In(s[1], 0x80, 0x8F)))
      && Tail(s[2]) && Tail(s[3])
    case _ => false
  }

  /** UTF8-octets = *( UTF8-char ) */
  predicate Octets(s: string)
    decreases |s|
  {
    s == "" || exists k | 1 <= k <= |s| :: Utf8Char(s[..k]) && Octets(s[k..])
  }

  /** No control characters other than tab, line feed and carriage return. */
  predicate Permitted(c: char) {
    c >= ' ' || c == '\t' || c == '\n' || c == '\r'
  }

  predicate AllPermitted(s: string) {
    forall i | 0 <= i < |s| :: Permitted(s[i])
  }

  // ------------------------------------------------------------------
  // Section 3: the same sequences as encodings of scalar values.
  // ------------------------------------------------------------------

  predicate Scalar(v: int) {
    0 <= v <= 0x10FFFF && !(0xD800 <= v <= 0xDFFF)
  }

  function Byte(v: int): char
    requires 0 <= v < 256
  {
    v as char
  }

  function Encode(v: int): string
    requires Scalar(v)
  {
    if v < 0x80 then [Byte(v)]
    else if v < 0x800 then [Byte(0xC0 + v / 64), Byte(0x80 + v % 64)]
    else if v < 0x10000 then [Byte(0xE0 + v / 4096), Byte(0x80 + v / 64 % 64), Byte(0x80 + v % 64)]
    else [Byte(0xF0 + v / 262144), Byte(0x80 + v / 4096 % 64), Byte(0x80 + v / 64 % 64), Byte(0x80 + v % 64)]
  }

  function EncodeAll(values: seq<int>): string
    requires forall v | v in values :: Scalar(v)
  {
    if values == [] then "" else Encode(values[0]) + EncodeAll(values[1..])
  }

  /** The bits a sequence carries: the lead byte's low bits, then six from each tail byte. */
  function Bits(lead: int, tails: string): int {
    if tails == "" then lead else Bits(lead, tails[..|tails| - 1]) * 64 + tails[|tails| - 1] as int % 64
  }

  function LeadBits(c: char, count: nat): int
    requires 1 <= count <= 3
  {
    c as int % (if count == 1 then 32 else if count == 2 then 16 else 8)
  }

  lemma BitsOfTails(lead: int, a: char, b: char, c: char)
    ensures Bits(lead, [a]) == lead * 64 + a as int % 64
    ensures Bits(lead, [a, b]) == (lead * 64 + a as int % 64) * 64 + b as int % 64
    ensures Bits(lead, [a, b, c]) == ((lead * 64 + a as int % 64) * 64 + b as int % 64) * 64 + c as int % 64
  {
    assert [a][..0] == "";
    assert [a, b][..1] == [a];
    assert [a, b, c][..2] == [a, b];
  }

  // ------------------------------------------------------------------
  // The check.
  // ------------------------------------------------------------------

  function TailCount(c: char): nat {
    if In(c, 0xC2, 0xDF) then 1 else if In(c, 0xE0, 0xEF) then 2 else if In(c, 0xF0, 0xF4) then 3 else 0
  }

  /** The value tests that follow the bit assembly. */
  predicate ValueAccepted(count: nat, value: int) {
    !((count == 1 && value < 0x80) || (count == 2 && value < 0x800) || (count == 3 && value < 0x10000)
      || value > 0x10FFFF || 0xD800 <= value <= 0xDFFF)
  }

  /** The multi-byte sequence starting at `start`: the bit assembly and the tests on its value. */
  method CheckSequence(s: string, start: nat) returns (ok: bool, next: nat)
    requires start < |s| && s[start] >= 0x80 as char
    ensures next == start + 1 + TailCount(s[start])
    ensures ok <==> next <= |s| && Utf8Char(s[start..next])
  {
    var count := TailCount(s[start]);
    next := start + 1 + count;
    if count == 0 || next > |s| {
      return false, next;
    }
    var value := LeadBits(s[start], count);
    var tails := s[start + 1..next];
    var n := 0;
    while n < count
      invariant 0 <= n <= count
      invariant forall j | 0 <= j < n :: Tail(tails[j])
      invariant value == Bits(LeadBits(s[start], count), tails[..n])
    {
      var tail := s[start + 1 + n];
      if tail as int / 64 != 2 {
        assert tails[n] == s[start..next][n + 1];
        return false, next;
      }
      assert tails[..n + 1][..n] == tails[..n];
      value := value * 64 + tail as int % 64;
      n := n + 1;
    }
    assert tails[..n] == tails;
    assert s[start..next] == [s[start]] + tails;
    SequenceAccepted(s[start], tails);
    ok := ValueAccepted(count, value);
  }

  /** One round of the loop: the character at `start`. */
  method CheckOne(s: string, start: nat) returns (ok: bool, next: nat)
    requires start < |s|
    ensures ok ==>
      && start < next <= |s|
      && (Octets(s[start..]) <==> Octets(s[next..]))
      && forall j | start <= j < next :: Permitted(s[j])
    ensures !ok ==> !Octets(s[start..]) || !Permitted(s[start])
  {
    var c := s[start];
    if c < 0x80 as char {
      next := start + 1;
      ok := !(c < ' ' && c != '\n' && c != '\r' && c != '\t');
      OctetsAdvance(s, start, 1);
    } else {
      ok, next := CheckSequence(s, start);
      if ok {
        MultiBytePermitted(s, start, next);
        OctetsAdvance(s, start, next - start);
      } else {
        NoSequenceAt(s, start);
      }
    }
  }

  method Check(s: string) returns (ok: bool)
    ensures ok <==> Octets(s) && AllPermitted(s)
  {
    var i := 0;
    ghost var wellFormed := Octets(s);
    assert s[0..] == s;
    while i < |s|
      invariant 0 <= i <= |s|
      invariant forall j | 0 <= j < i :: Permitted(s[j])
      invariant wellFormed <==> Octets(s[i..])
    {
      var one, next := CheckOne(s, i);
      if !one {
        return false;
      }
      i := next;
    }
    return true;
  }

  /** The lead byte fixes the length. */
  lemma LengthOfChar(s: string)
    requires Utf8Char(s)
    ensures |s| == 1 + TailCount(s[0])
    ensures |s| > 1 ==> forall i | 0 < i < |s| :: Tail(s[i])
  {
  }

  lemma MultiBytePermitted(s: string, start: nat, next: nat)
    requires start < next <= |s| && s[start] >= 0x80 as char && Utf8Char(s[start..next])
    ensures forall j | start <= j < next :: Permitted(s[j])
  {
    LengthOfChar(s[start..next]);
    assert forall j | start <= j < next :: s[j] == s[start..next][j - start];
  }

  lemma OctetsAdvance(s: string, start: nat, k: nat)
    requires 1 <= k && start + k <= |s| && Utf8Char(s[start..start + k])
    ensures Octets(s[start..]) <==> Octets(s[start + k..])
  {
    var t := s[start..];
    assert t[..k] == s[start..start + k] && t[k..] == s[start + k..];
    LengthOfChar(t[..k]);
    if Octets(t) {
      var j :| 1 <= j <= |t| && Utf8Char(t[..j]) && Octets(t[j..]);
      LengthOfChar(t[..j]);
    }
  }

  /** Only the one length the lead byte allows could start a sequence here. */
  lemma NoSequenceAt(s: string, start: nat)
    requires start < |s|
    requires var k := 1 + TailCount(s[start]);
             start + k > |s| || !Utf8Char(s[start..start + k])
    ensures !Octets(s[start..])
  {
    var t := s[start..];
    forall j | 1 <= j <= |t| ensures !Utf8Char(t[..j]) {
      assert t[..j] == s[start..start + j];
      if Utf8Char(t[..j]) {
        LengthOfChar(t[..j]);
      }
    }
  }

  /** The computed value tests reject exactly what the grammar's second-byte ranges reject. */
  lemma SequenceAccepted(lead: char, tails: string)
    requires |tails| == TailCount(lead) && |tails| >= 1
    requires forall i | 0 <= i < |tails| :: Tail(tails[i])
    ensures Utf8Char([lead] + tails) <==> ValueAccepted(|tails|, Bits(LeadBits(lead, |tails|), tails))
  {
    var bits := LeadBits(lead, |tails|);
    if |tails| == 1 {
      assert tails == [tails[0]];
      BitsOfTails(bits, tails[0], tails[0], tails[0]);
      AcceptedTwo(lead as int, tails[0] as int);
    } else if |tails| == 2 {
      assert tails == [tails[0], tails[1]];
      BitsOfTails(bits, tails[0], tails[1], tails[1]);
      AcceptedThree(lead as int, tails[0] as int, tails[1] as int);
    } else {
      assert tails == [tails[0], tails[1], tails[2]];
      BitsOfTails(bits, tails[0], tails[1], tails[2]);
      AcceptedFour(lead as int, tails[0] as int, tails[1] as int, tails[2] as int);
    }
  }

  lemma AcceptedTwo(lead: int, a: int)
    requires 0xC2 <= lead <= 0xDF && 0x80 <= a <= 0xBF
    ensures ValueAccepted(1, lead % 32 * 64 + a % 64)
  {
    assert lead % 32 == lead - 0xC0 && a % 64 == a - 0x80;
  }

  lemma AcceptedThree(lead: int, a: int, b: int)
    requires 0xE0 <= lead <= 0xEF && 0x80 <= a <= 0xBF && 0x80 <= b <= 0xBF
    ensures ValueAccepted(2, (lead % 16 * 64 + a % 64) * 64 + b % 64)
      <==> (lead == 0xE0 ==> a >= 0xA0) && (lead == 0xED ==> a <= 0x9F)
  {
    assert lead % 16 == lead - 0xE0 && a % 64 == a - 0x80 && b % 64 == b - 0x80;
  }

  lemma AcceptedFour(lead: int, a: int, b: int, c: int)
    requires 0xF0 <= lead <= 0xF4 && 0x80 <= a <= 0xBF && 0x80 <= b <= 0xBF && 0x80 <= c <= 0xBF
    ensures ValueAccepted(3, ((lead % 8 * 64 + a % 64) * 64 + b % 64) * 64 + c % 64)
      <==> (lead == 0xF0 ==> a >= 0x90) && (lead == 0xF4 ==> a <= 0x8F)
  {
    assert lead % 8 == lead - 0xF0 && a % 64 == a - 0x80 && b % 64 == b - 0x80 && c % 64 == c - 0x80;
  }

  // ------------------------------------------------------------------
  // Accepted sequences are exactly the encodings of scalar values.
  // ------------------------------------------------------------------

  /** Six-bit groups of a number, and the number made of such groups. */
  lemma Groups(a: int, b: int, c: int, d: int)
    requires 0 <= a && 0 <= b < 64 && 0 <= c < 64 && 0 <= d < 64
    ensures var v := ((a * 64 + b) * 64 + c) * 64 + d;
            v % 64 == d && v / 64 % 64 == c && v / 4096 % 64 == b && v / 262144 == a
            && v / 4096 == a * 64 + b && v / 64 == (a * 64 + b) * 64 + c
  {
    var v := ((a * 64 + b) * 64 + c) * 64 + d;
    assert v / 64 == (a * 64 + b) * 64 + c;
    assert v / 4096 == a * 64 + b;
  }

  lemma EncodingsAreChars(v: int)
    requires Scalar(v)
    ensures Utf8Char(Encode(v))
  {
    SixBitParts(v);
    if v < 0x80 {
    } else if v < 0x800 {
      assert 2 <= v / 64 < 32;
    } else if v < 0x10000 {
      assert v / 4096 == 0 ==> v / 64 % 64 >= 0x20;
      assert v / 4096 == 0xD ==> v / 64 % 64 < 0x20;
    } else {
      assert v / 262144 == 0 ==> v / 4096 % 64 >= 0x10;
      assert v / 262144 == 4 ==> v / 4096 % 64 < 0x10;
    }
  }

  lemma SixBitParts(v: nat)
    ensures v == v / 64 * 64 + v % 64
    ensures v == v / 4096 * 4096 + v / 64 % 64 * 64 + v % 64
    ensures v == v / 262144 * 262144 + v / 4096 % 64 * 4096 + v / 64 % 64 * 64 + v % 64
  {
    var high := v / 64;
    assert high == high / 64 * 64 + high % 64 && high / 64 == v / 4096;
    var top := v / 4096;
    assert top == top / 64 * 64 + top % 64 && top / 64 == v / 262144;
  }

  lemma TwoOctets(s: string) returns (v: int)
    requires Utf8Char(s) && |s| == 2
    ensures Scalar(v) && Encode(v) == s
  {
    var c, d := s[0] as int - 0xC0, s[1] as int - 0x80;
    v := c * 64 + d;
    Groups(0, 0, c, d);
  }

  lemma ThreeOctets(s: string) returns (v: int)
    requires Utf8Char(s) && |s| == 3
    ensures Scalar(v) && Encode(v) == s
  {
    var b, c, d := s[0] as int - 0xE0, s[1] as int - 0x80, s[2] as int - 0x80;
    v := (b * 64 + c) * 64 + d;
    Groups(0, b, c, d);
  }

  lemma FourOctets(s: string) returns (v: int)
    requires Utf8Char(s) && |s| == 4
    ensures Scalar(v) && Encode(v) == s
  {
    var a, b, c, d := s[0] as int - 0xF0, s[1] as int - 0x80, s[2] as int - 0x80, s[3] as int - 0x80;
    v := ((a * 64 + b) * 64 + c) * 64 + d;
    Groups(a, b, c, d);
  }

  lemma CharsAreEncodings(s: string) returns (v: int)
    requires Utf8Char(s)
    ensures Scalar(v) && Encode(v) == s
  {
    if |s| == 1 {
      v := s[0] as int;
    } else if |s| == 2 {
      v := TwoOctets(s);
    } else if |s| == 3 {
      v := ThreeOctets(s);
    } else {
      v := FourOctets(s);
    }
  }

  lemma {:induction false} OctetsAreEncodings(s: string) returns (values: seq<int>)
    requires Octets(s)
    ensures (forall v | v in values :: Scalar(v)) && EncodeAll(values) == s
    decreases |s|
  {
    if s == "" {
      values := [];
    } else {
      var k :| 1 <= k <= |s| && Utf8Char(s[..k]) && Octets(s[k..]);
      var v := CharsAreEncodings(s[..k]);
      var rest := OctetsAreEncodings(s[k..]);
      values := [v] + rest;
      assert values[1..] == rest && s == s[..k] + s[k..];
    }
  }

  lemma {:induction false} EncodingsAreOctets(values: seq<int>)
    requires forall v | v in values :: Scalar(v)
    ensures Octets(EncodeAll(values))
  {
    if values != [] {
      var head, rest := Encode(values[0]), EncodeAll(values[1..]);
      EncodingsAreChars(values[0]);
      EncodingsAreOctets(values[1..]);
      assert (head + rest)[..|head|] == head && (head + rest)[|head|..] == rest;
    }
  }

  /** Overlong forms, surrogates and out-of-range values are excluded: only encodings of scalar values remain. */
  lemma WellFormedExactlyEncodings(s: string)
    ensures Octets(s) <==> exists values: seq<int> :: (forall v | v in values :: Scalar(v)) && EncodeAll(values) == s
  {
    if Octets(s) {
      var values := OctetsAreEncodings(s);
    } else {
      forall values: seq<int> | forall v | v in values :: Scalar(v) ensures EncodeAll(values) != s {
        EncodingsAreOctets(values);
      }
    }
  }
}
