/** Cutting a received byte stream into messages: closing tags, length-prefixed frames, and how reads split it. */
module MessageStream {
  import opened Options

  const SIZE_MAX: nat := 0xFFFF_FFFF_FFFF_FFFF

  type size_t = n: nat | n <= SIZE_MAX

  /** What a piece of text ending in the closing tag announces. */
  datatype Header = Plain | Framed(length: size_t, compressed: bool)

  /** The closing tag, the reading of headers, and inflate ("" on failure). */
  datatype Cutter = Cutter(tag: string, classify: string -> Header, inflate: string -> string)

  predicate OccursAt(tag: string, s: string, i: nat) {
    i + |tag| <= |s| && s[i..i + |tag|] == tag
  }

  /** std::string::find: the first position of `tag` at or after `from`. */
  function FindFrom(tag: string, s: string, from: nat): (r: Option<nat>)
    ensures r.Some? ==>
      from <= r.value && OccursAt(tag, s, r.value) && forall i | from <= i < r.value :: !OccursAt(tag, s, i)
    ensures r.None? ==> forall i | from <= i :: !OccursAt(tag, s, i)
    decreases |s| - from
  {
    if |s| < from + |tag| then None else if OccursAt(tag, s, from) then Some(from) else FindFrom(tag, s, from + 1)
  }

  function Find(tag: string, s: string): Option<nat> {
    FindFrom(tag, s, 0)
  }

  /** `s` ends with its first occurrence of `tag`. */
  predicate EndsWithFirst(tag: string, s: string) {
    Find(tag, s).Some? && Find(tag, s).value + |tag| == |s|
  }

  lemma FindIsFirst(tag: string, s: string, p: nat)
    requires OccursAt(tag, s, p) && forall i | 0 <= i < p :: !OccursAt(tag, s, i)
    ensures Find(tag, s) == Some(p)
  {
  }

  // ------------------------------------------------------------------
  // One pass of the receive loop. All sizes are 64-bit and wrap.
  // ------------------------------------------------------------------

  /** Take: `consumed` bytes leave the buffer; `payload` is what reaches the parser, if anything does. */
  datatype Step = Wait | Take(payload: Option<string>, consumed: nat)

  /** Addition on size_t; `a` is the length of a string in memory, which a size_t can hold. */
  function SizeSum(a: nat, b: size_t): nat {
    if a + b <= SIZE_MAX then a + b else a + b - (SIZE_MAX + 1)
  }

  lemma SizeSumWraps(a: size_t, b: size_t)
    ensures SizeSum(a, b) == (a + b) % (SIZE_MAX + 1)
  {
    if a + b > SIZE_MAX {
      assert a + b == 1 * (SIZE_MAX + 1) + SizeSum(a, b);
    }
  }

  function Min(a: nat, b: nat): nat {
    if a <= b then a else b
  }

  /** A frame body as the parser gets it: nothing at all when it does not inflate. */
  function Opened(cutter: Cutter, body: string, compressed: bool): Option<string> {
    if !compressed then Some(body)
    else if cutter.inflate(body) == "" then None
    else Some(cutter.inflate(body))
  }

  /** A pass that has found a header of the given length. */
  function HeaderStep(cutter: Cutter, buffer: string, headerLength: nat): (step: Step)
    requires headerLength <= |buffer|
    ensures step.Take? ==> step.consumed <= |buffer|
  {
    match cutter.classify(buffer[..headerLength])
    case Plain => Take(Some(buffer[..headerLength]), headerLength)
    case Framed(length, compressed) =>
      var total := SizeSum(headerLength, length);
      if |buffer| < total then Wait
      else Take(Opened(cutter, buffer[headerLength..Min(headerLength + length, |buffer|)], compressed), total)
  }

  function NextStep(cutter: Cutter, buffer: string): (step: Step)
    ensures step.Take? ==> step.consumed <= |buffer|
  {
    var position := Find(cutter.tag, buffer);
    if position.None? then Wait else HeaderStep(cutter, buffer, position.value + |cutter.tag|)
  }

  /** What the loop leaves behind; `hung` when a pass removes nothing and so repeats for ever. */
  datatype Outcome = Outcome(payloads: seq<string>, rest: string, hung: bool)

  function Delivered(payload: Option<string>): seq<string> {
    if payload.Some? then [payload.value] else []
  }

  function Drain(cutter: Cutter, buffer: string): Outcome
    decreases |buffer|
  {
    var step := NextStep(cutter, buffer);
    if step.Wait? then Outcome([], buffer, false)
    else if step.consumed == 0 then Outcome(Delivered(step.payload), buffer, true)
    else
      var later := Drain(cutter, buffer[step.consumed..]);
      Outcome(Delivered(step.payload) + later.payloads, later.rest, later.hung)
  }

  // ------------------------------------------------------------------
  // The loop itself.
  // ------------------------------------------------------------------

  class Socket {
    var readbuf: string
    /** Everything handed to `parse` so far, in order. */
    var parsed: seq<string>

    constructor ()
      ensures readbuf == "" && parsed == []
    {
      readbuf, parsed := "", [];
    }

    /** One pass over the buffer; `taken` is false when the loop has to wait for more bytes. */
    method Pass(cutter: Cutter) returns (taken: bool, consumed: nat)
      modifies this
      ensures var step := NextStep(cutter, old(readbuf));
              && taken == step.Take?
              && (taken ==>
                    && consumed == step.consumed
                    && readbuf == old(readbuf)[consumed..]
                    && parsed == old(parsed) + Delivered(step.payload))
              && (!taken ==> readbuf == old(readbuf) && parsed == old(parsed))
    {
      consumed := 0;
      var position := Find(cutter.tag, readbuf);
      if position.None? {
        return false, 0;
      }
      var headerLength := position.value + |cutter.tag|;
      var xml := readbuf[..headerLength];
      var header := cutter.classify(xml);
      ghost var step := HeaderStep(cutter, readbuf, headerLength);
      assert NextStep(cutter, readbuf) == step;
      if header.Framed? {
        consumed := SizeSum(headerLength, header.length);
        if |readbuf| < consumed {
          return false, 0;
        }
        var payload := readbuf[headerLength..Min(headerLength + header.length, |readbuf|)];
        readbuf := readbuf[consumed..];
        if header.compressed {
          payload := cutter.inflate(payload);
          if |payload| == 0 {
            assert step.payload == None && parsed + [] == parsed;
            return true, consumed;
          }
        }
        assert step.payload == Some(payload);
        parsed := parsed + [payload];
        return true, consumed;
      }
      parsed := parsed + [xml];
      readbuf := readbuf[headerLength..];
      return true, headerLength;
    }

    /** One read of `chunk`, then the message loop. The loop's endless repetition is cut short and reported. */
    method Receive(cutter: Cutter, chunk: string) returns (hung: bool)
      modifies this
      ensures var outcome := Drain(cutter, old(readbuf) + chunk);
              parsed == old(parsed) + outcome.payloads && readbuf == outcome.rest && hung == outcome.hung
    {
      readbuf := readbuf + chunk;
      ghost var outcome := Drain(cutter, readbuf);
      hung := false;
      while true
        invariant !hung
        invariant Remaining(cutter, outcome, old(parsed), parsed, readbuf)
        decreases |readbuf|
      {
        ghost var before, buffer := parsed, readbuf;
        var taken, consumed := Pass(cutter);
        if !taken {
          break;
        }
        if consumed == 0 {
          hung := true;
          break;
        }
        RemainingStep(cutter, outcome, old(parsed), before, buffer);
      }
    }
  }

  /** What the rest of the loop still has to do, given what it has done. */
  ghost predicate Remaining(cutter: Cutter, outcome: Outcome, start: seq<string>, parsed: seq<string>, buffer: string) {
    var later := Drain(cutter, buffer);
    start + outcome.payloads == parsed + later.payloads && outcome.rest == later.rest && outcome.hung == later.hung
  }

  lemma RemainingStep(cutter: Cutter, outcome: Outcome, start: seq<string>, parsed: seq<string>, buffer: string)
    requires Remaining(cutter, outcome, start, parsed, buffer)
    requires NextStep(cutter, buffer).Take? && NextStep(cutter, buffer).consumed > 0
    ensures var step := NextStep(cutter, buffer);
            Remaining(cutter, outcome, start, parsed + Delivered(step.payload), buffer[step.consumed..])
  {
  }

  // ------------------------------------------------------------------
  // How the bytes are split into reads does not matter.
  // ------------------------------------------------------------------

  ghost predicate HeaderFits(cutter: Cutter, header: string) {
    cutter.classify(header).Framed? ==> |header| + cutter.classify(header).length <= SIZE_MAX
  }

  /** The next frame's header length plus declared length fits a size_t. */
  ghost predicate NextFits(cutter: Cutter, buffer: string) {
    var position := Find(cutter.tag, buffer);
    position.Some? ==> HeaderFits(cutter, buffer[..position.value + |cutter.tag|])
  }

  /** Every frame met while draining the buffer fits. */
  ghost predicate AllFit(cutter: Cutter, buffer: string)
    decreases |buffer|
  {
    NextFits(cutter, buffer) &&
    var step := NextStep(cutter, buffer);
    step.Take? && step.consumed > 0 ==> AllFit(cutter, buffer[step.consumed..])
  }

  /** A non-waiting pass over a frame that fits removes at least the closing tag. */
  lemma FittingPassProgresses(cutter: Cutter, buffer: string)
    requires NextFits(cutter, buffer) && NextStep(cutter, buffer).Take?
    ensures NextStep(cutter, buffer).consumed >= |cutter.tag|
  {
  }

  lemma FindIsStable(tag: string, a: string, b: string)
    requires Find(tag, a).Some?
    ensures Find(tag, a + b) == Find(tag, a)
  {
    forall i: nat | i + |tag| <= |a| ensures OccursAt(tag, a + b, i) == OccursAt(tag, a, i) {
      assert (a + b)[i..i + |tag|] == a[i..i + |tag|];
    }
    FindIsFirst(tag, a + b, Find(tag, a).value);
  }

  lemma HeaderStepIsStable(cutter: Cutter, a: string, b: string, headerLength: nat)
    requires headerLength <= |a| && HeaderFits(cutter, a[..headerLength])
    requires HeaderStep(cutter, a, headerLength).Take?
    ensures HeaderStep(cutter, a + b, headerLength) == HeaderStep(cutter, a, headerLength)
  {
    var header := a[..headerLength];
    assert (a + b)[..headerLength] == header;
    if cutter.classify(header).Framed? {
      var end := headerLength + cutter.classify(header).length;
      assert (a + b)[headerLength..end] == a[headerLength..end];
    }
  }

  /** More bytes do not change what the next pass takes. */
  lemma StepIsStable(cutter: Cutter, a: string, b: string)
    requires NextFits(cutter, a + b) && NextStep(cutter, a).Take?
    ensures NextStep(cutter, a + b) == NextStep(cutter, a)
  {
    FindIsStable(cutter.tag, a, b);
    var headerLength := Find(cutter.tag, a).value + |cutter.tag|;
    assert (a + b)[..headerLength] == a[..headerLength];
    HeaderStepIsStable(cutter, a, b, headerLength);
  }

  lemma {:induction false} FittingNeverHangs(cutter: Cutter, buffer: string)
    requires cutter.tag != "" && AllFit(cutter, buffer)
    ensures !Drain(cutter, buffer).hung
    decreases |buffer|
  {
    if NextStep(cutter, buffer).Take? {
      FittingPassProgresses(cutter, buffer);
      FittingNeverHangs(cutter, buffer[NextStep(cutter, buffer).consumed..]);
    }
  }

  /** Two reads: first `a`, then `b` appended to whatever `a` left. */
  ghost predicate SplitsInTwo(cutter: Cutter, a: string, b: string) {
    var whole, first := Drain(cutter, a + b), Drain(cutter, a);
    var second := Drain(cutter, first.rest + b);
    && !first.hung && AllFit(cutter, first.rest + b)
    && whole == Outcome(first.payloads + second.payloads, second.rest, second.hung)
  }

  lemma {:induction false} DrainInTwo(cutter: Cutter, a: string, b: string)
    requires cutter.tag != "" && AllFit(cutter, a + b)
    ensures SplitsInTwo(cutter, a, b)
    decreases |a|
  {
    var step := NextStep(cutter, a);
    if step.Take? {
      StepIsStable(cutter, a, b);
      FittingPassProgresses(cutter, a + b);
      var rest := a[step.consumed..];
      assert (a + b)[step.consumed..] == rest + b;
      DrainInTwo(cutter, rest, b);
      Prepend(cutter, step, a, Drain(cutter, rest));
      Prepend(cutter, step, a + b, Drain(cutter, rest + b));
    } else {
      var whole := Drain(cutter, a + b);
      assert [] + whole.payloads == whole.payloads;
    }
  }

  lemma Prepend(cutter: Cutter, step: Step, buffer: string, later: Outcome)
    requires NextStep(cutter, buffer) == step && step.Take? && step.consumed > 0
    requires later == Drain(cutter, buffer[step.consumed..])
    ensures Drain(cutter, buffer) == Outcome(Delivered(step.payload) + later.payloads, later.rest, later.hung)
    ensures forall more: seq<string> ::
      Delivered(step.payload) + (later.payloads + more) == (Delivered(step.payload) + later.payloads) + more
  {
  }

  function Concat(chunks: seq<string>): string {
    if chunks == [] then "" else chunks[0] + Concat(chunks[1..])
  }

  /** A run of reads, one chunk after another, starting with `buffer` left over. */
  function Feed(cutter: Cutter, buffer: string, chunks: seq<string>): Outcome
    decreases |chunks|
  {
    if chunks == [] then Drain(cutter, buffer)
    else
      var now := Drain(cutter, buffer + chunks[0]);
      if now.hung then now
      else
        var later := Feed(cutter, now.rest, chunks[1..]);
        Outcome(now.payloads + later.payloads, later.rest, later.hung)
  }

  /** Every way of cutting a stream into reads gives the messages and the left-over of one single read. */
  lemma {:induction false} ChunkingIsInvisible(cutter: Cutter, buffer: string, chunks: seq<string>)
    requires cutter.tag != "" && AllFit(cutter, buffer + Concat(chunks))
    ensures Feed(cutter, buffer, chunks) == Drain(cutter, buffer + Concat(chunks))
    ensures !Drain(cutter, buffer + Concat(chunks)).hung
    decreases |chunks|
  {
    FittingNeverHangs(cutter, buffer + Concat(chunks));
    if chunks == [] {
      assert buffer + Concat(chunks) == buffer;
    } else {
      var a, b := buffer + chunks[0], Concat(chunks[1..]);
      assert buffer + Concat(chunks) == a + b;
      DrainInTwo(cutter, a, b);
      ChunkingIsInvisible(cutter, Drain(cutter, a).rest, chunks[1..]);
    }
  }

  /**
   * Why the size has to fit: after an uncompressed frame header, what the next pass takes is independent of
   * the bytes still to come exactly when header length plus declared length does not wrap.
   */
  lemma StableExactlyWhenFitting(cutter: Cutter, header: string, length: size_t)
    requires EndsWithFirst(cutter.tag, header) && |header| <= SIZE_MAX
    requires cutter.classify(header) == Framed(length, false)
    ensures (forall a, b | header <= a && NextStep(cutter, a).Take? :: NextStep(cutter, a + b) == NextStep(cutter, a))
      <==> |header| + length <= SIZE_MAX
  {
    if |header| + length <= SIZE_MAX {
      forall a, b | header <= a && NextStep(cutter, a).Take? ensures NextStep(cutter, a + b) == NextStep(cutter, a) {
        assert a == header + a[|header|..];
        FindIsStable(cutter.tag, header, a[|header|..]);
        FindIsStable(cutter.tag, a, b);
        assert (a + b)[..|header|] == a[..|header|] == header;
        StepIsStable(cutter, a, b);
      }
    } else {
      assert header + "" == header;
      WrappingStep(cutter, header, length, "");
      WrappingStep(cutter, header, length, "x");
    }
  }

  lemma WrappingStep(cutter: Cutter, header: string, length: size_t, more: string)
    requires EndsWithFirst(cutter.tag, header)
    requires cutter.classify(header) == Framed(length, false)
    requires |header| <= SIZE_MAX < |header| + length && |more| <= length
    ensures NextStep(cutter, header + more) == Take(Some(more), SizeSum(|header|, length))
  {
    FindIsStable(cutter.tag, header, more);
    var buffer := header + more;
    assert buffer[..|header|] == header;
    assert Min(|header| + length, |buffer|) == |buffer|;
    assert buffer[|header|..|buffer|] == more;
  }

  // ------------------------------------------------------------------
  // When the loop repeats for ever.
  // ------------------------------------------------------------------

  /** The header at the front of the buffer announces a frame that ends exactly where sizes wrap to 0. */
  ghost predicate EndsAtZero(cutter: Cutter, buffer: string) {
    var position := Find(cutter.tag, buffer);
    position.Some? &&
    var header := buffer[..position.value + |cutter.tag|];
    cutter.classify(header).Framed? && |header| + cutter.classify(header).length == SIZE_MAX + 1
  }

  /** A pass removes nothing exactly if the header length plus the declared length is 2^64. */
  lemma NothingRemovedExactly(cutter: Cutter, buffer: string)
    requires cutter.tag != "" && |buffer| <= SIZE_MAX
    ensures NextStep(cutter, buffer).Take? && NextStep(cutter, buffer).consumed == 0 <==> EndsAtZero(cutter, buffer)
  {
  }

  /** Such a header comes to the front while the buffer is drained. */
  ghost predicate MeetsZero(cutter: Cutter, buffer: string)
    decreases |buffer|
  {
    var step := NextStep(cutter, buffer);
    EndsAtZero(cutter, buffer) || (step.Take? && step.consumed > 0 && MeetsZero(cutter, buffer[step.consumed..]))
  }

  /** The loop repeats for ever on exactly the buffers in which it meets such a header. */
  lemma {:induction false} HangsExactly(cutter: Cutter, buffer: string)
    requires cutter.tag != "" && |buffer| <= SIZE_MAX
    ensures Drain(cutter, buffer).hung <==> MeetsZero(cutter, buffer)
    decreases |buffer|
  {
    NothingRemovedExactly(cutter, buffer);
    var step := NextStep(cutter, buffer);
    if step.Take? && step.consumed > 0 {
      HangsExactly(cutter, buffer[step.consumed..]);
    }
  }

  // ------------------------------------------------------------------
  // When the way a stream is split shows.
  // ------------------------------------------------------------------

  function HeaderEnd(cutter: Cutter, stream: string): (end: nat)
    requires Find(cutter.tag, stream).Some?
    ensures end <= |stream|
  {
    Find(cutter.tag, stream).value + |cutter.tag|
  }

  /** The size that the header at the front of the stream announces does not fit. */
  ghost predicate Wraps(cutter: Cutter, stream: string) {
    !NextFits(cutter, stream)
  }

  /** Whatever has arrived, from `from` bytes on, the pass hands over the same. */
  ghost predicate AllAlike(cutter: Cutter, stream: string, end: nat, compressed: bool, from: nat)
    requires end <= from <= |stream|
  {
    forall m | from <= m <= |stream| ::
      Opened(cutter, stream[end..m], compressed) == Opened(cutter, stream[end..], compressed)
  }

  /** How much has come when the next pass can begin: a wrapping header is taken as soon as it is there. */
  function Begin(cutter: Cutter, stream: string, n: nat): (from: nat)
    requires n <= |stream|
    ensures n <= from <= |stream|
  {
    if Find(cutter.tag, stream).Some? && n < HeaderEnd(cutter, stream) then HeaderEnd(cutter, stream) else n
  }

  /** A wrapping header in front of which nothing goes wrong. */
  ghost predicate WrapIsHarmless(cutter: Cutter, stream: string, n: nat)
    requires n <= |stream| && Wraps(cutter, stream)
  {
    var end, from := HeaderEnd(cutter, stream), Begin(cutter, stream, n);
    && AllAlike(cutter, stream, end, cutter.classify(stream[..end]).compressed, from)
    && (EndsAtZero(cutter, stream) ==> from == |stream|)
  }

  function Left(n: nat, c: nat): nat {
    if n > c then n - c else 0
  }

  /**
   * The way in which the stream is read after its first n bytes makes no difference: each wrapping header that
   * comes to the front is followed by nothing that could still be missing when it is taken.
   */
  ghost predicate Indifferent(cutter: Cutter, stream: string, n: nat)
    requires n <= |stream|
    decreases |stream|
  {
    var step := NextStep(cutter, stream);
    step.Take? ==>
      && (Wraps(cutter, stream) ==> WrapIsHarmless(cutter, stream, n))
      && (step.consumed > 0 ==>
            Indifferent(cutter, stream[step.consumed..], Left(Begin(cutter, stream, n), step.consumed)))
  }

  /** What a wrapping header makes the pass do, as soon as the header is there. */
  lemma WrapStep(cutter: Cutter, stream: string, m: nat)
    requires cutter.tag != "" && |stream| <= SIZE_MAX && Wraps(cutter, stream)
    requires HeaderEnd(cutter, stream) <= m <= |stream|
    ensures var end := HeaderEnd(cutter, stream);
            var compressed := cutter.classify(stream[..end]).compressed;
            var total := |stream[..end]| + cutter.classify(stream[..end]).length - (SIZE_MAX + 1);
            && 0 <= total < end
            && NextStep(cutter, stream[..m]) == Take(Opened(cutter, stream[end..m], compressed), total)
  {
    var end := HeaderEnd(cutter, stream);
    FindInPrefix(cutter.tag, stream, m);
    assert stream[..m][..end] == stream[..end];
    var length := cutter.classify(stream[..end]).length;
    assert Min(end + length, m) == m;
    assert stream[..m][end..m] == stream[end..m];
  }

  /** A tag within the first m bytes is found there. */
  lemma FindInPrefix(tag: string, stream: string, m: nat)
    requires Find(tag, stream).Some? && Find(tag, stream).value + |tag| <= m <= |stream|
    ensures Find(tag, stream[..m]) == Find(tag, stream)
  {
    var p := Find(tag, stream).value;
    assert stream[..m][p..p + |tag|] == stream[p..p + |tag|];
    forall i: nat | i < p ensures !OccursAt(tag, stream[..m], i) {
      assert !OccursAt(tag, stream, i);
      if i + |tag| <= m {
        assert stream[..m][i..i + |tag|] == stream[i..i + |tag|];
      }
    }
    FindIsFirst(tag, stream[..m], p);
  }

  /** A frame that fits is taken from any prefix that holds all of it. */
  lemma FitInPrefix(cutter: Cutter, stream: string, m: nat)
    requires NextStep(cutter, stream).Take? && !Wraps(cutter, stream)
    requires NextStep(cutter, stream).consumed <= m <= |stream|
    ensures NextStep(cutter, stream[..m]) == NextStep(cutter, stream)
  {
    var end, c := HeaderEnd(cutter, stream), NextStep(cutter, stream).consumed;
    FindInPrefix(cutter.tag, stream, m);
    SliceOfPrefix(stream, m, 0, end);
    SliceOfPrefix(stream, m, end, c);
  }

  lemma SliceOfPrefix(s: string, m: nat, a: nat, b: nat)
    requires a <= b <= m <= |s|
    ensures s[..m][a..b] == s[a..b] && (a == 0 ==> s[..m][..b] == s[..b])
  {
  }

  lemma HarmlessLater(cutter: Cutter, stream: string, n: nat, n': nat)
    requires n <= n' <= |stream| && Wraps(cutter, stream) && WrapIsHarmless(cutter, stream, n)
    ensures WrapIsHarmless(cutter, stream, n')
  {
  }

  lemma {:induction false} LaterIsIndifferent(cutter: Cutter, stream: string, n: nat, n': nat)
    requires n <= n' <= |stream| && Indifferent(cutter, stream, n)
    ensures Indifferent(cutter, stream, n')
    decreases |stream|
  {
    var step := NextStep(cutter, stream);
    if step.Take? {
      if Wraps(cutter, stream) {
        HarmlessLater(cutter, stream, n, n');
      }
      if step.consumed > 0 {
        LaterIsIndifferent(cutter, stream[step.consumed..], Left(Begin(cutter, stream, n), step.consumed),
                           Left(Begin(cutter, stream, n'), step.consumed));
      }
    }
  }

  function Join(first: Outcome, second: Outcome): Outcome {
    Outcome(first.payloads + second.payloads, second.rest, second.hung)
  }

  /** Reading `a` first, and then `b`. */
  function Two(cutter: Cutter, a: string, b: string): Outcome {
    var first := Drain(cutter, a);
    if first.hung then first else Join(first, Drain(cutter, first.rest + b))
  }

  /** A pass, and then the rest. */
  function After(step: Step, later: Outcome): Outcome
    requires step.Take?
  {
    Outcome(Delivered(step.payload) + later.payloads, later.rest, later.hung)
  }

  lemma AfterIsInjective(step: Step, a: Outcome, b: Outcome)
    requires step.Take? && After(step, a) == After(step, b)
    ensures a == b
  {
    var d := Delivered(step.payload);
    assert (d + a.payloads)[|d|..] == a.payloads && (d + b.payloads)[|d|..] == b.payloads;
  }

  lemma AfterJoined(step: Step, first: Outcome, second: Outcome)
    requires step.Take?
    ensures Join(After(step, first), second) == After(step, Join(first, second))
  {
    assert (Delivered(step.payload) + first.payloads) + second.payloads
        == Delivered(step.payload) + (first.payloads + second.payloads);
  }

  /** The first pass takes the same from `a` as from the whole stream. */
  ghost predicate SameStep(cutter: Cutter, a: string, b: string, step: Step) {
    step.Take? && 0 < step.consumed <= |a| && NextStep(cutter, a) == step && NextStep(cutter, a + b) == step
  }

  lemma DrainStep(cutter: Cutter, buffer: string, step: Step)
    requires NextStep(cutter, buffer) == step && step.Take? && step.consumed > 0
    ensures Drain(cutter, buffer) == After(step, Drain(cutter, buffer[step.consumed..]))
  {
  }

  /** Then only the rest of the stream matters. */
  lemma TwoStep(cutter: Cutter, a: string, b: string, step: Step)
    requires SameStep(cutter, a, b, step)
    ensures (a + b)[step.consumed..] == a[step.consumed..] + b
    ensures Drain(cutter, a) == After(step, Drain(cutter, a[step.consumed..]))
    ensures Drain(cutter, a + b) == After(step, Drain(cutter, a[step.consumed..] + b))
    ensures Two(cutter, a, b) == After(step, Two(cutter, a[step.consumed..], b))
  {
    var rest := a[step.consumed..];
    assert (a + b)[step.consumed..] == rest + b;
    DrainStep(cutter, a, step);
    DrainStep(cutter, a + b, step);
    var first := Drain(cutter, rest);
    if !first.hung {
      AfterJoined(step, first, Drain(cutter, first.rest + b));
    }
  }

  /** Where reading in two pieces leaves an indifferent stream. */
  ghost predicate Unnoticed(cutter: Cutter, a: string, b: string) {
    var first := Drain(cutter, a);
    && Two(cutter, a, b) == Drain(cutter, a + b)
    && (if first.hung then b == "" else Indifferent(cutter, first.rest + b, |first.rest|))
  }

  /** What an indifferent stream hands over first does not depend on how much more has come. */
  lemma FirstIsUnnoticed(cutter: Cutter, a: string, b: string, n: nat)
    requires cutter.tag != "" && |a + b| <= SIZE_MAX && n <= |a| && Indifferent(cutter, a + b, n)
    requires NextStep(cutter, a).Take?
    ensures NextStep(cutter, a + b) == NextStep(cutter, a)
    ensures Begin(cutter, a + b, n) <= |a| && NextStep(cutter, a).consumed <= |a|
    ensures NextStep(cutter, a).consumed == 0 ==> b == ""
  {
    FindIsStable(cutter.tag, a, b);
    if Wraps(cutter, a + b) {
      WrapIsUnnoticed(cutter, a, b, n);
    } else {
      StepIsStable(cutter, a, b);
      FittingPassProgresses(cutter, a + b);
    }
  }

  lemma WrapIsUnnoticed(cutter: Cutter, a: string, b: string, n: nat)
    requires cutter.tag != "" && |a + b| <= SIZE_MAX && n <= |a| && Wraps(cutter, a + b)
    requires HeaderEnd(cutter, a + b) <= |a| && WrapIsHarmless(cutter, a + b, n)
    ensures NextStep(cutter, a + b) == NextStep(cutter, a)
    ensures NextStep(cutter, a).Take? && (NextStep(cutter, a).consumed == 0 ==> b == "")
  {
    var stream := a + b;
    assert stream[..|a|] == a && stream[..|stream|] == stream;
    WrapStep(cutter, stream, |a|);
    WrapStep(cutter, stream, |stream|);
    NothingRemovedExactly(cutter, stream);
    assert stream[HeaderEnd(cutter, stream)..|stream|] == stream[HeaderEnd(cutter, stream)..];
  }

  lemma {:induction false} SplitIsUnnoticed(cutter: Cutter, a: string, b: string, n: nat)
    requires cutter.tag != "" && |a + b| <= SIZE_MAX && n <= |a| && Indifferent(cutter, a + b, n)
    ensures Unnoticed(cutter, a, b)
    decreases |a|
  {
    var step := NextStep(cutter, a);
    if step.Wait? {
      LaterIsIndifferent(cutter, a + b, n, |a|);
      assert [] + Drain(cutter, a + b).payloads == Drain(cutter, a + b).payloads;
    } else {
      FirstIsUnnoticed(cutter, a, b, n);
      if step.consumed > 0 {
        TwoStep(cutter, a, b, step);
        SplitIsUnnoticed(cutter, a[step.consumed..], b, Left(Begin(cutter, a + b, n), step.consumed));
      } else {
        assert a + b == a;
      }
    }
  }

  lemma {:induction false} RestShrinks(cutter: Cutter, buffer: string)
    ensures |Drain(cutter, buffer).rest| <= |buffer|
    decreases |buffer|
  {
    var step := NextStep(cutter, buffer);
    if step.Take? && step.consumed > 0 {
      RestShrinks(cutter, buffer[step.consumed..]);
    }
  }

  /** An indifferent stream may be read in any pieces. */
  lemma {:induction false} IndifferentMayBeSplit(cutter: Cutter, buffer: string, chunks: seq<string>)
    requires cutter.tag != "" && |buffer + Concat(chunks)| <= SIZE_MAX
    requires Indifferent(cutter, buffer + Concat(chunks), |buffer|)
    ensures Feed(cutter, buffer, chunks) == Drain(cutter, buffer + Concat(chunks))
    decreases |chunks|
  {
    if chunks == [] {
      assert buffer + Concat(chunks) == buffer;
    } else {
      var a, b := buffer + chunks[0], Concat(chunks[1..]);
      assert buffer + Concat(chunks) == a + b;
      SplitIsUnnoticed(cutter, a, b, |buffer|);
      RestShrinks(cutter, a);
      var first := Drain(cutter, a);
      if first.hung {
        assert a + b == a;
      } else {
        IndifferentMayBeSplit(cutter, first.rest, chunks[1..]);
      }
    }
  }

  /** Wrapping headers that come to the front announce uncompressed frames. */
  ghost predicate PlainWraps(cutter: Cutter, stream: string)
    decreases |stream|
  {
    var step := NextStep(cutter, stream);
    step.Take? ==>
      && (Wraps(cutter, stream) ==> !cutter.classify(stream[..HeaderEnd(cutter, stream)]).compressed)
      && (step.consumed > 0 ==> PlainWraps(cutter, stream[step.consumed..]))
  }

  /** An uncompressed frame behind a wrapping header makes a difference as soon as a byte of it is missing. */
  lemma HarmlessAtEnd(cutter: Cutter, stream: string, n: nat)
    requires n <= |stream| && Wraps(cutter, stream)
    requires !cutter.classify(stream[..HeaderEnd(cutter, stream)]).compressed
    ensures WrapIsHarmless(cutter, stream, n) <==> Begin(cutter, stream, n) == |stream|
  {
    var end, from := HeaderEnd(cutter, stream), Begin(cutter, stream, n);
    if from < |stream| {
      assert |stream[end..from]| < |stream[end..]|;
    } else {
      assert stream[end..|stream|] == stream[end..];
    }
  }

  /** What goes wrong in a stream that is not indifferent: now, behind a wrapping header, or later. */
  lemma DifferentNowOrLater(cutter: Cutter, stream: string, n: nat)
    requires cutter.tag != "" && |stream| <= SIZE_MAX && n <= |stream|
    requires PlainWraps(cutter, stream) && !Indifferent(cutter, stream, n)
    ensures var step, from := NextStep(cutter, stream), Begin(cutter, stream, n);
            && step.Take?
            && (Wraps(cutter, stream) ==> !cutter.classify(stream[..HeaderEnd(cutter, stream)]).compressed)
            && ((Wraps(cutter, stream) && from < |stream|)
                || (step.consumed > 0 && (Wraps(cutter, stream) ==> from == |stream|)
                    && PlainWraps(cutter, stream[step.consumed..])
                    && !Indifferent(cutter, stream[step.consumed..], Left(from, step.consumed))))
  {
    if Wraps(cutter, stream) {
      HarmlessAtEnd(cutter, stream, n);
    }
  }

  /** A split that shows. */
  ghost predicate Shows(cutter: Cutter, a: string, b: string) {
    Two(cutter, a, b) != Drain(cutter, a + b)
  }

  lemma Reassemble(stream: string, head: string, a: string, b: string)
    requires head <= stream && a + b == stream[|head|..]
    ensures (head + a) + b == stream
  {
  }

  /** There is a place to split that shows. */
  lemma {:induction false} SplitShows(cutter: Cutter, stream: string, n: nat) returns (a: string, b: string)
    requires cutter.tag != "" && |stream| <= SIZE_MAX && n <= |stream|
    requires PlainWraps(cutter, stream) && !Indifferent(cutter, stream, n)
    ensures n <= |a| && a + b == stream && Shows(cutter, a, b)
    decreases |stream|
  {
    var step, from := NextStep(cutter, stream), Begin(cutter, stream, n);
    DifferentNowOrLater(cutter, stream, n);
    if Wraps(cutter, stream) && from < |stream| {
      a, b := WrapShows(cutter, stream, from);
    } else {
      var a', b' := SplitShows(cutter, stream[step.consumed..], Left(from, step.consumed));
      var head := stream[..step.consumed];
      a, b := head + a', b';
      Reassemble(stream, head, a', b');
      SplitEarlier(cutter, head, a', b');
    }
  }

  /** A split of the rest that shows is one of the whole. */
  lemma SplitEarlier(cutter: Cutter, head: string, a: string, b: string)
    requires var step := NextStep(cutter, (head + a) + b); step.Take? && step.consumed == |head| > 0
    requires Wraps(cutter, (head + a) + b) ==> b == ""
    requires Shows(cutter, a, b)
    ensures Shows(cutter, head + a, b)
  {
    StepIsSame(cutter, head + a, b);
    assert (head + a)[|head|..] == a;
    ShowsLater(cutter, head + a, b, NextStep(cutter, (head + a) + b));
  }

  lemma StepIsSame(cutter: Cutter, a: string, b: string)
    requires var step := NextStep(cutter, a + b); step.Take? && 0 < step.consumed <= |a|
    requires Wraps(cutter, a + b) ==> b == ""
    ensures SameStep(cutter, a, b, NextStep(cutter, a + b))
  {
    var stream := a + b;
    if Wraps(cutter, stream) {
      assert stream == a;
    } else {
      FitInPrefix(cutter, stream, |a|);
      assert stream[..|a|] == a;
    }
  }

  lemma ShowsLater(cutter: Cutter, a: string, b: string, step: Step)
    requires SameStep(cutter, a, b, step)
    requires Shows(cutter, a[step.consumed..], b)
    ensures Shows(cutter, a, b)
  {
    TwoStep(cutter, a, b, step);
    if Two(cutter, a, b) == Drain(cutter, a + b) {
      AfterIsInjective(step, Two(cutter, a[step.consumed..], b), Drain(cutter, a[step.consumed..] + b));
    }
  }

  lemma WrapShows(cutter: Cutter, stream: string, m: nat) returns (a: string, b: string)
    requires cutter.tag != "" && |stream| <= SIZE_MAX && Wraps(cutter, stream)
    requires HeaderEnd(cutter, stream) <= m < |stream|
    requires !cutter.classify(stream[..HeaderEnd(cutter, stream)]).compressed
    ensures |a| == m && a + b == stream && Shows(cutter, a, b)
  {
    a, b := stream[..m], stream[m..];
    assert a + b == stream;
    WrapStep(cutter, stream, m);
    WrapStep(cutter, stream, |stream|);
    var end := HeaderEnd(cutter, stream);
    assert stream[..|stream|] == stream && stream[end..|stream|] == stream[end..];
    FirstPayload(cutter, stream[..m], stream[end..m]);
    FirstPayload(cutter, stream, stream[end..]);
    assert |stream[end..m]| < |stream[end..]|;
  }

  lemma FirstPayload(cutter: Cutter, buffer: string, payload: string)
    requires NextStep(cutter, buffer).Take? && NextStep(cutter, buffer).payload == Some(payload)
    ensures Drain(cutter, buffer).payloads != [] && Drain(cutter, buffer).payloads[0] == payload
  {
  }

  lemma {:induction false} DrainTwice(cutter: Cutter, buffer: string)
    requires !Drain(cutter, buffer).hung
    ensures Drain(cutter, Drain(cutter, buffer).rest) == Outcome([], Drain(cutter, buffer).rest, false)
    decreases |buffer|
  {
    var step := NextStep(cutter, buffer);
    if step.Take? && step.consumed > 0 {
      DrainTwice(cutter, buffer[step.consumed..]);
    }
  }

  lemma OneIsFed(cutter: Cutter, buffer: string, chunk: string)
    ensures Feed(cutter, buffer, [chunk]) == Drain(cutter, buffer + chunk)
  {
    assert [chunk][1..] == [];
    var now := Drain(cutter, buffer + chunk);
    if !now.hung {
      DrainTwice(cutter, buffer + chunk);
      assert now.payloads + [] == now.payloads;
    }
  }

  lemma TwoIsFed(cutter: Cutter, a: string, b: string)
    ensures Feed(cutter, "", [a, b]) == Two(cutter, a, b) && Concat([a, b]) == a + b
  {
    assert "" + a == a && [a, b][1..] == [b] && [b][1..] == [];
    assert Concat([b]) == b + "" == b;
    var first := Drain(cutter, a);
    if !first.hung {
      OneIsFed(cutter, first.rest, b);
    }
  }

  /**
   * The exact condition, for streams whose wrapping headers are uncompressed: all ways of splitting the stream into
   * reads give what one read gives, if and only if no such header that comes to the front is followed by a byte.
   */
  lemma ChunkingShowsExactly(cutter: Cutter, stream: string)
    requires cutter.tag != "" && |stream| <= SIZE_MAX && PlainWraps(cutter, stream)
    ensures (forall chunks | Concat(chunks) == stream :: Feed(cutter, "", chunks) == Drain(cutter, stream))
      <==> Indifferent(cutter, stream, 0)
  {
    if Indifferent(cutter, stream, 0) {
      assert "" + stream == stream;
      forall chunks | Concat(chunks) == stream ensures Feed(cutter, "", chunks) == Drain(cutter, stream) {
        IndifferentMayBeSplit(cutter, "", chunks);
      }
    } else {
      var a, b := SplitShows(cutter, stream, 0);
      TwoIsFed(cutter, a, b);
    }
  }

  /** Splitting behind a wrapping header always shows: its body is handed over before it has come. */
  lemma WrappingHeaderShows(cutter: Cutter, header: string, length: size_t, more: string)
    requires cutter.tag != "" && EndsWithFirst(cutter.tag, header) && |header + more| <= SIZE_MAX
    requires cutter.classify(header) == Framed(length, false) && |header| + length > SIZE_MAX && more != ""
    ensures Feed(cutter, "", [header, more]) != Drain(cutter, header + more)
  {
    WrappingStep(cutter, header, length, "");
    assert header + "" == header;
    WrappingStep(cutter, header, length, more);
    FirstPayload(cutter, header, "");
    FirstPayload(cutter, header + more, more);
    TwoIsFed(cutter, header, more);
  }

  /** A header that ends at size 0 is taken, with nothing behind it, and stays where it is. */
  lemma ZeroHeaderRepeats(cutter: Cutter, header: string, length: size_t)
    requires EndsWithFirst(cutter.tag, header) && |header| <= SIZE_MAX
    requires cutter.classify(header) == Framed(length, false) && |header| + length == SIZE_MAX + 1
    ensures NextStep(cutter, header) == Take(Some(""), 0) && Drain(cutter, header) == Outcome([""], header, true)
  {
    assert header + "" == header;
    WrappingStep(cutter, header, length, "");
  }

  // ------------------------------------------------------------------
  // A stream that consists of messages.
  // ------------------------------------------------------------------

  /** A plain text, a frame with what its body stands for, or a compressed frame that does not inflate. */
  datatype Message =
    | Text(content: string)
    | Frame(header: string, body: string, compressed: bool, content: string)
    | Damaged(header: string, body: string)

  /** The header ends with the first closing tag and announces exactly the body. */
  ghost predicate Announces(cutter: Cutter, header: string, body: string, compressed: bool) {
    && EndsWithFirst(cutter.tag, header)
    && |header| + |body| <= SIZE_MAX
    && cutter.classify(header) == Framed(|body|, compressed)
  }

  ghost predicate WellFormed(cutter: Cutter, message: Message) {
    match message
    case Text(content) => EndsWithFirst(cutter.tag, content) && cutter.classify(content).Plain?
    case Frame(header, body, compressed, content) =>
      Announces(cutter, header, body, compressed)
      && if compressed then content != "" && cutter.inflate(body) == content else content == body
    case Damaged(header, body) => Announces(cutter, header, body, true) && cutter.inflate(body) == ""
  }

  function Bytes(message: Message): string {
    if message.Text? then message.content else message.header + message.body
  }

  function Stream(messages: seq<Message>): string {
    if messages == [] then "" else Bytes(messages[0]) + Stream(messages[1..])
  }

  /** The plain texts with their tags and what the frames stand for, in order. */
  function Contents(messages: seq<Message>): seq<string> {
    if messages == [] then []
    else if messages[0].Damaged? then Contents(messages[1..])
    else [messages[0].content] + Contents(messages[1..])
  }

  /** The beginning of a message that is still to come; possibly nothing. */
  ghost predicate Unfinished(cutter: Cutter, tail: string) {
    tail == "" || exists message :: WellFormed(cutter, message) && tail < Bytes(message)
  }

  lemma HeadIsFirst(cutter: Cutter, head: string, more: string)
    requires EndsWithFirst(cutter.tag, head)
    ensures NextStep(cutter, head + more) == HeaderStep(cutter, head + more, |head|)
    ensures (head + more)[..|head|] == head
    ensures NextFits(cutter, head + more) <==> HeaderFits(cutter, head)
  {
    FindIsStable(cutter.tag, head, more);
    assert (head + more)[..|head|] == head;
  }

  lemma TakesText(cutter: Cutter, text: string, rest: string)
    requires EndsWithFirst(cutter.tag, text) && cutter.classify(text).Plain?
    ensures NextStep(cutter, text + rest) == Take(Some(text), |text|) && NextFits(cutter, text + rest)
  {
    HeadIsFirst(cutter, text, rest);
  }

  lemma TakesFrame(cutter: Cutter, header: string, body: string, compressed: bool, rest: string)
    requires Announces(cutter, header, body, compressed)
    ensures NextStep(cutter, header + body + rest) == Take(Opened(cutter, body, compressed), |header| + |body|)
    ensures NextFits(cutter, header + body + rest)
  {
    var buffer := header + (body + rest);
    HeadIsFirst(cutter, header, body + rest);
    assert header + body + rest == buffer;
    assert buffer[|header|..|header| + |body|] == body;
  }

  lemma TakesMessage(cutter: Cutter, message: Message, rest: string)
    requires WellFormed(cutter, message)
    ensures NextFits(cutter, Bytes(message) + rest)
    ensures NextStep(cutter, Bytes(message) + rest)
      == Take(if message.Damaged? then None else Some(message.content), |Bytes(message)|)
  {
    match message
    case Text(content) => TakesText(cutter, content, rest);
    case Frame(header, body, compressed, _) => TakesFrame(cutter, header, body, compressed, rest);
    case Damaged(header, body) => TakesFrame(cutter, header, body, true, rest);
  }

  lemma PrefixHasNoTag(tag: string, head: string, tail: string)
    requires tag != "" && EndsWithFirst(tag, head) && tail < head
    ensures Find(tag, tail) == None
  {
    if Find(tag, tail).Some? {
      assert tail + head[|tail|..] == head;
      FindIsStable(tag, tail, head[|tail|..]);
    }
  }

  lemma UnfinishedBody(cutter: Cutter, header: string, body: string, compressed: bool, tail: string)
    requires Announces(cutter, header, body, compressed)
    requires |header| <= |tail| && tail < header + body
    ensures NextStep(cutter, tail).Wait? && NextFits(cutter, tail)
  {
    var more := tail[|header|..];
    assert tail[..|header|] == (header + body)[..|header|] == header;
    assert tail == header + more;
    HeadIsFirst(cutter, header, more);
  }

  lemma UnfinishedWaits(cutter: Cutter, message: Message, tail: string)
    requires cutter.tag != "" && WellFormed(cutter, message) && tail < Bytes(message)
    ensures NextStep(cutter, tail).Wait? && NextFits(cutter, tail)
  {
    var head := if message.Text? then message.content else message.header;
    if |tail| < |head| {
      assert tail == Bytes(message)[..|tail|] == head[..|tail|];
      PrefixHasNoTag(cutter.tag, head, tail);
    } else {
      UnfinishedBody(cutter, message.header, message.body, message.Damaged? || message.compressed, tail);
    }
  }

  lemma HasBytes(cutter: Cutter, message: Message)
    requires cutter.tag != "" && WellFormed(cutter, message)
    ensures Bytes(message) != ""
  {
  }

  lemma NothingWaits(cutter: Cutter)
    requires cutter.tag != ""
    ensures NextStep(cutter, "").Wait? && NextFits(cutter, "")
  {
  }

  lemma TailStays(cutter: Cutter, tail: string)
    requires cutter.tag != "" && Unfinished(cutter, tail)
    ensures AllFit(cutter, tail) && Drain(cutter, tail) == Outcome([], tail, false)
  {
    if tail == "" {
      NothingWaits(cutter);
    } else {
      var message :| WellFormed(cutter, message) && tail < Bytes(message);
      UnfinishedWaits(cutter, message, tail);
    }
  }

  lemma OneTaken(cutter: Cutter, buffer: string, payload: Option<string>, consumed: nat, rest: string, later: Outcome)
    requires NextStep(cutter, buffer) == Take(payload, consumed) && consumed > 0 && NextFits(cutter, buffer)
    requires buffer[consumed..] == rest && AllFit(cutter, rest) && Drain(cutter, rest) == later
    ensures AllFit(cutter, buffer)
    ensures Drain(cutter, buffer) == Outcome(Delivered(payload) + later.payloads, later.rest, later.hung)
  {
  }

  /** One more message in front. */
  lemma OneMoreMessage(cutter: Cutter, message: Message, rest: string, contents: seq<string>, tail: string)
    requires cutter.tag != "" && WellFormed(cutter, message)
    requires AllFit(cutter, rest) && Drain(cutter, rest) == Outcome(contents, tail, false)
    ensures var buffer := Bytes(message) + rest;
            && AllFit(cutter, buffer)
            && Drain(cutter, buffer)
               == Outcome(if message.Damaged? then contents else [message.content] + contents, tail, false)
  {
    TakesMessage(cutter, message, rest);
    HasBytes(cutter, message);
    var buffer, payload := Bytes(message) + rest, if message.Damaged? then None else Some(message.content);
    assert buffer[|Bytes(message)|..] == rest;
    OneTaken(cutter, buffer, payload, |Bytes(message)|, rest, Outcome(contents, tail, false));
    assert [] + contents == contents;
  }

  lemma FirstOfStream(messages: seq<Message>, tail: string)
    requires messages != []
    ensures Stream(messages) + tail == Bytes(messages[0]) + (Stream(messages[1..]) + tail)
  {
  }

  lemma FirstOfContents(messages: seq<Message>)
    requires messages != []
    ensures var rest := Contents(messages[1..]);
            Contents(messages) == if messages[0].Damaged? then rest else [messages[0].content] + rest
  {
  }

  /** Messages in any mixture come out whole and in order; the beginning of a further one stays where it is. */
  lemma {:induction false} MessagesAreRecovered(cutter: Cutter, messages: seq<Message>, tail: string)
    requires cutter.tag != "" && (forall message | message in messages :: WellFormed(cutter, message))
    requires Unfinished(cutter, tail)
    ensures AllFit(cutter, Stream(messages) + tail)
    ensures Drain(cutter, Stream(messages) + tail) == Outcome(Contents(messages), tail, false)
  {
    if messages == [] {
      TailStays(cutter, tail);
      assert "" + tail == tail;
    } else {
      MessagesAreRecovered(cutter, messages[1..], tail);
      FirstOfStream(messages, tail);
      FirstOfContents(messages);
      OneMoreMessage(cutter, messages[0], Stream(messages[1..]) + tail, Contents(messages[1..]), tail);
    }
  }

  /** The same for a stream that is read in any pieces. */
  lemma MessagesArriveInAnyPieces(cutter: Cutter, messages: seq<Message>, tail: string, chunks: seq<string>)
    requires cutter.tag != "" && (forall message | message in messages :: WellFormed(cutter, message))
    requires Unfinished(cutter, tail) && Concat(chunks) == Stream(messages) + tail
    ensures Feed(cutter, "", chunks) == Outcome(Contents(messages), tail, false)
  {
    MessagesAreRecovered(cutter, messages, tail);
    assert "" + Concat(chunks) == Concat(chunks);
    ChunkingIsInvisible(cutter, "", chunks);
  }
}
