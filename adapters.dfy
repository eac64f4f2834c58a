/** The blocking adapter `SmartLedsAdapter` and the asynchronous adapter
    `SmartLedsAdapterAsync`.

    The RMT channel is not modelled: what it answers to a transmission is an
    input of the write methods, and every transmission the adapters start
    is appended to the ghost log `sent`. */
module Adapters {
  import opened SmartLedTypes
  import opened Pulses
  import opened Codec

  /** What the peripheral does with one blocking transmission. */
  datatype BlockingAnswer =
    | Rejected(e: RmtError)   // `transmit` itself fails; the channel is consumed
    | Completed               // `wait` gives the channel back with `Ok`
    | Failed(e: RmtError)     // `wait` gives the channel back with an error

  /** The blocking adapter: one array, one channel, and the pulse pair for
      the clock it was built with. The channel is taken out for a
      transmission and put back afterwards. */
  class SmartLedsAdapter {
    var hasChannel: bool
    const rmtBuffer: array<Word>
    const pulses: (Word, Word)
    ghost var sent: seq<seq<Word>>

    /** `SmartLedsAdapter::new`, with the channel already configured and the
        APB clock given in MHz. */
    constructor (srcClock: u32, buffer: seq<Word>)
      ensures hasChannel && pulses == LedPulsesForClock(srcClock)
      ensures fresh(rmtBuffer) && rmtBuffer[..] == buffer && sent == []
    {
      hasChannel := true;
      rmtBuffer := new Word[|buffer|](i requires 0 <= i < |buffer| => buffer[i]);
      pulses := LedPulsesForClock(srcClock);
      sent := [];
    }

    /** `write`: encodes every colour from slot 0, appends one terminator
        and sends the whole array in a single transmission. Running out of
        slots returns `BufferSizeExceeded` before the channel is touched.
        `unwrap` panics when an earlier `transmit` consumed the channel; the
        precondition excludes exactly that. */
    method Write(colors: seq<Rgb8>, answer: BlockingAnswer) returns (r: Status)
      requires hasChannel || BufferSize(|colors|) > rmtBuffer.Length
      modifies this, rmtBuffer
      ensures rmtBuffer[..] == Overwrite(old(rmtBuffer[..]), 0, SyncStream(colors, pulses))
      ensures BufferSize(|colors|) > rmtBuffer.Length ==>
        r == Err(BufferSizeExceeded) && hasChannel == old(hasChannel) && sent == old(sent)
      ensures BufferSize(|colors|) <= rmtBuffer.Length ==>
        sent == old(sent) + [rmtBuffer[..]] &&
        match answer
        case Completed => r == Ok && hasChannel
        case Failed(e) => r == Err(TransmissionError(e)) && hasChannel
        case Rejected(e) => r == Err(TransmissionError(e)) && !hasChannel
    {
      ghost var s := rmtBuffer[..];
      var pos;
      pos, r := EncodeColors(rmtBuffer, colors, pulses);
      EncodedLength(colors, pulses);
      if r.Err? {
        OverwriteFull(s, 0, Encoded(colors, pulses), [Terminator]);
        return;
      }
      if pos == rmtBuffer.Length {
        OverwriteFull(s, 0, Encoded(colors, pulses), [Terminator]);
        return Err(BufferSizeExceeded);
      }
      OverwriteSnoc(s, 0, Encoded(colors, pulses), Terminator);
      rmtBuffer[pos] := Terminator;

      r := Transmit(answer);
    }

    /** The loop of `write` over the colours: every colour's run through
        one iterator from slot 0, stopping at the first that does not fit. */
    static method EncodeColors(buf: array<Word>, colors: seq<Rgb8>, pulses: (Word, Word))
      returns (pos: nat, r: Status)
      modifies buf
      ensures buf[..] == Overwrite(old(buf[..]), 0, Encoded(colors, pulses))
      ensures r == if |Encoded(colors, pulses)| <= buf.Length then Ok else Err(BufferSizeExceeded)
      ensures r.Ok? ==> pos == |Encoded(colors, pulses)|
    {
      ghost var s := buf[..];
      pos := 0;
      for i := 0 to |colors|
        invariant pos == |Encoded(colors[..i], pulses)| <= buf.Length
        invariant buf[..] == Overwrite(s, 0, Encoded(colors[..i], pulses))
      {
        var res;
        ghost var done := Encoded(colors[..i], pulses);
        ghost var run := ColorPulses(colors[i], pulses);
        OverwriteThen(s, 0, done, run);
        assert colors[..i + 1] == colors[..i] + [colors[i]];
        EncodedSnoc(colors[..i], colors[i], pulses);
        pos, res := ConvertRgbToPulses(buf, pos, colors[i], pulses);
        if res.Err? {
          assert colors == colors[..i + 1] + colors[i + 1..];
          EncodedOverflow(s, colors[..i + 1], colors[i + 1..], pulses);
          return pos, Err(BufferSizeExceeded);
        }
      }
      assert colors[..|colors|] == colors;
      r := Ok;
    }

    /** The transmission at the end of `write`: `self.channel.take().unwrap()`,
        `transmit(&self.rmt_buffer)?`, `wait()`, and putting the channel back
        on either outcome of `wait`. */
    method Transmit(answer: BlockingAnswer) returns (r: Status)
      requires hasChannel
      modifies this
      ensures sent == old(sent) + [rmtBuffer[..]]
      ensures match answer
        case Completed => r == Ok && hasChannel
        case Failed(e) => r == Err(TransmissionError(e)) && hasChannel
        case Rejected(e) => r == Err(TransmissionError(e)) && !hasChannel
    {
      hasChannel := false;
      sent := sent + [rmtBuffer[..]];
      match answer {
        case Rejected(e) =>
          r := Err(TransmissionError(e));
        case Completed =>
          hasChannel := true;
          r := Ok;
        case Failed(e) =>
          hasChannel := true;
          r := Err(TransmissionError(e));
      }
    }
  }

  // -----------------------------------------------------------------------
  // Chunked transmission

  /** `s.chunks(RMT_RAM_ONE_LED + 1)`: consecutive slices of 25 words,
      the last one shorter when 25 does not divide `|s|`. */
  function Chunks(s: seq<Word>): seq<seq<Word>>
    decreases |s|
  {
    if s == [] then []
    else if |s| <= RMT_RAM_ONE_LED + 1 then [s]
    else [s[..RMT_RAM_ONE_LED + 1]] + Chunks(s[RMT_RAM_ONE_LED + 1..])
  }

  /** Joins chunks back together. */
  function Flatten(chunks: seq<seq<Word>>): seq<Word>
  {
    if chunks == [] then [] else chunks[0] + Flatten(chunks[1..])
  }

  /** The chunks cover the slice exactly, in order. */
  lemma {:induction false} ChunksFlatten(s: seq<Word>)
    ensures Flatten(Chunks(s)) == s
    decreases |s|
  {
    if |s| > RMT_RAM_ONE_LED + 1 {
      ChunksFlatten(s[RMT_RAM_ONE_LED + 1..]);
      assert s[..RMT_RAM_ONE_LED + 1] + s[RMT_RAM_ONE_LED + 1..] == s;
    }
  }

  /** There are `ceil(|s| / 25)` chunks. */
  lemma {:induction false} ChunkCount(s: seq<Word>)
    ensures |Chunks(s)| == (|s| + RMT_RAM_ONE_LED) / (RMT_RAM_ONE_LED + 1)
    decreases |s|
  {
    if |s| > RMT_RAM_ONE_LED + 1 {
      ChunkCount(s[RMT_RAM_ONE_LED + 1..]);
    }
  }

  /** Chunk `k` is the slice `25 * k .. min(25 * k + 25, |s|)`. */
  lemma {:induction false} ChunkAt(s: seq<Word>, k: nat)
    requires k < |Chunks(s)|
    ensures (RMT_RAM_ONE_LED + 1) * k < |s|
    ensures Chunks(s)[k] == s[(RMT_RAM_ONE_LED + 1) * k .. Min((RMT_RAM_ONE_LED + 1) * k + RMT_RAM_ONE_LED + 1, |s|)]
    decreases |s|
  {
    var n := RMT_RAM_ONE_LED + 1;
    if k > 0 {
      assert |s| > n;
      var rest := s[n..];
      assert Chunks(s) == [s[..n]] + Chunks(rest);
      ChunkAt(rest, k - 1);
      var lo := n * (k - 1);
      var hi := Min(lo + n, |rest|);
      assert n * k == lo + n;
      assert Min(n * k + n, |s|) == hi + n;
      assert rest[lo..hi] == s[lo + n .. hi + n];
    }
  }

  /** The first index below `n` whose transmission fails, or `n`. */
  function FirstFailureFrom(answers: nat -> Option<RmtError>, j: nat, n: nat): (k: nat)
    ensures j <= n ==> j <= k <= n
    ensures forall i :: j <= i < k ==> answers(i).None?
    ensures k < n ==> answers(k).Some?
    decreases n - j
  {
    if j >= n then n
    else if answers(j).Some? then j
    else FirstFailureFrom(answers, j + 1, n)
  }

  function FirstFailure(answers: nat -> Option<RmtError>, n: nat): nat
  {
    FirstFailureFrom(answers, 0, n)
  }

  /** The asynchronous adapter: one array, one channel that it always owns,
      and the pulse pair. */
  class SmartLedsAdapterAsync {
    const rmtBuffer: array<Word>
    const pulses: (Word, Word)
    ghost var sent: seq<seq<Word>>

    /** `SmartLedsAdapterAsync::new`, with the channel already configured and
        the APB clock given in MHz. */
    constructor (srcClock: u32, buffer: seq<Word>)
      ensures pulses == LedPulsesForClock(srcClock)
      ensures fresh(rmtBuffer) && rmtBuffer[..] == buffer && sent == []
    {
      rmtBuffer := new Word[|buffer|](i requires 0 <= i < |buffer| => buffer[i]);
      pulses := LedPulsesForClock(srcClock);
      sent := [];
    }

    /** `convert_rgb_to_pulse`: one colour's 24 pulses, then its own
        terminator. */
    static method ConvertRgbToPulse(buf: array<Word>, pos: nat, value: Rgb8, pulses: (Word, Word))
      returns (next: nat, r: Status)
      requires pos <= buf.Length
      modifies buf
      ensures buf[..] == Overwrite(old(buf[..]), pos, LedFrame(value, pulses))
      ensures next == pos + Min(RMT_RAM_ONE_LED + 1, buf.Length - pos)
      ensures r == if pos + RMT_RAM_ONE_LED + 1 <= buf.Length then Ok else Err(BufferSizeExceeded)
    {
      ghost var s := buf[..];
      ghost var run := ColorPulses(value, pulses);
      next, r := ConvertRgbToPulses(buf, pos, value, pulses);
      if r.Err? {
        OverwriteFull(s, pos, run, [Terminator]);
        return;
      }
      if next == buf.Length {
        OverwriteFull(s, pos, run, [Terminator]);
        return next, Err(BufferSizeExceeded);
      }
      OverwriteSnoc(s, pos, run, Terminator);
      buf[next] := Terminator;
      next := next + 1;
    }

    /** `prepare_rmt_buffer`: every colour's 25-word frame from slot 0,
        stopping at the first one that does not fit. */
    method PrepareRmtBuffer(colors: seq<Rgb8>) returns (r: Status)
      modifies rmtBuffer
      ensures rmtBuffer[..] == Overwrite(old(rmtBuffer[..]), 0, AsyncStream(colors, pulses))
      ensures r == if BufferSizeAsync(|colors|) <= rmtBuffer.Length then Ok else Err(BufferSizeExceeded)
    {
      ghost var s := rmtBuffer[..];
      AsyncStreamLength(colors, pulses);
      var pos := 0;
      for i := 0 to |colors|
        invariant pos == |AsyncStream(colors[..i], pulses)| <= rmtBuffer.Length
        invariant rmtBuffer[..] == Overwrite(s, 0, AsyncStream(colors[..i], pulses))
      {
        var res;
        ghost var done := AsyncStream(colors[..i], pulses);
        ghost var frame := LedFrame(colors[i], pulses);
        OverwriteThen(s, 0, done, frame);
        assert colors[..i + 1] == colors[..i] + [colors[i]];
        AsyncStreamSnoc(colors[..i], colors[i], pulses);
        pos, res := ConvertRgbToPulse(rmtBuffer, pos, colors[i], pulses);
        if res.Err? {
          assert colors == colors[..i + 1] + colors[i + 1..];
          AsyncOverflow(s, colors[..i + 1], colors[i + 1..], pulses);
          return Err(BufferSizeExceeded);
        }
      }
      assert colors[..|colors|] == colors;
      r := Ok;
    }

    /** `write`: prepares the array, then transmits `rmt_buffer.chunks(25)`
        one after the other, returning at the first failure. `answers(k)` is
        what the peripheral reports for the `k`-th chunk. */
    method Write(colors: seq<Rgb8>, answers: nat -> Option<RmtError>) returns (r: Status)
      modifies this, rmtBuffer
      ensures rmtBuffer[..] == Overwrite(old(rmtBuffer[..]), 0, AsyncStream(colors, pulses))
      ensures BufferSizeAsync(|colors|) > rmtBuffer.Length ==>
        r == Err(BufferSizeExceeded) && sent == old(sent)
      ensures BufferSizeAsync(|colors|) <= rmtBuffer.Length ==>
        var cs := Chunks(rmtBuffer[..]);
        var k := FirstFailure(answers, |cs|);
        sent == old(sent) + cs[..Min(k + 1, |cs|)] &&
        r == if k < |cs| then Err(TransmissionError(answers(k).value)) else Ok
    {
      r := PrepareRmtBuffer(colors);
      if r.Err? {
        return;
      }
      r := TransmitChunks(answers);
    }

    /** The loop of `write` over `rmt_buffer.chunks(RMT_RAM_ONE_LED + 1)`:
        each chunk is transmitted in turn and the first error ends the
        loop. */
    method TransmitChunks(answers: nat -> Option<RmtError>) returns (r: Status)
      modifies this
      ensures var cs := Chunks(rmtBuffer[..]);
        var k := FirstFailure(answers, |cs|);
        sent == old(sent) + cs[..Min(k + 1, |cs|)] &&
        r == if k < |cs| then Err(TransmissionError(answers(k).value)) else Ok
    {
      ghost var cs := Chunks(rmtBuffer[..]);
      ChunkCount(rmtBuffer[..]);
      var count := (rmtBuffer.Length + RMT_RAM_ONE_LED) / (RMT_RAM_ONE_LED + 1);
      for k := 0 to count
        invariant sent == old(sent) + cs[..k]
        invariant FirstFailure(answers, |cs|) == FirstFailureFrom(answers, k, |cs|)
      {
        var start := (RMT_RAM_ONE_LED + 1) * k;
        ChunkAt(rmtBuffer[..], k);
        var chunk := rmtBuffer[start .. Min(start + RMT_RAM_ONE_LED + 1, rmtBuffer.Length)];
        assert cs[..k + 1] == cs[..k] + [chunk];
        sent := sent + [chunk];
        match answers(k) {
          case Some(e) =>
            return Err(TransmissionError(e));
          case None =>
        }
      }
      assert cs[..count] == cs;
      r := Ok;
    }
  }
}
