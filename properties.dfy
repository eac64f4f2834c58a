/** What a write leaves in the array and what it sends, stated slot by slot
    and chunk by chunk for both adapters. */
module Properties {
  import opened SmartLedTypes
  import opened Pulses
  import opened Codec
  import opened Adapters

  /** Slot `k % 24` of a run tests the same bit as slot `k`. */
  lemma ModInRun(k: nat)
    ensures k % 24 % 8 == k % 8
  {
    var q, j := k / 24, k % 24;
    var a, b := j / 8, j % 8;
    assert k == 8 * (3 * q + a) + b;
  }

  /** Word `k` of the encoding of `n` colours, for `k < 24 * n`. */
  lemma EncodedAt(cs: seq<Rgb8>, pulses: (Word, Word), k: nat)
    requires k < RMT_RAM_ONE_LED * |cs|
    ensures |Encoded(cs, pulses)| == RMT_RAM_ONE_LED * |cs|
    ensures Encoded(cs, pulses)[k]
         == PulseFor(BitSet(ChannelOf(cs[k / 24], k % 24 / 8), 7 - k % 8), pulses)
  {
    var i, j := k / 24, k % 24;
    assert k == RMT_RAM_ONE_LED * i + j;
    EncodedLayout(cs, pulses, i, j);
    ColorPulsesAt(cs[i], pulses, j);
    ModInRun(k);
  }

  /** After a blocking write of `n` colours that fits, slot `k` holds: for
      `k < 24 * n` the pulse of bit `7 - k % 8` of channel `(k % 24) / 8`
      (green, red, blue) of colour `k / 24`; at `24 * n` the terminator; and
      after it the slot's previous contents. */
  lemma SyncWriteLayout(s: seq<Word>, cs: seq<Rgb8>, pulses: (Word, Word), k: nat)
    requires BufferSize(|cs|) <= |s| && k < |s|
    ensures var w := Overwrite(s, 0, SyncStream(cs, pulses));
      && (k < RMT_RAM_ONE_LED * |cs| ==>
            w[k] == PulseFor(BitSet(ChannelOf(cs[k / 24], k % 24 / 8), 7 - k % 8), pulses))
      && (k == RMT_RAM_ONE_LED * |cs| ==> w[k] == Terminator)
      && (k > RMT_RAM_ONE_LED * |cs| ==> w[k] == s[k])
  {
    var stream := SyncStream(cs, pulses);
    var e := Encoded(cs, pulses);
    EncodedLength(cs, pulses);
    assert stream == e + [Terminator];
    OverwriteAt(s, 0, stream, k);
    if k < |e| {
      EncodedAt(cs, pulses, k);
      assert stream[k] == e[k];
    }
  }

  /** When the array is exactly `buffer_size(n)` words long, a blocking
      write that fits fills it with exactly the frame: the runs and then the
      terminator, with nothing left of the old contents. */
  lemma SyncWriteExact(s: seq<Word>, cs: seq<Rgb8>, pulses: (Word, Word))
    requires |s| == BufferSize(|cs|)
    ensures Overwrite(s, 0, SyncStream(cs, pulses)) == SyncStream(cs, pulses)
  {
    SyncStreamLayout(cs, pulses);
    OverwriteWhole(s, SyncStream(cs, pulses));
  }

  /** A blocking write with no colours puts the terminator at slot 0 and
      leaves every other slot as it was. */
  lemma SyncWriteEmpty(s: seq<Word>, pulses: (Word, Word))
    requires |s| >= 1
    ensures Overwrite(s, 0, SyncStream([], pulses)) == [Terminator] + s[1..]
  {
    assert Encoded([], pulses) == [];
  }

  /** When the frame does not fit, every slot from the cursor to the end
      holds the frame's words in order and the slots before the cursor are
      untouched; nothing is written past the end. */
  lemma OverwriteExhausted(s: seq<Word>, pos: nat, data: seq<Word>)
    requires pos <= |s| < pos + |data|
    ensures Overwrite(s, pos, data) == s[..pos] + data[..|s| - pos]
  {
    var w := Overwrite(s, pos, data);
    forall i | 0 <= i < |s| ensures w[i] == (s[..pos] + data[..|s| - pos])[i] {
      OverwriteAt(s, pos, data, i);
    }
  }

  /** One chunk per colour: its 24 pulses and its terminator. */
  function Frames(cs: seq<Rgb8>, pulses: (Word, Word)): seq<seq<Word>>
  {
    seq(|cs|, i requires 0 <= i < |cs| => LedFrame(cs[i], pulses))
  }

  /** The asynchronous frame starts with the first colour's frame. */
  lemma AsyncStreamCons(cs: seq<Rgb8>, pulses: (Word, Word))
    requires cs != []
    ensures AsyncStream(cs, pulses) == LedFrame(cs[0], pulses) + AsyncStream(cs[1..], pulses)
  {
    assert cs == [cs[0]] + cs[1..];
    AsyncStreamAppend([cs[0]], cs[1..], pulses);
    assert [cs[0]][..0] == [];
  }

  /** A whole chunk in front of any words is one chunk of its own. */
  lemma ChunksCons(f: seq<Word>, tail: seq<Word>)
    requires |f| == RMT_RAM_ONE_LED + 1
    ensures Chunks(f + tail) == [f] + Chunks(tail)
  {
    if tail == [] {
      assert f + tail == f;
    } else {
      assert (f + tail)[..RMT_RAM_ONE_LED + 1] == f;
      assert (f + tail)[RMT_RAM_ONE_LED + 1..] == tail;
    }
  }

  /** The frames start with the first colour's frame. */
  lemma FramesCons(cs: seq<Rgb8>, pulses: (Word, Word))
    requires cs != []
    ensures Frames(cs, pulses) == [LedFrame(cs[0], pulses)] + Frames(cs[1..], pulses)
  {
  }

  /** Chunking the frames of `n` colours followed by any words `b` gives
      the `n` frames, then the chunks of `b`. */
  lemma {:induction false} ChunksAfterFrames(cs: seq<Rgb8>, b: seq<Word>, pulses: (Word, Word))
    ensures Chunks(AsyncStream(cs, pulses) + b) == Frames(cs, pulses) + Chunks(b)
    decreases |cs|
  {
    if cs == [] {
      assert AsyncStream(cs, pulses) + b == b;
    } else {
      var f := LedFrame(cs[0], pulses);
      var tail := AsyncStream(cs[1..], pulses) + b;
      calc {
        Chunks(AsyncStream(cs, pulses) + b);
        { AsyncStreamCons(cs, pulses);
          assert AsyncStream(cs, pulses) + b == f + tail; }
        Chunks(f + tail);
        { ChunksCons(f, tail); }
        [f] + Chunks(tail);
        { ChunksAfterFrames(cs[1..], b, pulses); }
        [f] + (Frames(cs[1..], pulses) + Chunks(b));
        { FramesCons(cs, pulses); }
        Frames(cs, pulses) + Chunks(b);
      }
    }
  }

  /** The asynchronous frame of `n` colours splits into exactly the `n`
      per-colour frames. */
  lemma AsyncStreamChunks(cs: seq<Rgb8>, pulses: (Word, Word))
    ensures Chunks(AsyncStream(cs, pulses)) == Frames(cs, pulses)
  {
    ChunksAfterFrames(cs, [], pulses);
    assert AsyncStream(cs, pulses) + [] == AsyncStream(cs, pulses);
  }

  /** What the asynchronous `write` sends when the colours fit: one chunk
      per colour, each its 24 pulses and its terminator, and after them the
      chunks of whatever the array held beyond `25 * n`. With an array of
      exactly `buffer_size_async(n)` words that tail is empty. */
  lemma AsyncWriteChunks(s: seq<Word>, cs: seq<Rgb8>, pulses: (Word, Word))
    requires BufferSizeAsync(|cs|) <= |s|
    ensures Chunks(Overwrite(s, 0, AsyncStream(cs, pulses)))
         == Frames(cs, pulses) + Chunks(s[BufferSizeAsync(|cs|)..])
    ensures |s| == BufferSizeAsync(|cs|) ==>
      Chunks(Overwrite(s, 0, AsyncStream(cs, pulses))) == Frames(cs, pulses)
  {
    var stream := AsyncStream(cs, pulses);
    var n := BufferSizeAsync(|cs|);
    AsyncStreamLength(cs, pulses);
    var w := Overwrite(s, 0, stream);
    assert w == stream + s[n..] by {
      forall i | 0 <= i < |s| ensures w[i] == (stream + s[n..])[i] {
        OverwriteAt(s, 0, stream, i);
      }
    }
    ChunksAfterFrames(cs, s[n..], pulses);
    if |s| == n {
      assert s[n..] == [];
    }
  }

  /** The 80 MHz example: green 0xFF, red and blue 0 give eight one-pulses
      followed by sixteen zero-pulses. */
  lemma GreenAt80MHz()
    ensures var pulses := LedPulsesForClock(80);
      ColorPulses(Rgb8(r := 0, g := 0xFF, b := 0), pulses)
        == seq(8, _ => pulses.1) + seq(16, _ => pulses.0)
  {
    var pulses := LedPulsesForClock(80);
    var ws := ColorPulses(Rgb8(r := 0, g := 0xFF, b := 0), pulses);
    var want := seq(8, _ => pulses.1) + seq(16, _ => pulses.0);
    PulsesDistinct(80);
    forall j | 0 <= j < 24 ensures ws[j] == want[j] {
      ColorPulsesAt(Rgb8(r := 0, g := 0xFF, b := 0), pulses, j);
      if j < 8 {
        assert BitSet(0xFF, 7 - j % 8);
      }
    }
  }

  /** For every clock from 2 MHz up to the cast limit, a colour's 24 words
      read back as the colour. */
  lemma ColorRoundTripAtClock(c: Rgb8, f: u32)
    requires 2 <= f <= MAX_EXACT_CLOCK
    ensures var pulses := LedPulsesForClock(f);
      DecodeColor(ColorPulses(c, pulses), pulses.1) == c
  {
    PulsesDistinct(f);
    ColorRoundTrip(c, LedPulsesForClock(f));
  }
}
