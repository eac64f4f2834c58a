/** The colour-to-pulse codec (`convert_rgb_channel_to_pulses`,
    `convert_rgb_to_pulses`) and the buffer sizes (`buffer_size`,
    `buffer_size_async`).

    The codec writes through a mutable slice iterator into a fixed array.
    Here the iterator is the index `pos` of the next slot; writing a word
    when `pos` has reached the end fails with `BufferSizeExceeded` and leaves
    the iterator exhausted. The effect of writing a run of words through the
    iterator is `Overwrite`: as many of them as fit are stored from `pos` on. */
module Codec {
  import opened SmartLedTypes

  /** Words one LED needs: 3 channels of 8 bits (`RMT_RAM_ONE_LED`). */
  const RMT_RAM_ONE_LED: nat := 3 * 8

  /** The bit masks the channel loop tests, most significant bit first. */
  const Masks: seq<bv8> := [128, 64, 32, 16, 8, 4, 2, 1]

  // ---------------------------------------------------------------------
  // Writing through the iterator

  /** `s` after writing `data` through an iterator at `pos`: the words that
      fit are stored from `pos` on, the rest of `s` keeps its contents. */
  function Overwrite(s: seq<Word>, pos: nat, data: seq<Word>): (r: seq<Word>)
    requires pos <= |s|
    ensures |r| == |s|
  {
    seq(|s|, i requires 0 <= i < |s| => if pos <= i < pos + |data| then data[i - pos] else s[i])
  }

  /** Slot by slot: before `pos` and after the written run nothing changes,
      and the run holds `data` in order. */
  lemma OverwriteAt(s: seq<Word>, pos: nat, data: seq<Word>, i: nat)
    requires pos <= |s| && i < |s|
    ensures Overwrite(s, pos, data)[i] == if pos <= i < pos + |data| then data[i - pos] else s[i]
  {
  }

  /** Writing one more word that still fits updates exactly one slot. */
  lemma OverwriteSnoc(s: seq<Word>, pos: nat, data: seq<Word>, w: Word)
    requires pos + |data| < |s|
    ensures Overwrite(s, pos, data + [w]) == Overwrite(s, pos, data)[pos + |data| := w]
  {
    var a := Overwrite(s, pos, data + [w]);
    var b := Overwrite(s, pos, data)[pos + |data| := w];
    forall i | 0 <= i < |s| ensures a[i] == b[i] {
      OverwriteAt(s, pos, data + [w], i);
      OverwriteAt(s, pos, data, i);
    }
  }

  /** Two runs written one after the other are one run written at once. */
  lemma OverwriteThen(s: seq<Word>, pos: nat, a: seq<Word>, b: seq<Word>)
    requires pos + |a| <= |s|
    ensures Overwrite(Overwrite(s, pos, a), pos + |a|, b) == Overwrite(s, pos, a + b)
  {
    var x := Overwrite(Overwrite(s, pos, a), pos + |a|, b);
    var y := Overwrite(s, pos, a + b);
    forall i | 0 <= i < |s| ensures x[i] == y[i] {
      OverwriteAt(Overwrite(s, pos, a), pos + |a|, b, i);
      OverwriteAt(s, pos, a, i);
      OverwriteAt(s, pos, a + b, i);
    }
  }

  /** Once a run has reached the end of the array, whatever would have
      followed it changes nothing. */
  lemma OverwriteFull(s: seq<Word>, pos: nat, a: seq<Word>, b: seq<Word>)
    requires pos <= |s| <= pos + |a|
    ensures Overwrite(s, pos, a + b) == Overwrite(s, pos, a)
  {
    var x := Overwrite(s, pos, a + b);
    var y := Overwrite(s, pos, a);
    forall i | 0 <= i < |s| ensures x[i] == y[i] {
      OverwriteAt(s, pos, a + b, i);
      OverwriteAt(s, pos, a, i);
    }
  }

  /** A run as long as the array replaces all of it. */
  lemma OverwriteWhole(s: seq<Word>, data: seq<Word>)
    requires |data| == |s|
    ensures Overwrite(s, 0, data) == data
  {
  }

  // ---------------------------------------------------------------------
  // What the codec writes

  /** Whether bit `k` (0 = least significant) of `v` is set. */
  predicate BitSet(v: bv8, k: nat)
    requires k < 8
  {
    match k
    case 0 => v & 0x01 != 0
    case 1 => v & 0x02 != 0
    case 2 => v & 0x04 != 0
    case 3 => v & 0x08 != 0
    case 4 => v & 0x10 != 0
    case 5 => v & 0x20 != 0
    case 6 => v & 0x40 != 0
    case _ => v & 0x80 != 0
  }

  /** The pulse for one bit: `pulses.1` when set, `pulses.0` otherwise. */
  function PulseFor(bit: bool, pulses: (Word, Word)): Word
  {
    if bit then pulses.1 else pulses.0
  }

  /** The 8 words for one channel byte, in the order of `Masks`. */
  function ChannelPulses(v: bv8, pulses: (Word, Word)): (r: seq<Word>)
    ensures |r| == 8
  {
    seq(8, i requires 0 <= i < 8 => if v & Masks[i] == 0 then pulses.0 else pulses.1)
  }

  /** Channel `k` of a colour in transmission order: green, red, blue. */
  function ChannelOf(c: Rgb8, k: nat): bv8
    requires k < 3
  {
    if k == 0 then c.g else if k == 1 then c.r else c.b
  }

  /** The 24 words for one colour: green, then red, then blue. */
  function ColorPulses(c: Rgb8, pulses: (Word, Word)): (r: seq<Word>)
    ensures |r| == RMT_RAM_ONE_LED
  {
    ChannelPulses(c.g, pulses) + ChannelPulses(c.r, pulses) + ChannelPulses(c.b, pulses)
  }

  /** Slot `i` of a channel's run holds the pulse of bit `7 - i`: the most
      significant bit comes first. */
  lemma ChannelPulsesAt(v: bv8, pulses: (Word, Word), i: nat)
    requires i < 8
    ensures ChannelPulses(v, pulses)[i] == PulseFor(BitSet(v, 7 - i), pulses)
  {
  }

  /** Slot `j` of a colour's run holds the pulse of bit `7 - j % 8` of
      channel `j / 8` in the order green, red, blue. */
  lemma ColorPulsesAt(c: Rgb8, pulses: (Word, Word), j: nat)
    requires j < RMT_RAM_ONE_LED
    ensures ColorPulses(c, pulses)[j] == PulseFor(BitSet(ChannelOf(c, j / 8), 7 - j % 8), pulses)
  {
    var g, r, b := ChannelPulses(c.g, pulses), ChannelPulses(c.r, pulses), ChannelPulses(c.b, pulses);
    assert ColorPulses(c, pulses) == g + r + b;
    var k, i := j / 8, j % 8;
    assert j == 8 * k + i;
    if k == 0 {
      assert ColorPulses(c, pulses)[j] == g[i];
      ChannelPulsesAt(c.g, pulses, i);
    } else if k == 1 {
      assert ColorPulses(c, pulses)[j] == r[i];
      ChannelPulsesAt(c.r, pulses, i);
    } else {
      assert ColorPulses(c, pulses)[j] == b[i];
      ChannelPulsesAt(c.b, pulses, i);
    }
  }

  // ---------------------------------------------------------------------
  // The codec

  /** `convert_rgb_channel_to_pulses`: writes the 8 pulses of one channel
      byte through the iterator at `pos`, failing at the first slot that is
      not there. */
  method ConvertRgbChannelToPulses(buf: array<Word>, pos: nat, channelValue: bv8, pulses: (Word, Word))
    returns (next: nat, r: Status)
    requires pos <= buf.Length
    modifies buf
    ensures buf[..] == Overwrite(old(buf[..]), pos, ChannelPulses(channelValue, pulses))
    ensures next == pos + Min(8, buf.Length - pos)
    ensures r == if pos + 8 <= buf.Length then Ok else Err(BufferSizeExceeded)
  {
    ghost var run := ChannelPulses(channelValue, pulses);
    next := pos;
    for i := 0 to 8
      invariant next == pos + i <= buf.Length
      invariant buf[..] == Overwrite(old(buf[..]), pos, run[..i])
    {
      var position := Masks[i];
      if next == buf.Length {
        OverwriteFull(old(buf[..]), pos, run[..i], run[i..]);
        assert run[..i] + run[i..] == run;
        r := Err(BufferSizeExceeded);
        return;
      }
      OverwriteSnoc(old(buf[..]), pos, run[..i], run[i]);
      assert run[..i] + [run[i]] == run[..i + 1];
      buf[next] := if channelValue & position == 0 then pulses.0 else pulses.1;
      next := next + 1;
    }
    assert run[..8] == run;
    r := Ok;
  }

  /** `convert_rgb_to_pulses`: writes the green, red and blue channels in
      that order, stopping at the first failure. */
  method ConvertRgbToPulses(buf: array<Word>, pos: nat, value: Rgb8, pulses: (Word, Word))
    returns (next: nat, r: Status)
    requires pos <= buf.Length
    modifies buf
    ensures buf[..] == Overwrite(old(buf[..]), pos, ColorPulses(value, pulses))
    ensures next == pos + Min(RMT_RAM_ONE_LED, buf.Length - pos)
    ensures r == if pos + RMT_RAM_ONE_LED <= buf.Length then Ok else Err(BufferSizeExceeded)
  {
    ghost var s := buf[..];
    ghost var g, rd, b := ChannelPulses(value.g, pulses), ChannelPulses(value.r, pulses), ChannelPulses(value.b, pulses);
    ghost var gr := g + rd;
    assert ColorPulses(value, pulses) == gr + b;
    next, r := ConvertRgbChannelToPulses(buf, pos, value.g, pulses);
    if r.Err? {
      assert gr + b == g + (rd + b);
      OverwriteFull(s, pos, g, rd + b);
      return;
    }
    next, r := ConvertRgbChannelToPulses(buf, next, value.r, pulses);
    assert buf[..] == Overwrite(s, pos, gr) by {
      OverwriteThen(s, pos, g, rd);
    }
    if r.Err? {
      OverwriteFull(s, pos, gr, b);
      return;
    }
    next, r := ConvertRgbChannelToPulses(buf, next, value.b, pulses);
    OverwriteThen(s, pos, gr, b);
  }

  // ---------------------------------------------------------------------
  // Whole frames and their sizes

  /** The runs of all colours back to back. */
  function Encoded(cs: seq<Rgb8>, pulses: (Word, Word)): seq<Word>
  {
    if cs == [] then [] else Encoded(cs[..|cs| - 1], pulses) + ColorPulses(cs[|cs| - 1], pulses)
  }

  /** What the blocking adapter writes: all runs, then one terminator. */
  function SyncStream(cs: seq<Rgb8>, pulses: (Word, Word)): seq<Word>
  {
    Encoded(cs, pulses) + [Terminator]
  }

  /** One colour's run followed by its own terminator: the unit the
      asynchronous adapter transmits. */
  function LedFrame(c: Rgb8, pulses: (Word, Word)): (r: seq<Word>)
    ensures |r| == RMT_RAM_ONE_LED + 1
  {
    ColorPulses(c, pulses) + [Terminator]
  }

  /** What the asynchronous adapter writes: the frames of all colours back
      to back. */
  function AsyncStream(cs: seq<Rgb8>, pulses: (Word, Word)): seq<Word>
  {
    if cs == [] then [] else AsyncStream(cs[..|cs| - 1], pulses) + LedFrame(cs[|cs| - 1], pulses)
  }

  /** Encoding one more colour appends its run. */
  lemma EncodedSnoc(cs: seq<Rgb8>, c: Rgb8, pulses: (Word, Word))
    ensures Encoded(cs + [c], pulses) == Encoded(cs, pulses) + ColorPulses(c, pulses)
  {
    assert (cs + [c])[..|cs|] == cs;
  }

  /** Framing one more colour appends its frame. */
  lemma AsyncStreamSnoc(cs: seq<Rgb8>, c: Rgb8, pulses: (Word, Word))
    ensures AsyncStream(cs + [c], pulses) == AsyncStream(cs, pulses) + LedFrame(c, pulses)
  {
    assert (cs + [c])[..|cs|] == cs;
  }

  /** Encoding two colour sequences one after the other is encoding their
      concatenation. */
  lemma {:induction false} EncodedAppend(a: seq<Rgb8>, b: seq<Rgb8>, pulses: (Word, Word))
    ensures Encoded(a + b, pulses) == Encoded(a, pulses) + Encoded(b, pulses)
    decreases |b|
  {
    if b == [] {
      assert a + b == a;
    } else {
      var init, last := b[..|b| - 1], b[|b| - 1];
      var x, y, z := Encoded(a, pulses), Encoded(init, pulses), ColorPulses(last, pulses);
      calc {
        Encoded(a + b, pulses);
        { assert a + b == (a + init) + [last];
          EncodedSnoc(a + init, last, pulses); }
        Encoded(a + init, pulses) + z;
        { EncodedAppend(a, init, pulses); }
        (x + y) + z;
        x + (y + z);
        { assert b == init + [last];
          EncodedSnoc(init, last, pulses); }
        x + Encoded(b, pulses);
      }
    }
  }


  /** Framing two colour sequences one after the other is framing their
      concatenation. */
  lemma {:induction false} AsyncStreamAppend(a: seq<Rgb8>, b: seq<Rgb8>, pulses: (Word, Word))
    ensures AsyncStream(a + b, pulses) == AsyncStream(a, pulses) + AsyncStream(b, pulses)
    decreases |b|
  {
    if b == [] {
      assert a + b == a;
    } else {
      var init, last := b[..|b| - 1], b[|b| - 1];
      var x, y, z := AsyncStream(a, pulses), AsyncStream(init, pulses), LedFrame(last, pulses);
      calc {
        AsyncStream(a + b, pulses);
        { assert a + b == (a + init) + [last];
          AsyncStreamSnoc(a + init, last, pulses); }
        AsyncStream(a + init, pulses) + z;
        { AsyncStreamAppend(a, init, pulses); }
        (x + y) + z;
        x + (y + z);
        { assert b == init + [last];
          AsyncStreamSnoc(init, last, pulses); }
        x + AsyncStream(b, pulses);
      }
    }
  }


  /** `buffer_size`: words the blocking adapter needs for `numLeds` colours;
      there is always a word for the single end delimiter. */
  function BufferSize(numLeds: nat): (r: nat)
    ensures r >= 1
    ensures r > RMT_RAM_ONE_LED * numLeds
  {
    numLeds * RMT_RAM_ONE_LED + 1
  }

  /** `buffer_size_async`: words the asynchronous adapter needs; one end
      delimiter per colour instead of one per frame. */
  function BufferSizeAsync(numLeds: nat): (r: nat)
    ensures r + 1 == BufferSize(numLeds) + numLeds
    ensures r == 0 <==> numLeds == 0
  {
    numLeds * (RMT_RAM_ONE_LED + 1)
  }

  /** Once the encoding of the first colours `a` overflows the array, the
      encoding of `a + b` does not fit either, and the colours `b` would
      change nothing. */
  lemma EncodedOverflow(s: seq<Word>, a: seq<Rgb8>, b: seq<Rgb8>, pulses: (Word, Word))
    requires |s| < |Encoded(a, pulses)|
    ensures |Encoded(a + b, pulses)| > |s|
    ensures Overwrite(s, 0, Encoded(a, pulses)) == Overwrite(s, 0, Encoded(a + b, pulses))
  {
    EncodedAppend(a, b, pulses);
    OverwriteFull(s, 0, Encoded(a, pulses), Encoded(b, pulses));
  }

  /** Once the frames of the first colours `a` overflow the array, the
      frames of `a + b` do not fit either, and the colours `b` would change
      nothing. */
  lemma AsyncOverflow(s: seq<Word>, a: seq<Rgb8>, b: seq<Rgb8>, pulses: (Word, Word))
    requires |s| < |AsyncStream(a, pulses)|
    ensures |AsyncStream(a + b, pulses)| > |s|
    ensures Overwrite(s, 0, AsyncStream(a, pulses)) == Overwrite(s, 0, AsyncStream(a + b, pulses))
  {
    AsyncStreamAppend(a, b, pulses);
    OverwriteFull(s, 0, AsyncStream(a, pulses), AsyncStream(b, pulses));
  }

  /** Colour `i`'s run occupies slots `24 * i .. 24 * i + 24` of the
      concatenation. */
  lemma {:induction false} EncodedLayout(cs: seq<Rgb8>, pulses: (Word, Word), i: nat, j: nat)
    requires i < |cs| && j < RMT_RAM_ONE_LED
    ensures |Encoded(cs, pulses)| == RMT_RAM_ONE_LED * |cs|
    ensures Encoded(cs, pulses)[RMT_RAM_ONE_LED * i + j] == ColorPulses(cs[i], pulses)[j]
  {
    var init := cs[..|cs| - 1];
    EncodedLength(cs, pulses);
    EncodedLength(init, pulses);
    assert Encoded(cs, pulses) == Encoded(init, pulses) + ColorPulses(cs[|cs| - 1], pulses);
    if i < |cs| - 1 {
      RunBefore(i, j, |cs| - 1);
      EncodedLayout(init, pulses, i, j);
      assert init[i] == cs[i];
    }
  }

  /** Slot `j` of run `i` lies before run `n` when `i < n`. */
  lemma RunBefore(i: nat, j: nat, n: nat)
    requires i < n && j < RMT_RAM_ONE_LED
    ensures RMT_RAM_ONE_LED * i + j < RMT_RAM_ONE_LED * n
  {
    assert RMT_RAM_ONE_LED * n == RMT_RAM_ONE_LED * i + RMT_RAM_ONE_LED * (n - i);
  }


  lemma {:induction false} EncodedLength(cs: seq<Rgb8>, pulses: (Word, Word))
    ensures |Encoded(cs, pulses)| == RMT_RAM_ONE_LED * |cs|
  {
    if cs != [] {
      EncodedLength(cs[..|cs| - 1], pulses);
    }
  }

  /** The blocking frame is exactly `buffer_size(n)` words: the `n` runs
      back to back from slot 0 and the terminator at slot `24 * n`. */
  lemma SyncStreamLayout(cs: seq<Rgb8>, pulses: (Word, Word))
    ensures |SyncStream(cs, pulses)| == BufferSize(|cs|)
    ensures SyncStream(cs, pulses)[RMT_RAM_ONE_LED * |cs|] == Terminator
    ensures forall i, j :: 0 <= i < |cs| && 0 <= j < RMT_RAM_ONE_LED ==>
      SyncStream(cs, pulses)[RMT_RAM_ONE_LED * i + j] == ColorPulses(cs[i], pulses)[j]
  {
    EncodedLength(cs, pulses);
    forall i, j | 0 <= i < |cs| && 0 <= j < RMT_RAM_ONE_LED
      ensures SyncStream(cs, pulses)[RMT_RAM_ONE_LED * i + j] == ColorPulses(cs[i], pulses)[j]
    {
      EncodedLayout(cs, pulses, i, j);
    }
  }

  lemma {:induction false} AsyncStreamLength(cs: seq<Rgb8>, pulses: (Word, Word))
    ensures |AsyncStream(cs, pulses)| == BufferSizeAsync(|cs|)
  {
    if cs != [] {
      AsyncStreamLength(cs[..|cs| - 1], pulses);
    }
  }

  /** Colour `i` occupies slots `25 * i .. 25 * i + 25` of the asynchronous
      frame: its 24 pulses, then a terminator at `25 * i + 24`. */
  lemma {:induction false} AsyncStreamLayout(cs: seq<Rgb8>, pulses: (Word, Word), i: nat, j: nat)
    requires i < |cs| && j <= RMT_RAM_ONE_LED
    ensures |AsyncStream(cs, pulses)| == BufferSizeAsync(|cs|)
    ensures AsyncStream(cs, pulses)[(RMT_RAM_ONE_LED + 1) * i + j]
         == if j < RMT_RAM_ONE_LED then ColorPulses(cs[i], pulses)[j] else Terminator
  {
    AsyncStreamLength(cs, pulses);
    var init := cs[..|cs| - 1];
    var frame := LedFrame(cs[|cs| - 1], pulses);
    AsyncStreamLength(init, pulses);
    var head := AsyncStream(init, pulses);
    assert AsyncStream(cs, pulses) == head + frame;
    var k := 25 * i + j;
    if i < |cs| - 1 {
      assert k < 25 * (|cs| - 1);
      AsyncStreamLayout(init, pulses, i, j);
      assert init[i] == cs[i];
      assert AsyncStream(cs, pulses)[k] == head[k];
    } else {
      assert k - |head| == j;
      assert AsyncStream(cs, pulses)[k] == frame[j];
    }
  }

  // ---------------------------------------------------------------------
  // Decoding, the codec's inverse

  /** Reads 8 pulse words back as a byte, most significant bit first; a word
      equal to `one` is a set bit. */
  function DecodeChannel(ws: seq<Word>, one: Word): bv8
  {
    if ws == [] then 0
    else (DecodeChannel(ws[..|ws| - 1], one) << 1) | (if ws[|ws| - 1] == one then 1 else 0)
  }

  /** Reads a colour's 24 words back in the order green, red, blue. */
  function DecodeColor(ws: seq<Word>, one: Word): Rgb8
    requires |ws| == RMT_RAM_ONE_LED
  {
    Rgb8(r := DecodeChannel(ws[8..16], one), g := DecodeChannel(ws[..8], one),
         b := DecodeChannel(ws[16..], one))
  }

  /** The top `k` bits of `v`, that is `v >> (8 - k)`. */
  function TopBits(v: bv8, k: nat): bv8
    requires k <= 8
  {
    match k
    case 0 => 0
    case 1 => v >> 7
    case 2 => v >> 6
    case 3 => v >> 5
    case 4 => v >> 4
    case 5 => v >> 3
    case 6 => v >> 2
    case 7 => v >> 1
    case _ => v
  }

  /** Taking one more top bit shifts the previous ones left and brings in
      the bit that mask `k - 1` tests. */
  lemma ShiftInBit(v: bv8, k: nat)
    requires 1 <= k <= 8
    ensures TopBits(v, k) == (TopBits(v, k - 1) << 1) | (if v & Masks[k - 1] == 0 then 0 else 1)
  {
  }

  /** The first `k` words of a channel's run decode to the top `k` bits of
      the byte. */
  lemma {:induction false} DecodeChannelPrefix(v: bv8, pulses: (Word, Word), k: nat)
    requires pulses.0 != pulses.1 && k <= 8
    ensures DecodeChannel(ChannelPulses(v, pulses)[..k], pulses.1) == TopBits(v, k)
  {
    var run := ChannelPulses(v, pulses);
    if k > 0 {
      var ws := run[..k];
      assert ws[..k - 1] == run[..k - 1];
      DecodeChannelPrefix(v, pulses, k - 1);
      ShiftInBit(v, k);
    }
  }

  /** Decoding a channel's run gives back the byte, provided the two pulses
      differ. */
  lemma ChannelRoundTrip(v: bv8, pulses: (Word, Word))
    requires pulses.0 != pulses.1
    ensures DecodeChannel(ChannelPulses(v, pulses), pulses.1) == v
  {
    DecodeChannelPrefix(v, pulses, 8);
    assert ChannelPulses(v, pulses)[..8] == ChannelPulses(v, pulses);
  }

  /** Decoding a colour's run gives back the colour, provided the two pulses
      differ. */
  lemma ColorRoundTrip(c: Rgb8, pulses: (Word, Word))
    requires pulses.0 != pulses.1
    ensures DecodeColor(ColorPulses(c, pulses), pulses.1) == c
  {
    var g, r, b := ChannelPulses(c.g, pulses), ChannelPulses(c.r, pulses), ChannelPulses(c.b, pulses);
    var ws := ColorPulses(c, pulses);
    assert ws[..8] == g && ws[8..16] == r && ws[16..] == b;
    ChannelRoundTrip(c.g, pulses);
    ChannelRoundTrip(c.r, pulses);
    ChannelRoundTrip(c.b, pulses);
  }
}
