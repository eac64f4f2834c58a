# esp-hal-smartled: the pulse encoder and the two LED adapters

This project models the core of `esp-hal-smartled`. That crate drives
WS2812 / SK68xx "smart" LEDs from an ESP32 RMT (remote control) transmit
channel, and the model covers the following:

- **Pulse pair** (`led_pulses_for_clock`). This turns the APB source clock
  in MHz into two RMT pulse words. The zero pulse is high for 400 ns and low
  for 850 ns. The one pulse is high for 850 ns and low for 400 ns. Each tick
  count is `ns * clock / 1000`, with the `u32` product wrapping and the
  result cast to `u16`.
- **Codec** (`convert_rgb_channel_to_pulses`, `convert_rgb_to_pulses`).
  These write one word per bit through a mutable slice iterator:
  - bits go most significant first, using the masks `128 … 1`;
  - channels go in the order green, red, blue;
  - writing fails with `BufferSizeExceeded` at the first slot that is not
    there.

  The iterator is modelled as a cursor `pos`. The effect of writing a run
  through it is `Codec.Overwrite`: the words that fit are stored from `pos`
  on.
- **Sizes** (`buffer_size`, `buffer_size_async`).
- **Blocking adapter** (`SmartLedsAdapter`). `write` does the following:
  1. It encodes every colour from slot 0.
  2. It appends one terminator word `0`.
  3. It takes the channel out of its `Option`.
  4. It transmits the whole array and waits.
  5. It puts the channel back.
- **Asynchronous adapter** (`SmartLedsAdapterAsync`):
  - `prepare_rmt_buffer` writes a 24-word run plus a terminator per colour.
  - `write` then transmits `rmt_buffer.chunks(25)` one after the other. It
    stops at the first failure.

The peripheral itself is not modelled. The following inputs stand in for it:

- what a transmission answers is an input of each `write`:
  - `BlockingAnswer` for the blocking adapter;
  - `answers(k)` for the `k`-th chunk of the asynchronous adapter;
- the clock frequency is a constructor argument;
- every transmission started is appended to a ghost log `sent`.

The model follows the code. This gives the following behaviour, which the
contracts state outright:

- **Period can be one tick short.** The two halves of a pulse are truncated
  separately, so up to 77101 MHz (the `as u16` cast limit) a pulse's period
  is the nominal `1250 * f / 1000` ticks or one tick less. At 1 MHz both
  pulses are `(0, 0)`, and up to that same limit the pulses differ exactly
  from 2 MHz on (`Pulses.PulsesDistinct`). Above 77101 MHz the tick counts
  wrap in the cast. At 77102 MHz the one pulse is `(0, 30840)` ticks, so
  the period statement fails there while the pulses still differ
  (`Pulses.CastWrapsAboveLimit`). At 145636 MHz the two pulses are equal
  again, both `(58254, 58254)` (`Pulses.PulsesCoincideAfterWrap`).
- **A rejected transmit loses the channel.** When `transmit` itself fails,
  `?` returns before the channel is put back. Every later blocking `write`
  that fits then panics in `unwrap`, which the model makes a precondition.
  A `write` that does not fit still returns `BufferSizeExceeded` first.
- **The asynchronous `write` sends every chunk of the array.** It sends
  the array's `ceil(BUFFER_SIZE / 25)` chunks in order, up to and including
  the first chunk whose transmission fails, not one chunk per colour. When the array is
  longer than `buffer_size_async(n)`, the chunks after the `n` frames are
  whatever the array held before (`Properties.AsyncWriteChunks`).
- **A failed write has already changed the array.** A write that fails with
  `BufferSizeExceeded` has overwritten every slot up to the end of the array
  with the start of the frame. In the blocking adapter that frame is the
  colours' runs and then the terminator; in the asynchronous adapter it is
  the colours' frames.

## Model

| member | source | states |
|---|---|---|
| Pulses.LedPulsesForClock | esp-hal-smartled/src/lib.rs:81-96 | both words are pulses that go High then Low; the zero pulse's high time is the one pulse's low time and vice versa (T0H = T1L, T0L = T1H) |
| Pulses.TicksExact | esp-hal-smartled/src/lib.rs:85-93 | up to 77101 MHz neither the `u32` product nor the `as u16` cast changes a tick count: it is `ns * clock / 1000` exactly |
| Pulses.PulseTiming | esp-hal-smartled/src/lib.rs:58-96 | up to the cast limit each half is its nominal duration truncated to whole ticks (with the floor bounds), and each pulse's period lies between the nominal period minus one tick and the nominal period |
| Pulses.PulsesAt80MHz | esp-hal-smartled/src/lib.rs:81-96 | at the usual 80 MHz APB clock the pulses are (High 32, Low 68) and (High 68, Low 32) |
| Pulses.PeriodShortAt1MHz | esp-hal-smartled/src/lib.rs:81-96 | at 1 MHz both pulses are (0, 0), one tick short of the nominal period, and the two bit values are indistinguishable |
| Pulses.PulsesDistinct | esp-hal-smartled/src/lib.rs:81-96 | up to the cast limit the zero and one pulses differ if and only if the clock is at least 2 MHz |
| Pulses.CastWrapsAboveLimit | esp-hal-smartled/src/lib.rs:91 | at 77102 MHz the one pulse's high time is 65536 ticks, which the `as u16` cast turns into 0, so the one pulse is `(0, 30840)` ticks, more than one tick below the nominal period, while the two pulses still differ |
| Pulses.PulsesCoincideAfterWrap | esp-hal-smartled/src/lib.rs:81-96 | at 145636 MHz the wrapped tick counts make the zero and one pulses equal, both `(58254, 58254)` |
| Codec.OverwriteThen | esp-hal-smartled/src/lib.rs:111-113 | two runs written one after the other through the same iterator leave the array as the two runs written at once |
| Codec.OverwriteFull | esp-hal-smartled/src/lib.rs:123 | once the iterator is exhausted, whatever would have been written next changes nothing |
| Codec.ChannelPulsesAt | esp-hal-smartled/src/lib.rs:122-128 | word `i` of a channel's run is the one pulse when bit `7 - i` of the byte is set and the zero pulse otherwise (most significant bit first) |
| Codec.ColorPulsesAt | esp-hal-smartled/src/lib.rs:106-115 | word `j` of a colour's run is the pulse of bit `7 - j % 8` of channel `j / 8`, channels in the order green, red, blue |
| Codec.ConvertRgbChannelToPulses | esp-hal-smartled/src/lib.rs:117-131 | the array becomes the channel's 8-word run written at the cursor (as much as fits), the cursor advances by the words written, and the result is `Ok` exactly when all 8 fit, `BufferSizeExceeded` otherwise |
| Codec.ConvertRgbToPulses | esp-hal-smartled/src/lib.rs:106-115 | the array becomes the colour's 24-word run written at the cursor (as much as fits), the cursor advances by the words written, and the result is `Ok` exactly when all 24 fit, `BufferSizeExceeded` otherwise |
| Codec.EncodedAppend | esp-hal-smartled/src/lib.rs:223-225 | encoding two colour sequences one after the other gives the encoding of their concatenation |
| Codec.AsyncStreamAppend | esp-hal-smartled/src/lib.rs:296-298 | the same for the asynchronous frames |
| Codec.EncodedOverflow | esp-hal-smartled/src/lib.rs:221-224 | once the runs of the first colours overflow the array, the runs of all colours overflow it too, and the remaining colours change nothing in it |
| Codec.AsyncOverflow | esp-hal-smartled/src/lib.rs:293-297 | once the frames of the first colours overflow the array, the frames of all colours overflow it too, and the remaining colours change nothing in it |
| Codec.EncodedLayout | esp-hal-smartled/src/lib.rs:223-225 | colour `i`'s run occupies words `24 * i .. 24 * i + 24` of the encoding |
| Codec.EncodedLength | esp-hal-smartled/src/lib.rs:56 | the encoding of `n` colours is `24 * n` words long |
| Codec.BufferSize | esp-hal-smartled/src/lib.rs:138-141 | room for all `24 n` pulse words and one end delimiter, so at least one word even with no colours. `Codec.SyncStreamLayout` proves the blocking frame of `n` colours is exactly this long, and `SmartLedsAdapter.Write` returns `BufferSizeExceeded` exactly when it exceeds the array |
| Codec.BufferSizeAsync | esp-hal-smartled/src/lib.rs:250-253 | one end delimiter per colour instead of one per frame: `buffer_size_async(n) + 1 == buffer_size(n) + n`, and it is zero exactly when there are no colours. `Codec.AsyncStreamLength` proves the asynchronous frame of `n` colours is exactly this long, and `SmartLedsAdapterAsync.PrepareRmtBuffer` returns `Ok` exactly when it fits the array |
| Codec.SyncStreamLayout | esp-hal-smartled/src/lib.rs:138-141 | the blocking frame is exactly `buffer_size(n)` words: the `n` runs back to back and the terminator at `24 * n` |
| Codec.AsyncStreamLength | esp-hal-smartled/src/lib.rs:250-253 | the asynchronous frame of `n` colours is exactly `buffer_size_async(n)` words |
| Codec.AsyncStreamLayout | esp-hal-smartled/src/lib.rs:303-312 | colour `i` occupies words `25 * i .. 25 * i + 25`: its 24 pulses, then a terminator |
| Codec.DecodeChannelPrefix | esp-hal-smartled/src/lib.rs:122-128 | the first `k` words of a channel's run read back as the top `k` bits of the byte, when the two pulses differ |
| Codec.ChannelRoundTrip | esp-hal-smartled/src/lib.rs:117-131 | reading a channel's run back gives the byte, when the two pulses differ |
| Codec.ColorRoundTrip | esp-hal-smartled/src/lib.rs:106-115 | reading a colour's 24 words back (green, red, blue) gives the colour, when the two pulses differ |
| Adapters.SmartLedsAdapter.constructor | esp-hal-smartled/src/lib.rs:180-199 | the adapter holds the channel, a copy of the caller's array and the pulses for the clock, and has sent nothing |
| Adapters.SmartLedsAdapter.Write | esp-hal-smartled/src/lib.rs:212-242 | the array becomes the frame (runs then terminator) written from slot 0; if the frame does not fit the result is `BufferSizeExceeded` with nothing sent and the channel untouched; otherwise the whole array is sent once, and the result and channel follow the answer: completed gives `Ok` with the channel back, a failed wait gives `TransmissionError` with the channel back, a rejected transmit gives `TransmissionError` with the channel gone |
| Adapters.SmartLedsAdapter.EncodeColors | esp-hal-smartled/src/lib.rs:218-225 | the array becomes the runs of all colours written from slot 0 (as much as fits); the result is `Ok` exactly when all runs fit, and then the cursor is just past them |
| Adapters.SmartLedsAdapter.Transmit | esp-hal-smartled/src/lib.rs:230-241 | the array is sent once; completed gives `Ok` with the channel back, a failed wait gives `TransmissionError` with the channel back, a rejected transmit gives `TransmissionError` with the channel gone |
| Adapters.ChunksFlatten | esp-hal-smartled/src/lib.rs:330 | the chunks joined back together are the array |
| Adapters.ChunkCount | esp-hal-smartled/src/lib.rs:330 | there are `ceil(len / 25)` chunks |
| Adapters.ChunkAt | esp-hal-smartled/src/lib.rs:330 | chunk `k` is the slice `25 * k .. min(25 * k + 25, len)` |
| Adapters.FirstFailureFrom | esp-hal-smartled/src/lib.rs:330-335 | the index where the chunk loop stops: every earlier chunk succeeded, and if it is below the chunk count that chunk failed |
| Adapters.SmartLedsAdapterAsync.constructor | esp-hal-smartled/src/lib.rs:265-284 | the adapter holds a copy of the caller's array and the pulses for the clock, and has sent nothing |
| Adapters.SmartLedsAdapterAsync.ConvertRgbToPulse | esp-hal-smartled/src/lib.rs:303-312 | the array becomes the colour's 24 pulses and a terminator written at the cursor (as much as fits), the cursor advances by the words written, and the result is `Ok` exactly when all 25 fit |
| Adapters.SmartLedsAdapterAsync.PrepareRmtBuffer | esp-hal-smartled/src/lib.rs:286-300 | the array becomes all colours' frames written from slot 0 (as much as fits), and the result is `Ok` exactly when `buffer_size_async(n)` words fit |
| Adapters.SmartLedsAdapterAsync.Write | esp-hal-smartled/src/lib.rs:324-337 | the array is prepared as above; if it does not fit the result is `BufferSizeExceeded` with nothing sent; otherwise the array's 25-word chunks are sent in order up to and including the first that fails, and the result is that chunk's `TransmissionError`, or `Ok` when none fails |
| Adapters.SmartLedsAdapterAsync.TransmitChunks | esp-hal-smartled/src/lib.rs:330-335 | the array's 25-word chunks are sent in order up to and including the first that fails; the result is that chunk's `TransmissionError`, or `Ok` when none fails |
| Properties.EncodedAt | esp-hal-smartled/src/lib.rs:223-225 | word `k` of the runs of `n` colours is the pulse of bit `7 - k % 8` of channel `(k % 24) / 8` of colour `k / 24` |
| Properties.SyncWriteLayout | esp-hal-smartled/src/lib.rs:217-228 | after a blocking write that fits, word `k` is the pulse of bit `7 - k % 8` of channel `(k % 24) / 8` of colour `k / 24` for `k < 24 n`, the terminator at `24 n`, and the old contents after it |
| Properties.SyncWriteExact | esp-hal-smartled/src/lib.rs:217-228 | when the array is exactly `buffer_size(n)` words long, a blocking write that fits leaves exactly the frame in it (the runs, then the terminator), so the one transmission is exactly that frame |
| Properties.SyncWriteEmpty | esp-hal-smartled/src/lib.rs:223-228 | a blocking write with no colours puts the terminator in slot 0 and changes nothing else |
| Properties.OverwriteExhausted | esp-hal-smartled/src/lib.rs:123 | when a run does not fit, the slots before the cursor are untouched and every slot from the cursor to the end holds the run's words in order |
| Properties.AsyncStreamCons | esp-hal-smartled/src/lib.rs:296-312 | the asynchronous frame of a non-empty colour sequence starts with the first colour's 25-word frame |
| Properties.ChunksCons | esp-hal-smartled/src/lib.rs:330 | a 25-word block in front of any words is a chunk of its own, followed by the chunks of the rest |
| Properties.ChunksAfterFrames | esp-hal-smartled/src/lib.rs:329-330 | chunking the frames of `n` colours followed by any words gives the `n` per-colour frames, then the chunks of those words |
| Properties.AsyncStreamChunks | esp-hal-smartled/src/lib.rs:296-312 | the asynchronous frame of `n` colours splits into exactly the `n` per-colour frames |
| Properties.AsyncWriteChunks | esp-hal-smartled/src/lib.rs:329-336 | after a prepare that fits, the chunks sent are the `n` per-colour frames followed by the chunks of the array's old contents past `25 n`, and exactly the `n` frames when the array is `buffer_size_async(n)` long |
| Properties.GreenAt80MHz | esp-hal-smartled/src/lib.rs:106-131 | at 80 MHz the colour green 0xFF, red 0, blue 0 is eight one-pulses followed by sixteen zero-pulses |
| Properties.ColorRoundTripAtClock | esp-hal-smartled/src/lib.rs:81-131 | from 2 MHz up to the cast limit, a colour's 24 words read back as the colour |

## Left out

- The RMT peripheral is not modelled. This covers channel configuration
  (`led_config`, `configure(..).unwrap()`), `transmit` and `wait`, and the
  GPIO pin. A transmission's outcome is an input of `write`.
- `Clocks::get().apb_clock.as_mhz()` is not modelled. The clock is a
  constructor argument.
- `PulseCode::new`'s bit packing belongs to the peripheral library, so it
  is not modelled. A pulse word keeps its four fields. A pulse word and a
  raw `u32` word are treated as distinct values, so the terminator `0` is
  never taken for a pulse.
- `async`/`await` scheduling is not modelled. The asynchronous `write` is a
  sequential loop over the chunks.
- The `smart_led_buffer!` and `smartLedBuffer!` macros are not modelled; they
  only size an array with `buffer_size`. The `From<RmtError>` conversion and
  the `Into<RGB8>` item conversion are not modelled either. Colours are
  given as a finite sequence rather than an iterator.
- The `BUFFER_SIZE` const generic is not modelled. The array length is
  whatever the caller's array has.
- Pulses.LedPulsesForClock: the `u32` product is modelled as wrapping, which
  is what a release build does. A debug build panics on the overflow instead,
  from 5 052 903 MHz, and the model does not capture that panic.
- Codec.BufferSize, Codec.BufferSizeAsync: `usize` overflow of `num_leds * 24 + 1` is not
  modelled, because arithmetic here is unbounded.
- Adapters.SmartLedsAdapter.Write: the panic of `take().unwrap()` on a
  missing channel is not modelled. Its precondition excludes exactly the
  calls that reach it.
- Adapters.SmartLedsAdapter.Write: a transmit that is rejected is still
  recorded in `sent`, as an attempt.
