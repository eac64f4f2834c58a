/** The pulse pair for a given source clock (`led_pulses_for_clock`). */
module Pulses {
  import opened SmartLedTypes

  /** Protocol timings in nanoseconds. */
  const SK68XX_CODE_PERIOD: u32 := 1250
  const SK68XX_T0H_NS: u32 := 400
  const SK68XX_T0L_NS: u32 := SK68XX_CODE_PERIOD - SK68XX_T0H_NS
  const SK68XX_T1H_NS: u32 := 850
  const SK68XX_T1L_NS: u32 := SK68XX_CODE_PERIOD - SK68XX_T1H_NS

  /** Largest clock (MHz) for which no tick count is cut by the `as u16` cast:
      850 * 77101 / 1000 = 65535. Below it no u32 product wraps either. */
  const MAX_EXACT_CLOCK: nat := 77101

  /** `((ns * clock) / 1000) as u16` with the u32 product wrapping. */
  function Ticks(ns: u32, clock: u32): u16
  {
    ((ns * clock) % 0x1_0000_0000 / 1000) % 0x1_0000
  }

  /** Truncated tick count of `ns` nanoseconds at `clock` MHz, in exact
      arithmetic. */
  function NominalTicks(ns: nat, clock: nat): nat
  {
    ns * clock / 1000
  }

  /** (zero pulse, one pulse) for a source clock of `srcClock` MHz. Both
      pulses go High then Low; the zero pulse's high time is the one pulse's
      low time and vice versa, because T0H = T1L and T0L = T1H. */
  function LedPulsesForClock(srcClock: u32): (r: (Word, Word))
    ensures r.0.Pulse? && r.1.Pulse?
    ensures r.0.level1 == High && r.0.level2 == Low
    ensures r.1.level1 == High && r.1.level2 == Low
    ensures r.0.length1 == r.1.length2 && r.0.length2 == r.1.length1
  {
    (Pulse(High, Ticks(SK68XX_T0H_NS, srcClock), Low, Ticks(SK68XX_T0L_NS, srcClock)),
     Pulse(High, Ticks(SK68XX_T1H_NS, srcClock), Low, Ticks(SK68XX_T1L_NS, srcClock)))
  }

  /** Below the cast limit a tick count is the nominal one. */
  lemma TicksExact(ns: u32, clock: u32)
    requires ns <= SK68XX_T0L_NS && clock <= MAX_EXACT_CLOCK
    ensures Ticks(ns, clock) == NominalTicks(ns, clock)
  {
    assert ns * clock <= 850 * clock by {
      assert (850 - ns) * clock >= 0;
    }
  }

  /** Each half of each pulse is the nominal duration truncated to whole
      ticks, and each pulse's period is the nominal period or at most one
      tick below it. */
  lemma PulseTiming(f: u32)
    requires f <= MAX_EXACT_CLOCK
    ensures var (zero, one) := LedPulsesForClock(f);
      && zero.length1 == 400 * f / 1000 && zero.length2 == 850 * f / 1000
      && one.length1 == 850 * f / 1000 && one.length2 == 400 * f / 1000
      && zero.length1 * 1000 <= 400 * f < (zero.length1 + 1) * 1000
      && zero.length2 * 1000 <= 850 * f < (zero.length2 + 1) * 1000
      && 1250 * f / 1000 - 1 <= zero.length1 + zero.length2 <= 1250 * f / 1000
      && 1250 * f / 1000 - 1 <= one.length1 + one.length2 <= 1250 * f / 1000
  {
    TicksExact(SK68XX_T0H_NS, f);
    TicksExact(SK68XX_T0L_NS, f);
  }

  /** At the usual 80 MHz APB clock the pulses are (32, 68) and (68, 32)
      ticks, and the period is exact. */
  lemma PulsesAt80MHz()
    ensures LedPulsesForClock(80) == (Pulse(High, 32, Low, 68), Pulse(High, 68, Low, 32))
  {
  }

  /** The truncation can lose a tick of period: at 1 MHz both pulses are
      (0, 0) while the nominal period is 1 tick. */
  lemma PeriodShortAt1MHz()
    ensures var (zero, one) := LedPulsesForClock(1);
      zero == one && zero.length1 + zero.length2 == 0 && 1250 * 1 / 1000 == 1
  {
  }

  /** The two pulses are distinguishable exactly from 2 MHz up to the cast
      limit. */
  lemma PulsesDistinct(f: u32)
    requires f <= MAX_EXACT_CLOCK
    ensures LedPulsesForClock(f).0 != LedPulsesForClock(f).1 <==> f >= 2
  {
    PulseTiming(f);
  }

  /** Above the cast limit the `as u16` cast wraps: at 77102 MHz the one
      pulse's high time is 65536 ticks, cast to 0, so the one pulse is
      `(0, 30840)` ticks, far below the nominal period of 96377. The two
      pulses still differ there. */
  lemma CastWrapsAboveLimit()
    ensures LedPulsesForClock(77102).1.length1 == 0
    ensures LedPulsesForClock(77102).1.length2 == 30840
    ensures NominalTicks(850, 77102) == 65536
    ensures LedPulsesForClock(77102).1.length1 + LedPulsesForClock(77102).1.length2
          < NominalTicks(1250, 77102) - 1
    ensures LedPulsesForClock(77102).0 != LedPulsesForClock(77102).1
  {
  }

  /** The first clock above 1 MHz at which the wrapped pulses coincide:
      at 145636 MHz both are (58254, 58254) ticks. */
  lemma PulsesCoincideAfterWrap()
    ensures LedPulsesForClock(145636).0 == LedPulsesForClock(145636).1
    ensures LedPulsesForClock(145636).0 == Pulse(High, 58254, Low, 58254)
  {
  }
}
