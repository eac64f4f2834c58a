/** Types shared by the SK68xx / WS2812 encoder and its two adapters
    (esp-hal-smartled/src/lib.rs). */
module SmartLedTypes {

  type u16 = x: int | 0 <= x < 0x1_0000
  type u32 = x: int | 0 <= x < 0x1_0000_0000

  /** Output level of one half of a pulse. */
  datatype Level = Low | High

  /** One 32-bit word of the RMT buffer. `Pulse` is a word built by the
      peripheral library's pulse constructor from (level, ticks, level, ticks);
      its bit packing belongs to that library and is left abstract. `Raw` is
      any other 32-bit value, such as a caller's initial contents or the
      end marker. */
  datatype Word =
    | Pulse(level1: Level, length1: u16, level2: Level, length2: u16)
    | Raw(bits: u32)

  /** The end-of-transmission word `0`. */
  const Terminator: Word := Raw(0)

  /** A colour with 8 bits per channel. */
  datatype Rgb8 = Rgb8(r: bv8, g: bv8, b: bv8)

  /** The peripheral's own error report; its variants are not modelled. */
  datatype RmtError = RmtError(code: nat)

  /** `LedAdapterError`. */
  datatype LedAdapterError =
    | BufferSizeExceeded
    | TransmissionError(cause: RmtError)

  /** `Result<(), LedAdapterError>`. */
  datatype Status = Ok | Err(error: LedAdapterError)

  datatype Option<T> = None | Some(value: T)

  function Min(a: int, b: int): int { if a <= b then a else b }
}
