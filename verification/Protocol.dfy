/** Constants and small types shared by the stream data path. */
module Protocol {

  type byte = x: int | 0 <= x < 256

  datatype Option<+T> = None | Some(value: T)

  /** Largest stream offset, 2^62 - 1. */
  const MAX_BYTE_COUNT: int := 0x3FFF_FFFF_FFFF_FFFF

  /** Sentinel for "no byte count". */
  const INVALID_BYTE_COUNT: int := -1

  const MAX_STREAM_FRAME_SORTER_GAPS: int := 20000
  const MIN_STREAM_FRAME_BUFFER_SIZE: int := 128

  function Min(a: int, b: int): int { if a <= b then a else b }

  function Max(a: int, b: int): int { if a >= b then a else b }
}
