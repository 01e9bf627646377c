/** Result codes and sizes shared by the ring buffer, the transport and the message layer. */
module Types {

  newtype byte = x: int | 0 <= x < 0x100

  const TWO32: int := 0x1_0000_0000

  type u32 = x: int | 0 <= x < TWO32
  type u64 = x: int | 0 <= x < TWO32 * TWO32
  type i32 = x: int | -0x8000_0000 <= x < 0x8000_0000

  /** The values of whad_result_t. */
  datatype Status = Success | Error | NoMessage | RingEmpty | RingFull

  datatype Option<+T> = None | Some(value: T)

  const RING_SLOTS: int := 1024
  const RING_CAPACITY: int := RING_SLOTS - 1
  const HEADER_SIZE: int := 4
  const MAX_PAYLOAD: int := RING_CAPACITY - HEADER_SIZE

  function Min(a: int, b: int): int {
    if a <= b then a else b
  }
}
