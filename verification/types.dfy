/**
  Shared vocabulary of the heap-free logger: machine-width integers, the
  fixed-width message buffer, the record kinds and the error enum.
 */
module Types {

  /** Length of every message buffer (MAX_LOG_LENGTH). */
  const MaxLogLength: nat := 1024

  /** Rust's `usize` on a 64-bit target. No arithmetic is done on it. */
  type USize = x: int | 0 <= x < 0x1_0000_0000_0000_0000

  /** Rust's `c_char`, taken as a signed byte. */
  type CChar = x: int | -128 <= x < 128

  /** A message is an opaque buffer of exactly `MaxLogLength` characters. */
  type Message = m: seq<CChar> | |m| == MaxLogLength witness ZeroMessage()

  /** The all-zero buffer every slot holds in a fresh logger. */
  function ZeroMessage(): seq<CChar> {
    seq(MaxLogLength, _ => 0)
  }

  datatype Option<+T> = None | Some(value: T) {
    /** The value, or `default` when there is none (Rust's `unwrap_or`). */
    function GetOr(default: T): T {
      match this
      case Some(v) => v
      case None => default
    }
  }

  /** The logger's one error enum. */
  datatype OverflowError = BufferEntryOverflow | InvalidIndex(index: USize)

  /** Rust's `Result<T, OverflowError>`. */
  datatype Result<+T> = Ok(value: T) | Err(error: OverflowError)

  /** The four record kinds of the heap-free logger. */
  datatype LoggingTypeNS = Error | Warning | Log | Marker
}
