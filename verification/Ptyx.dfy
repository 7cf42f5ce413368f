/** Vocabulary shared by the models of the native runtime: machine integers,
    byte strings, error values, and the concatenation of chunk lists. */
module Ptyx {

  type byte = x: int | 0 <= x < 256
  type Bytes = seq<byte>

  type i32 = x: int | -0x8000_0000 <= x < 0x8000_0000
  const U64_MAX: int := 0xFFFF_FFFF_FFFF_FFFF
  type u64 = x: int | 0 <= x <= U64_MAX
  /** Every supported target has 64-bit pointers. */
  type usize = x: int | 0 <= x <= U64_MAX

  const KIB: usize := 1024
  const MIB: usize := 1024 * 1024

  function SaturatingAdd(a: nat, b: nat): u64 {
    if a + b > U64_MAX then U64_MAX else a + b
  }

  function SaturatingSub(a: nat, b: nat): nat {
    if a < b then 0 else a - b
  }

  /** An atomic subtraction that wraps below zero. */
  function WrappingSub(a: nat, b: nat): nat
    requires b <= U64_MAX + 1
  {
    if a < b then a + (U64_MAX + 1 - b) else a - b
  }

  function Min(a: int, b: int): int {
    if a < b then a else b
  }

  function Max(a: int, b: int): int {
    if a < b then b else a
  }

  datatype Option<+T> = None | Some(value: T)

  datatype Result<+T, +E> = Ok(value: T) | Err(error: E)

  datatype ErrorKind =
    | Error | InvalidArgument | Unsupported | OutOfMemory | Closed | WouldBlock
    | BufferTooSmall | SpawnFailed | IoFailed | WaitFailed | BrokenPipe
    | PermissionDenied | Busy | NativeError

  datatype PtyxError = PtyxError(kind: ErrorKind, message: string)

  /** The bytes of a list of chunks, in order. */
  function Concat(chunks: seq<Bytes>): Bytes {
    if chunks == [] then [] else chunks[0] + Concat(chunks[1..])
  }

  lemma {:induction false} ConcatAppend(a: seq<Bytes>, b: seq<Bytes>)
    ensures Concat(a + b) == Concat(a) + Concat(b)
  {
    if a == [] {
      assert a + b == b;
    } else {
      assert (a + b)[1..] == a[1..] + b;
      ConcatAppend(a[1..], b);
    }
  }

  lemma ConcatSnoc(a: seq<Bytes>, chunk: Bytes)
    ensures Concat(a + [chunk]) == Concat(a) + chunk
  {
    ConcatAppend(a, [chunk]);
  }
}
