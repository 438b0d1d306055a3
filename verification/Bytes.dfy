/** Octets, option and result values, and the byte-level types shared by every component. */
module Bytes {

  type byte = x: int | 0 <= x < 256

  type bytes = seq<byte>

  type uint32 = x: int | 0 <= x < 0x1_0000_0000

  type uint64 = x: int | 0 <= x < 0x1_0000_0000_0000_0000

  type int32 = x: int | -0x8000_0000 <= x < 0x8000_0000

  type int64 = x: int | -0x8000_0000_0000_0000 <= x < 0x8000_0000_0000_0000

  /** The 32-byte value of a SHA-256 computation. */
  type digest = b: bytes | |b| == 32 witness seq(32, _ => 0)

  /** An Ed25519 signature: 64 octets. */
  type signature = b: bytes | |b| == 64 witness seq(64, _ => 0)

  /** A string of the program: octets that are well-formed UTF-8. */
  type text = b: bytes | ValidUtf8(b) witness []

  datatype Option<+T> = None | Some(value: T) {

    predicate IsFailure() {
      None?
    }

    function PropagateFailure<U>(): Option<U>
      requires None?
    {
      None
    }

    function Extract(): T
      requires Some?
    {
      value
    }
  }

  datatype Result<+T, +E> = Ok(value: T) | Err(error: E) {

    predicate IsFailure() {
      Err?
    }

    function PropagateFailure<U>(): Result<U, E>
      requires Err?
    {
      Err(error)
    }

    function Extract(): T
      requires Ok?
    {
      value
    }
  }

  predicate Continuation(b: byte) {
    0x80 <= b <= 0xBF
  }

  /** The length of the well-formed UTF-8 sequence at the front of a non-empty input
      (Table 3-7 of the Unicode Standard); 0 when there is none. */
  function Utf8Step(b: bytes): (n: nat)
    requires b != []
    ensures n <= |b|
  {
    if b[0] < 0x80 then 1
    else if 0xC2 <= b[0] <= 0xDF && |b| >= 2 && Continuation(b[1]) then 2
    else if 0xE0 <= b[0] <= 0xEF && |b| >= 3 && Continuation(b[1]) && Continuation(b[2])
            && (b[0] == 0xE0 ==> 0xA0 <= b[1]) && (b[0] == 0xED ==> b[1] <= 0x9F) then 3
    else if 0xF0 <= b[0] <= 0xF4 && |b| >= 4 && Continuation(b[1]) && Continuation(b[2]) && Continuation(b[3])
            && (b[0] == 0xF0 ==> 0x90 <= b[1]) && (b[0] == 0xF4 ==> b[1] <= 0x8F) then 4
    else 0
  }

  predicate ValidUtf8(b: bytes)
    decreases |b|
  {
    b == [] || (Utf8Step(b) > 0 && ValidUtf8(b[Utf8Step(b)..]))
  }

  /** Octets that are all below 0x80 are well-formed text. */
  lemma {:induction false} AsciiIsText(b: bytes)
    requires forall i :: 0 <= i < |b| ==> b[i] < 0x80
    ensures ValidUtf8(b)
    decreases |b|
  {
    if b != [] {
      AsciiIsText(b[1..]);
    }
  }
}
