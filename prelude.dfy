/** Basic vocabulary shared by the configuration and the task store: Rust `String`s are
    UTF-8 byte sequences, and the edit distance compares them byte by byte. */
module Prelude {

  /** One byte of a UTF-8 encoded string. */
  type byte = x: int | 0 <= x < 256

  /** A Rust `String`, seen as its bytes (`as_bytes()`). */
  type Str = seq<byte>

  datatype Option<T> = None | Some(value: T)

  /** The bytes of an ASCII literal. Every literal of the program is ASCII, and the UTF-8
      encoding of an ASCII character is the single byte of its code. */
  function Ascii(s: string): Str
  {
    seq(|s|, i requires 0 <= i < |s| => (s[i] as int % 256) as byte)
  }
}
