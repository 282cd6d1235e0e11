/** Values shared by every part of the model: bytes, paths, errors and the
    Result type that stands for the program's `Result<T>` alias. */
module Types {

  /** One byte of file or stream content. */
  newtype byte = b: int | 0 <= b < 256

  /** A file-system path, kept as its text. */
  type Path = string

  datatype Option<T> = None | Some(value: T)

  /** The error kinds the core can raise. `Io` covers every operating-system
      failure (open, read, map, write, rename); `InvalidPattern` is a pattern
      the regex builder refuses; `InvalidPath` is a target without a parent
      directory. */
  datatype Error = InvalidPattern | InvalidPath(path: Path) | Io

  datatype Result<T> = Ok(value: T) | Err(error: Error)

  /** UTF-8 encoding of one Unicode scalar value, as `String::into_bytes`
      produces it. */
  function EncodeChar(c: char): (r: seq<byte>)
    ensures 1 <= |r| <= 4
    ensures |r| == 1 <==> (c as int) < 0x80
    ensures (c as int) < 0x80 ==> r == [c as int as byte]
  {
    var n := c as int;
    if n < 0x80 then
      [n as byte]
    else if n < 0x800 then
      [(0xC0 + n / 0x40) as byte, (0x80 + n % 0x40) as byte]
    else if n < 0x1_0000 then
      [(0xE0 + n / 0x1000) as byte, (0x80 + n / 0x40 % 0x40) as byte, (0x80 + n % 0x40) as byte]
    else
      [(0xF0 + n / 0x4_0000) as byte, (0x80 + n / 0x1000 % 0x40) as byte,
       (0x80 + n / 0x40 % 0x40) as byte, (0x80 + n % 0x40) as byte]
  }

  /** The UTF-8 bytes of a string (`String::into_bytes`). */
  function Utf8(s: string): (r: seq<byte>)
    ensures |s| <= |r| <= 4 * |s|
  {
    if s == [] then [] else EncodeChar(s[0]) + Utf8(s[1..])
  }
}
