/** Types shared by all modules. A Rust `String` is the sequence of its UTF-8
    bytes, because the client's lengths, searches and codecs work on bytes. */
module Common {
  type u8 = x: int | 0 <= x < 0x100
  type u64 = x: int | 0 <= x < 0x1_0000_0000_0000_0000
  type Bytes = seq<u8>
  type Str = Bytes

  datatype Option<+T> = None | Some(value: T)
  datatype Result<+T, +E> = Ok(value: T) | Err(error: E)

  const SLASH: u8 := '/' as int
  const DOT: u8 := '.' as int
  const HYPHEN: u8 := '-' as int
}
