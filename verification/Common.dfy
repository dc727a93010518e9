/** Result and option types, bytes, and the library functions the proxy calls but does not define. */
module Common {

  datatype Option<+T> = None | Some(value: T)

  datatype Result<+T, +E> = Ok(value: T) | Err(error: E)

  type byte = b: int | 0 <= b < 256

  /** Functions of other crates. Every theorem of the project holds for every choice of them. */
  datatype Library = Library(
    globMatches: (string, string) -> bool,  // glob::Pattern::matches (pattern, text)
    globCompiles: string -> bool,           // glob::Pattern::new succeeds
    decodeLossy: seq<byte> -> string,       // String::from_utf8_lossy
    sha256Hex: seq<byte> -> string,         // hex of the SHA-256 digest
    base64: seq<byte> -> string             // standard base64
  )
}
