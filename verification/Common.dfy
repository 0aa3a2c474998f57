/** Small datatypes shared by every other module. */
module Common {

  datatype Option<+T> = None | Some(value: T)

  /** One octet of a file, of a connection or of a random block. */
  newtype Byte = b: int | 0 <= b < 256

  function Min(a: int, b: int): int {
    if a < b then a else b
  }

  function Max(a: int, b: int): int {
    if a > b then a else b
  }
}

/**
  The 64-bit integer conversions of the C code: `gsize` is unsigned, `goffset` and `gint64`
  are signed, and mixing them converts silently.
 */
module Words {
  const TWO_32: int := 0x1_0000_0000
  const TWO_63: int := 0x8000_0000_0000_0000
  const TWO_64: int := 0x1_0000_0000_0000_0000

  function ToUnsigned(x: int): nat {
    x % TWO_64
  }

  function ToSigned(x: int): int {
    var u := x % TWO_64;
    if u < TWO_63 then u else u - TWO_64
  }

  predicate IsSigned64(x: int) {
    -TWO_63 <= x < TWO_63
  }
}
