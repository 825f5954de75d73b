/** Machine words and byte strings, and the conversions the program performs between them. */
module Words {
  const TWO32: int := 0x1_0000_0000
  const TWO63: int := 0x8000_0000_0000_0000
  const TWO64: int := 0x1_0000_0000_0000_0000

  type Byte = x: int | 0 <= x < 256
  type Bytes = seq<Byte>
  type U64 = x: int | 0 <= x < 0x1_0000_0000_0000_0000
  type I64 = x: int | -0x8000_0000_0000_0000 <= x < 0x8000_0000_0000_0000
  type I32 = x: int | -0x8000_0000 <= x < 0x8000_0000

  datatype Option<+T> = None | Some(value: T)

  /** Conversion of a 64-bit value to an unsigned word (`app_pc`, `size_t`). */
  function AsU64(x: int): U64 {
    x % TWO64
  }

  /** Conversion of a 64-bit value to a signed word (`AbsAddr`, `int64_t`). */
  function AsI64(x: int): I64 {
    var u := x % TWO64;
    if u < TWO63 then u else u - TWO64
  }

  lemma UnsignedOfSigned(x: int)
    ensures AsU64(AsI64(x)) == AsU64(x)
  {
    if x % TWO64 >= TWO63 {
      assert (x % TWO64 - TWO64) % TWO64 == x % TWO64;
    }
  }

  /** What `c_str()` lets a C function see of a string: the bytes before the first NUL. */
  function CStr(s: Bytes): (r: Bytes)
    ensures r <= s && 0 !in r
    ensures 0 !in s ==> r == s
    ensures r != s ==> s[|r|] == 0
  {
    if s == [] || s[0] == 0 then [] else [s[0]] + CStr(s[1..])
  }
}
