/** Bytes and the little-endian 16-bit integers of the thermometer's wire format. */
module Wire {

  type byte = x: nat | x < 0x100
  type u16 = x: nat | x < 0x1_0000

  const I16_MIN: int := -0x8000
  const I16_MAX: int := 0x7FFF

  predicate IsI16(v: int) {
    I16_MIN <= v <= I16_MAX
  }

  /** `u16::from_le_bytes([lo, hi])` */
  function U16FromLe(lo: byte, hi: byte): (v: u16)
    ensures v % 0x100 == lo && v / 0x100 == hi
  {
    lo + 0x100 * hi
  }

  /** `v.to_le_bytes()` for a `u16` */
  function U16ToLe(v: u16): (b: seq<byte>)
    ensures |b| == 2 && U16FromLe(b[0], b[1]) == v
  {
    [v % 0x100, v / 0x100]
  }

  /** `i16::from_le_bytes([lo, hi])`: the two bytes read as a two's-complement 16-bit integer */
  function I16FromLe(lo: byte, hi: byte): (v: int)
    ensures IsI16(v)
    ensures v < 0 <==> hi >= 0x80
    ensures (v + 0x1_0000) % 0x1_0000 == U16FromLe(lo, hi)
  {
    var u := U16FromLe(lo, hi);
    if u >= 0x8000 then u - 0x1_0000 else u
  }

  /** `v.to_le_bytes()` for an `i16`: the two's-complement bits of `v`, low byte first */
  function I16ToLe(v: int): (b: seq<byte>)
    requires IsI16(v)
    ensures |b| == 2
    ensures U16FromLe(b[0], b[1]) == (v + 0x1_0000) % 0x1_0000
  {
    U16ToLe(if v < 0 then v + 0x1_0000 else v)
  }

  lemma I16RoundTrip(v: int)
    requires IsI16(v)
    ensures var b := I16ToLe(v); I16FromLe(b[0], b[1]) == v
  {
  }

  lemma I16BytesRoundTrip(lo: byte, hi: byte)
    ensures I16ToLe(I16FromLe(lo, hi)) == [lo, hi]
  {
  }

  lemma U16BytesRoundTrip(lo: byte, hi: byte)
    ensures U16ToLe(U16FromLe(lo, hi)) == [lo, hi]
  {
  }
}
