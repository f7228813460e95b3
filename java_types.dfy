/** Java's primitive integer types, as far as the channel and the stream use them. */
module JavaTypes {

  /** A Java `byte`: a signed two's-complement 8-bit integer. */
  newtype byte = x: int | -128 <= x < 128

  const INT_MIN: int := -0x8000_0000
  const INT_MAX: int := 0x7FFF_FFFF

  /** `x` fits a Java `int`. */
  predicate IsInt(x: int) {
    INT_MIN <= x <= INT_MAX
  }

  function Min(a: int, b: int): (m: int)
    ensures m <= a && m <= b && (m == a || m == b)
  {
    if a <= b then a else b
  }

  /** The value an `AtomicInteger` holds after `getAndDecrement`: one less,
      wrapping from the smallest `int` to the largest. */
  function Decrement(x: int): (r: int)
    requires IsInt(x)
    ensures IsInt(r)
    ensures (r - (x - 1)) % 0x1_0000_0000 == 0
  {
    if x == INT_MIN then INT_MAX else x - 1
  }

  /** `b & 0xFF`: the byte read as an unsigned value, as `InputStream.read()` returns it. */
  function Unsigned(b: byte): (v: int)
    ensures 0 <= v < 256
    ensures (v - b as int) % 256 == 0
  {
    if b < 0 then b as int + 256 else b as int
  }

  /** `(byte) v`: Java's narrowing cast keeps the low eight bits. */
  function ToByte(v: int): (b: byte)
    ensures (b as int - v) % 256 == 0
  {
    var low := v % 256;
    if low < 128 then low as byte else (low - 256) as byte
  }

  /** Widening a byte to its unsigned value and casting back gives the byte again. */
  lemma UnsignedRoundTrip(b: byte)
    ensures ToByte(Unsigned(b)) == b
  {
  }
}
