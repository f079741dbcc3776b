/** Java primitive ranges and the optional value used in place of `null`. */
module Common {

  const IntMin: int := -0x8000_0000
  const IntMax: int := 0x7fff_ffff
  const LongMin: int := -0x8000_0000_0000_0000
  const LongMax: int := 0x7fff_ffff_ffff_ffff

  /** A Java `int`. */
  type Int32 = x: int | -0x8000_0000 <= x <= 0x7fff_ffff

  /** A Java `long`. */
  type Int64 = x: int | -0x8000_0000_0000_0000 <= x <= 0x7fff_ffff_ffff_ffff

  /** Serialized keys and values: opaque bytes. */
  type Data = seq<bv8>

  datatype Option<+T> = None | Some(value: T)

  /** Java's `long` subtraction: the mathematical difference wrapped into 64 bits. */
  function LongSub(a: Int64, b: Int64): (r: Int64)
    ensures LongMin <= a - b <= LongMax ==> r == a - b
    ensures a - b > LongMax ==> r == a - b - 0x1_0000_0000_0000_0000 && r < 0
    ensures a - b < LongMin ==> r == a - b + 0x1_0000_0000_0000_0000 && r >= 0
    ensures (r - (a - b)) % 0x1_0000_0000_0000_0000 == 0
  {
    var d := a - b;
    if d > LongMax then d - 0x1_0000_0000_0000_0000
    else if d < LongMin then d + 0x1_0000_0000_0000_0000
    else d
  }
}
