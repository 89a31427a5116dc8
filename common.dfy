/** Option, the model's stand-in for a Java reference that may be null. */
module Wrappers {
  datatype Option<+T> = None | Some(value: T)
}

/** Java's fixed-width integers on top of Dafny's unbounded `int`. */
module JavaInt {
  const MinInt32: int := -0x8000_0000
  const MaxInt32: int := 0x7fff_ffff
  const MinInt64: int := -0x8000_0000_0000_0000
  const MaxInt64: int := 0x7fff_ffff_ffff_ffff

  /** Java `int` */
  type Int32 = x: int | -0x8000_0000 <= x <= 0x7fff_ffff
  /** Java `long` */
  type Int64 = x: int | -0x8000_0000_0000_0000 <= x <= 0x7fff_ffff_ffff_ffff

  /** The two's-complement wrap-around of Java `int` arithmetic. */
  function Wrap32(x: int): (r: Int32)
    ensures (r - x) % 0x1_0000_0000 == 0
    ensures MinInt32 <= x <= MaxInt32 ==> r == x
  {
    var m := x % 0x1_0000_0000;
    if m <= MaxInt32 then m else m - 0x1_0000_0000
  }

  /** The two's-complement wrap-around of Java `long` arithmetic. */
  function Wrap64(x: int): (r: Int64)
    ensures (r - x) % 0x1_0000_0000_0000_0000 == 0
    ensures MinInt64 <= x <= MaxInt64 ==> r == x
  {
    var m := x % 0x1_0000_0000_0000_0000;
    if m <= MaxInt64 then m else m - 0x1_0000_0000_0000_0000
  }
}

/** The request-id rule shared by all three RequestManager variants:
    `requestCounter += 1; if (requestCounter < 0) requestCounter = 0;` */
module Counter {
  import opened JavaInt

  /** The counter value after one allocation, which is also the id handed out. */
  function NextRequestId(counter: Int32): (id: Int32)
    ensures id >= 0
    ensures 0 <= counter < MaxInt32 ==> id == counter + 1
    ensures counter == MaxInt32 ==> id == 0
    ensures counter < MaxInt32 ==> id > counter
  {
    var incremented := Wrap32(counter + 1);
    if incremented < 0 then 0 else incremented
  }
}
