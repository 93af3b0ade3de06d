/** What several parts share. */
module Common {
  const TWO64 := 0x1_0000_0000_0000_0000

  function Max(a: int, b: int): (m: int)
    ensures m >= a && m >= b && (m == a || m == b)
  {
    if a > b then a else b
  }

  /** A position in the plane, and one in space. */
  datatype Pos = Pos(x: int, z: int)

  datatype Pos3 = Pos3(x: int, y: int, z: int)
}
