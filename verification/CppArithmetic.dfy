/** The parts of C++ integer arithmetic that differ from Dafny's. */
module CppArithmetic {

  const INT_MIN: int := -0x8000_0000
  const INT_MAX: int := 0x7FFF_FFFF
  const TWO_TO_THE_32: int := 0x1_0000_0000

  predicate FitsInt(x: int) {
    INT_MIN <= x <= INT_MAX
  }

  /** `a / b`: C++ rounds toward zero, Dafny rounds down. */
  function Quot(a: int, b: int): int
    requires b > 0
  {
    if a >= 0 then a / b else -(-a / b)
  }

  /** `a % b`: the remainder takes the sign of the dividend. */
  function Rem(a: int, b: int): int
    requires b > 0
  {
    if a >= 0 then a % b else -(-a % b)
  }

  /** `static_cast<int>`: the low 32 bits, read as a signed number. */
  function ToInt(x: int): (r: int)
    ensures FitsInt(r)
    ensures FitsInt(x) ==> r == x
    ensures (r - x) % TWO_TO_THE_32 == 0
  {
    (x - INT_MIN) % TWO_TO_THE_32 + INT_MIN
  }
}
