/** Signed 64-bit arithmetic on unbounded integers. */
module Int64 {

  const I63: int := 0x8000_0000_0000_0000

  /** The value a signed 64-bit variable holds after a computation that yields `x`. */
  function Wrap(x: nat): (r: int)
    ensures -I63 <= r < I63
    ensures x < I63 ==> r == x
  {
    if x < I63 then x else if x < 2 * I63 then x - 2 * I63 else Wrap(x - 2 * I63)
  }

  /** One 64-bit addition. */
  function Add(a: int, b: int): int {
    if a + b >= I63 then a + b - 2 * I63 else if a + b < -I63 then a + b + 2 * I63 else a + b
  }

  lemma {:induction false} WrapAdd(x: nat, y: nat)
    ensures Add(Wrap(x), Wrap(y)) == Wrap(x + y)
    decreases x + y
  {
    if x >= 2 * I63 {
      WrapAdd(x - 2 * I63, y);
    } else if y >= 2 * I63 {
      WrapAdd(x, y - 2 * I63);
    }
  }
}
