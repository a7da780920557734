/** Java's 32-bit `int`: its range and its wrap-around on overflow. */
module JavaInt {

  const IntMin: int := -0x8000_0000
  const IntMax: int := 0x7fff_ffff
  const Modulus: int := 0x1_0000_0000

  /** A value that a Java `int` variable can hold. */
  type Int32 = x: int | IntMin <= x <= IntMax

  predicate InRange(x: int) {
    IntMin <= x <= IntMax
  }

  /** The `int` that Java arithmetic yields for the mathematical result `x`. */
  function Wrap(x: int): (r: Int32)
    ensures InRange(x) ==> r == x
  {
    (x - IntMin) % Modulus + IntMin
  }

  /** The wrapped value differs from the mathematical one by a multiple of 2^32. */
  lemma WrapCongruent(x: int)
    ensures (Wrap(x) - x) % Modulus == 0
  {
    var k := (x - IntMin) / Modulus;
    assert Wrap(x) - x == -Modulus * k;
  }

  /** Wrapping at every step of a sum is the same as wrapping once at the end. */
  lemma WrapAdd(a: int, b: int)
    ensures Wrap(Wrap(a) + b) == Wrap(a + b)
  {
    var k := (a - IntMin) / Modulus;
    assert Wrap(a) == a - Modulus * k;
    assert Wrap(a) + b - IntMin == (a + b - IntMin) - Modulus * k;
  }

  /** `Math.min` on two ints. */
  function Min(a: int, b: int): (r: int)
    ensures r <= a && r <= b
    ensures r == a || r == b
  {
    if a <= b then a else b
  }

  /** `Math.max` on two ints. */
  function Max(a: int, b: int): (r: int)
    ensures r >= a && r >= b
    ensures r == a || r == b
  {
    if a >= b then a else b
  }
}
