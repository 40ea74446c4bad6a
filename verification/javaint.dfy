/** Java's 32-bit `int` arithmetic, as far as `hashCode` uses it: two's-complement
    wrap-around and `String.hashCode`. */
module JavaInt {

  const Modulus: int := 0x1_0000_0000

  predicate IsInt32(x: int) {
    -0x8000_0000 <= x < 0x8000_0000
  }

  /** The Java `int` that a mathematical integer wraps around to. */
  function Wrap(x: int): (r: int)
    ensures IsInt32(r)
    ensures (r - x) % Modulus == 0
    ensures IsInt32(x) ==> r == x
  {
    var m := x % Modulus;
    if m < 0x8000_0000 then m else m - Modulus
  }

  /** Integers that differ by a multiple of 2^32 wrap to the same `int`. */
  lemma {:induction false} WrapCongruent(a: int, b: int, q: int)
    requires a == b + q * Modulus
    ensures Wrap(a) == Wrap(b)
  {
    assert a % Modulus == b % Modulus;
  }

  /** Wrapping after every step of `h = 31 * h + c` gives the same `int` as wrapping once
      at the end. */
  lemma {:induction false} WrapStep(x: int, c: int)
    ensures Wrap(31 * Wrap(x) + c) == Wrap(31 * x + c)
  {
    var w := Wrap(x);
    var q := (w - x) / Modulus;
    assert w == x + q * Modulus;
    WrapCongruent(31 * w + c, 31 * x + c, 31 * q);
  }

  /** The polynomial s[0]·31^(n-1) + … + s[n-1] over the character codes, before wrap-around. */
  function Polynomial(s: string): int
  {
    if s == [] then 0 else 31 * Polynomial(s[..|s| - 1]) + s[|s| - 1] as int
  }

  /** `String.hashCode()`: the polynomial wrapped to an `int`. */
  function StringHash(s: string): (h: int)
    ensures IsInt32(h)
  {
    Wrap(Polynomial(s))
  }

  /** The loop `h = 31 * h + c` over the characters as `String.hashCode()` runs it, with
      `int` overflow at every step. */
  method StringHashLoop(s: string) returns (h: int)
    ensures h == StringHash(s)
  {
    h := 0;
    for i := 0 to |s|
      invariant h == Wrap(Polynomial(s[..i]))
    {
      assert s[..i + 1][..i] == s[..i];
      WrapStep(Polynomial(s[..i]), s[i] as int);
      h := Wrap(31 * h + s[i] as int);
    }
    assert s[..|s|] == s;
  }
}
