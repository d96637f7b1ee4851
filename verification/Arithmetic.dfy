/** Arithmetic that several parts share. */
module Arithmetic {

  /** One more than the largest machine word, and half of that. */
  const WORD: nat := 0x1_0000_0000_0000_0000
  const HALF: nat := 0x8000_0000_0000_0000
  const USIZE_MAX: nat := WORD - 1
  const ISIZE_MAX: nat := HALF - 1

  function Min(a: nat, b: nat): nat {
    if a <= b then a else b
  }

  function Max(a: nat, b: nat): nat {
    if a <= b then b else a
  }

  function Pow2(n: nat): (p: nat)
    ensures p >= 1
  {
    if n == 0 then 1 else 2 * Pow2(n - 1)
  }

  lemma {:induction false} Pow2Monotone(a: nat, b: nat)
    requires a <= b
    ensures Pow2(a) <= Pow2(b)
  {
    if a < b {
      Pow2Monotone(a, b - 1);
    }
  }

  lemma MultipleHasNoRest(size: int, a: int, t: int)
    requires size > 0 && 0 <= t < size
    ensures (size * a + t) % size == t && (size * a + t) / size == a
  {
    var n := size * a + t;
    assert n == size * (n / size) + n % size;
    var gap := a - n / size;
    assert size * gap == n % size - t;
    assert gap >= 1 ==> size * gap >= size;
    assert gap <= -1 ==> size * gap <= -size;
  }

  lemma {:induction false} Pow2Sum(a: nat, b: nat)
    ensures Pow2(a + b) == Pow2(a) * Pow2(b)
  {
    if a > 0 {
      Pow2Sum(a - 1, b);
    }
  }
}
