/** Powers of two. */
module Powers {

  function Pow2(n: nat): (r: nat)
    ensures r >= 1
  {
    if n == 0 then 1 else 2 * Pow2(n - 1)
  }

  lemma Regroup(x: nat, y: nat)
    ensures 2 * x * y == 2 * (x * y)
  {
  }

  lemma {:induction false} Pow2Adds(a: nat, b: nat)
    ensures Pow2(a + b) == Pow2(a) * Pow2(b)
  {
    if a > 0 {
      Pow2Adds(a - 1, b);
      Regroup(Pow2(a - 1), Pow2(b));
    }
  }

  lemma {:induction false} Pow2Monotone(a: nat, b: nat)
    ensures a <= b <==> Pow2(a) <= Pow2(b)
    decreases a
  {
    if a > 0 && b > 0 {
      Pow2Monotone(a - 1, b - 1);
    } else if a > 0 {
      Pow2Monotone(a - 1, b);
    }
  }
}
