/** Powers of two, which growing capacities and growing waits have in common. */
module Powers {
  function Pow2(k: nat): (p: nat)
    ensures p >= 1
  {
    if k == 0 then 1 else 2 * Pow2(k - 1)
  }

  lemma Pow2Values()
    ensures Pow2(5) == 32 && Pow2(62) == 0x4000_0000_0000_0000
  {
    assert Pow2(10) == 1024;
    Pow2Sum(10, 10);
    assert Pow2(20) == 0x10_0000;
    Pow2Sum(20, 20);
    assert Pow2(40) == 0x100_0000_0000;
    Pow2Sum(40, 20);
    assert Pow2(60) == 0x1000_0000_0000_0000;
    Pow2Sum(60, 2);
  }

  lemma {:induction false} Pow2Sum(j: nat, k: nat)
    ensures Pow2(j + k) == Pow2(j) * Pow2(k)
  {
    if j > 0 {
      Pow2Sum(j - 1, k);
    }
  }

  lemma {:induction false} Pow2Monotone(j: nat, k: nat)
    requires j <= k
    ensures Pow2(j) <= Pow2(k)
  {
    if j < k {
      Pow2Monotone(j, k - 1);
    }
  }
}
