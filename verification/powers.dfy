/** Powers of two, for retry delays that double. */
module Powers {
  function PowerOfTwo(n: nat): nat {
    if n == 0 then 1 else 2 * PowerOfTwo(n - 1)
  }

  lemma {:induction false} PowerOfTwoGrows(m: nat, n: nat)
    requires m <= n
    ensures 1 <= PowerOfTwo(m) <= PowerOfTwo(n)
  {
    if n > 0 {
      if m > 0 { PowerOfTwoGrows(m - 1, n - 1); } else { PowerOfTwoGrows(m, n - 1); }
    }
  }
}
