/** The running total the two `stream_sum` tools accumulate: 1 + 2 + ... + k. */
module Series {

  /** `max(n, 0)`. */
  function Clamp(n: int): nat {
    if n < 0 then 0 else n
  }

  /** The sum of the integers 1 through k, accumulated one term at a time
      as the tools do; it equals Gauss's closed form. */
  function SumTo(k: nat): (r: nat)
    ensures r == k * (k + 1) / 2
  {
    if k == 0 then 0
    else
      assert k * (k + 1) == (k - 1) * k + 2 * k;
      SumTo(k - 1) + k
  }

  /** Partial sums strictly increase. */
  lemma {:induction false} SumToStrictlyIncreasing(i: nat, j: nat)
    requires 1 <= i < j
    ensures SumTo(i) < SumTo(j)
    decreases j
  {
    if i < j - 1 {
      SumToStrictlyIncreasing(i, j - 1);
    }
  }
}
