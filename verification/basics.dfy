/** What several parts need. */
module Options {
  datatype Option<+T> = None | Some(value: T)
}

module PowersOfTwo {
  /** 2^k */
  function Two(k: nat): (r: nat)
    ensures r > 0
  {
    if k == 0 then 1 else 2 * Two(k - 1)
  }

  lemma {:induction false} TwoMonotone(i: nat, j: nat)
    requires i <= j
    ensures Two(i) <= Two(j)
  {
    if i < j { TwoMonotone(i, j - 1); }
  }
}
