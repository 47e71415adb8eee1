/** The time debt of the paced senders: how far a run is behind its schedule. */
module TimeDebt {
  import opened CInt

  /** What a measured duration charges: a negative one (a wrapped measurement) counts as on time. */
  function Charged(d: int, period: int): int { if d < 0 then Max(d, period) else d }

  /** debt' = max(0, debt + d - period) */
  function NextDebt(debt: int, d: int, period: int): int { Max(0, debt + Charged(d, period) - period) }

  function Debt(ds: seq<int>, period: int): (r: nat) {
    if ds == [] then 0 else NextDebt(Debt(ds[..|ds| - 1], period), ds[|ds| - 1], period)
  }

  /** By how much the durations exceed their periods, summed. */
  function Excess(ds: seq<int>, period: int): int {
    if ds == [] then 0 else Excess(ds[..|ds| - 1], period) + Charged(ds[|ds| - 1], period) - period
  }

  /** The debt is the largest excess of any suffix of the run, the empty one included. */
  lemma {:induction false} DebtIsLargestSuffixExcess(ds: seq<int>, period: int)
    ensures forall k :: 0 <= k <= |ds| ==> Excess(ds[k..], period) <= Debt(ds, period)
    ensures exists k :: 0 <= k <= |ds| && Excess(ds[k..], period) == Debt(ds, period)
  {
    var n := |ds|;
    assert ds[n..] == [];
    if n == 0 { return; }
    var front, step := ds[..n - 1], Charged(ds[n - 1], period) - period;
    DebtIsLargestSuffixExcess(front, period);
    forall k | 0 <= k < n
      ensures Excess(ds[k..], period) == Excess(front[k..], period) + step
    {
      assert ds[k..][..n - k - 1] == front[k..];
    }
    forall k | 0 <= k <= n
      ensures Excess(ds[k..], period) <= Debt(ds, period)
    {
      if k < n { assert Excess(front[k..], period) <= Debt(front, period); }
    }
    var best :| 0 <= best <= n - 1 && Excess(front[best..], period) == Debt(front, period);
    if Debt(ds, period) == 0 {
      assert Excess(ds[n..], period) == Debt(ds, period);
    } else {
      assert Excess(ds[best..], period) == Debt(ds, period);
    }
  }
}
