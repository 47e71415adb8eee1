/** A run of one of the two paced senders, as an observer sees it. */
module PacedRun {
  import opened CInt
  import opened Traffic

  /** Why a run ended: runLoop was cleared, the over-send guard broke out of the loop, or the
      observed attempts ended inside a burst (so that every prefix of a run is a run). */
  datatype Ending = Stopped | OverSend | Observed

  datatype Run = Run(
    stream: TgStream,    // the stream with its statistics
    frames: seq<Frame>,  // what left, in order
    durations: seq<int>, // difftime of every completed burst, as measured
    spans: seq<int>,     // the same, as it was
    debt: int,           // extraTimeSpendOnSending
    pace: int,           // the end of the last completed period
    used: nat,           // attempts made
    naps: nat,           // 10 ms rests inside the periods
    ending: Ending)

  datatype Outcome = Invalid | Complete(run: Run)

  /** The delays that were not asked for, summed over the first n periods. */
  function Lateness(late: nat -> nat, n: nat): nat { if n == 0 then 0 else Lateness(late, n - 1) + late(n - 1) }

  /** Every measured duration is what wfa_itime_diff makes of the true one. */
  ghost predicate Measured(ds: seq<int>, spans: seq<int>) {
    && |ds| == |spans|
    && forall k :: 0 <= k < |ds| ==>
      ds[k] <= spans[k] && (ds[k] < 0 ==> INT_MAX < spans[k]) && (spans[k] <= INT_MAX ==> ds[k] == spans[k])
  }

  /** What the clock shows at the end of a run: past its last period, the time of a burst cut short. */
  function Clock(run: Run, attempts: seq<Attempt>): int
    requires run.used <= |attempts|
  {
    run.pace + TimeSpent(attempts[..run.used]) + 10_000 * run.naps - Sum(run.spans)
  }

  /** More frames, sent later. */
  lemma AscendingJoin(frames: seq<Frame>, sent: seq<Frame>, t0: int, pace: int, now: int)
    requires Ascending(Instants(frames), t0, pace) && Ascending(Instants(sent), pace, now) && t0 <= pace <= now
    ensures Instants(frames + sent) == Instants(frames) + Instants(sent)
    ensures Ascending(Instants(frames + sent), t0, now)
  {
    assert Instants(frames + sent) == Instants(frames) + Instants(sent);
  }

  ghost predicate AllFitInt(spans: seq<int>) { forall k :: 0 <= k < |spans| ==> spans[k] <= INT_MAX }
}
