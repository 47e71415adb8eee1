/** The stream table of the traffic generator (lib/wfa_tg.c, lib/wfa_thr.c): slots, ids, lookup. */
module StreamTable {
  import opened Options
  import opened Traffic

  const WFA_MAX_TRAFFIC_STREAMS: nat := 8

  datatype Table = Table(slots: seq<TgStream>, slotCnt: nat, streamId: nat)

  const BLANK_SLOTS := [ZERO_STREAM, ZERO_STREAM, ZERO_STREAM, ZERO_STREAM,
                        ZERO_STREAM, ZERO_STREAM, ZERO_STREAM, ZERO_STREAM]
  const INIT := Table(BLANK_SLOTS, 0, 0)

  /** The commands and events that touch the table. Work is a worker thread writing the statistics
      of the stream in one slot; it never writes the identity or the profile. */
  datatype Op =
    | Config(profile: TgProfile)
    | Ping
    | Reset
    | Timeout
    | Start(direction: Direction, ids: seq<int>)
    | SentStats
    | Work(slot: nat, stats: TgStats, lastPktSN: int)

  /** The first slot with the id, searching from slot `from` on. */
  function Find(slots: seq<TgStream>, id: int, from: nat := 0): (r: Option<nat>)
    ensures r.Some? ==> from <= r.value < |slots| && slots[r.value].id == id
    ensures forall k :: from <= k < (if r.Some? then r.value else |slots|) ==> slots[k].id != id
    decreases |slots| - from
  {
    if from >= |slots| then None
    else if slots[from].id == id then Some(from)
    else Find(slots, id, from + 1)
  }

  predicate Startable(slots: seq<TgStream>, id: int, direction: Direction) {
    var k := Find(slots, id);
    k.Some? && slots[k.value].profile.direction == direction
  }

  function StartOne(slots: seq<TgStream>, id: int): (r: seq<TgStream>)
    ensures |r| == |slots|
  {
    match Find(slots, id)
    case None => slots
    case Some(k) => slots[k := slots[k].(stats := ZERO_STATS, active := true)]
  }

  /** Starts the listed streams in order, stopping at the first unknown or wrongly directed one. */
  function StartAll(slots: seq<TgStream>, ids: seq<int>, direction: Direction): (r: (seq<TgStream>, nat))
    ensures |r.0| == |slots| && r.1 <= |ids|
    decreases |ids|
  {
    if ids == [] || !Startable(slots, ids[0], direction) then (slots, 0)
    else
      var rest := StartAll(StartOne(slots, ids[0]), ids[1..], direction);
      (rest.0, rest.1 + 1)
  }

  function Deactivated(slots: seq<TgStream>): seq<TgStream> {
    seq(|slots|, i requires 0 <= i < |slots| => slots[i].(active := false))
  }

  function Step(t: Table, op: Op): Table {
    match op
    case Config(profile) =>
      var slotCnt := if t.slotCnt == WFA_MAX_TRAFFIC_STREAMS then 0 else t.slotCnt;
      var slots := if slotCnt == 0 then BLANK_SLOTS else t.slots;
      if slotCnt < |slots|
      then Table(slots[slotCnt := ZERO_STREAM.(profile := profile, id := t.streamId + 1, tblidx := slotCnt)],
                 slotCnt + 1, t.streamId + 1)
      else t
    case Ping => t.(streamId := t.streamId + 1)
    case Reset =>
      // memset over WFA_MAX_TRAFFIC_STREAMS bytes, not records: it clears the first slot's id alone
      t.(slotCnt := 0, slots := if t.slots == [] then [] else t.slots[0 := t.slots[0].(id := 0)])
    case Timeout => t.(slotCnt := 0)
    case Start(direction, ids) => t.(slots := StartAll(t.slots, ids, direction).0)
    case SentStats => t.(slots := Deactivated(t.slots))
    case Work(slot, stats, lastPktSN) =>
      if slot < |t.slots|
      then t.(slots := t.slots[slot := t.slots[slot].(stats := stats, lastPktSN := lastPktSN)])
      else t
  }

  function Run(ops: seq<Op>): Table {
    if ops == [] then INIT else Step(Run(ops[..|ops| - 1]), ops[|ops| - 1])
  }

  // The log: what an observer of the commands alone knows.

  datatype Entry = Entry(id: int, profile: TgProfile)
  datatype Log = Log(entries: seq<Entry>, issued: nat)

  /** The streams configured since the table was last emptied, and how many ids were ever issued. */
  function LogOf(ops: seq<Op>): Log {
    if ops == [] then Log([], 0) else Logged(LogOf(ops[..|ops| - 1]), ops[|ops| - 1])
  }

  function Logged(log: Log, op: Op): Log {
    match op
    case Config(profile) =>
      var entry := Entry(log.issued + 1, profile);
      Log(if |log.entries| == WFA_MAX_TRAFFIC_STREAMS then [entry] else log.entries + [entry], log.issued + 1)
    case Ping => log.(issued := log.issued + 1)
    case Reset => log.(entries := [])
    case Timeout => log.(entries := [])
    case _ => log
  }

  /** The table holds exactly the logged streams in its first slotCnt slots. */
  ghost predicate Holds(slots: seq<TgStream>, entries: seq<Entry>) {
    && |entries| <= |slots| == WFA_MAX_TRAFFIC_STREAMS
    && (forall k :: 0 <= k < |entries| ==>
          slots[k].id == entries[k].id && slots[k].profile == entries[k].profile && slots[k].tblidx == k)
    && (entries != [] ==> forall k :: |entries| <= k < |slots| ==> slots[k].id == 0)
  }

  ghost predicate IdsFresh(entries: seq<Entry>, issued: nat) {
    && (forall k :: 0 <= k < |entries| ==> 1 <= entries[k].id <= issued)
    && (forall i, j :: 0 <= i < j < |entries| ==> entries[i].id < entries[j].id)
  }

  /** Nonzero ids never repeat, stale slots included, and none is ahead of the counter. */
  ghost predicate IdsDistinct(slots: seq<TgStream>, issued: nat) {
    && (forall k :: 0 <= k < |slots| ==> 0 <= slots[k].id <= issued)
    && (forall i, j :: 0 <= i < j < |slots| && slots[i].id != 0 ==> slots[i].id != slots[j].id)
  }

  ghost predicate Consistent(t: Table, log: Log) {
    && t.slotCnt == |log.entries| && t.streamId == log.issued
    && Holds(t.slots, log.entries) && IdsFresh(log.entries, log.issued) && IdsDistinct(t.slots, log.issued)
  }

  /** Only the statistics, lastPktSN and the activity differ. */
  ghost predicate SameIdentities(a: seq<TgStream>, b: seq<TgStream>) {
    && |a| == |b|
    && forall k :: 0 <= k < |a| ==> a[k].id == b[k].id && a[k].profile == b[k].profile && a[k].tblidx == b[k].tblidx
  }

  lemma {:induction false} StartKeepsIdentities(slots: seq<TgStream>, ids: seq<int>, direction: Direction)
    ensures SameIdentities(slots, StartAll(slots, ids, direction).0)
    decreases |ids|
  {
    if ids != [] && Startable(slots, ids[0], direction) {
      StartKeepsIdentities(StartOne(slots, ids[0]), ids[1..], direction);
    }
  }

  lemma IdentitiesSuffice(a: seq<TgStream>, b: seq<TgStream>, entries: seq<Entry>, issued: nat)
    requires SameIdentities(a, b) && Holds(a, entries) && IdsDistinct(a, issued)
    ensures Holds(b, entries) && IdsDistinct(b, issued)
  {
  }

  lemma PlaceOne(slots: seq<TgStream>, entries: seq<Entry>, issued: nat, stream: TgStream)
    requires Holds(slots, entries) && IdsFresh(entries, issued) && IdsDistinct(slots, issued)
    requires |entries| < |slots| && (forall k :: |entries| <= k < |slots| ==> slots[k].id == 0)
    requires stream.id == issued + 1 && stream.tblidx == |entries|
    ensures var entries' := entries + [Entry(stream.id, stream.profile)];
      var slots' := slots[|entries| := stream];
      Holds(slots', entries') && IdsFresh(entries', issued + 1) && IdsDistinct(slots', issued + 1)
  {
  }

  lemma PlaceFirst(issued: nat, stream: TgStream)
    requires stream.id == issued + 1 && stream.tblidx == 0
    ensures var entries := [Entry(stream.id, stream.profile)];
      var slots := BLANK_SLOTS[0 := stream];
      Holds(slots, entries) && IdsFresh(entries, issued + 1) && IdsDistinct(slots, issued + 1)
  {
  }

  lemma ConfigBehind(t: Table, log: Log, profile: TgProfile)
    requires Consistent(t, log) && 0 < t.slotCnt < WFA_MAX_TRAFFIC_STREAMS
    ensures Consistent(Step(t, Config(profile)), Logged(log, Config(profile)))
  {
    var stream := ZERO_STREAM.(profile := profile, id := t.streamId + 1, tblidx := t.slotCnt);
    PlaceOne(t.slots, log.entries, log.issued, stream);
  }

  lemma ConfigAnew(t: Table, log: Log, profile: TgProfile)
    requires Consistent(t, log) && (t.slotCnt == 0 || t.slotCnt == WFA_MAX_TRAFFIC_STREAMS)
    ensures Consistent(Step(t, Config(profile)), Logged(log, Config(profile)))
  {
    var stream := ZERO_STREAM.(profile := profile, id := t.streamId + 1, tblidx := 0);
    PlaceFirst(log.issued, stream);
    assert t.slotCnt == 0 ==> log.entries + [Entry(stream.id, profile)] == [Entry(stream.id, profile)];
  }

  /** Over every run: the table and the log agree. */
  lemma {:induction false} RunConsistent(ops: seq<Op>)
    ensures Consistent(Run(ops), LogOf(ops))
  {
    if ops == [] { return; }
    var before, op := ops[..|ops| - 1], ops[|ops| - 1];
    RunConsistent(before);
    var t, log := Run(before), LogOf(before);
    match op {
      case Config(profile) =>
        if 0 < t.slotCnt < WFA_MAX_TRAFFIC_STREAMS { ConfigBehind(t, log, profile); }
        else { ConfigAnew(t, log, profile); }
      case Start(direction, ids) =>
        StartKeepsIdentities(t.slots, ids, direction);
        IdentitiesSuffice(t.slots, Run(ops).slots, log.entries, log.issued);
      case SentStats => IdentitiesSuffice(t.slots, Run(ops).slots, log.entries, log.issued);
      case Work(slot, stats, sn) => IdentitiesSuffice(t.slots, Run(ops).slots, log.entries, log.issued);
      case _ =>
    }
  }

  /** Allocator safety over every run: nonzero ids are pairwise distinct and at most streamId, and
      the slots below slotCnt carry their own index and strictly increasing ids. */
  lemma AllocatorSafety(ops: seq<Op>)
    ensures var t := Run(ops);
      && t.slotCnt <= |t.slots|
      && (forall i, j :: 0 <= i < j < |t.slots| && t.slots[i].id != 0 ==> t.slots[i].id != t.slots[j].id)
      && (forall k :: 0 <= k < |t.slots| ==> t.slots[k].id <= t.streamId)
      && (forall k :: 0 <= k < t.slotCnt ==> t.slots[k].tblidx == k)
      && (forall i, j :: 0 <= i < j < t.slotCnt ==> 0 < t.slots[i].id < t.slots[j].id)
  {
    RunConsistent(ops);
  }

  /** Lookup finds exactly what was configured since the table was last emptied: every such id, in
      its own slot with its own profile, and no other id at all. */
  lemma LookupIffIssued(ops: seq<Op>, id: int)
    requires LogOf(ops).entries != [] && id != 0
    ensures var t, entries := Run(ops), LogOf(ops).entries;
      && (Find(t.slots, id).Some? <==> exists k :: 0 <= k < |entries| && entries[k].id == id)
      && forall k :: 0 <= k < |entries| && entries[k].id == id ==>
           Find(t.slots, id) == Some(k) && t.slots[k].profile == entries[k].profile
  {
    RunConsistent(ops);
    var t, entries := Run(ops), LogOf(ops).entries;
    forall k | 0 <= k < |entries| && entries[k].id == id
      ensures Find(t.slots, id) == Some(k)
    {
      assert t.slots[k].id == id;
    }
  }

  // What is handed out, and what emptying the table is for.

  function HandedOut(ops: seq<Op>): nat {
    if ops == [] then 0
    else HandedOut(ops[..|ops| - 1]) + if ops[|ops| - 1].Config? || ops[|ops| - 1].Ping? then 1 else 0
  }

  /** Every configuration and every ping takes a new id, in order, whatever else happens. */
  lemma {:induction false} IdsAreConsecutive(ops: seq<Op>)
    ensures Run(ops).streamId == LogOf(ops).issued == HandedOut(ops)
  {
    RunConsistent(ops);
    if ops != [] { IdsAreConsecutive(ops[..|ops| - 1]); }
  }

  function Configs(profiles: seq<TgProfile>): seq<Op> {
    seq(|profiles|, i requires 0 <= i < |profiles| => Config(profiles[i]))
  }

  /** The log after configurations in a row, from an empty one: full ones are given up whole. */
  ghost predicate Filled(log: Log, base: nat, profiles: seq<TgProfile>) {
    var n, m := |profiles|, |log.entries|;
    && log.issued == base + n && m <= n && m <= WFA_MAX_TRAFFIC_STREAMS && (n > 0 ==> m > 0)
    && (n - m) % WFA_MAX_TRAFFIC_STREAMS == 0
    && forall i :: 0 <= i < m ==> log.entries[i] == Entry(base + 1 + n - m + i, profiles[n - m + i])
  }

  lemma FillOne(log: Log, base: nat, profiles: seq<TgProfile>)
    requires profiles != [] && Filled(log, base, profiles[..|profiles| - 1])
    ensures Filled(Logged(log, Config(profiles[|profiles| - 1])), base, profiles)
  {
  }

  lemma LastConfig(ops: seq<Op>, profiles: seq<TgProfile>)
    requires profiles != []
    ensures var all := ops + Configs(profiles);
      && all != [] && all[|all| - 1] == Config(profiles[|profiles| - 1])
      && all[..|all| - 1] == ops + Configs(profiles[..|profiles| - 1])
  {
  }

  lemma {:induction false} LogOfConfigs(ops: seq<Op>, profiles: seq<TgProfile>)
    requires LogOf(ops).entries == []
    ensures Filled(LogOf(ops + Configs(profiles)), LogOf(ops).issued, profiles)
  {
    if profiles == [] {
      assert ops + Configs(profiles) == ops;
    } else {
      LogOfConfigs(ops, profiles[..|profiles| - 1]);
      LastConfig(ops, profiles);
      FillOne(LogOf(ops + Configs(profiles[..|profiles| - 1])), LogOf(ops).issued, profiles);
    }
  }

  /** A new table: after a reset or a timeout, n configurations in a row fill the slots from the first on,
      starting over after every eight of them. Only those since then are found, under the next ids in
      order and with their profiles; every older id is forgotten, those of before the reset included. */
  lemma NewTable(ops: seq<Op>, emptying: Op, profiles: seq<TgProfile>, id: int)
    requires (emptying.Reset? || emptying.Timeout?) && profiles != [] && id != 0
    ensures var t, k := Run(ops + [emptying] + Configs(profiles)), id - 1 - HandedOut(ops);
      var first := (|profiles| - 1) / WFA_MAX_TRAFFIC_STREAMS * WFA_MAX_TRAFFIC_STREAMS;
      && t.slotCnt == |profiles| - first <= |t.slots|
      && Find(t.slots, id) == (if first <= k < |profiles| then Some(k - first) else None)
      && (first <= k < |profiles| ==> t.slots[k - first].profile == profiles[k])
  {
    var emptied := ops + [emptying];
    assert emptied[..|ops|] == ops;
    IdsAreConsecutive(ops);
    LogOfConfigs(emptied, profiles);
    FilledTable(emptied + Configs(profiles), HandedOut(ops), profiles, id);
    FirstOfTable(|profiles|, |LogOf(emptied + Configs(profiles)).entries|);
  }

  lemma FilledTable(all: seq<Op>, base: nat, profiles: seq<TgProfile>, id: int)
    requires profiles != [] && id != 0 && Filled(LogOf(all), base, profiles)
    ensures var t, k, first := Run(all), id - 1 - base, |profiles| - |LogOf(all).entries|;
      && t.slotCnt == |profiles| - first <= |t.slots|
      && Find(t.slots, id) == (if first <= k < |profiles| then Some(k - first) else None)
      && (first <= k < |profiles| ==> t.slots[k - first].profile == profiles[k])
  {
    RunConsistent(all);
    LookupIffIssued(all, id);
    var entries, k, first := LogOf(all).entries, id - 1 - base, |profiles| - |LogOf(all).entries|;
    if first <= k < |profiles| { assert entries[k - first].id == id; }
  }

  lemma FirstOfTable(n: nat, m: nat)
    requires 0 < m <= WFA_MAX_TRAFFIC_STREAMS && m <= n && (n - m) % WFA_MAX_TRAFFIC_STREAMS == 0
    ensures (n - 1) / WFA_MAX_TRAFFIC_STREAMS * WFA_MAX_TRAFFIC_STREAMS == n - m
  {
  }

  /** A stream just configured is blank but for its profile, and starting it changes that to active only: it
      sends or receives from statistics of zero and from lastPktSN 0. */
  lemma ConfiguredIsFresh(ops: seq<Op>, profile: TgProfile)
    ensures var t := Run(ops + [Config(profile)]);
      var stream := ZERO_STREAM.(profile := profile, id := t.streamId, tblidx := t.slotCnt - 1);
      && 0 < t.slotCnt <= |t.slots| && t.streamId == HandedOut(ops) + 1
      && t.slots[t.slotCnt - 1] == stream && Find(t.slots, t.streamId) == Some(t.slotCnt - 1)
      && StartAll(t.slots, [t.streamId], profile.direction)
         == (t.slots[t.slotCnt - 1 := stream.(active := true)], 1)
  {
    var all := ops + [Config(profile)];
    assert all[..|ops|] == ops;
    RunConsistent(ops);
    RunConsistent(all);
    IdsAreConsecutive(ops);
    var t := Run(all);
    LookupIffIssued(all, t.streamId);
    assert LogOf(all).entries[t.slotCnt - 1].id == t.streamId;
    var ids := [t.streamId];
    assert ids[1..] == [] && StartAll(StartOne(t.slots, t.streamId), ids[1..], profile.direction).1 == 0;
  }

  // Between the emptying of the table and the next configuration.

  predicate NoConfig(ops: seq<Op>) { ops == [] || (!ops[|ops| - 1].Config? && NoConfig(ops[..|ops| - 1])) }

  predicate Resets(ops: seq<Op>) { ops != [] && (ops[|ops| - 1].Reset? || Resets(ops[..|ops| - 1])) }

  /** The slots as they were, but for the first one's id after a reset. */
  ghost predicate Stale(a: seq<TgStream>, b: seq<TgStream>, reset: bool) {
    && |a| == |b|
    && forall k :: 0 <= k < |a| ==> b[k].id == (if k == 0 && reset then 0 else a[k].id) && b[k].profile == a[k].profile
  }

  lemma StaleStep(a: seq<TgStream>, t: Table, op: Op, reset: bool)
    requires Stale(a, t.slots, reset) && !op.Config?
    ensures Stale(a, Step(t, op).slots, reset || op.Reset?)
  {
    if op.Start? { StartKeepsIdentities(t.slots, op.ids, op.direction); }
  }

  lemma {:induction false} StaleRun(ops: seq<Op>, mid: seq<Op>)
    requires NoConfig(mid)
    ensures Stale(Run(ops).slots, Run(ops + mid).slots, Resets(mid))
  {
    if mid == [] {
      assert ops + mid == ops;
    } else {
      var front, op := mid[..|mid| - 1], mid[|mid| - 1];
      StaleRun(ops, front);
      assert (ops + mid)[..|ops + mid| - 1] == ops + front;
      StaleStep(Run(ops).slots, Run(ops + front), op, Resets(front));
    }
  }

  /** A reset forgets the first stream only, and a timeout forgets none: whatever happens until the next
      configuration, every stream configured before is still found, in its own slot and with its own
      profile, except the first one once the generator was reset. That one is found under id 0 instead, and
      can be started under it. */
  lemma StaleLookup(ops: seq<Op>, mid: seq<Op>, k: nat)
    requires NoConfig(mid) && k < |LogOf(ops).entries|
    ensures var entries, slots := LogOf(ops).entries, Run(ops + mid).slots;
      && Find(slots, entries[k].id) == (if k == 0 && Resets(mid) then None else Some(k))
      && k < |slots| && slots[k].profile == entries[k].profile
      && (Resets(mid) ==>
            && Find(slots, 0) == Some(0) && slots[0].profile == entries[0].profile
            && Startable(slots, 0, entries[0].profile.direction))
  {
    var slots := Run(ops + mid).slots;
    RunConsistent(ops);
    StaleRun(ops, mid);
    StaleFind(Run(ops).slots, slots, Resets(mid), LogOf(ops), k);
  }

  lemma StaleFind(a: seq<TgStream>, b: seq<TgStream>, reset: bool, log: Log, k: nat)
    requires Stale(a, b, reset) && Holds(a, log.entries)
    requires IdsFresh(log.entries, log.issued) && IdsDistinct(a, log.issued)
    requires k < |log.entries|
    ensures Find(b, log.entries[k].id) == if k == 0 && reset then None else Some(k)
    ensures reset ==> Find(b, 0) == Some(0)
  {
    assert a[k].id == log.entries[k].id;
    assert b[k].id == if k == 0 && reset then 0 else a[k].id;
    assert b[0].id == if reset then 0 else a[0].id;
  }

  /** A start command starts the longest prefix of its list whose streams are known and have the
      right direction, and what it does to the table does not change which those are. */
  lemma {:induction false} StartsLongestPrefix(slots: seq<TgStream>, ids: seq<int>, direction: Direction)
    ensures var n := StartAll(slots, ids, direction).1;
      && (forall i :: 0 <= i < n ==> Startable(slots, ids[i], direction))
      && (n < |ids| ==> !Startable(slots, ids[n], direction))
    decreases |ids|
  {
    if ids == [] || !Startable(slots, ids[0], direction) { return; }
    var slots' := StartOne(slots, ids[0]);
    StartsLongestPrefix(slots', ids[1..], direction);
    var n := StartAll(slots, ids, direction).1;
    forall i | 0 <= i < |ids|
      ensures Startable(slots', ids[i], direction) == Startable(slots, ids[i], direction)
    {
      SameFind(slots, slots', ids[i], 0);
    }
    assert forall i :: 1 <= i < |ids| ==> ids[1..][i - 1] == ids[i];
  }

  lemma {:induction false} SameFind(a: seq<TgStream>, b: seq<TgStream>, id: int, from: nat)
    requires SameIdentities(a, b)
    ensures Find(a, id, from) == Find(b, id, from)
    decreases |a| - from
  {
    if from < |a| { SameFind(a, b, id, from + 1); }
  }

  /** The globals gStreams, slotCnt and streamId, with the functions that work on them in place. */
  class TrafficGenerator {
    const gStreams: array<TgStream>
    var slotCnt: nat
    var streamId: nat

    ghost predicate Valid()
      reads this
    {
      gStreams.Length == WFA_MAX_TRAFFIC_STREAMS && slotCnt <= WFA_MAX_TRAFFIC_STREAMS
    }

    ghost function View(): Table
      reads this, gStreams
    {
      Table(gStreams[..], slotCnt, streamId)
    }

    constructor ()
      ensures Valid() && View() == INIT && fresh(gStreams)
    {
      gStreams := new TgStream[WFA_MAX_TRAFFIC_STREAMS](_ => ZERO_STREAM);
      slotCnt, streamId := 0, 0;
      new;
      assert gStreams[..] == BLANK_SLOTS;
    }

    /** findStreamProfile: the first slot with the id. */
    method FindStreamProfile(id: int) returns (r: Option<nat>)
      requires Valid()
      ensures r == Find(gStreams[..], id)
    {
      for i := 0 to gStreams.Length
        invariant Find(gStreams[..], id) == Find(gStreams[..], id, i)
      {
        if gStreams[i].id == id { return Some(i); }
      }
      return None;
    }

    /** wfaTGConfig: takes the next slot, emptying the table first if none is taken or all are. */
    method TGConfig(profile: TgProfile) returns (id: int)
      requires Valid()
      modifies this, gStreams
      ensures Valid() && View() == Step(old(View()), Config(profile)) && id == old(streamId) + 1
    {
      if slotCnt == WFA_MAX_TRAFFIC_STREAMS { slotCnt := 0; }
      if slotCnt == 0 {
        forall i | 0 <= i < gStreams.Length { gStreams[i] := ZERO_STREAM; }
        assert gStreams[..] == BLANK_SLOTS;
      }
      var mine := slotCnt;
      slotCnt := slotCnt + 1;
      gStreams[mine] := ZERO_STREAM;
      gStreams[mine] := gStreams[mine].(profile := profile);
      streamId := streamId + 1;
      gStreams[mine] := gStreams[mine].(id := streamId);
      gStreams[mine] := gStreams[mine].(tblidx := slotCnt - 1);
      return streamId;
    }

    /** wfaTGSendPing, as built for ICMP echo: takes an id and no slot. */
    method TGSendPing() returns (id: int)
      requires Valid()
      modifies this`streamId
      ensures Valid() && View() == Step(old(View()), Op.Ping) && id == old(streamId) + 1
    {
      streamId := streamId + 1;
      return streamId;
    }

    /** wfaTGReset: the memset counts bytes, and eight bytes are the id and the socket of slot 0. */
    method TGReset()
      requires Valid()
      modifies this, gStreams
      ensures Valid() && View() == Step(old(View()), Op.Reset)
    {
      slotCnt := 0;
      gStreams[0] := gStreams[0].(id := 0);
    }

    /** tmout_stop_send, as far as the table is concerned. */
    method TimeoutStopSend()
      requires Valid()
      modifies this`slotCnt
      ensures Valid() && View() == Step(old(View()), Op.Timeout)
    {
      slotCnt := 0;
    }

    /** The heads of wfaTGSendStart and wfaTGRecvStart: started counts the streams of the list that
        were reset and activated before the first one refused. lastPktSN is not reset. */
    method TGStart(direction: Direction, ids: seq<int>) returns (started: nat)
      requires Valid()
      modifies gStreams
      ensures Valid() && View() == Step(old(View()), Op.Start(direction, ids))
      ensures started == StartAll(old(gStreams[..]), ids, direction).1
    {
      started := 0;
      while started < |ids|
        invariant started <= |ids|
        invariant StartAll(old(gStreams[..]), ids, direction).0 == StartAll(gStreams[..], ids[started..], direction).0
        invariant StartAll(old(gStreams[..]), ids, direction).1
               == StartAll(gStreams[..], ids[started..], direction).1 + started
      {
        var ok := TGStartOne(direction, ids[started]);
        if !ok { return; }
        assert ids[started..][1..] == ids[started + 1..];
        started := started + 1;
      }
    }

    method TGStartOne(direction: Direction, id: int) returns (ok: bool)
      requires Valid()
      modifies gStreams
      ensures Valid() && ok == Startable(old(gStreams[..]), id, direction)
      ensures gStreams[..] == if ok then StartOne(old(gStreams[..]), id) else old(gStreams[..])
    {
      var k := FindStreamProfile(id);
      if k.None? || gStreams[k.value].profile.direction != direction { return false; }
      gStreams[k.value] := gStreams[k.value].(stats := ZERO_STATS);
      gStreams[k.value] := gStreams[k.value].(active := true);
      return true;
    }

    /** wfaSentStatsResp: reports the active senders in slot order and marks every stream inactive. */
    method SentStatsResp() returns (report: seq<(int, TgStats)>)
      requires Valid()
      modifies gStreams
      ensures Valid() && View() == Step(old(View()), Op.SentStats)
      ensures report == ActiveSenders(old(gStreams[..]))
    {
      report := [];
      for i := 0 to gStreams.Length
        invariant forall k :: 0 <= k < gStreams.Length ==>
          gStreams[k] == if k < i then old(gStreams[k]).(active := false) else old(gStreams[k])
        invariant report == ActiveSenders(old(gStreams[..])[..i])
      {
        assert old(gStreams[..])[..i + 1][..i] == old(gStreams[..])[..i];
        var st := gStreams[i];
        if st.id != 0 && st.profile.direction == DirectSend && st.active {
          report := report + [(st.id, st.stats)];
        }
        gStreams[i] := st.(active := false);
      }
      assert old(gStreams[..])[..gStreams.Length] == old(gStreams[..]);
      assert gStreams[..] == Deactivated(old(gStreams[..]));
    }
  }

  /** Id and statistics of every used, active, sending slot, in order. */
  function ActiveSenders(slots: seq<TgStream>): seq<(int, TgStats)> {
    if slots == [] then []
    else
      var st := slots[|slots| - 1];
      ActiveSenders(slots[..|slots| - 1]) +
      if st.id != 0 && st.profile.direction == DirectSend && st.active then [(st.id, st.stats)] else []
  }

  /** What was reported is not reported again: a second report right after the first is empty. */
  lemma {:induction false} ReportsOnce(slots: seq<TgStream>)
    ensures ActiveSenders(Deactivated(slots)) == []
    decreases |slots|
  {
    if slots != [] {
      ReportsOnce(slots[..|slots| - 1]);
      assert Deactivated(slots)[..|slots| - 1] == Deactivated(slots[..|slots| - 1]);
    }
  }

  predicate Sending(st: TgStream) { st.profile.direction == DirectSend && st.active }

  /** A report holds exactly the used, active, sending streams with their statistics. */
  lemma {:induction false} ReportedIff(slots: seq<TgStream>, id: int, stats: TgStats)
    ensures (id, stats) in ActiveSenders(slots)
       <==> exists k :: 0 <= k < |slots| && slots[k].id == id != 0 && slots[k].stats == stats && Sending(slots[k])
  {
    if slots != [] {
      var front := slots[..|slots| - 1];
      ReportedIff(front, id, stats);
      if k :| 0 <= k < |slots| && slots[k].id == id != 0 && slots[k].stats == stats && Sending(slots[k]) {
        assert k < |front| ==> front[k] == slots[k];
      }
      if k :| 0 <= k < |front| && front[k].id == id != 0 && front[k].stats == stats && Sending(front[k]) {
        assert slots[k] == front[k];
      }
    }
  }

  lemma ReportedSlot(slots: seq<TgStream>, k: nat, issued: nat, stats: TgStats)
    requires IdsDistinct(slots, issued) && k < |slots| && slots[k].id != 0
    ensures (slots[k].id, stats) in ActiveSenders(slots) <==> stats == slots[k].stats && Sending(slots[k])
  {
    ReportedIff(slots, slots[k].id, stats);
  }

  /** What starting does to a used slot: resets and activates it if its stream was started, and nothing else. */
  lemma {:induction false} StartedSlot(slots: seq<TgStream>, ids: seq<int>, direction: Direction, k: nat, issued: nat)
    requires IdsDistinct(slots, issued) && k < |slots| && slots[k].id != 0
    ensures var r := StartAll(slots, ids, direction);
      r.0[k] == if slots[k].id in ids[..r.1] then slots[k].(stats := ZERO_STATS, active := true) else slots[k]
    decreases |ids|
  {
    if ids == [] || !Startable(slots, ids[0], direction) { return; }
    var slots' := StartOne(slots, ids[0]);
    StartedSlot(slots', ids[1..], direction, k, issued);
    FirstOrRest(slots[k].id, ids, StartAll(slots, ids, direction).1);
  }

  lemma FirstOrRest(id: int, ids: seq<int>, n: nat)
    requires 0 < n <= |ids|
    ensures id in ids[..n] <==> id == ids[0] || id in ids[1..][..n - 1]
  {
    assert ids[..n] == [ids[0]] + ids[1..][..n - 1];
  }

  predicate OnlyWork(ops: seq<Op>) { ops == [] || (ops[|ops| - 1].Work? && OnlyWork(ops[..|ops| - 1])) }

  /** Workers change nothing but statistics and lastPktSN. */
  lemma {:induction false} WorkKeeps(ops: seq<Op>, work: seq<Op>)
    requires OnlyWork(work)
    ensures var a, b := Run(ops).slots, Run(ops + work).slots;
      |a| == |b| && forall k :: 0 <= k < |a| ==> b[k] == a[k].(stats := b[k].stats, lastPktSN := b[k].lastPktSN)
  {
    if work == [] {
      assert ops + work == ops;
    } else {
      WorkKeeps(ops, work[..|work| - 1]);
      assert (ops + work)[..|ops + work| - 1] == ops + work[..|work| - 1];
    }
  }

  /** From start to report, in any run: after a start and any work of the threads, the report says of every
      stream in the table whether it was started now, and with what statistics, which are zero before any work,
      or whether it was sending before and has not been reported. */
  lemma StartIsReported(ops: seq<Op>, ids: seq<int>, work: seq<Op>, k: nat)
    requires OnlyWork(work) && k < |Run(ops).slots| && Run(ops).slots[k].id != 0
    ensures var before, slots := Run(ops).slots, Run(ops + [Start(DirectSend, ids)] + work).slots;
      var st, started := before[k], before[k].id in ids[..StartAll(before, ids, DirectSend).1];
      && |slots| == |before| && slots[k].id == st.id
      && (started ==> st.profile.direction == DirectSend)
      && (started && work == [] ==> slots[k].stats == ZERO_STATS)
      && forall stats ::
           (st.id, stats) in ActiveSenders(slots) <==> stats == slots[k].stats && (started || Sending(st))
  {
    var start := ops + [Start(DirectSend, ids)];
    RunConsistent(ops);
    RunConsistent(start + work);
    assert start[..|ops|] == ops;
    assert work == [] ==> start + work == start;
    StartKeepsIdentities(Run(ops).slots, ids, DirectSend);
    WorkKeeps(start, work);
    SlotAfterStart(Run(ops).slots, ids, k, LogOf(ops).issued);
    var slots := Run(start + work).slots;
    forall stats
      ensures (slots[k].id, stats) in ActiveSenders(slots) <==> stats == slots[k].stats && Sending(slots[k])
    {
      ReportedSlot(slots, k, LogOf(start + work).issued, stats);
    }
  }

  lemma SlotAfterStart(slots: seq<TgStream>, ids: seq<int>, k: nat, issued: nat)
    requires IdsDistinct(slots, issued) && k < |slots| && slots[k].id != 0
    ensures var r := StartAll(slots, ids, DirectSend);
      var st, started := r.0[k], slots[k].id in ids[..r.1];
      && (started ==> slots[k].profile.direction == DirectSend && st.stats == ZERO_STATS)
      && st.id == slots[k].id && (Sending(st) <==> started || Sending(slots[k]))
  {
    StartedSlot(slots, ids, DirectSend, k, issued);
    if slots[k].id in ids[..StartAll(slots, ids, DirectSend).1] { StartedDirection(slots, ids, DirectSend, k, issued); }
  }

  lemma StartedDirection(slots: seq<TgStream>, ids: seq<int>, direction: Direction, k: nat, issued: nat)
    requires IdsDistinct(slots, issued) && k < |slots| && slots[k].id != 0
    requires slots[k].id in ids[..StartAll(slots, ids, direction).1]
    ensures slots[k].profile.direction == direction
  {
    StartsLongestPrefix(slots, ids, direction);
  }
}
