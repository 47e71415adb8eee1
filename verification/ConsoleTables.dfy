/** Runs of the console for every test: the station table and the table of handlers. */
module ConsoleTables {
  import opened Options
  import opened ConsoleScript
  import opened Console

  // The station table.

  /** The registered stations come first, and no address is registered twice. */
  ghost predicate Table(ts: seq<Station>) {
    && |ts| == NSTA
    && (forall i :: 0 <= i < |ts| && ts[i].addr == 0 ==> ts[i] == FREE)
    && (forall i, j :: 0 <= i < j < |ts| && ts[i].addr == 0 ==> ts[j].addr == 0)
    && (forall i, j :: 0 <= i < j < |ts| && ts[i].addr == ts[j].addr ==> ts[i].addr == 0)
  }

  /** No station is past the last handler of the script. */
  ghost predicate OnScript(cfg: Config, ts: seq<Station>)
    requires cfg.Valid()
  {
    forall i :: 0 <= i < |ts| ==> ts[i].state <= Terminal(cfg.test)
  }

  /** ts' differs from ts in one station at most: a registered one, or a new one in the first free slot. */
  ghost predicate OneChanged(cfg: Config, ts: seq<Station>, ts': seq<Station>, id: nat, st: Station)
    requires cfg.Valid()
  {
    && id < |ts| && ts' == ts[id := st] && st.addr != 0 && st.state <= Terminal(cfg.test)
    && (st.addr == ts[id].addr || (ts[id].addr == 0 && SlotOf(ts, 0) == Some(id) && SlotOf(ts, st.addr) == None))
  }

  lemma DispatchChanges(cfg: Config, s: State, id: nat, m: Msg)
    requires cfg.Valid() && id < |s.stations| && s.stations[id].state <= Terminal(cfg.test)
    ensures var n := Dispatch(cfg, s, id, m);
      && n.stations == s.stations[id := n.stations[id]]
      && n.stations[id].addr == s.stations[id].addr && n.stations[id].state <= Terminal(cfg.test)
      && (n.exit == Some(NullCall) ==> s.exit == n.exit)
  {
  }

  lemma RegisterChanges(cfg: Config, s: State, m: Msg) returns (id: nat)
    requires cfg.Valid() && s.from != 0
    ensures var n := Register(cfg, s, m);
      && (n.stations == s.stations
          || (id < |s.stations| && OneChanged(cfg, s.stations, n.stations, id, n.stations[id])))
      && (n.exit == Some(NullCall) ==> s.exit == n.exit)
  {
    id := 0;
    var slot := SlotFor(s);
    if slot.Some? {
      id := slot.value;
      DispatchChanges(cfg, Enrolled(s, id), id, m);
      assert s.stations[id := Station(s.from, 0, 0)][id := Register(cfg, s, m).stations[id]]
          == s.stations[id := Register(cfg, s, m).stations[id]];
    }
  }

  /** What one datagram can do to the table. */
  lemma NextChanges(cfg: Config, s: State, d: Datagram) returns (id: nat)
    requires cfg.Valid() && OnScript(cfg, s.stations)
    ensures var n := Next(cfg, s, d);
      && (n.stations == s.stations
          || (id < |s.stations| && OneChanged(cfg, s.stations, n.stations, id, n.stations[id])))
      && (n.exit == Some(NullCall) ==> s.exit == n.exit)
  {
    id := 0;
    var r := s.(from := if s.sta.None? || cfg.keepFrom then d.src else s.from);
    if s.exit.None? && s.awaiting == 0 && !Ignored(cfg, r.from, d.msg) {
      var slot := SlotOf(r.stations, r.from);
      if d.msg.kind == APTS_HELLO {
        id := RegisterChanges(cfg, r, d.msg);
      } else if slot.Some? {
        id := slot.value;
        DispatchChanges(cfg, r.(sta := slot), id, d.msg);
      }
    }
  }

  lemma TableUpdate(cfg: Config, ts: seq<Station>, ts': seq<Station>, id: nat, st: Station)
    requires cfg.Valid() && Table(ts) && OneChanged(cfg, ts, ts', id, st)
    ensures Table(ts')
  {
    if ts[id].addr == 0 {
      assert forall k :: 0 <= k < |ts| ==> ts[k].addr != st.addr;
    }
  }

  lemma NextTable(cfg: Config, s: State, d: Datagram)
    requires cfg.Valid() && Table(s.stations) && OnScript(cfg, s.stations)
    ensures var n := Next(cfg, s, d);
      Table(n.stations) && OnScript(cfg, n.stations) && (n.exit == Some(NullCall) ==> s.exit == n.exit)
  {
    var id := NextChanges(cfg, s, d);
    var ts := Next(cfg, s, d).stations;
    if ts != s.stations { TableUpdate(cfg, s.stations, ts, id, ts[id]); }
  }

  lemma {:induction false} RunTable(cfg: Config, ds: seq<Datagram>)
    requires cfg.Valid()
    ensures var s := Run(cfg, INIT, ds);
      Table(s.stations) && OnScript(cfg, s.stations) && s.exit != Some(NullCall)
  {
    if ds != [] {
      var front := ds[..|ds| - 1];
      RunTable(cfg, front);
      NextTable(cfg, Run(cfg, INIT, front), ds[|ds| - 1]);
    }
  }

  lemma TableInverts(ts: seq<Station>, i: nat)
    requires Table(ts) && i < NSTA
    ensures ts[i].addr != 0 ==> SlotOf(ts, ts[i].addr) == Some(i)
    ensures SlotOf(ts, 0) == Some(i) ==> (forall j :: 0 <= j < |ts| ==> (ts[j].addr != 0 <==> j < i))
  {
  }

  /** In every run of every test, registered stations form a prefix of the table with distinct nonzero
      addresses, and get_sta_id finds each of them at its own index. */
  lemma GetStaIdInverts(cfg: Config, ds: seq<Datagram>, i: nat)
    requires cfg.Valid() && i < NSTA
    ensures var ts := Run(cfg, INIT, ds).stations;
      && Table(ts)
      && (ts[i].addr != 0 ==> SlotOf(ts, ts[i].addr) == Some(i))
      && (SlotOf(ts, 0) == Some(i) ==> (forall j :: 0 <= j < |ts| ==> (ts[j].addr != 0 <==> j < i)))
  {
    RunTable(cfg, ds);
    TableInverts(Run(cfg, INIT, ds).stations, i);
  }

  /** In no run of any test is a null entry of the table called. */
  lemma NoNullHandler(cfg: Config, ds: seq<Datagram>)
    requires cfg.Valid()
    ensures Run(cfg, INIT, ds).exit != Some(NullCall)
    ensures forall i :: 0 <= i < NSTA ==> Run(cfg, INIT, ds).stations[i].state < |Script(cfg.test)|
  {
    RunTable(cfg, ds);
  }
}
