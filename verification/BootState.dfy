/**
 * Boot state tracking: what each machine was last heard to be doing, in a map
 * that never grows past a bound.
 */
module BootStates {
  import opened Prelude
  import opened Macs
  import opened Sorting

  /** Where a host is in the sequence, in the order it happens. */
  datatype Phase = ScriptFetched | AssetsFetched | RootAttached | Running | Assimilating | Local | Failed

  function Rank(p: Phase): nat {
    match p
    case ScriptFetched => 0
    case AssetsFetched => 1
    case RootAttached => 2
    case Running => 3
    case Assimilating => 4
    case Local => 5
    case Failed => 6
  }

  predicate IsTerminal(p: Phase) {
    p.Local? || p.Failed?
  }

  function Slug(p: Phase): string {
    match p
    case ScriptFetched => "script-fetched"
    case AssetsFetched => "assets-fetched"
    case RootAttached => "root-attached"
    case Running => "running"
    case Assimilating => "assimilating"
    case Local => "local"
    case Failed => "failed"
  }

  datatype Inventory = Inventory(
    cpus: nat, memoryKb: nat, product: Option<string>, serial: Option<string>, disks: seq<string>)

  datatype HostState = HostState(
    mac: Mac, phase: Phase, detail: Option<string>, palletVersion: Option<string>,
    hardware: Option<Inventory>, firstSeen: nat, updated: nat)

  type Tracked = map<Mac, HostState>

  const MAX_TRACKED: nat := 20_000

  // ---- what one report does ------------------------------------------------

  datatype Report =
    | Observe(mac: Mac, phase: Phase, detail: Option<string>, now: nat)
    | SetPalletVersion(mac: Mac, version: string)
    | SetInventory(mac: Mac, hardware: Inventory, now: nat)

  function InFlight(h: Tracked): Tracked {
    map m | m in h && !IsTerminal(h[m].phase) :: h[m]
  }

  predicate LeastRecent(h: Tracked, m: Mac) {
    m in h && forall k :: k in h ==> h[m].updated <= h[k].updated
  }

  /** Eviction: every finished host; and if that was not enough, one least recently updated host, any of them. */
  ghost predicate Evicted(h: Tracked, room: Tracked) {
    var kept := InFlight(h);
    if |kept| < MAX_TRACKED then room == kept
    else exists oldest :: LeastRecent(kept, oldest) && room == kept - {kept[oldest].mac}
  }

  ghost predicate MadeRoom(h: Tracked, m: Mac, room: Tracked) {
    if |h| >= MAX_TRACKED && m !in h then Evicted(h, room) else room == h
  }

  function Observed(h: Tracked, m: Mac, phase: Phase, detail: Option<string>, now: nat): Tracked {
    if m !in h then
      h[m := HostState(m, phase, detail, None, None, now, now)]
    else if Rank(phase) >= Rank(h[m].phase) || phase.Failed? then
      h[m := h[m].(phase := phase, detail := detail, updated := now)]
    else h
  }

  function Inventoried(h: Tracked, m: Mac, hardware: Inventory, now: nat): Tracked {
    if m !in h then
      h[m := HostState(m, Running, None, None, Some(hardware), now, now)]
    else h[m := h[m].(hardware := Some(hardware), updated := now)]
  }

  ghost predicate Step(h: Tracked, r: Report, h': Tracked) {
    match r
    case Observe(m, phase, detail, now) =>
      exists room :: MadeRoom(h, m, room) && h' == Observed(room, m, phase, detail, now)
    case SetPalletVersion(m, version) =>
      h' == if m in h then h[m := h[m].(palletVersion := Some(version))] else h
    case SetInventory(m, hardware, now) =>
      exists room :: MadeRoom(h, m, room) && h' == Inventoried(room, m, hardware, now)
  }

  class BootState {
    var hosts: Tracked

    constructor ()
      ensures hosts == map[]
    {
      hosts := map[];
    }

    method RecordPhase(mac: Mac, phase: Phase, detail: Option<string>, now: nat)
      requires Keyed(hosts)
      modifies this
      ensures Step(old(hosts), Observe(mac, phase, detail, now), hosts)
    {
      if |hosts| >= MAX_TRACKED && mac !in hosts {
        EvictFinished();
      }
      assert MadeRoom(old(hosts), mac, hosts);
      if mac in hosts {
        var state := hosts[mac];
        if Rank(phase) >= Rank(state.phase) || phase.Failed? {
          hosts := hosts[mac := state.(phase := phase, detail := detail, updated := now)];
        }
      } else {
        hosts := hosts[mac := HostState(mac, phase, detail, None, None, now, now)];
      }
    }

    method RecordPalletVersion(mac: Mac, version: string)
      modifies this
      ensures Step(old(hosts), SetPalletVersion(mac, version), hosts)
    {
      if mac in hosts {
        hosts := hosts[mac := hosts[mac].(palletVersion := Some(version))];
      }
    }

    method RecordInventory(mac: Mac, hardware: Inventory, now: nat)
      requires Keyed(hosts)
      modifies this
      ensures Step(old(hosts), SetInventory(mac, hardware, now), hosts)
    {
      if |hosts| >= MAX_TRACKED && mac !in hosts {
        EvictFinished();
      }
      assert MadeRoom(old(hosts), mac, hosts);
      if mac in hosts {
        hosts := hosts[mac := hosts[mac].(hardware := Some(hardware), updated := now)];
      } else {
        hosts := hosts[mac := HostState(mac, Running, None, None, Some(hardware), now, now)];
      }
    }

    method EvictFinished()
      modifies this
      ensures Evicted(old(hosts), hosts)
    {
      hosts := InFlight(hosts);
      if |hosts| >= MAX_TRACKED {
        // The minimum by update time, over the hash map in whatever order it is walked.
        var left := hosts.Keys;
        assert |left| > 0;
        var oldest :| oldest in left;
        left := left - {oldest};
        while left != {}
          invariant left <= hosts.Keys && oldest in hosts
          invariant forall k :: k in hosts && k !in left ==> hosts[oldest].updated <= hosts[k].updated
          decreases left
        {
          var m :| m in left;
          left := left - {m};
          if hosts[m].updated < hosts[oldest].updated {
            oldest := m;
          }
        }
        assert LeastRecent(hosts, oldest);
        hosts := hosts - {hosts[oldest].mac};
      }
    }
  }

  // ---- the bound ---------------------------------------------------------------

  predicate Keyed(h: Tracked) {
    forall m :: m in h ==> h[m].mac == m
  }

  lemma {:induction false} SubmapIsSmaller(a: Tracked, b: Tracked)
    requires a.Keys <= b.Keys
    ensures |a| <= |b|
    ensures a.Keys != b.Keys ==> |a| < |b|
  {
    assert |b.Keys| == |a.Keys| + |b.Keys - a.Keys| by {
      assert a.Keys + (b.Keys - a.Keys) == b.Keys;
    }
    if a.Keys != b.Keys {
      assert b.Keys - a.Keys != {};
    }
  }

  /** What eviction may take: finished hosts freely; an in-flight one only alone, and only the least recent. */
  lemma {:induction false} EvictionTakes(h: Tracked, m: Mac, room: Tracked)
    requires Keyed(h) && |h| <= MAX_TRACKED && MadeRoom(h, m, room)
    ensures room.Keys <= h.Keys && forall k :: k in room ==> room[k] == h[k]
    ensures m !in h ==> |room| < MAX_TRACKED && m !in room
    ensures m in h ==> room == h
  {
    if |h| >= MAX_TRACKED && m !in h {
      var kept := InFlight(h);
      SubmapIsSmaller(kept, h);
      if |kept| < MAX_TRACKED {
      } else {
        var oldest :| LeastRecent(kept, oldest) && room == kept - {kept[oldest].mac};
        assert kept.Keys == h.Keys;
        assert kept == h;
        SubmapIsSmaller(room, kept);
      }
    }
  }

  lemma {:induction false} EvictionTakesOne(h: Tracked, m: Mac, room: Tracked, k: Mac)
    requires Keyed(h) && |h| <= MAX_TRACKED && MadeRoom(h, m, room)
    requires k in h && k !in room && !IsTerminal(h[k].phase)
    ensures InFlight(h) == h && LeastRecent(h, k) && h.Keys - room.Keys == {k} && |h| == MAX_TRACKED
  {
    var kept := InFlight(h);
    SubmapIsSmaller(kept, h);
    var oldest :| LeastRecent(kept, oldest) && room == kept - {kept[oldest].mac};
    assert kept.Keys == h.Keys;
    assert kept == h;
  }

  /** `after` is `room` with at most the entry for `m` added or changed. */
  ghost predicate TouchesOnly(room: Tracked, m: Mac, after: Tracked) {
    && room.Keys <= after.Keys <= room.Keys + {m}
    && (forall k :: k in room && k != m ==> after[k] == room[k])
    && (m in after ==> after[m].mac == if m in room then room[m].mac else m)
  }

  lemma {:induction false} ObservedTouchesOnly(room: Tracked, m: Mac, phase: Phase, detail: Option<string>, now: nat)
    ensures TouchesOnly(room, m, Observed(room, m, phase, detail, now))
  {
  }

  lemma {:induction false} InventoriedTouchesOnly(room: Tracked, m: Mac, hardware: Inventory, now: nat)
    ensures TouchesOnly(room, m, Inventoried(room, m, hardware, now))
  {
  }

  /** Every step makes room and then touches the reported host alone. */
  lemma {:induction false} StepTouchesOneHost(h: Tracked, r: Report, h': Tracked) returns (room: Tracked)
    requires Step(h, r, h')
    ensures if r.SetPalletVersion? then room == h && h'.Keys == h.Keys else MadeRoom(h, r.mac, room)
    ensures TouchesOnly(room, r.mac, h')
  {
    match r {
      case Observe(m, phase, detail, now) =>
        room :| MadeRoom(h, m, room) && h' == Observed(room, m, phase, detail, now);
        ObservedTouchesOnly(room, m, phase, detail, now);
      case SetPalletVersion(m, version) =>
        room := h;
      case SetInventory(m, hardware, now) =>
        room :| MadeRoom(h, m, room) && h' == Inventoried(room, m, hardware, now);
        InventoriedTouchesOnly(room, m, hardware, now);
    }
  }

  lemma {:induction false} OneMore(a: Tracked, b: Tracked, m: Mac)
    requires a.Keys <= b.Keys <= a.Keys + {m}
    ensures |b| <= |a| + 1
    ensures m in a ==> b.Keys == a.Keys && |b| == |a|
    ensures m !in b ==> b.Keys == a.Keys && |b| == |a|
  {
    assert b.Keys == a.Keys || b.Keys == a.Keys + {m};
    assert |b| == |b.Keys| && |a| == |a.Keys|;
  }

  lemma {:induction false} StepKeepsBound(h: Tracked, r: Report, h': Tracked)
    requires Keyed(h) && |h| <= MAX_TRACKED && Step(h, r, h')
    ensures Keyed(h') && |h'| <= MAX_TRACKED
    ensures r.mac in h ==> h'.Keys == h.Keys
  {
    var room := StepTouchesOneHost(h, r, h');
    OneMore(room, h', r.mac);
    if !r.SetPalletVersion? {
      EvictionTakes(h, r.mac, room);
    }
  }

  lemma {:induction false} StepEvicts(h: Tracked, r: Report, h': Tracked, k: Mac)
    requires Keyed(h) && |h| <= MAX_TRACKED && Step(h, r, h')
    requires k in h && k !in h' && !IsTerminal(h[k].phase)
    ensures InFlight(h) == h && LeastRecent(h, k) && h.Keys - h'.Keys == {k} && |h| == MAX_TRACKED
  {
    var room := StepTouchesOneHost(h, r, h');
    EvictionTakes(h, r.mac, room);
    EvictionTakesOne(h, r.mac, room, k);
    assert r.mac !in h;
    assert h.Keys - h'.Keys == h.Keys - room.Keys;
  }

  /** A run: the states a tracker goes through as reports arrive. */
  ghost predicate Run(states: seq<Tracked>, reports: seq<Report>) {
    && |states| == |reports| + 1
    && forall i :: 0 <= i < |reports| ==> Step(states[i], reports[i], states[i + 1])
  }

  /** From empty, the tracker stays bounded and keyed for ever. */
  lemma {:induction false} TrackerIsBounded(states: seq<Tracked>, reports: seq<Report>, i: nat)
    requires Run(states, reports) && states[0] == map[] && i < |states|
    ensures Keyed(states[i]) && |states[i]| <= 20_000
  {
    if i > 0 {
      TrackerIsBounded(states, reports, i - 1);
      StepKeepsBound(states[i - 1], reports[i - 1], states[i]);
    }
  }

  /** A host that no longer needs the boot server. */
  predicate Finished(s: HostState) {
    s.phase == Local || s.phase == Failed
  }

  /**
   * In every run, at every step: a report about a known host evicts nobody, and an
   * in-flight host disappears only when every tracked host is in flight; then it
   * alone goes, and none was updated before it.
   */
  lemma {:induction false} EvictionIsLastResort(states: seq<Tracked>, reports: seq<Report>, i: nat, k: Mac)
    requires Run(states, reports) && states[0] == map[] && i < |reports|
    ensures reports[i].mac in states[i] ==> states[i + 1].Keys == states[i].Keys
    ensures k in states[i] && k !in states[i + 1] && !Finished(states[i][k]) ==>
              && (forall o :: o in states[i] ==> !Finished(states[i][o]))
              && (forall o :: o in states[i] ==> states[i][k].updated <= states[i][o].updated)
              && states[i].Keys - states[i + 1].Keys == {k}
              && |states[i]| == 20_000
  {
    TrackerIsBounded(states, reports, i);
    StepKeepsBound(states[i], reports[i], states[i + 1]);
    if k in states[i] && k !in states[i + 1] && !Finished(states[i][k]) {
      StepEvicts(states[i], reports[i], states[i + 1], k);
      assert forall o :: o in states[i] ==> o in InFlight(states[i]);
    }
  }

  /** Nobody goes before the map is full; when it is and a newcomer reports, every finished host goes. */
  lemma {:induction false} NewcomerMakesRoom(states: seq<Tracked>, reports: seq<Report>, i: nat, k: Mac)
    requires Run(states, reports) && states[0] == map[] && i < |reports|
    requires k in states[i] && k != reports[i].mac
    ensures |states[i]| < 20_000 ==> k in states[i + 1]
    ensures |states[i]| == 20_000 && reports[i].mac !in states[i] && reports[i].mac in states[i + 1] ==>
              (Finished(states[i][k]) ==> k !in states[i + 1])
  {
    TrackerIsBounded(states, reports, i);
    var room := StepTouchesOneHost(states[i], reports[i], states[i + 1]);
    if !reports[i].SetPalletVersion? && MAX_TRACKED <= |states[i]| && reports[i].mac !in states[i] {
      assert k in room ==> k in InFlight(states[i]);
    }
  }

  // ---- what one report does to one host -------------------------------------------

  /** The order in which a boot happens, failure last. */
  lemma {:induction false} PhasesInOrder()
    ensures Rank(ScriptFetched) < Rank(AssetsFetched) < Rank(RootAttached) < Rank(Running)
    ensures Rank(Running) < Rank(Assimilating) < Rank(Local) < Rank(Failed)
  {
  }

  /** A host that was not tracked before a report is the one it is about, as it reports itself. */
  lemma {:induction false} NewcomerIsAsReported(states: seq<Tracked>, reports: seq<Report>, i: nat, m: Mac)
    requires Run(states, reports) && states[0] == map[] && i < |reports|
    requires m !in states[i] && m in states[i + 1]
    ensures var r, s := reports[i], states[i + 1][m];
            && r.mac == m && s.mac == m && !r.SetPalletVersion?
            && s.firstSeen == r.now && s.updated == r.now && s.palletVersion == None
            && (r.Observe? ==> s.phase == r.phase && s.detail == r.detail && s.hardware == None)
            && (r.SetInventory? ==> s.phase == Running && s.detail == None && s.hardware == Some(r.hardware))
  {
    TrackerIsBounded(states, reports, i);
    var room := StepTouchesOneHost(states[i], reports[i], states[i + 1]);
    if !reports[i].SetPalletVersion? {
      EvictionTakes(states[i], reports[i].mac, room);
    }
  }

  /**
   * What a report does to a host tracked before and after it: nothing unless it is the
   * one reported; a phase that is not behind, and its detail, replace the host's and
   * are timed; a version is noted untimed; an inventory is noted and timed.
   */
  lemma {:induction false} KnownHostIsUpdated(states: seq<Tracked>, reports: seq<Report>, i: nat, m: Mac)
    requires Run(states, reports) && states[0] == map[] && i < |reports|
    requires m in states[i] && m in states[i + 1]
    ensures var r, before, after := reports[i], states[i][m], states[i + 1][m];
            && after.mac == before.mac && after.firstSeen == before.firstSeen
            && (r.mac != m ==> after == before)
            && (r.mac == m && r.Observe? && Rank(r.phase) < Rank(before.phase) ==> after == before)
            && (r.mac == m && r.Observe? && Rank(r.phase) >= Rank(before.phase) ==>
                  && after.phase == r.phase && after.detail == r.detail && after.updated == r.now
                  && after.palletVersion == before.palletVersion && after.hardware == before.hardware)
            && (r.mac == m && r.SetPalletVersion? ==>
                  && after.phase == before.phase && after.detail == before.detail && after.updated == before.updated
                  && after.palletVersion == Some(r.version) && after.hardware == before.hardware)
            && (r.mac == m && r.SetInventory? ==>
                  && after.phase == before.phase && after.detail == before.detail && after.updated == r.now
                  && after.palletVersion == before.palletVersion && after.hardware == Some(r.hardware))
  {
    TrackerIsBounded(states, reports, i);
    var room := StepTouchesOneHost(states[i], reports[i], states[i + 1]);
    if !reports[i].SetPalletVersion? {
      EvictionTakes(states[i], reports[i].mac, room);
    }
  }

  // ---- phases are a join ----------------------------------------------------------

  datatype Heard = Heard(phase: Phase, detail: Option<string>)

  /** What a stretch of reports says about one host's phase, in order. */
  function HeardAbout(reports: seq<Report>, m: Mac): seq<Heard> {
    if reports == [] then []
    else
      var last := reports[|reports| - 1];
      HeardAbout(reports[..|reports| - 1], m) +
      if last.Observe? && last.mac == m then [Heard(last.phase, last.detail)] else []
  }

  function MaxPhase(p: Phase, q: Phase): Phase {
    if Rank(p) < Rank(q) then q else p
  }

  /** The furthest phase among a start and what was heard since. */
  function Furthest(start: Phase, heard: seq<Heard>): Phase {
    if heard == [] then start
    else MaxPhase(Furthest(start, heard[..|heard| - 1]), heard[|heard| - 1].phase)
  }

  /** The detail of the last report at a phase, or what was there before. */
  function LastDetailAt(p: Phase, before: Option<string>, heard: seq<Heard>): Option<string> {
    if heard == [] then before
    else if heard[|heard| - 1].phase == p then heard[|heard| - 1].detail
    else LastDetailAt(p, before, heard[..|heard| - 1])
  }

  lemma {:induction false} RankIsInjective(p: Phase, q: Phase)
    requires Rank(p) == Rank(q)
    ensures p == q
  {
  }

  lemma {:induction false} FurthestIsBound(start: Phase, heard: seq<Heard>)
    ensures Rank(start) <= Rank(Furthest(start, heard))
    ensures forall x :: x in heard ==> Rank(x.phase) <= Rank(Furthest(start, heard))
    ensures Furthest(start, heard) == start || exists x :: x in heard && x.phase == Furthest(start, heard)
  {
    if heard != [] {
      var init, last := heard[..|heard| - 1], heard[|heard| - 1];
      FurthestIsBound(start, init);
      assert heard == init + [last];
      assert last in heard;
    }
  }

  /** Hearing one more report. */
  lemma {:induction false} HearOneMore(start: Phase, before: Option<string>, heard: seq<Heard>, x: Heard)
    ensures var p := Furthest(start, heard);
            var q := Furthest(start, heard + [x]);
            if Rank(x.phase) >= Rank(p)
            then q == x.phase && LastDetailAt(q, before, heard + [x]) == x.detail
            else q == p && LastDetailAt(q, before, heard + [x]) == LastDetailAt(p, before, heard)
  {
    var p := Furthest(start, heard);
    assert (heard + [x])[..|heard|] == heard;
    if Rank(x.phase) == Rank(p) {
      RankIsInjective(x.phase, p);
    }
  }

  /** A report moves a host's phase when it is at least as far along, and leaves it otherwise. */
  predicate PhaseStep(before: HostState, r: Report, after: HostState) {
    if r.Observe? && r.mac == before.mac && Rank(r.phase) >= Rank(before.phase)
    then after.phase == r.phase && after.detail == r.detail
    else after.phase == before.phase && after.detail == before.detail
  }

  lemma {:induction false} StepOnTracked(h: Tracked, r: Report, h': Tracked, m: Mac)
    requires Keyed(h) && |h| <= MAX_TRACKED && Step(h, r, h') && m in h && m in h'
    ensures PhaseStep(h[m], r, h'[m])
  {
    var room := StepTouchesOneHost(h, r, h');
    if !r.SetPalletVersion? {
      EvictionTakes(h, r.mac, room);
    }
  }

  lemma {:induction false} FollowPhases(hs: seq<HostState>, reports: seq<Report>, m: Mac)
    requires |hs| == |reports| + 1 && forall k :: 0 <= k < |hs| ==> hs[k].mac == m
    requires forall k :: 0 <= k < |reports| ==> PhaseStep(hs[k], reports[k], hs[k + 1])
    ensures var heard := HeardAbout(reports, m);
            var furthest := Furthest(hs[0].phase, heard);
            && hs[|reports|].phase == furthest
            && hs[|reports|].detail == LastDetailAt(furthest, hs[0].detail, heard)
  {
    if reports != [] {
      var n := |reports| - 1;
      FollowPhases(hs[..n + 1], reports[..n], m);
      var r := reports[n];
      if r.Observe? && r.mac == m {
        HearOneMore(hs[0].phase, hs[0].detail, HeardAbout(reports[..n], m), Heard(r.phase, r.detail));
      } else {
        assert HeardAbout(reports, m) == HeardAbout(reports[..n], m);
      }
    }
  }

  /**
   * While a host stays tracked its phase is the furthest of where it started and
   * everything reported since, and its detail is that of the last report at that phase.
   */
  lemma {:induction false} PhaseIsFurthestHeard(states: seq<Tracked>, reports: seq<Report>, i: nat, j: nat, m: Mac)
    requires Run(states, reports) && states[0] == map[] && i <= j < |states|
    requires forall k :: i <= k <= j ==> m in states[k]
    ensures var heard := HeardAbout(reports[i..j], m);
            var furthest := Furthest(states[i][m].phase, heard);
            && states[j][m].phase == furthest
            && states[j][m].detail == LastDetailAt(furthest, states[i][m].detail, heard)
  {
    var hs := History(states, i, j, m);
    forall k | 0 <= k <= j - i
      ensures hs[k].mac == m
    {
      TrackerIsBounded(states, reports, i + k);
    }
    forall k | 0 <= k < j - i
      ensures PhaseStep(hs[k], reports[i..j][k], hs[k + 1])
    {
      TrackedStep(states, reports, i + k, m);
    }
    FollowPhases(hs, reports[i..j], m);
  }

  function History(states: seq<Tracked>, i: nat, j: nat, m: Mac): (hs: seq<HostState>)
    requires i <= j < |states| && forall k :: i <= k <= j ==> m in states[k]
    ensures |hs| == j - i + 1 && forall k :: 0 <= k <= j - i ==> hs[k] == states[i + k][m]
  {
    seq(j - i + 1, k requires 0 <= k <= j - i && i + k < |states| && m in states[i + k] => states[i + k][m])
  }

  lemma {:induction false} TrackedStep(states: seq<Tracked>, reports: seq<Report>, k: nat, m: Mac)
    requires Run(states, reports) && states[0] == map[] && k < |reports|
    requires m in states[k] && m in states[k + 1]
    ensures PhaseStep(states[k][m], reports[k], states[k + 1][m])
  {
    TrackerIsBounded(states, reports, k);
    StepOnTracked(states[k], reports[k], states[k + 1], m);
  }

  /**
   * From the report that made it tracked on, a host's phase is the furthest of all that
   * was heard of it, that report included; an inventory counts as running.
   */
  lemma {:induction false} PhaseIsFurthestSinceFirst(
    states: seq<Tracked>, reports: seq<Report>, i: nat, j: nat, m: Mac)
    requires Run(states, reports) && states[0] == map[] && i < j < |states| && m !in states[i]
    requires forall k :: i < k <= j ==> m in states[k]
    ensures !reports[i].SetPalletVersion?
    ensures var first := if reports[i].Observe? then reports[i].phase else Running;
            var detail := if reports[i].Observe? then reports[i].detail else None;
            var heard := HeardAbout(reports[i + 1..j], m);
            && states[j][m].phase == Furthest(first, heard)
            && states[j][m].detail == LastDetailAt(Furthest(first, heard), detail, heard)
  {
    NewcomerIsAsReported(states, reports, i, m);
    PhaseIsFurthestHeard(states, reports, i + 1, j, m);
  }

  function PhasesIn(heard: seq<Heard>): set<Phase> {
    set x | x in heard :: x.phase
  }

  /** Order and repetition of reports do not matter to the phase, and failure absorbs. */
  lemma {:induction false} PhaseIgnoresOrder(start: Phase, a: seq<Heard>, b: seq<Heard>)
    requires PhasesIn(a) == PhasesIn(b)
    ensures Furthest(start, a) == Furthest(start, b)
    ensures (exists x :: x in a && x.phase.Failed?) ==> Furthest(start, a).Failed?
  {
    FurthestIsBound(start, a);
    FurthestIsBound(start, b);
    SamePhasesSameBound(start, a, b);
    SamePhasesSameBound(start, b, a);
    RankIsInjective(Furthest(start, a), Furthest(start, b));
    if x :| x in a && x.phase.Failed? {
      RankIsInjective(Furthest(start, a), Failed);
    }
  }

  lemma {:induction false} SamePhasesSameBound(start: Phase, a: seq<Heard>, b: seq<Heard>)
    requires PhasesIn(a) <= PhasesIn(b)
    ensures Rank(Furthest(start, a)) <= Rank(Furthest(start, b))
  {
    FurthestIsBound(start, a);
    FurthestIsBound(start, b);
    if Furthest(start, a) != start {
      var x :| x in a && x.phase == Furthest(start, a);
      assert x.phase in PhasesIn(a);
      var y :| y in b && y.phase == x.phase;
    }
  }

  // ---- what the console and the metrics read -----------------------------------------

  /** Most recently updated first, then by address. */
  predicate MoreRecent(a: HostState, b: HostState) {
    a.updated > b.updated || (a.updated == b.updated && Less(a.mac, b.mac))
  }

  lemma {:induction false} MoreRecentIsStrict()
    ensures StrictOrder(MoreRecent)
  {
    forall a: HostState
      ensures !MoreRecent(a, a)
    {
      LessIsTotal(a.mac, a.mac);
    }
    forall a: HostState, b: HostState, c: HostState | MoreRecent(a, b) && MoreRecent(b, c)
      ensures MoreRecent(a, c)
    {
      if a.updated == b.updated == c.updated {
        LessIsTransitive(a.mac, b.mac, c.mac);
      }
    }
  }

  /** In a snapshot, later updates come first, and equal ones by the first octet in which their addresses differ. */
  lemma {:induction false} SnapshotOrder(h: Tracked, s: seq<HostState>, i: nat, j: nat)
    requires IsSnapshot(h, s) && i < j < |s|
    ensures s[i].updated >= s[j].updated
    ensures s[i].updated == s[j].updated ==>
              exists n :: 0 <= n < 6 && s[i].mac[..n] == s[j].mac[..n] && s[i].mac[n] < s[j].mac[n]
  {
    MoreRecentIsStrict();
    LessExactly(s[i].mac, s[j].mac);
  }

  /** Every tracked host once, most recent first. */
  ghost predicate IsSnapshot(h: Tracked, s: seq<HostState>) {
    && Ascending(s, MoreRecent)
    && (forall x :: x in s <==> x.mac in h && h[x.mac] == x)
    && |s| == |h|
  }

  method Snapshot(h: Tracked) returns (s: seq<HostState>)
    requires Keyed(h)
    ensures IsSnapshot(h, s)
  {
    s := [];
    var left := h.Keys;
    while left != {}
      invariant left <= h.Keys
      invariant forall x :: x in s <==> x.mac in h && h[x.mac] == x && x.mac !in left
      invariant forall i, j :: 0 <= i < j < |s| ==> s[i].mac != s[j].mac
      invariant |s| + |left| == |h|
      decreases left
    {
      var m :| m in left;
      s := s + [h[m]];
      left := left - {m};
    }
    forall i, j | 0 <= i < j < |s|
      ensures MoreRecent(s[i], s[j]) || MoreRecent(s[j], s[i])
    {
      LessIsTotal(s[i].mac, s[j].mac);
    }
    MoreRecentIsStrict();
    SortByAscends(s, MoreRecent);
    s := SortBy(s, MoreRecent);
  }

  /** The hash map's walking order does not show: there is one snapshot. */
  lemma {:induction false} SnapshotIsUnique(h: Tracked, a: seq<HostState>, b: seq<HostState>)
    requires IsSnapshot(h, a) && IsSnapshot(h, b)
    ensures a == b
  {
    MoreRecentIsStrict();
    AscendingIsUnique(a, b, MoreRecent);
  }

  function InPhase(h: Tracked, p: Phase): set<Mac> {
    set m | m in h && h[m].phase == p
  }

  const PHASES: seq<Phase> := [ScriptFetched, AssetsFetched, RootAttached, Running, Assimilating, Local, Failed]

  /** Of the first `n` phases those that some host is in, in order, each with how many. */
  function CountsBelow(h: Tracked, n: nat): seq<(Phase, nat)>
    requires n <= |PHASES|
  {
    if n == 0 then []
    else
      var p := PHASES[n - 1];
      CountsBelow(h, n - 1) + if InPhase(h, p) != {} then [(p, |InPhase(h, p)|)] else []
  }

  function PhaseCounts(h: Tracked): seq<(Phase, nat)> {
    CountsBelow(h, |PHASES|)
  }

  predicate Tallied(h: Tracked, counts: map<Phase, nat>) {
    && (forall m :: m in h ==> h[m].phase in counts)
    && (forall p :: p in counts ==> counts[p] == |InPhase(h, p)| > 0)
  }

  lemma {:induction false} TallyOneMore(h: Tracked, counts: map<Phase, nat>, m: Mac, x: HostState)
    requires Tallied(h, counts) && m !in h
    ensures Tallied(h[m := x], counts[x.phase := (if x.phase in counts then counts[x.phase] else 0) + 1])
  {
    var after := h[m := x];
    assert InPhase(after, x.phase) == InPhase(h, x.phase) + {m};
    assert m !in InPhase(h, x.phase);
    if x.phase !in counts {
      assert InPhase(h, x.phase) == {};
    }
    forall q | q != x.phase
      ensures InPhase(after, q) == InPhase(h, q)
    {
    }
  }

  /** One walk over the hosts, in any order, adding to a map. */
  method TallyPhases(h: Tracked) returns (counts: map<Phase, nat>)
    ensures Tallied(h, counts)
  {
    counts := map[];
    var left := h.Keys;
    ghost var seen: Tracked := map[];
    while left != {}
      invariant left <= h.Keys && seen == h - left
      invariant Tallied(seen, counts)
      decreases left
    {
      var m :| m in left;
      var p := h[m].phase;
      TallyOneMore(seen, counts, m, h[m]);
      counts := counts[p := (if p in counts then counts[p] else 0) + 1];
      left := left - {m};
      seen := seen[m := h[m]];
    }
    assert seen == h;
  }

  /** The counts as the server lists them: the tallied entries, by phase. */
  method CountPhases(h: Tracked) returns (out: seq<(Phase, nat)>)
    ensures out == PhaseCounts(h)
  {
    var counts := TallyPhases(h);
    out := [];
    for i := 0 to |PHASES|
      invariant out == CountsBelow(h, i)
    {
      var p := PHASES[i];
      assert p in counts <==> InPhase(h, p) != {} by {
        if InPhase(h, p) != {} {
          var m :| m in InPhase(h, p);
        }
      }
      if p in counts {
        out := out + [(p, counts[p])];
      }
    }
  }

  function Total(counts: seq<(Phase, nat)>): nat {
    if counts == [] then 0 else Total(counts[..|counts| - 1]) + counts[|counts| - 1].1
  }

  function HostsBelow(h: Tracked, n: nat): set<Mac> {
    set m | m in h && Rank(h[m].phase) < n
  }

  lemma {:induction false} PhaseAt(i: nat)
    requires i < |PHASES|
    ensures Rank(PHASES[i]) == i
  {
  }

  lemma {:induction false} HostsSplit(h: Tracked, n: nat)
    requires n < |PHASES|
    ensures |HostsBelow(h, n + 1)| == |HostsBelow(h, n)| + |InPhase(h, PHASES[n])|
  {
    var p := PHASES[n];
    PhaseAt(n);
    forall m | m in h && Rank(h[m].phase) == n
      ensures h[m].phase == p
    {
      RankIsInjective(h[m].phase, p);
    }
    assert HostsBelow(h, n + 1) == HostsBelow(h, n) + InPhase(h, p);
    assert HostsBelow(h, n) !! InPhase(h, p);
  }

  lemma {:induction false} TotalBelow(h: Tracked, n: nat)
    requires n <= |PHASES|
    ensures Total(CountsBelow(h, n)) == |HostsBelow(h, n)|
  {
    if n > 0 {
      TotalBelow(h, n - 1);
      HostsSplit(h, n - 1);
      var p := PHASES[n - 1];
      var rest := CountsBelow(h, n - 1);
      if InPhase(h, p) != {} {
        assert CountsBelow(h, n) == rest + [(p, |InPhase(h, p)|)];
        assert (rest + [(p, |InPhase(h, p)|)])[..|rest|] == rest;
      } else {
        assert CountsBelow(h, n) == rest;
      }
    }
  }

  lemma {:induction false} CountsListed(h: Tracked, n: nat)
    requires n <= |PHASES|
    ensures forall x :: x in CountsBelow(h, n) ==> Rank(x.0) < n && x.1 == |InPhase(h, x.0)| > 0
    ensures forall i, j :: 0 <= i < j < |CountsBelow(h, n)| ==>
            Rank(CountsBelow(h, n)[i].0) < Rank(CountsBelow(h, n)[j].0)
    ensures forall k :: 0 <= k < n && InPhase(h, PHASES[k]) != {} ==>
              (PHASES[k], |InPhase(h, PHASES[k])|) in CountsBelow(h, n)
  {
    if n > 0 {
      CountsListed(h, n - 1);
      PhaseAt(n - 1);
      var rest := CountsBelow(h, n - 1);
      assert forall j :: 0 <= j < |rest| ==> rest[j] in rest;
    }
  }

  predicate Populated(h: Tracked, p: Phase) {
    exists m :: m in h && h[m].phase == p
  }

  /**
   * The counts add up to the tracked hosts; each phase some host is in is listed once, in
   * order, with how many are in it.
   */
  lemma {:induction false} CountsCoverHosts(h: Tracked)
    ensures Total(PhaseCounts(h)) == |h|
    ensures forall x :: x in PhaseCounts(h) ==> Populated(h, x.0) && x.1 == |InPhase(h, x.0)|
    ensures forall i, j :: 0 <= i < j < |PhaseCounts(h)| ==> Rank(PhaseCounts(h)[i].0) < Rank(PhaseCounts(h)[j].0)
    ensures forall m :: m in h ==> (h[m].phase, |InPhase(h, h[m].phase)|) in PhaseCounts(h)
  {
    TotalBelow(h, |PHASES|);
    CountsListed(h, |PHASES|);
    assert HostsBelow(h, |PHASES|) == h.Keys;
    forall x | x in PhaseCounts(h)
      ensures Populated(h, x.0)
    {
      var m :| m in InPhase(h, x.0);
    }
    forall m | m in h
      ensures (h[m].phase, |InPhase(h, h[m].phase)|) in PhaseCounts(h)
    {
      var k := Rank(h[m].phase);
      PhaseAt(k);
      RankIsInjective(PHASES[k], h[m].phase);
      assert m in InPhase(h, PHASES[k]);
    }
  }
}
