/**
 * The status writer: a capped pass that patches the objects whose status is out of
 * date, restartable at any point.
 *
 * A pass is written against any derivation of a status; `Deriver` is the one the
 * server uses, reading the tracker and the claims as they stand.
 */
module Reconcile {
  import opened Prelude
  import opened Macs
  import opened BootStates
  import opened BootHosts

  type Objects = map<Mac, BootHost>

  const MAX_PATCHES_PER_PASS: nat := 200

  /** The status an object of an address should carry, derived at a time. */
  type Derivation = (Mac, BootHost, string) -> Status

  predicate IsNamed(o: BootHost) {
    o.metadata.namespace.Some? && o.metadata.name.Some?
  }

  predicate Stale(derive: Derivation, m: Mac, o: BootHost, now: string) {
    IsNamed(o) && o.status != Some(derive(m, o, now))
  }

  function Written(derive: Derivation, m: Mac, o: BootHost, now: string): BootHost {
    o.(status := Some(derive(m, o, now)))
  }

  function StaleIn(objects: Objects, derive: Derivation, now: string): set<Mac> {
    set m | m in objects && Stale(derive, m, objects[m], now)
  }

  function Min(a: nat, b: nat): nat {
    if a < b then a else b
  }

  /** The pass wrote `wrote` and nothing else. */
  predicate Wrote(before: Objects, after: Objects, derive: Derivation, now: string, wrote: set<Mac>) {
    && after.Keys == before.Keys
    && forall m :: m in before ==> after[m] == if m in wrote then Written(derive, m, before[m], now) else before[m]
  }

  /**
   * What a pass must do whose patches for `refused` fail: write as many of the other
   * stale objects as the cap allows.
   */
  predicate PassDone(
    before: Objects, after: Objects, derive: Derivation, now: string, refused: set<Mac>, wrote: set<Mac>) {
    && wrote <= StaleIn(before, derive, now) - refused
    && |wrote| == Min(MAX_PATCHES_PER_PASS, |StaleIn(before, derive, now) - refused|)
    && Wrote(before, after, derive, now, wrote)
  }

  ghost predicate IsOrder(order: seq<Mac>, keys: set<Mac>) {
    && (forall m :: m in order <==> m in keys)
    && (forall i, j :: 0 <= i < j < |order| ==> order[i] != order[j])
  }

  class BootHostIndex {
    var objects: Objects

    constructor ()
      ensures objects == map[]
    {
      objects := map[];
    }

    /** Remember a status just written, so the next pass does not write it again before the watch echoes it. */
    method NoteStatus(m: Mac, status: Status)
      modifies this
      ensures objects == if m in old(objects)
                         then old(objects)[m := old(objects)[m].(status := Some(status))] else old(objects)
    {
      if m in objects {
        objects := objects[m := objects[m].(status := Some(status))];
      }
    }

    /** One pass over a snapshot, which the hash map yields in any order; the patch of a host in `refused` fails. */
    method ReconcileStatus(derive: Derivation, now: string, refused: set<Mac>, order: seq<Mac>)
      returns (written: nat, ghost wrote: set<Mac>)
      requires IsOrder(order, objects.Keys)
      modifies this
      ensures PassDone(old(objects), objects, derive, now, refused, wrote)
      ensures written == |wrote| <= 200
      ensures forall m :: m in old(objects) ==>
                && m in objects && objects[m].spec == old(objects)[m].spec
                && objects[m].metadata == old(objects)[m].metadata
      ensures forall m :: m in objects && objects[m] != old(objects)[m] ==>
                && m !in refused && objects[m].metadata.namespace.Some? && objects[m].metadata.name.Some?
                && objects[m].status == Some(derive(m, old(objects)[m], now))
    {
      var snapshot := objects;
      written, wrote := 0, {};
      var i := 0;
      while i < |order| && written < MAX_PATCHES_PER_PASS
        invariant i <= |order| && written == |wrote| <= MAX_PATCHES_PER_PASS
        invariant Reached(snapshot, objects, derive, now, refused, order, i, wrote)
      {
        var m := order[i];
        ReachOneMore(snapshot, objects, derive, now, refused, order, i, wrote);
        var patched := Visit(derive, now, refused, m, snapshot[m]);
        if patched {
          wrote := wrote + {m};
          written := written + 1;
        }
        i := i + 1;
      }
      ReachedTheEnd(snapshot, objects, derive, now, refused, order, i, wrote);
    }

    /** One object of the pass: skip it, find it up to date, or patch it. */
    method Visit(derive: Derivation, now: string, refused: set<Mac>, m: Mac, o: BootHost) returns (patched: bool)
      requires m in objects && objects[m] == o
      modifies this
      ensures patched <==> Stale(derive, m, o, now) && m !in refused
      ensures objects == if patched then old(objects)[m := Written(derive, m, o, now)] else old(objects)
    {
      if !IsNamed(o) {
        return false;
      }
      var desired := derive(m, o, now);
      if o.status == Some(desired) || m in refused {
        return false;
      }
      NoteStatus(m, desired);
      return true;
    }
  }

  /** The pass so far wrote the stale, unrefused objects among the first i of its order, and nothing else. */
  ghost predicate Reached(before: Objects, after: Objects, derive: Derivation, now: string, refused: set<Mac>,
                          order: seq<Mac>, i: nat, wrote: set<Mac>)
    requires i <= |order|
  {
    && (forall m :: m in wrote <==> m in StaleIn(before, derive, now) - refused && m in order[..i])
    && Wrote(before, after, derive, now, wrote)
  }

  lemma {:induction false} ReachOneMore(
    before: Objects, after: Objects, derive: Derivation, now: string, refused: set<Mac>, order: seq<Mac>, i: nat,
    wrote: set<Mac>)
    requires i < |order| && IsOrder(order, before.Keys)
    requires Reached(before, after, derive, now, refused, order, i, wrote)
    ensures var m := order[i];
            && m in before && m in after && after[m] == before[m] && m !in wrote
            && if Stale(derive, m, before[m], now) && m !in refused
               then Reached(before, after[m := Written(derive, m, before[m], now)], derive, now, refused,
                            order, i + 1, wrote + {m})
               else Reached(before, after, derive, now, refused, order, i + 1, wrote)
  {
    var m := order[i];
    assert order[..i + 1] == order[..i] + [m];
    assert m in order;
    assert m !in order[..i];
    WroteOneMore(before, after, derive, now, wrote, m);
  }

  lemma {:induction false} ReachedTheEnd(
    before: Objects, after: Objects, derive: Derivation, now: string, refused: set<Mac>, order: seq<Mac>, i: nat,
    wrote: set<Mac>)
    requires i <= |order| && IsOrder(order, before.Keys)
    requires Reached(before, after, derive, now, refused, order, i, wrote)
    requires |wrote| <= MAX_PATCHES_PER_PASS && (|wrote| < MAX_PATCHES_PER_PASS ==> i == |order|)
    ensures PassDone(before, after, derive, now, refused, wrote)
  {
    SubsetIsSmaller(wrote, StaleIn(before, derive, now) - refused);
    if |wrote| < MAX_PATCHES_PER_PASS {
      WroteAll(before, after, derive, now, refused, order, wrote);
    }
  }

  lemma {:induction false} WroteAll(before: Objects, after: Objects, derive: Derivation, now: string, refused: set<Mac>,
                 order: seq<Mac>, wrote: set<Mac>)
    requires IsOrder(order, before.Keys)
    requires Reached(before, after, derive, now, refused, order, |order|, wrote)
    ensures wrote == StaleIn(before, derive, now) - refused
  {
    assert order[..|order|] == order;
  }

  lemma {:induction false} WroteOneMore(
    before: Objects, after: Objects, derive: Derivation, now: string, wrote: set<Mac>, m: Mac)
    requires Wrote(before, after, derive, now, wrote) && m in before && m !in wrote
    ensures after[m] == before[m]
    ensures Wrote(before, after[m := Written(derive, m, before[m], now)], derive, now, wrote + {m})
  {
  }

  lemma {:induction false} SubsetIsSmaller(a: set<Mac>, b: set<Mac>)
    requires a <= b
    ensures |a| <= |b|
    ensures |b - a| == |b| - |a|
  {
    assert b == a + (b - a);
  }

  // ---- the derivation the server uses ---------------------------------------------

  /** What the pass reads beside the objects: the tracker and the claims. */
  datatype World = World(hosts: Tracked, claims: map<Mac, string>)

  function ObservationOf(w: World, m: Mac, o: BootHost): Observation {
    Observation(
      if m in w.hosts then Some(w.hosts[m]) else None,
      o.spec.online,
      if m in w.claims then Some(w.claims[m]) else None,
      GenerationOf(o.metadata))
  }

  function Deriver(w: World): Derivation {
    (m: Mac, o: BootHost, now: string) => DesiredStatus(ObservationOf(w, m, o), o.status, now)
  }

  /**
   * Writing brings an object up to date for every later time, and whether it is up to
   * date does not depend on the clock.
   */
  ghost predicate LevelTriggered(derive: Derivation) {
    && (forall m, o: BootHost, now, later ::
          derive(m, o.(status := Some(derive(m, o, now))), later) == derive(m, o, now))
    && (forall m, o: BootHost, now, later ::
          o.status == Some(derive(m, o, now)) ==> derive(m, o, later) == derive(m, o, now))
  }

  lemma {:induction false} ServerIsLevelTriggered(w: World)
    ensures LevelTriggered(Deriver(w))
  {
    var derive := Deriver(w);
    forall m: Mac, o: BootHost, now: string, later: string
      ensures derive(m, o.(status := Some(derive(m, o, now))), later) == derive(m, o, now)
      ensures o.status == Some(derive(m, o, now)) ==> derive(m, o, later) == derive(m, o, now)
    {
      DerivedAgain(w, m, o, now, later);
    }
  }

  lemma {:induction false} DerivedAgain(w: World, m: Mac, o: BootHost, now: string, later: string)
    ensures Deriver(w)(m, o.(status := Some(Deriver(w)(m, o, now))), later) == Deriver(w)(m, o, now)
    ensures o.status == Some(Deriver(w)(m, o, now)) ==> Deriver(w)(m, o, later) == Deriver(w)(m, o, now)
  {
    var observation := ObservationOf(w, m, o);
    var derived := DesiredStatus(observation, o.status, now);
    assert Deriver(w)(m, o, now) == derived;
    assert ObservationOf(w, m, o.(status := Some(derived))) == observation;
    DesiredIsAFixpoint(observation, o.status, now, later);
  }

  /**
   * What a pass writes is what the tracker, the claims and the object say: phase, version
   * and hardware of the tracked host, the claim of its address, the object's generation,
   * and for an unseen host whether the object lets it boot.
   */
  lemma {:induction false} DerivedSays(w: World, m: Mac, o: BootHost, now: string)
    ensures var s := Deriver(w)(m, o, now);
            && s.phase == (if m in w.hosts then Some(Slug(w.hosts[m].phase)) else None)
            && s.palletVersion == (if m in w.hosts then w.hosts[m].palletVersion else None)
            && s.claimId == (if m in w.claims then Some(w.claims[m]) else None)
            && (s.hardware.Some? <==> m in w.hosts && w.hosts[m].hardware.Some?)
            && (s.hardware.Some? ==>
                  var reported, shown := w.hosts[m].hardware.value, s.hardware.value;
                  && shown.cpus == reported.cpus && shown.memoryKb == reported.memoryKb
                  && shown.product == reported.product && shown.serial == reported.serial
                  && shown.disks == reported.disks)
  {
  }

  lemma {:induction false} DerivedConditions(w: World, m: Mac, o: BootHost, now: string, c: Condition)
    requires c in Deriver(w)(m, o, now).conditions
    ensures c.kind == "Available" ==>
              c.status == Truth(m in w.hosts && w.hosts[m].phase in {Running, Assimilating, Local})
    ensures c.kind == "Degraded" ==> c.status == Truth(m in w.hosts && w.hosts[m].phase.Failed?)
    ensures m !in w.hosts ==> c.reason == if o.spec.online then "NotSeen" else "Offline"
    ensures c.observedGeneration == if o.metadata.generation.Some? then o.metadata.generation.value else 0
  {
    var observation := ObservationOf(w, m, o);
    assert Deriver(w)(m, o, now) == DesiredStatus(observation, o.status, now);
    VerdictsAreThePhase(observation, o.status, now, c);
    if m !in w.hosts {
      UnseenReasons(observation, o.status, now, c);
    }
  }

  // ---- convergence -------------------------------------------------------------------

  lemma {:induction false} WritingRemovesStaleness(
    before: Objects, after: Objects, derive: Derivation, now: string, later: string, wrote: set<Mac>)
    requires LevelTriggered(derive) && Wrote(before, after, derive, now, wrote) && wrote <= before.Keys
    ensures StaleIn(after, derive, later) == StaleIn(before, derive, later) - wrote
    ensures StaleIn(before, derive, later) == StaleIn(before, derive, now)
  {
  }

  ghost predicate PassHappened(before: Objects, after: Objects, derive: Derivation, now: string, refused: set<Mac>) {
    exists wrote :: PassDone(before, after, derive, now, refused, wrote)
  }

  /** A run of passes over a world that holds still while the clock moves; at pass i the patches of refused[i] fail. */
  ghost predicate Run(states: seq<Objects>, derive: Derivation, nows: seq<string>, refused: seq<set<Mac>>) {
    && |states| == |nows| + 1 == |refused| + 1
    && forall i :: 0 <= i < |nows| ==> PassHappened(states[i], states[i + 1], derive, nows[i], refused[i])
  }

  lemma {:induction false} PassShrinksStaleness(
    before: Objects, after: Objects, derive: Derivation, now: string, refused: set<Mac>, later: string)
    requires LevelTriggered(derive) && PassHappened(before, after, derive, now, refused)
    ensures var writable := StaleIn(before, derive, later) - refused;
            && |StaleIn(after, derive, later)| ==
               |StaleIn(before, derive, later)| - Min(MAX_PATCHES_PER_PASS, |writable|)
            && StaleIn(after, derive, later) <= StaleIn(before, derive, later)
            && (|writable| <= MAX_PATCHES_PER_PASS ==>
               StaleIn(after, derive, later) == StaleIn(before, derive, later) * refused)
            && (writable == {} ==> after == before)
  {
    var wrote :| PassDone(before, after, derive, now, refused, wrote);
    WritingRemovesStaleness(before, after, derive, now, later, wrote);
    var stale := StaleIn(before, derive, later);
    var writable := stale - refused;
    SubsetIsSmaller(wrote, stale);
    SubsetIsSmaller(wrote, writable);
    if |writable| <= MAX_PATCHES_PER_PASS {
      assert writable - wrote == {};
      assert stale - wrote == stale * refused;
    }
    if writable == {} {
      assert after == before;
    }
  }

  lemma {:induction false} RunConverges(
    states: seq<Objects>, derive: Derivation, nows: seq<string>, refused: seq<set<Mac>>, k: nat, later: string)
    requires LevelTriggered(derive) && Run(states, derive, nows, refused) && k < |states|
    requires forall i :: 0 <= i < |refused| ==> refused[i] == {}
    ensures var n := |StaleIn(states[0], derive, later)|;
            |StaleIn(states[k], derive, later)| ==
            if n <= MAX_PATCHES_PER_PASS * k then 0 else n - MAX_PATCHES_PER_PASS * k
    ensures k > 0 && StaleIn(states[k - 1], derive, later) == {} ==> states[k] == states[k - 1]
  {
    if k > 0 {
      RunConverges(states, derive, nows, refused, k - 1, later);
      assert PassHappened(states[k - 1], states[k - 1 + 1], derive, nows[k - 1], refused[k - 1]);
      PassShrinksStaleness(states[k - 1], states[k], derive, nows[k - 1], refused[k - 1], later);
      assert StaleIn(states[k - 1], derive, later) - {} == StaleIn(states[k - 1], derive, later);
    }
  }

  /**
   * With no patch failing, after k passes 200k fewer objects are stale, down to none;
   * from then on passes write nothing. It holds for every order in which the index is
   * walked and every clock.
   */
  lemma {:induction false} PassesConverge(
    states: seq<Objects>, w: World, nows: seq<string>, refused: seq<set<Mac>>, k: nat, later: string)
    requires Run(states, Deriver(w), nows, refused) && k < |states|
    requires forall i :: 0 <= i < |refused| ==> refused[i] == {}
    ensures var n := |StaleIn(states[0], Deriver(w), later)|;
            |StaleIn(states[k], Deriver(w), later)| == if n <= 200 * k then 0 else n - 200 * k
    ensures k > 0 && StaleIn(states[k - 1], Deriver(w), later) == {} ==> states[k] == states[k - 1]
  {
    ServerIsLevelTriggered(w);
    RunConverges(states, Deriver(w), nows, refused, k, later);
  }

  lemma {:induction false} RunOnlyDelays(
    states: seq<Objects>, derive: Derivation, nows: seq<string>, refused: seq<set<Mac>>, k: nat, later: string)
    requires LevelTriggered(derive) && Run(states, derive, nows, refused) && k < |states|
    ensures StaleIn(states[k], derive, later) <= StaleIn(states[0], derive, later)
    ensures k > 0 && |StaleIn(states[k - 1], derive, later) - refused[k - 1]| <= MAX_PATCHES_PER_PASS ==>
              StaleIn(states[k], derive, later) == StaleIn(states[k - 1], derive, later) * refused[k - 1]
  {
    if k > 0 {
      RunOnlyDelays(states, derive, nows, refused, k - 1, later);
      assert PassHappened(states[k - 1], states[k - 1 + 1], derive, nows[k - 1], refused[k - 1]);
      PassShrinksStaleness(states[k - 1], states[k], derive, nows[k - 1], refused[k - 1], later);
    }
  }

  /**
   * Whatever patches fail, no pass makes an up-to-date object stale, and a pass that
   * reaches everything leaves stale only what it was refused.
   */
  lemma {:induction false} FailuresOnlyDelay(
    states: seq<Objects>, w: World, nows: seq<string>, refused: seq<set<Mac>>, k: nat, later: string)
    requires Run(states, Deriver(w), nows, refused) && k < |states|
    ensures StaleIn(states[k], Deriver(w), later) <= StaleIn(states[0], Deriver(w), later)
    ensures k > 0 && |StaleIn(states[k - 1], Deriver(w), later) - refused[k - 1]| <= MAX_PATCHES_PER_PASS ==>
              StaleIn(states[k], Deriver(w), later) == StaleIn(states[k - 1], Deriver(w), later) * refused[k - 1]
  {
    ServerIsLevelTriggered(w);
    RunOnlyDelays(states, Deriver(w), nows, refused, k, later);
  }
}
