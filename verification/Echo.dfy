/**
 * The status writer together with the watch: a pass patches objects, and the watch
 * delivers back what the apiserver made of each patch. A merge patch deletes nothing,
 * so an object with a field to delete is written by every pass that gets to it.
 */
module Echoes {
  import opened Prelude
  import opened Macs
  import opened BootHosts
  import opened StatusPatches
  import opened Reconcile

  /** The index once every object the pass wrote has come back as the apiserver stored it. */
  function EchoesArrive(before: Objects, noted: Objects, wrote: set<Mac>): Objects
    requires noted.Keys == before.Keys && wrote <= before.Keys
    requires forall m :: m in wrote ==> noted[m].status.Some?
  {
    map m | m in noted ::
      if m in wrote then noted[m].(status := Some(Afterwards(before[m].status, noted[m].status.value))) else noted[m]
  }

  /** A pass with no patch failing, and the echoes of everything it wrote. */
  ghost predicate EchoedPass(before: Objects, after: Objects, derive: Derivation, now: string, wrote: set<Mac>) {
    exists noted :: PassDone(before, noted, derive, now, {}, wrote) && after == EchoesArrive(before, noted, wrote)
  }

  /** A run of such passes over a world that holds still while the clock moves. */
  ghost predicate EchoedRun(states: seq<Objects>, derive: Derivation, nows: seq<string>, wrote: seq<set<Mac>>) {
    && |states| == |nows| + 1 == |wrote| + 1
    && (forall i :: 0 <= i < |nows| ==> EchoedPass(states[i], states[i + 1], derive, nows[i], wrote[i]))
  }

  /** The named objects whose stored status has a field the desired one does not. */
  function DeletingIn(objects: Objects, derive: Derivation, now: string): set<Mac> {
    set m | m in objects && IsNamed(objects[m]) && Deletes(objects[m].status, derive(m, objects[m], now))
  }

  function Echoed(derive: Derivation, m: Mac, o: BootHost, now: string): BootHost {
    o.(status := Some(Afterwards(o.status, derive(m, o, now))))
  }

  predicate UpToDate(derive: Derivation, m: Mac, o: BootHost, now: string) {
    o.status == Some(derive(m, o, now))
  }

  /** What a write and its echo do to one object, seen from any later time. */
  predicate Lawful(derive: Derivation, m: Mac, o: BootHost, now: string, later: string) {
    var echoed := Echoed(derive, m, o, now);
    && (UpToDate(derive, m, o, now) <==> UpToDate(derive, m, o, later))
    && (Deletes(o.status, derive(m, o, now)) <==> Deletes(o.status, derive(m, o, later)))
    && (Deletes(o.status, derive(m, o, later)) ==> !UpToDate(derive, m, o, later))
    && (UpToDate(derive, m, echoed, later) <==> !Deletes(o.status, derive(m, o, later)))
    && (Deletes(echoed.status, derive(m, echoed, later)) <==> Deletes(o.status, derive(m, o, later)))
  }

  /** Two desired statuses of one observation omit the same fields. */
  lemma {:induction false} DeletesIgnoresHistory(
    stored: Option<Status>, o: Observation, a: Option<Status>, b: Option<Status>, now: string, later: string)
    ensures Deletes(stored, DesiredStatus(o, a, now)) <==> Deletes(stored, DesiredStatus(o, b, later))
  {
    assert |DesiredStatus(o, a, now).conditions| == |DesiredStatus(o, b, later).conditions| == 3;
  }

  /** A write adds fields and never removes one, so what had a field to delete still has it. */
  lemma {:induction false} DeletesAfterwards(stored: Option<Status>, desired: Status)
    ensures Deletes(Some(Afterwards(stored, desired)), desired) <==> Deletes(stored, desired)
  {
  }

  lemma {:induction false} StoredIsLawful(o: Observation, stored: Option<Status>, now: string, later: string)
    ensures stored == Some(DesiredStatus(o, stored, now)) <==> stored == Some(DesiredStatus(o, stored, later))
    ensures var d, e := DesiredStatus(o, stored, now), DesiredStatus(o, stored, later);
            var echo := Afterwards(stored, d);
            && (Deletes(stored, d) <==> Deletes(stored, e))
            && (Deletes(stored, e) ==> stored != Some(e))
            && (echo == DesiredStatus(o, Some(echo), later) <==> !Deletes(stored, e))
            && (Deletes(Some(echo), DesiredStatus(o, Some(echo), later)) <==> Deletes(stored, e))
  {
    var d, e := DesiredStatus(o, stored, now), DesiredStatus(o, stored, later);
    if stored.Some? {
      if stored.value == d {
        StalenessIgnoresTheClock(o, stored.value, now, later);
      }
      if stored.value == e {
        StalenessIgnoresTheClock(o, stored.value, later, now);
      }
      MergedIsDesiredExactly(stored.value, d);
    }
    DeletesIgnoresHistory(stored, o, stored, stored, now, later);
    DesiredOfAfterwards(o, stored, now, later);
    DeletesAfterwards(stored, d);
  }

  lemma {:induction false} ServerIsLawful(w: World, m: Mac, o: BootHost, now: string, later: string)
    ensures Lawful(Deriver(w), m, o, now, later)
  {
    var derive := Deriver(w);
    var observation := ObservationOf(w, m, o);
    assert derive(m, o, now) == DesiredStatus(observation, o.status, now);
    assert derive(m, o, later) == DesiredStatus(observation, o.status, later);
    var echoed := Echoed(derive, m, o, now);
    assert ObservationOf(w, m, echoed) == observation;
    assert derive(m, echoed, later) == DesiredStatus(observation, echoed.status, later);
    StoredIsLawful(observation, o.status, now, later);
  }

  ghost predicate AlwaysLawful(derive: Derivation) {
    forall m, o: BootHost, now, later :: Lawful(derive, m, o, now, later)
  }

  lemma {:induction false} ServerIsAlwaysLawful(w: World)
    ensures AlwaysLawful(Deriver(w))
  {
    forall m, o: BootHost, now, later
      ensures Lawful(Deriver(w), m, o, now, later)
    {
      ServerIsLawful(w, m, o, now, later);
    }
  }

  // ---- one pass ------------------------------------------------------------------------

  lemma {:induction false} ObjectsAfterPass(
    before: Objects, after: Objects, derive: Derivation, now: string, wrote: set<Mac>)
    requires EchoedPass(before, after, derive, now, wrote)
    ensures wrote <= StaleIn(before, derive, now)
    ensures |wrote| == Min(MAX_PATCHES_PER_PASS, |StaleIn(before, derive, now)|)
    ensures after.Keys == before.Keys
    ensures forall m :: m in before ==> after[m] == if m in wrote then Echoed(derive, m, before[m], now) else before[m]
  {
    var noted :| PassDone(before, noted, derive, now, {}, wrote) && after == EchoesArrive(before, noted, wrote);
    assert StaleIn(before, derive, now) - {} == StaleIn(before, derive, now);
  }

  predicate IsStaleAt(objects: Objects, derive: Derivation, now: string, m: Mac) {
    m in objects && Stale(derive, m, objects[m], now)
  }

  predicate DeletesAt(objects: Objects, derive: Derivation, now: string, m: Mac) {
    m in objects && IsNamed(objects[m]) && Deletes(objects[m].status, derive(m, objects[m], now))
  }

  lemma {:induction false} ObjectAfterPass(
    before: Objects, after: Objects, derive: Derivation, now: string, later: string, wrote: set<Mac>, m: Mac)
    requires AlwaysLawful(derive) && (m in wrote ==> m in before) && after.Keys == before.Keys
    requires m in before ==> after[m] == if m in wrote then Echoed(derive, m, before[m], now) else before[m]
    ensures IsStaleAt(before, derive, now, m) <==> IsStaleAt(before, derive, later, m)
    ensures DeletesAt(before, derive, later, m) ==> IsStaleAt(before, derive, later, m)
    ensures DeletesAt(after, derive, later, m) <==> DeletesAt(before, derive, later, m)
    ensures IsStaleAt(after, derive, later, m) <==>
            IsStaleAt(before, derive, later, m)
              && (m in wrote && IsNamed(before[m]) ==> DeletesAt(before, derive, later, m))
  {
    if m in before {
      assert Lawful(derive, m, before[m], now, later);
    }
  }

  lemma {:induction false} EchoedPassChanges(
    before: Objects, after: Objects, derive: Derivation, now: string, later: string, wrote: set<Mac>)
    requires EchoedPass(before, after, derive, now, wrote) && AlwaysLawful(derive)
    ensures var deleting, stale := DeletingIn(before, derive, later), StaleIn(before, derive, later);
            && deleting <= stale && wrote <= stale
            && |wrote| == Min(MAX_PATCHES_PER_PASS, |stale|)
            && DeletingIn(after, derive, later) == deleting
            && StaleIn(after, derive, later) == stale - (wrote - deleting)
  {
    ObjectsAfterPass(before, after, derive, now, wrote);
    forall m
      ensures m in StaleIn(before, derive, now) <==> m in StaleIn(before, derive, later)
      ensures m in DeletingIn(before, derive, later) ==> m in StaleIn(before, derive, later)
      ensures m in DeletingIn(after, derive, later) <==> m in DeletingIn(before, derive, later)
      ensures m in StaleIn(after, derive, later) <==>
              m in StaleIn(before, derive, later) && (m in wrote ==> m in DeletingIn(before, derive, later))
    {
      ObjectAfterPass(before, after, derive, now, later, wrote, m);
    }
    assert StaleIn(before, derive, now) == StaleIn(before, derive, later);
  }

  lemma {:induction false} SettledByPass(stale: set<Mac>, deleting: set<Mac>, wrote: set<Mac>)
    requires deleting <= stale && wrote <= stale && |wrote| == Min(MAX_PATCHES_PER_PASS, |stale|)
    ensures var left := |(stale - (wrote - deleting)) - deleting|;
            var others := |stale - deleting|;
            && (|stale| <= MAX_PATCHES_PER_PASS ==> left == 0)
            && (|stale| > MAX_PATCHES_PER_PASS ==> left <= others && left + MAX_PATCHES_PER_PASS <= others + |deleting|)
  {
    var others, rest := stale - deleting, (stale - (wrote - deleting)) - deleting;
    assert rest == others - (others * wrote);
    SubsetIsSmaller(others * wrote, others);
    SubsetIsSmaller(wrote * deleting, deleting);
    assert wrote == (others * wrote) + (wrote * deleting);
    if |stale| <= MAX_PATCHES_PER_PASS {
      SubsetIsSmaller(wrote, stale);
      assert stale - wrote == {};
      assert rest == {};
    }
  }

  // ---- runs ------------------------------------------------------------------------------

  /** How much of the cap the objects that are written for ever leave to the others. */
  function Room(deleting: set<Mac>): nat {
    if |deleting| <= MAX_PATCHES_PER_PASS then MAX_PATCHES_PER_PASS - |deleting| else 0
  }

  function Remaining(n: nat, room: nat, k: nat): nat {
    if k == 0 then n else if Remaining(n, room, k - 1) <= room then 0 else Remaining(n, room, k - 1) - room
  }

  lemma {:induction false} RemainingIs(n: nat, room: nat, k: nat)
    ensures Remaining(n, room, k) == if n <= room * k then 0 else n - room * k
  {
    if k > 0 {
      RemainingIs(n, room, k - 1);
      assert room * k == room * (k - 1) + room;
    }
  }

  /**
   * In every run of passes and echoes the objects with a field to delete stay stale for
   * ever, each pass settles the others at the rate the cap leaves to them, and none is
   * ever added to either.
   */
  lemma {:induction false} EchoedRunSettles(
    states: seq<Objects>, w: World, nows: seq<string>, wrote: seq<set<Mac>>, k: nat, later: string)
    requires EchoedRun(states, Deriver(w), nows, wrote) && k < |states|
    ensures RunSettled(states, Deriver(w), k, later)
  {
    ServerIsAlwaysLawful(w);
    LawfulRunSettles(states, Deriver(w), nows, wrote, k, later);
  }

  predicate Settling(deleting: set<Mac>, stale: set<Mac>, stillDeleting: set<Mac>, stillStale: set<Mac>, k: nat) {
    && stillDeleting == deleting
    && deleting <= stillStale <= stale
    && |stillStale - deleting| <= Remaining(|stale - deleting|, Room(deleting), k)
  }

  ghost predicate RunSettled(states: seq<Objects>, derive: Derivation, k: nat, later: string)
    requires k < |states|
  {
    Settling(DeletingIn(states[0], derive, later), StaleIn(states[0], derive, later),
             DeletingIn(states[k], derive, later), StaleIn(states[k], derive, later), k)
  }

  lemma {:induction false} OneMorePass(deleting: set<Mac>, stale: set<Mac>, before: set<Mac>, wrote: set<Mac>, k: nat)
    requires k > 0 && Settling(deleting, stale, deleting, before, k - 1)
    requires wrote <= before && |wrote| == Min(MAX_PATCHES_PER_PASS, |before|)
    ensures Settling(deleting, stale, deleting, before - (wrote - deleting), k)
  {
    SettledByPass(before, deleting, wrote);
  }

  lemma {:induction false} LawfulRunSettles(
    states: seq<Objects>, derive: Derivation, nows: seq<string>, wrote: seq<set<Mac>>, k: nat, later: string)
    requires EchoedRun(states, derive, nows, wrote) && AlwaysLawful(derive) && k < |states|
    ensures RunSettled(states, derive, k, later)
  {
    if k == 0 {
      DeletingIsStale(states[0], derive, later);
    } else {
      LawfulRunSettles(states, derive, nows, wrote, k - 1, later);
      assert EchoedPass(states[k - 1], states[k - 1 + 1], derive, nows[k - 1], wrote[k - 1]);
      EchoedPassChanges(states[k - 1], states[k], derive, nows[k - 1], later, wrote[k - 1]);
      OneMorePass(DeletingIn(states[0], derive, later), StaleIn(states[0], derive, later),
                  StaleIn(states[k - 1], derive, later), wrote[k - 1], k);
    }
  }

  lemma {:induction false} DeletingIsStale(objects: Objects, derive: Derivation, now: string)
    requires AlwaysLawful(derive)
    ensures DeletingIn(objects, derive, now) <= StaleIn(objects, derive, now)
  {
    forall m | m in DeletingIn(objects, derive, now)
      ensures m in StaleIn(objects, derive, now)
    {
      assert Lawful(derive, m, objects[m], now, now);
    }
  }

  /**
   * Passes and echoes converge if and only if no object has a field to delete: once
   * there have been passes enough for all that was stale, nothing is stale exactly then.
   */
  lemma {:induction false} EchoedPassesConvergeExactly(
    states: seq<Objects>, w: World, nows: seq<string>, wrote: seq<set<Mac>>, k: nat, later: string)
    requires EchoedRun(states, Deriver(w), nows, wrote) && k < |states|
    requires |StaleIn(states[0], Deriver(w), later)| <= MAX_PATCHES_PER_PASS * k
    ensures StaleIn(states[k], Deriver(w), later) == {} <==> DeletingIn(states[0], Deriver(w), later) == {}
  {
    var deleting, stale := DeletingIn(states[0], Deriver(w), later), StaleIn(states[0], Deriver(w), later);
    EchoedRunSettles(states, w, nows, wrote, k, later);
    if deleting == {} {
      assert stale - deleting == stale;
      RemainingIs(|stale|, Room(deleting), k);
      assert StaleIn(states[k], Deriver(w), later) - deleting == StaleIn(states[k], Deriver(w), later);
    }
  }

  // ---- when nothing is left of the cap --------------------------------------------------

  lemma {:induction false} SomeOf(s: set<Mac>, n: nat) returns (t: set<Mac>)
    requires n <= |s|
    ensures t <= s && |t| == n
  {
    t := {};
    if n > 0 {
      t := SomeOf(s, n - 1);
      SubsetIsSmaller(t, s);
      var m :| m in s - t;
      t := t + {m};
    }
  }

  /**
   * With as many objects to delete from as the cap allows, a pass may write only those
   * and leave every other object, stale or not, as it was.
   */
  lemma {:induction false} CapCanBeUsedUp(before: Objects, w: World, now: string)
    returns (after: Objects, wrote: set<Mac>)
    requires |DeletingIn(before, Deriver(w), now)| >= MAX_PATCHES_PER_PASS
    ensures EchoedPass(before, after, Deriver(w), now, wrote)
    ensures forall m :: m in before && m !in DeletingIn(before, Deriver(w), now) ==> m in after && after[m] == before[m]
  {
    ServerIsAlwaysLawful(w);
    DeletingIsStale(before, Deriver(w), now);
    wrote := SomeOf(DeletingIn(before, Deriver(w), now), MAX_PATCHES_PER_PASS);
    SubsetIsSmaller(DeletingIn(before, Deriver(w), now), StaleIn(before, Deriver(w), now));
    after := PassOver(before, Deriver(w), now, wrote);
  }

  /** Any part of the stale objects as large as a pass must write can be what it writes. */
  lemma {:induction false} PassOver(
    before: Objects, derive: Derivation, now: string, wrote: set<Mac>) returns (after: Objects)
    requires wrote <= StaleIn(before, derive, now)
    requires |wrote| == Min(MAX_PATCHES_PER_PASS, |StaleIn(before, derive, now)|)
    ensures EchoedPass(before, after, derive, now, wrote)
    ensures forall m :: m in before && m !in wrote ==> m in after && after[m] == before[m]
  {
    assert StaleIn(before, derive, now) - {} == StaleIn(before, derive, now);
    var noted: Objects := map m | m in before :: if m in wrote then Written(derive, m, before[m], now) else before[m];
    assert PassDone(before, noted, derive, now, {}, wrote);
    after := EchoesArrive(before, noted, wrote);
  }
}
