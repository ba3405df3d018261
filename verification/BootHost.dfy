/** The `BootHost` resource: the record it describes and the status it should carry. */
module BootHosts {
  import opened Prelude
  import opened Macs
  import opened Hosts
  import opened BootStates

  datatype Spec = Spec(
    bootMacAddress: string, hostname: Option<string>, role: Option<string>, stack: Option<string>,
    portal: Option<string>, extraCmdline: Option<string>, online: bool)

  datatype Metadata = Metadata(namespace: Option<string>, name: Option<string>, generation: Option<int>)

  datatype HardwareStatus = HardwareStatus(
    cpus: nat, memoryKb: nat, product: Option<string>, serial: Option<string>, disks: seq<string>)

  datatype Condition = Condition(
    kind: string, status: string, reason: string, message: string,
    lastTransitionTime: string, observedGeneration: int)

  datatype Status = Status(
    phase: Option<string>, palletVersion: Option<string>, claimId: Option<string>,
    hardware: Option<HardwareStatus>, conditions: seq<Condition>)

  datatype BootHost = BootHost(metadata: Metadata, spec: Spec, status: Option<Status>)

  // ---- the record ---------------------------------------------------------------

  function GenerationOf(m: Metadata): int {
    if m.generation.Some? then m.generation.value else 0
  }

  function RefOf(o: BootHost): Option<ObjectRef> {
    if o.metadata.namespace.Some? && o.metadata.name.Some? then
      Some(ObjectRef(o.metadata.namespace.value, o.metadata.name.value, GenerationOf(o.metadata)))
    else None
  }

  function ToRecord(o: BootHost): Option<HostRecord> {
    match Macs.Parse(o.spec.bootMacAddress)
    case Err(_) => None
    case Ok(mac) =>
      var name := if o.spec.hostname.Some? then o.spec.hostname else o.metadata.name;
      if name.None? then None
      else Some(HostRecord(mac, name.value, o.spec.role, o.spec.stack, o.spec.portal, o.spec.extraCmdline,
                           o.spec.online, RefOf(o)))
  }

  /**
   * An object describes a record exactly when its MAC is twelve hex digits and it has a
   * hostname or a name; the hostname goes before the name, and everything else is as
   * the object says.
   */
  lemma {:induction false} RecordExactly(o: BootHost)
    ensures var digits := Clean(o.spec.bootMacAddress);
            ToRecord(o).Some? <==>
            |digits| == 12 && AllHex(digits) && (o.spec.hostname.Some? || o.metadata.name.Some?)
    ensures ToRecord(o).Some? ==>
              var r := ToRecord(o).value;
              && Macs.Parse(o.spec.bootMacAddress) == Ok(r.mac)
              && (o.spec.hostname == Some(r.name) || (o.spec.hostname.None? && o.metadata.name == Some(r.name)))
              && r.role == o.spec.role && r.stack == o.spec.stack && r.portal == o.spec.portal
              && r.extraCmdline == o.spec.extraCmdline && (r.online <==> o.spec.online)
              && (r.ref.Some? <==> o.metadata.namespace.Some? && o.metadata.name.Some?)
              && (r.ref.Some? ==>
                    && Some(r.ref.value.namespace) == o.metadata.namespace
                    && Some(r.ref.value.name) == o.metadata.name
                    && (o.metadata.generation == Some(r.ref.value.generation) ||
                        (o.metadata.generation.None? && r.ref.value.generation == 0)))
  {
    AcceptedSpellings(o.spec.bootMacAddress);
  }

  // ---- the status ---------------------------------------------------------------

  /** A condition before its transition time is settled. */
  datatype Proposed = Proposed(kind: string, status: bool, reason: string, message: string)

  function Detail(s: HostState, otherwise: string): string {
    if s.detail.Some? then s.detail.value else otherwise
  }

  function Propose(observed: Option<HostState>, online: bool): (p: seq<Proposed>)
    ensures |p| == 3 && p[0].kind == "Available" && p[1].kind == "Progressing" && p[2].kind == "Degraded"
  {
    match observed
    case None =>
      var reason := if online then "NotSeen" else "Offline";
      var message := if online then "the boot server has not been asked to boot this machine"
                     else "spec.online is false; the boot server will refuse this machine";
      [Proposed("Available", false, reason, message),
       Proposed("Progressing", false, reason, message),
       Proposed("Degraded", false, reason, "")]
    case Some(s) =>
      match s.phase
      case Failed =>
        var detail := Detail(s, "boot failed");
        [Proposed("Available", false, "BootFailed", detail),
         Proposed("Progressing", false, "BootFailed", detail),
         Proposed("Degraded", true, "BootFailed", detail)]
      case Local =>
        [Proposed("Available", true, "BootedLocally", "assimilated; booting from local disk"),
         Proposed("Progressing", false, "BootedLocally", "nothing left to do"),
         Proposed("Degraded", false, "BootedLocally", "")]
      case phase =>
        var running := phase.Running? || phase.Assimilating?;
        var detail := Detail(s, Slug(phase));
        [Proposed("Available", running, if running then "Running" else "Booting", detail),
         Proposed("Progressing", true, "Booting", detail),
         Proposed("Degraded", false, "Booting", "")]
  }

  function TruthText(b: bool): string {
    if b then "True" else "False"
  }

  function FindCondition(conditions: seq<Condition>, kind: string): Option<Condition> {
    if conditions == [] then None
    else if conditions[0].kind == kind then Some(conditions[0])
    else FindCondition(conditions[1..], kind)
  }

  /** The transition time a previous status carries for this condition, if its value has not moved. */
  function Carried(previous: Option<Status>, kind: string, status: string): Option<string> {
    if previous.None? then None
    else
      var c := FindCondition(previous.value.conditions, kind);
      if c.Some? && c.value.status == status then Some(c.value.lastTransitionTime) else None
  }

  function Settle(p: Proposed, previous: Option<Status>, generation: int, now: string): Condition {
    var carried := Carried(previous, p.kind, TruthText(p.status));
    Condition(p.kind, TruthText(p.status), p.reason, p.message,
              if carried.Some? then carried.value else now, generation)
  }

  function SettleAll(p: seq<Proposed>, previous: Option<Status>, generation: int, now: string): (cs: seq<Condition>)
    requires |p| == 3
    ensures |cs| == 3
    ensures forall k :: 0 <= k < 3 ==> cs[k] == Settle(p[k], previous, generation, now)
  {
    [Settle(p[0], previous, generation, now),
     Settle(p[1], previous, generation, now),
     Settle(p[2], previous, generation, now)]
  }

  function HardwareOf(inv: Inventory): HardwareStatus {
    HardwareStatus(inv.cpus, inv.memoryKb, inv.product, inv.serial, inv.disks)
  }

  /** Everything one pass observes about one host. */
  datatype Observation = Observation(
    observed: Option<HostState>, online: bool, claimId: Option<string>, generation: int)

  function DesiredStatus(o: Observation, previous: Option<Status>, now: string): Status {
    var p := Propose(o.observed, o.online);
    Status(
      if o.observed.Some? then Some(Slug(o.observed.value.phase)) else None,
      if o.observed.Some? then o.observed.value.palletVersion else None,
      o.claimId,
      if o.observed.Some? && o.observed.value.hardware.Some?
      then Some(HardwareOf(o.observed.value.hardware.value)) else None,
      SettleAll(p, previous, o.generation, now))
  }

  lemma {:induction false} TruthTextIsInjective(a: bool, b: bool)
    ensures TruthText(a) == TruthText(b) <==> a == b
  {
    assert "True"[0] == 'T' && "False"[0] == 'F';
  }

  predicate DistinctKinds(p: seq<Proposed>) {
    |p| == 3 && p[0].kind != p[1].kind && p[0].kind != p[2].kind && p[1].kind != p[2].kind
  }

  lemma {:induction false} ProposalsHaveDistinctKinds(o: Observation)
    ensures DistinctKinds(Propose(o.observed, o.online))
  {
    assert "Available"[0] == 'A' && "Progressing"[0] == 'P' && "Degraded"[0] == 'D';
  }

  /** Among settled conditions each is the one found by its kind. */
  lemma {:induction false} SettledAreFound(
    p: seq<Proposed>, previous: Option<Status>, generation: int, now: string, k: nat)
    requires DistinctKinds(p) && k < 3
    ensures var cs := SettleAll(p, previous, generation, now);
            FindCondition(cs, p[k].kind) == Some(cs[k])
  {
    var cs := SettleAll(p, previous, generation, now);
    assert cs[1..][0] == cs[1] && cs[1..][1..][0] == cs[2];
    assert k == 2 ==> FindCondition(cs[1..][1..], p[2].kind) == Some(cs[2]);
    assert k > 0 ==> FindCondition(cs[1..], p[k].kind) == Some(cs[k]);
  }

  /** Settling against a status settled before: the time is kept exactly when the value is. */
  lemma {:induction false} SettleAgain(
    p: seq<Proposed>, previous: Option<Status>, generation: int, now: string, d: Status, q: Proposed, g: int,
    later: string, k: nat)
    requires DistinctKinds(p) && k < 3 && q.kind == p[k].kind
    requires d.conditions == SettleAll(p, previous, generation, now)
    ensures Settle(q, Some(d), g, later).lastTransitionTime ==
            if p[k].status == q.status then d.conditions[k].lastTransitionTime else later
  {
    SettledAreFound(p, previous, generation, now, k);
    TruthTextIsInjective(p[k].status, q.status);
  }

  /** Level-triggered: deriving again from the same observation, at any later time, changes nothing. */
  lemma {:induction false} DesiredIsAFixpoint(o: Observation, previous: Option<Status>, now: string, later: string)
    ensures DesiredStatus(o, Some(DesiredStatus(o, previous, now)), later) == DesiredStatus(o, previous, now)
  {
    ProposalsHaveDistinctKinds(o);
    SettleAllIsAFixpoint(Propose(o.observed, o.online), previous, o.generation, now,
                         DesiredStatus(o, previous, now), later);
  }

  lemma {:induction false} SettleAllIsAFixpoint(
    p: seq<Proposed>, previous: Option<Status>, generation: int, now: string, d: Status, later: string)
    requires DistinctKinds(p) && d.conditions == SettleAll(p, previous, generation, now)
    ensures SettleAll(p, Some(d), generation, later) == d.conditions
  {
    forall k | 0 <= k < 3
      ensures SettleAll(p, Some(d), generation, later)[k] == d.conditions[k]
    {
      SettleAgain(p, previous, generation, now, d, p[k], generation, later, k);
    }
  }

  /** Whether a status is out of date does not depend on the clock. */
  lemma {:induction false} StalenessIgnoresTheClock(o: Observation, s: Status, now: string, later: string)
    requires DesiredStatus(o, Some(s), now) == s
    ensures DesiredStatus(o, Some(s), later) == s
  {
    DesiredIsAFixpoint(o, Some(s), now, later);
  }

  // ---- what the conditions say -------------------------------------------------------

  /** A host heard to be in one of these phases. */
  predicate TrackedIn(o: Observation, phases: set<Phase>) {
    o.observed.Some? && o.observed.value.phase in phases
  }

  function Truth(b: bool): string {
    if b then "True" else "False"
  }

  /** The three kinds of condition, each once and nothing else. */
  lemma {:induction false} ConditionsAreThree(o: Observation, previous: Option<Status>, now: string)
    ensures var cs := DesiredStatus(o, previous, now).conditions;
            && |cs| == 3
            && cs[0].kind == "Available" && cs[1].kind == "Progressing" && cs[2].kind == "Degraded"
            && forall c :: c in cs <==> c == cs[0] || c == cs[1] || c == cs[2]
  {
  }

  lemma {:induction false} KindsDiffer()
    ensures "Available" != "Progressing" && "Available" != "Degraded" && "Progressing" != "Degraded"
  {
    assert "Available"[0] == 'A' && "Progressing"[0] == 'P' && "Degraded"[0] == 'D';
  }

  lemma {:induction false} ProposedVerdicts(o: Observation)
    ensures var p := Propose(o.observed, o.online);
            && p[0].status == TrackedIn(o, {Running, Assimilating, Local})
            && p[1].status == TrackedIn(o, {ScriptFetched, AssetsFetched, RootAttached, Running, Assimilating})
            && p[2].status == TrackedIn(o, {Failed})
  {
  }

  /**
   * For every observation, history and clock: a host is available exactly when it is
   * tracked as running, assimilating or local, progressing exactly when it is tracked
   * short of local and failure, and degraded exactly when it is tracked as failed.
   */
  lemma {:induction false} VerdictsAreThePhase(o: Observation, previous: Option<Status>, now: string, c: Condition)
    requires c in DesiredStatus(o, previous, now).conditions
    ensures c.kind == "Available" ==> c.status == Truth(TrackedIn(o, {Running, Assimilating, Local}))
    ensures c.kind == "Progressing" ==>
              c.status == Truth(TrackedIn(o, {ScriptFetched, AssetsFetched, RootAttached, Running, Assimilating}))
    ensures c.kind == "Degraded" ==> c.status == Truth(TrackedIn(o, {Failed}))
    ensures c.observedGeneration == o.generation
  {
    ConditionsAreThree(o, previous, now);
    ProposedVerdicts(o);
    KindsDiffer();
  }

  /** Of a host never heard of, the reason says whether it may boot at all. */
  lemma {:induction false} UnseenReasons(o: Observation, previous: Option<Status>, now: string, c: Condition)
    requires c in DesiredStatus(o, previous, now).conditions && o.observed.None?
    ensures c.reason == if o.online then "NotSeen" else "Offline"
    ensures c.message ==
            if c.kind == "Degraded" then ""
            else if o.online then "the boot server has not been asked to boot this machine"
            else "spec.online is false; the boot server will refuse this machine"
  {
    ConditionsAreThree(o, previous, now);
    KindsDiffer();
  }

  /** A failure carries the reason the node gave. */
  lemma {:induction false} FailureReasons(o: Observation, previous: Option<Status>, now: string, c: Condition)
    requires c in DesiredStatus(o, previous, now).conditions && TrackedIn(o, {Failed})
    ensures c.reason == "BootFailed"
    ensures c.message == if o.observed.value.detail.Some? then o.observed.value.detail.value else "boot failed"
  {
    ConditionsAreThree(o, previous, now);
  }

  lemma {:induction false} LocalReasons(o: Observation, previous: Option<Status>, now: string, c: Condition)
    requires c in DesiredStatus(o, previous, now).conditions && TrackedIn(o, {Local})
    ensures c.reason == "BootedLocally"
    ensures c.message ==
            if c.kind == "Available" then "assimilated; booting from local disk"
            else if c.kind == "Progressing" then "nothing left to do" else ""
  {
    ConditionsAreThree(o, previous, now);
    KindsDiffer();
  }

  /** A host on its way says what it last reported, or its phase; only availability calls it running. */
  lemma {:induction false} BootingReasons(o: Observation, previous: Option<Status>, now: string, c: Condition)
    requires c in DesiredStatus(o, previous, now).conditions
    requires o.observed.Some? && !TrackedIn(o, {Local, Failed})
    ensures c.reason ==
            if c.kind == "Available" && TrackedIn(o, {Running, Assimilating}) then "Running" else "Booting"
    ensures c.message ==
            if c.kind == "Degraded" then ""
            else if o.observed.value.detail.Some? then o.observed.value.detail.value
            else Slug(o.observed.value.phase)
  {
    ConditionsAreThree(o, previous, now);
    KindsDiffer();
  }

  // ---- transition times over a whole history ------------------------------------------

  /** One pass: what it observed and when. */
  datatype Pass = Pass(observation: Observation, now: string)

  /** The status after a history of passes, each fed its predecessor's status. */
  function StatusAfter(initial: Option<Status>, passes: seq<Pass>): (s: Option<Status>)
    ensures passes != [] ==> s.Some? && |s.value.conditions| == 3
  {
    if passes == [] then initial
    else
      var last := passes[|passes| - 1];
      Some(DesiredStatus(last.observation, StatusAfter(initial, passes[..|passes| - 1]), last.now))
  }

  /** The truth value a pass gives its k-th condition; it does not look at any previous status. */
  function Verdict(p: Pass, k: nat): bool
    requires k < 3
  {
    Propose(p.observation.observed, p.observation.online)[k].status
  }

  function Verdicts(passes: seq<Pass>, k: nat): (vs: seq<bool>)
    requires k < 3
    ensures |vs| == |passes| && forall i :: 0 <= i < |passes| ==> vs[i] == Verdict(passes[i], k)
  {
    seq(|passes|, i requires 0 <= i < |passes| => Verdict(passes[i], k))
  }

  /** Where the stretch of equal values that the last one belongs to begins. */
  function StretchStart(vs: seq<bool>): (s: nat)
    requires vs != []
    ensures s < |vs|
  {
    var n := |vs| - 1;
    if n == 0 || vs[n - 1] != vs[n] then n else StretchStart(vs[..n])
  }

  lemma {:induction false} StretchIsUnbroken(vs: seq<bool>)
    requires vs != []
    ensures forall i :: StretchStart(vs) <= i < |vs| ==> vs[i] == vs[|vs| - 1]
    ensures StretchStart(vs) > 0 ==> vs[StretchStart(vs) - 1] != vs[StretchStart(vs)]
  {
    var n := |vs| - 1;
    if n > 0 && vs[n - 1] == vs[n] {
      StretchIsUnbroken(vs[..n]);
      forall i | StretchStart(vs) <= i < |vs|
        ensures vs[i] == vs[n]
      {
        assert i < n ==> vs[..n][i] == vs[i];
      }
    }
  }

  function Since(passes: seq<Pass>, k: nat): (since: nat)
    requires passes != [] && k < 3
    ensures since < |passes|
  {
    StretchStart(Verdicts(passes, k))
  }

  /** The k-th transition time after each pass of a history. */
  function Times(initial: Option<Status>, passes: seq<Pass>, k: nat): (ts: seq<string>)
    requires k < 3
    ensures |ts| == |passes|
  {
    seq(|passes|, i requires 0 <= i < |passes| =>
      StatusAfter(initial, passes[..i + 1]).value.conditions[k].lastTransitionTime)
  }

  lemma {:induction false} StatusAfterSnoc(initial: Option<Status>, passes: seq<Pass>, last: Pass)
    ensures StatusAfter(initial, passes + [last]) ==
            Some(DesiredStatus(last.observation, StatusAfter(initial, passes), last.now))
  {
    assert (passes + [last])[..|passes|] == passes;
  }

  /** An earlier time the first pass finds in the status the history began with, if the value has not moved since. */
  function Inherited(initial: Option<Status>, first: Pass, k: nat): Option<string>
    requires k < 3
  {
    var p := Propose(first.observation.observed, first.observation.online)[k];
    Carried(initial, p.kind, TruthText(p.status))
  }

  function FirstTime(initial: Option<Status>, first: Pass, k: nat): string
    requires k < 3
  {
    var inherited := Inherited(initial, first, k);
    if inherited.Some? then inherited.value else first.now
  }

  lemma {:induction false} FirstPassTime(initial: Option<Status>, first: Pass, k: nat)
    requires k < 3
    ensures StatusAfter(initial, [first]).value.conditions[k].lastTransitionTime == FirstTime(initial, first, k)
  {
    assert StatusAfter(initial, []) == initial;
    assert [first][..0] == [];
  }

  lemma {:induction false} TimesBegin(initial: Option<Status>, passes: seq<Pass>, k: nat, t: string)
    requires k < 3 && passes != []
    requires StatusAfter(initial, [passes[0]]).value.conditions[k].lastTransitionTime == t
    ensures Times(initial, passes, k)[0] == t
  {
    assert passes[..0 + 1] == [passes[0]];
  }

  lemma {:induction false} TimesEnd(initial: Option<Status>, passes: seq<Pass>, k: nat)
    requires k < 3 && passes != []
    ensures Times(initial, passes, k)[|passes| - 1] ==
            StatusAfter(initial, passes).value.conditions[k].lastTransitionTime
  {
    assert passes[..|passes| - 1 + 1] == passes;
  }

  lemma {:induction false} SameKind(a: Observation, b: Observation, k: nat)
    requires k < 3
    ensures Propose(a.observed, a.online)[k].kind == Propose(b.observed, b.online)[k].kind
  {
  }

  /** One pass after another moves the time exactly when the verdict moves. */
  lemma {:induction false} TimeMovesWithVerdict(initial: Option<Status>, passes: seq<Pass>, i: nat, k: nat)
    requires k < 3 && 0 < i < |passes|
    ensures Times(initial, passes, k)[i] ==
            if Verdict(passes[i - 1], k) == Verdict(passes[i], k)
            then Times(initial, passes, k)[i - 1] else passes[i].now
  {
    var init, before, last := passes[..i - 1], passes[i - 1], passes[i];
    assert passes[..i - 1 + 1] == init + [before] && passes[..i + 1] == (init + [before]) + [last];
    TimeAfterTwo(initial, init, before, last, k);
  }

  lemma {:induction false} TimeAfterTwo(initial: Option<Status>, passes: seq<Pass>, before: Pass, last: Pass, k: nat)
    requires k < 3
    ensures StatusAfter(initial, (passes + [before]) + [last]).value.conditions[k].lastTransitionTime ==
            if Verdict(before, k) == Verdict(last, k)
            then StatusAfter(initial, passes + [before]).value.conditions[k].lastTransitionTime
            else last.now
  {
    StatusAfterSnoc(initial, passes, before);
    StatusAfterSnoc(initial, passes + [before], last);
    DerivedTwice(StatusAfter(initial, passes), before, last, k);
  }

  lemma {:induction false} DerivedTwice(previous: Option<Status>, before: Pass, last: Pass, k: nat)
    requires k < 3
    ensures var d := DesiredStatus(before.observation, previous, before.now);
            DesiredStatus(last.observation, Some(d), last.now).conditions[k].lastTransitionTime ==
            if Verdict(before, k) == Verdict(last, k) then d.conditions[k].lastTransitionTime else last.now
  {
    var p := Propose(before.observation.observed, before.observation.online);
    var q := Propose(last.observation.observed, last.observation.online);
    var d := DesiredStatus(before.observation, previous, before.now);
    ProposalsHaveDistinctKinds(before.observation);
    SameKind(before.observation, last.observation, k);
    SettleAgain(p, previous, before.observation.generation, before.now, d, q[k],
                last.observation.generation, last.now, k);
  }

  /** The i-th time is kept when the i-th value is, and is the i-th clock otherwise. */
  predicate Moves(vs: seq<bool>, times: seq<string>, nows: seq<string>, i: nat)
    requires 0 < i < |vs| == |times| == |nows|
  {
    times[i] == if vs[i - 1] == vs[i] then times[i - 1] else nows[i]
  }

  lemma {:induction false} TimesDateStretches(vs: seq<bool>, times: seq<string>, nows: seq<string>)
    requires |vs| == |times| == |nows| > 0
    requires forall i :: 0 < i < |vs| ==> Moves(vs, times, nows, i)
    ensures var s := StretchStart(vs); times[|vs| - 1] == if s == 0 then times[0] else nows[s]
  {
    var n := |vs| - 1;
    if n > 0 {
      assert Moves(vs, times, nows, n);
      if vs[n - 1] == vs[n] {
        forall i | 0 < i < n
          ensures Moves(vs[..n], times[..n], nows[..n], i)
        {
          assert Moves(vs, times, nows, i);
        }
        TimesDateStretches(vs[..n], times[..n], nows[..n]);
      }
    }
  }

  function Clocks(passes: seq<Pass>): (nows: seq<string>)
    ensures |nows| == |passes| && forall i :: 0 <= i < |passes| ==> nows[i] == passes[i].now
  {
    seq(|passes|, i requires 0 <= i < |passes| => passes[i].now)
  }

  lemma {:induction false} MovesAt(initial: Option<Status>, passes: seq<Pass>, i: nat, k: nat)
    requires k < 3 && 0 < i < |passes|
    ensures Moves(Verdicts(passes, k), Times(initial, passes, k), Clocks(passes), i)
  {
    TimeMovesWithVerdict(initial, passes, i, k);
  }

  lemma {:induction false} LastTimeDatesTheStretch(initial: Option<Status>, passes: seq<Pass>, k: nat)
    requires passes != [] && k < 3
    ensures Times(initial, passes, k)[|passes| - 1] ==
            if Since(passes, k) == 0 then Times(initial, passes, k)[0] else Clocks(passes)[Since(passes, k)]
  {
    forall i | 0 < i < |passes|
      ensures Moves(Verdicts(passes, k), Times(initial, passes, k), Clocks(passes), i)
    {
      MovesAt(initial, passes, i, k);
    }
    TimesDateStretches(Verdicts(passes, k), Times(initial, passes, k), Clocks(passes));
  }

  /**
   * Over any history, a condition's transition time is when the first pass of the
   * current unbroken stretch ran; a stretch that reaches back to the start may have
   * inherited an earlier time from the status the history began with.
   */
  lemma {:induction false} TransitionTimeDatesTheStretch(initial: Option<Status>, passes: seq<Pass>, k: nat)
    requires passes != [] && k < 3
    ensures StatusAfter(initial, passes).value.conditions[k].lastTransitionTime ==
            if Since(passes, k) == 0 then FirstTime(initial, passes[0], k) else passes[Since(passes, k)].now
  {
    FirstPassTime(initial, passes[0], k);
    TimesBegin(initial, passes, k, FirstTime(initial, passes[0], k));
    TimesEnd(initial, passes, k);
    LastTimeDatesTheStretch(initial, passes, k);
  }
}
