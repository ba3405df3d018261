/**
 * The console feed: the service's verdict on itself, what it serves, a row per phase and
 * the most recently active hosts.
 */
module Feed {
  import opened Prelude
  import opened Text
  import opened Macs
  import opened BootStates
  import opened Pallets

  datatype Health = Error | Warn | Ok | Idle | Unknown

  datatype Metric = Metric(title: string, value: string, tone: Option<string>)

  datatype RelationKind = HasOne | HasMany | BelongsTo

  datatype Relation = Relation(name: string, kind: RelationKind, targets: seq<string>)

  datatype Component = Component(
    id: string, kind: string, title: string, health: Health, detail: string,
    metrics: seq<Metric>, relations: seq<Relation>)

  const MAX_HOST_ROWS: nat := 200

  function PhaseLabel(p: Phase): string {
    match p
    case ScriptFetched => "script fetched"
    case AssetsFetched => "fetching assets"
    case RootAttached => "root attached"
    case Running => "running"
    case Assimilating => "assimilating"
    case Local => "local"
    case Failed => "failed"
  }

  function PhaseHealth(p: Phase): Health {
    match p
    case Failed => Error
    case Local => Health.Ok
    case Running => Health.Ok
    case Assimilating => Health.Ok
    case _ => Idle
  }

  function PhaseId(p: Phase): string {
    "phase:" + Slug(p)
  }

  function HostId(m: Mac): string {
    "host:" + Print(m)
  }

  function Plain(title: string, value: string): Metric {
    Metric(title, value, None)
  }

  function CountOf(counts: seq<(Phase, nat)>, p: Phase): nat {
    if counts == [] then 0 else if counts[0].0 == p then counts[0].1 else CountOf(counts[1..], p)
  }

  function PhaseIds(counts: seq<(Phase, nat)>): (ids: seq<string>)
    ensures |ids| == |counts| && forall i :: 0 <= i < |ids| ==> ids[i] == PhaseId(counts[i].0)
  {
    seq(|counts|, i requires 0 <= i < |counts| => PhaseId(counts[i].0))
  }

  function SystemRow(counts: seq<(Phase, nat)>, assets: AssetStatus): Component {
    var failed := CountOf(counts, Failed);
    Component(
      "system", "netboot", "stormnetboot",
      if !assets.ready then Error else if failed > 0 then Warn else Health.Ok,
      if !assets.ready then "not serving: " + assets.detail
      else if failed > 0 then "serving " + assets.detail + "; " + Decimal(failed) + " host(s) failed"
      else "serving " + assets.detail,
      [Plain("hosts", Decimal(Total(counts))),
       Metric("failed", Decimal(failed), Some(if failed > 0 then "error" else "muted"))],
      [Relation("phases", HasMany, PhaseIds(counts))])
  }

  function TrimPrefixes(s: string, p: string): string {
    if p != "" && p <= s then TrimPrefixes(s[|p|..], p) else s
  }

  function ShortDigest(digest: string): string {
    var hex := TrimPrefixes(digest, "sha256:");
    if |hex| <= 12 then hex else hex[..12]
  }

  function ServiceRelation(): seq<Relation> {
    [Relation("service", BelongsTo, ["system"])]
  }

  function AssetsRow(assets: AssetStatus): Component {
    Component(
      "assets:boot", "pallet", "boot pallet", if assets.ready then Health.Ok else Error, assets.detail,
      [Plain("version", if assets.version.Some? then assets.version.value else "-")] +
      (if assets.digest.Some? then [Plain("digest", ShortDigest(assets.digest.value))] else []) +
      [Metric("signature", if assets.signatureVerified then "verified" else "unverified",
              Some(if assets.signatureVerified then "ok" else "warn"))],
      ServiceRelation())
  }

  function PhaseRow(p: Phase, count: nat): Component {
    Component(PhaseId(p), "phase", PhaseLabel(p), PhaseHealth(p), Decimal(count) + " host(s)",
              [Plain("hosts", Decimal(count))], ServiceRelation())
  }

  function HostMetrics(h: HostState): seq<Metric> {
    [Plain("phase", PhaseLabel(h.phase))] +
    (if h.palletVersion.Some? then [Plain("pallet", h.palletVersion.value)] else []) +
    (if h.hardware.None? then []
     else
       var w := h.hardware.value;
       (if w.cpus > 0 then [Plain("cpus", Decimal(w.cpus))] else []) +
       (if w.memoryKb > 0 then [Plain("memory", Decimal(w.memoryKb / 1024 / 1024) + " GiB")] else []) +
       (if w.product.Some? then [Plain("product", w.product.value)] else []))
  }

  function HostRow(h: HostState): Component {
    Component(HostId(h.mac), "host", Print(h.mac), PhaseHealth(h.phase),
              if h.detail.Some? then h.detail.value else PhaseLabel(h.phase),
              HostMetrics(h), [Relation("phase", BelongsTo, [PhaseId(h.phase)])])
  }

  function Shown(snapshot: seq<HostState>): seq<HostState> {
    if |snapshot| <= MAX_HOST_ROWS then snapshot else snapshot[..MAX_HOST_ROWS]
  }

  function PhaseRowOf(c: (Phase, nat)): Component {
    PhaseRow(c.0, c.1)
  }

  /** A row for each item. */
  function Rows<T>(items: seq<T>, row: T -> Component): (rows: seq<Component>)
    ensures |rows| == |items| && forall i :: 0 <= i < |rows| ==> rows[i] == row(items[i])
  {
    seq(|items|, i requires 0 <= i < |items| => row(items[i]))
  }

  function PhaseRows(counts: seq<(Phase, nat)>): seq<Component> {
    Rows(counts, PhaseRowOf)
  }

  function HostRows(hosts: seq<HostState>): seq<Component> {
    Rows(hosts, HostRow)
  }

  function TopRows(counts: seq<(Phase, nat)>, assets: AssetStatus): seq<Component> {
    [SystemRow(counts, assets), AssetsRow(assets)]
  }

  /** A feed: two rows on top, a row per phase and a row per host shown. */
  function FeedOf(counts: seq<(Phase, nat)>, snapshot: seq<HostState>, assets: AssetStatus): seq<Component> {
    TopRows(counts, assets) + PhaseRows(counts) + HostRows(Shown(snapshot))
  }

  /** Building the feed from one state of the tracker. */
  method Collect(h: Tracked, assets: AssetStatus) returns (out: seq<Component>)
    requires BootStates.Keyed(h)
    ensures exists snapshot :: IsSnapshot(h, snapshot) && out == FeedOf(PhaseCounts(h), snapshot, assets)
  {
    var counts := CountPhases(h);
    var hosts := Snapshot(h);
    out := TopRows(counts, assets);
    out := Push(out, counts, PhaseRowOf);
    out := Push(out, Shown(hosts), HostRow);
  }

  /** Appending a row for each item in turn. */
  method Push<T>(top: seq<Component>, items: seq<T>, row: T -> Component) returns (out: seq<Component>)
    ensures out == top + Rows(items, row)
  {
    out := top;
    for i := 0 to |items|
      invariant out == top + Rows(items, row)[..i]
    {
      out := out + [row(items[i])];
    }
  }

  // ---- the rows by what matters to the console: identity and targets ---------------------

  function IdAt(counts: seq<(Phase, nat)>, shown: seq<HostState>, i: nat): string
    requires i < 2 + |counts| + |shown|
  {
    if i == 0 then "system"
    else if i == 1 then "assets:boot"
    else if i < 2 + |counts| then PhaseId(counts[i - 2].0)
    else HostId(shown[i - 2 - |counts|].mac)
  }

  function TargetsAt(counts: seq<(Phase, nat)>, shown: seq<HostState>, i: nat): seq<string>
    requires i < 2 + |counts| + |shown|
  {
    if i == 0 then PhaseIds(counts)
    else if i < 2 + |counts| then ["system"]
    else [PhaseId(shown[i - 2 - |counts|].phase)]
  }

  /** The row's identity and the rows it points at. */
  predicate Identified(c: Component, id: string, targets: seq<string>) {
    c.id == id && |c.relations| == 1 && c.relations[0].targets == targets
  }

  lemma {:induction false} TopRowsIdentified(counts: seq<(Phase, nat)>, assets: AssetStatus)
    ensures |TopRows(counts, assets)| == 2
    ensures Identified(TopRows(counts, assets)[0], "system", PhaseIds(counts))
    ensures Identified(TopRows(counts, assets)[1], "assets:boot", ["system"])
  {
  }

  lemma {:induction false} PhaseRowIdentified(c: (Phase, nat))
    ensures Identified(PhaseRowOf(c), PhaseId(c.0), ["system"])
  {
  }

  lemma {:induction false} HostRowIdentified(h: HostState)
    ensures Identified(HostRow(h), HostId(h.mac), [PhaseId(h.phase)])
  {
  }

  lemma {:induction false} RowsIdentified<T>(
    items: seq<T>, row: T -> Component, i: nat, id: string, targets: seq<string>)
    requires i < |items| && Identified(row(items[i]), id, targets)
    ensures Identified(Rows(items, row)[i], id, targets)
  {
  }

  lemma {:induction false} PlaceInFeed(top: seq<Component>, phases: seq<Component>, hosts: seq<Component>, i: nat)
    requires |top| == 2 && i < 2 + |phases| + |hosts|
    ensures (top + phases + hosts)[i] ==
            if i < 2 then top[i] else if i < 2 + |phases| then phases[i - 2] else hosts[i - 2 - |phases|]
  {
  }

  lemma {:induction false} RowsByPlace(counts: seq<(Phase, nat)>, snapshot: seq<HostState>, assets: AssetStatus, i: nat)
    requires i < |FeedOf(counts, snapshot, assets)|
    ensures |FeedOf(counts, snapshot, assets)| == 2 + |counts| + |Shown(snapshot)|
    ensures Identified(FeedOf(counts, snapshot, assets)[i],
                       IdAt(counts, Shown(snapshot), i), TargetsAt(counts, Shown(snapshot), i))
  {
    TopRowsIdentified(counts, assets);
    RowsIdentifiedInParts(counts, Shown(snapshot));
    PartsByPlace(TopRows(counts, assets), PhaseRows(counts), HostRows(Shown(snapshot)), counts, Shown(snapshot), i);
  }

  /** The rows of phases and hosts, as far as their identities go. */
  ghost predicate PartsIdentified(
    phases: seq<Component>, hosts: seq<Component>, counts: seq<(Phase, nat)>, shown: seq<HostState>) {
    && |phases| == |counts| && |hosts| == |shown|
    && (forall k :: 0 <= k < |phases| ==> Identified(phases[k], PhaseId(counts[k].0), ["system"]))
    && (forall k :: 0 <= k < |hosts| ==> Identified(hosts[k], HostId(shown[k].mac), [PhaseId(shown[k].phase)]))
  }

  lemma {:induction false} RowsIdentifiedInParts(counts: seq<(Phase, nat)>, shown: seq<HostState>)
    ensures PartsIdentified(PhaseRows(counts), HostRows(shown), counts, shown)
  {
    forall k | 0 <= k < |counts|
      ensures Identified(PhaseRows(counts)[k], PhaseId(counts[k].0), ["system"])
    {
      PhasePlace(counts, k);
    }
    forall k | 0 <= k < |shown|
      ensures Identified(HostRows(shown)[k], HostId(shown[k].mac), [PhaseId(shown[k].phase)])
    {
      HostPlace(shown, k);
    }
  }

  lemma {:induction false} PartsByPlace(
    top: seq<Component>, phases: seq<Component>, hosts: seq<Component>,
    counts: seq<(Phase, nat)>, shown: seq<HostState>, i: nat)
    requires |top| == 2 && i < |top + phases + hosts| && PartsIdentified(phases, hosts, counts, shown)
    requires Identified(top[0], "system", PhaseIds(counts)) && Identified(top[1], "assets:boot", ["system"])
    ensures |top + phases + hosts| == 2 + |counts| + |shown|
    ensures Identified((top + phases + hosts)[i], IdAt(counts, shown, i), TargetsAt(counts, shown, i))
  {
    PlaceInFeed(top, phases, hosts, i);
  }

  lemma {:induction false} PhasePlace(counts: seq<(Phase, nat)>, k: nat)
    requires k < |counts|
    ensures Identified(PhaseRows(counts)[k], PhaseId(counts[k].0), ["system"])
  {
    PhaseRowIdentified(counts[k]);
    RowsIdentified(counts, PhaseRowOf, k, PhaseId(counts[k].0), ["system"]);
  }

  lemma {:induction false} HostPlace(shown: seq<HostState>, k: nat)
    requires k < |shown|
    ensures Identified(HostRows(shown)[k], HostId(shown[k].mac), [PhaseId(shown[k].phase)])
  {
    HostRowIdentified(shown[k]);
    RowsIdentified(shown, HostRow, k, HostId(shown[k].mac), [PhaseId(shown[k].phase)]);
  }

  // ---- identities --------------------------------------------------------------------

  lemma {:induction false} SlugIsInjective(p: Phase, q: Phase)
    requires Slug(p) == Slug(q)
    ensures p == q
  {
    assert |Slug(ScriptFetched)| == 14 && |Slug(AssetsFetched)| == 14 && |Slug(RootAttached)| == 13;
    assert |Slug(Running)| == 7 && |Slug(Assimilating)| == 12 && |Slug(Local)| == 5 && |Slug(Failed)| == 6;
    assert Slug(ScriptFetched)[0] == 's' && Slug(AssetsFetched)[0] == 'a';
  }

  lemma {:induction false} PhaseIdIsInjective(p: Phase, q: Phase)
    requires PhaseId(p) == PhaseId(q)
    ensures p == q
  {
    assert PhaseId(p)[6..] == Slug(p) && PhaseId(q)[6..] == Slug(q);
    SlugIsInjective(p, q);
  }

  lemma {:induction false} HostIdIsInjective(a: Mac, b: Mac)
    requires HostId(a) == HostId(b)
    ensures a == b
  {
    assert HostId(a)[5..] == Print(a) && HostId(b)[5..] == Print(b);
    PrintIsInjective(a, b);
  }

  /** Which part of the feed an identity belongs to shows in its first letter. */
  lemma {:induction false} FirstLetters(p: Phase, m: Mac)
    ensures PhaseId(p) != "" && PhaseId(p)[0] == 'p'
    ensures HostId(m) != "" && HostId(m)[0] == 'h'
    ensures "system"[0] == 's' && "assets:boot"[0] == 'a'
  {
    assert "phase:"[0] == 'p' && "host:"[0] == 'h';
  }

  function Letter(counts: seq<(Phase, nat)>, i: nat): char {
    if i == 0 then 's' else if i == 1 then 'a' else if i < 2 + |counts| then 'p' else 'h'
  }

  lemma {:induction false} IdLetter(counts: seq<(Phase, nat)>, shown: seq<HostState>, i: nat)
    requires i < 2 + |counts| + |shown|
    ensures IdAt(counts, shown, i) != "" && IdAt(counts, shown, i)[0] == Letter(counts, i)
  {
    if 2 <= i < 2 + |counts| {
      FirstLetters(counts[i - 2].0, [0, 0, 0, 0, 0, 0]);
    } else if 2 + |counts| <= i {
      FirstLetters(Failed, shown[i - 2 - |counts|].mac);
    } else {
      FirstLetters(Failed, [0, 0, 0, 0, 0, 0]);
    }
  }

  lemma {:induction false} LettersTellApart(counts: seq<(Phase, nat)>, shown: seq<HostState>, i: nat, j: nat)
    requires i < 2 + |counts| + |shown| && j < 2 + |counts| + |shown| && Letter(counts, i) != Letter(counts, j)
    ensures IdAt(counts, shown, i) != IdAt(counts, shown, j)
  {
    IdLetter(counts, shown, i);
    IdLetter(counts, shown, j);
  }

  /** No two rows of a feed share an identity. */
  lemma {:induction false} IdsAreDistinct(h: Tracked, snapshot: seq<HostState>, assets: AssetStatus, i: nat, j: nat)
    requires IsSnapshot(h, snapshot) && i < j < |FeedOf(PhaseCounts(h), snapshot, assets)|
    ensures FeedOf(PhaseCounts(h), snapshot, assets)[i].id != FeedOf(PhaseCounts(h), snapshot, assets)[j].id
  {
    RowsByPlace(PhaseCounts(h), snapshot, assets, i);
    RowsByPlace(PhaseCounts(h), snapshot, assets, j);
    CountsCoverHosts(h);
    ShownOnce(h, snapshot);
    IdsByPlaceDiffer(PhaseCounts(h), Shown(snapshot), i, j);
  }

  ghost predicate PhasesOnce(counts: seq<(Phase, nat)>) {
    forall i, j :: 0 <= i < j < |counts| ==> Rank(counts[i].0) < Rank(counts[j].0)
  }

  ghost predicate MacsOnce(shown: seq<HostState>) {
    forall i, j :: 0 <= i < j < |shown| ==> shown[i].mac != shown[j].mac
  }

  lemma {:induction false} ShownOnce(h: Tracked, snapshot: seq<HostState>)
    requires IsSnapshot(h, snapshot)
    ensures MacsOnce(Shown(snapshot))
  {
    MoreRecentIsStrict();
    var shown := Shown(snapshot);
    forall i, j | 0 <= i < j < |shown|
      ensures shown[i].mac != shown[j].mac
    {
      assert shown[i] == snapshot[i] && shown[j] == snapshot[j];
      assert snapshot[i] in snapshot && snapshot[j] in snapshot;
    }
  }

  lemma {:induction false} IdsByPlaceDiffer(counts: seq<(Phase, nat)>, shown: seq<HostState>, i: nat, j: nat)
    requires PhasesOnce(counts) && MacsOnce(shown) && i < j < 2 + |counts| + |shown|
    ensures IdAt(counts, shown, i) != IdAt(counts, shown, j)
  {
    if Letter(counts, i) != Letter(counts, j) {
      LettersTellApart(counts, shown, i, j);
    } else if j < 2 + |counts| {
      if PhaseId(counts[i - 2].0) == PhaseId(counts[j - 2].0) {
        PhaseIdIsInjective(counts[i - 2].0, counts[j - 2].0);
      }
    } else {
      if HostId(shown[i - 2 - |counts|].mac) == HostId(shown[j - 2 - |counts|].mac) {
        HostIdIsInjective(shown[i - 2 - |counts|].mac, shown[j - 2 - |counts|].mac);
      }
    }
  }

  // ---- relations -------------------------------------------------------------------------

  predicate HasId(feed: seq<Component>, id: string) {
    exists k :: 0 <= k < |feed| && feed[k].id == id
  }

  /** Each shown host's phase has a row. */
  ghost predicate Covered(counts: seq<(Phase, nat)>, shown: seq<HostState>) {
    forall k :: 0 <= k < |shown| ==> exists n :: 0 <= n < |counts| && counts[n].0 == shown[k].phase
  }

  lemma {:induction false} CountsCoverShown(h: Tracked, snapshot: seq<HostState>)
    requires IsSnapshot(h, snapshot)
    ensures Covered(PhaseCounts(h), Shown(snapshot))
  {
    var counts, shown := PhaseCounts(h), Shown(snapshot);
    CountsCoverHosts(h);
    forall k | 0 <= k < |shown|
      ensures exists n :: 0 <= n < |counts| && counts[n].0 == shown[k].phase
    {
      assert shown[k] in snapshot;
      var n :| 0 <= n < |counts| && counts[n] == (shown[k].phase, |InPhase(h, shown[k].phase)|);
    }
  }

  lemma {:induction false} TargetPlace(
    counts: seq<(Phase, nat)>, shown: seq<HostState>, i: nat, t: string) returns (k: nat)
    requires Covered(counts, shown)
    requires i < 2 + |counts| + |shown| && t in TargetsAt(counts, shown, i)
    ensures k < 2 + |counts| + |shown| && IdAt(counts, shown, k) == t
  {
    if i == 0 {
      var n :| 0 <= n < |counts| && t == PhaseIds(counts)[n];
      k := 2 + n;
    } else if i < 2 + |counts| {
      k := 0;
    } else {
      var n :| 0 <= n < |counts| && counts[n].0 == shown[i - 2 - |counts|].phase;
      k := 2 + n;
    }
  }

  /** Every row a row points at is in the same feed. */
  lemma {:induction false} FeedIsClosed(
    h: Tracked, snapshot: seq<HostState>, assets: AssetStatus, i: nat, r: Relation, t: string)
    requires IsSnapshot(h, snapshot) && i < |FeedOf(PhaseCounts(h), snapshot, assets)|
    requires r in FeedOf(PhaseCounts(h), snapshot, assets)[i].relations && t in r.targets
    ensures HasId(FeedOf(PhaseCounts(h), snapshot, assets), t)
  {
    CountsCoverShown(h, snapshot);
    ClosedOverCounts(PhaseCounts(h), snapshot, assets, i, r, t);
  }

  lemma {:induction false} ClosedOverCounts(
    counts: seq<(Phase, nat)>, snapshot: seq<HostState>, assets: AssetStatus, i: nat, r: Relation, t: string)
    requires Covered(counts, Shown(snapshot)) && i < |FeedOf(counts, snapshot, assets)|
    requires r in FeedOf(counts, snapshot, assets)[i].relations && t in r.targets
    ensures HasId(FeedOf(counts, snapshot, assets), t)
  {
    RowsByPlace(counts, snapshot, assets, i);
    var k := TargetPlace(counts, Shown(snapshot), i, t);
    RowsByPlace(counts, snapshot, assets, k);
  }

  // ---- totals and rows ---------------------------------------------------------------------

  /** The number a "hosts" metric shows. */
  function HostsShown(c: Component): Option<nat> {
    if c.metrics != [] then ParseUnsigned(c.metrics[0].value, 0xFFFF_FFFF_FFFF_FFFF) else None
  }

  function SumShown(rows: seq<Component>): nat {
    if rows == [] then 0
    else SumShown(rows[..|rows| - 1]) +
         (if HostsShown(rows[|rows| - 1]).Some? then HostsShown(rows[|rows| - 1]).value else 0)
  }

  lemma {:induction false} SumOfPhaseRows(counts: seq<(Phase, nat)>, rows: seq<Component>)
    requires |rows| == |counts| && forall i :: 0 <= i < |rows| ==> rows[i] == PhaseRow(counts[i].0, counts[i].1)
    requires Total(counts) <= 0xFFFF_FFFF_FFFF_FFFF
    ensures SumShown(rows) == Total(counts)
  {
    if counts != [] {
      var n := |counts| - 1;
      ParseOfDecimal(counts[n].1, 0xFFFF_FFFF_FFFF_FFFF);
      SumOfPhaseRows(counts[..n], rows[..n]);
    }
  }

  lemma {:induction false} FailedCount(counts: seq<(Phase, nat)>, p: Phase)
    requires forall i, j :: 0 <= i < j < |counts| ==> counts[i].0 != counts[j].0
    ensures forall n :: (p, n) in counts ==> CountOf(counts, p) == n
    ensures (forall n :: (p, n) !in counts) ==> CountOf(counts, p) == 0
  {
    if counts != [] {
      FailedCount(counts[1..], p);
      forall n | (p, n) in counts
        ensures CountOf(counts, p) == n
      {
        var i :| 0 <= i < |counts| && counts[i] == (p, n);
        if i > 0 {
          assert counts[1..][i - 1] == (p, n);
        }
      }
      if counts[0].0 != p && forall n :: (p, n) !in counts {
        assert forall n :: (p, n) !in counts[1..];
      }
      assert counts[0] in counts;
    }
  }

  /** The total shown is the number of tracked hosts and the sum of what the phase rows show. */
  lemma {:induction false} TotalsAddUp(h: Tracked, snapshot: seq<HostState>, assets: AssetStatus)
    requires |h| <= MAX_TRACKED
    ensures var feed := FeedOf(PhaseCounts(h), snapshot, assets);
            && HostsShown(feed[0]) == Some(|h|)
            && SumShown(feed[2..2 + |PhaseCounts(h)|]) == |h|
  {
    CountsCoverHosts(h);
    TotalsOfCounts(PhaseCounts(h), snapshot, assets);
  }

  lemma {:induction false} TotalsOfCounts(counts: seq<(Phase, nat)>, snapshot: seq<HostState>, assets: AssetStatus)
    requires Total(counts) <= 0xFFFF_FFFF_FFFF_FFFF
    ensures var feed := FeedOf(counts, snapshot, assets);
            && HostsShown(feed[0]) == Some(Total(counts))
            && SumShown(feed[2..2 + |counts|]) == Total(counts)
  {
    ParseOfDecimal(Total(counts), 0xFFFF_FFFF_FFFF_FFFF);
    MiddleOf(TopRows(counts, assets), PhaseRows(counts), HostRows(Shown(snapshot)));
    SumOfPhaseRows(counts, PhaseRows(counts));
  }

  lemma {:induction false} MiddleOf(top: seq<Component>, phases: seq<Component>, hosts: seq<Component>)
    requires |top| == 2
    ensures (top + phases + hosts)[2..2 + |phases|] == phases
    ensures (top + phases + hosts)[2 + |phases|..] == hosts
  {
  }

  // ---- what the rows say -----------------------------------------------------------------------

  /** A failure is an error, a host that runs or has moved to its disk is fine, and one on its way is idle. */
  predicate HealthTells(health: Health, p: Phase) {
    && (health == Error <==> p == Failed)
    && (health == Health.Ok <==> p == Running || p == Assimilating || p == Local)
    && (health == Idle <==> p == ScriptFetched || p == AssetsFetched || p == RootAttached)
  }

  /** The k-th phase row is of the k-th phase listed, tells its health and shows how many hosts are in it. */
  lemma {:induction false} PhaseRowsSay(
    counts: seq<(Phase, nat)>, snapshot: seq<HostState>, assets: AssetStatus, k: nat)
    requires k < |counts| && 2 + k < |FeedOf(counts, snapshot, assets)|
    ensures var row := FeedOf(counts, snapshot, assets)[2 + k];
            && row.id == "phase:" + Slug(counts[k].0) && HealthTells(row.health, counts[k].0)
            && row.detail == Decimal(counts[k].1) + " host(s)"
            && row.metrics == [Metric("hosts", Decimal(counts[k].1), None)]
  {
    PlaceInFeed(TopRows(counts, assets), PhaseRows(counts), HostRows(Shown(snapshot)), 2 + k);
    assert PhaseRows(counts)[k] == PhaseRowOf(counts[k]);
  }

  /** A host row is of its host: its address, its health, what it last said and its phase. */
  lemma {:induction false} HostRowSays(h: HostState)
    ensures var row := HostRow(h);
            && row.id == "host:" + Print(h.mac) && row.title == Print(h.mac) && HealthTells(row.health, h.phase)
            && (h.detail.Some? ==> row.detail == h.detail.value)
            && row.relations == [Relation("phase", BelongsTo, ["phase:" + Slug(h.phase)])]
  {
  }

  /** The pallet row: healthy exactly when something is served, with its version, digest and the signature's verdict. */
  lemma {:induction false} AssetsRowSays(counts: seq<(Phase, nat)>, snapshot: seq<HostState>, assets: AssetStatus)
    requires 1 < |FeedOf(counts, snapshot, assets)|
    ensures var row := FeedOf(counts, snapshot, assets)[1];
            && row.id == "assets:boot" && row.detail == assets.detail
            && (row.health == Health.Ok <==> assets.ready) && (row.health == Error <==> !assets.ready)
            && row.metrics != [] && row.metrics[0].title == "version"
            && (assets.version.Some? ==> row.metrics[0].value == assets.version.value)
            && (var last := row.metrics[|row.metrics| - 1];
                && last.title == "signature"
                && (assets.signatureVerified ==> last.value == "verified" && last.tone == Some("ok"))
                && (!assets.signatureVerified ==> last.value == "unverified" && last.tone == Some("warn")))
  {
    PlaceInFeed(TopRows(counts, assets), PhaseRows(counts), HostRows(Shown(snapshot)), 1);
  }

  /** The failed metric is the number of failed hosts, and marked as an error exactly when there are any. */
  lemma {:induction false} FailedMetricCounts(h: Tracked, assets: AssetStatus)
    ensures var metric := SystemRow(PhaseCounts(h), assets).metrics[1];
            && metric.title == "failed" && metric.value == Decimal(|InPhase(h, Failed)|)
            && metric.tone == Some(if InPhase(h, Failed) != {} then "error" else "muted")
  {
    var counts := PhaseCounts(h);
    CountsCoverHosts(h);
    FailedCount(counts, Failed);
    if Populated(h, Failed) {
      var m :| m in h && h[m].phase == Failed;
      assert m in InPhase(h, Failed);
      assert (Failed, |InPhase(h, Failed)|) in counts;
    } else {
      assert InPhase(h, Failed) == {};
      assert forall n :: (Failed, n) !in counts;
    }
  }

  /** The short digest is the first twelve digits, or all of a shorter one, without the algorithm. */
  lemma {:induction false} ShortDigestShows(hex: string)
    requires !("sha256:" <= hex)
    ensures ShortDigest("sha256:" + hex) == (if |hex| <= 12 then hex else hex[..12])
    ensures ShortDigest(hex) == (if |hex| <= 12 then hex else hex[..12])
  {
    var long := "sha256:" + hex;
    assert "sha256:" <= long && long[|"sha256:"|..] == hex;
    assert TrimPrefixes(long, "sha256:") == TrimPrefixes(hex, "sha256:") == hex;
  }

  /** The service calls itself unhealthy exactly when nothing is served, and warns exactly when a host failed. */
  lemma {:induction false} SystemHealth(h: Tracked, assets: AssetStatus)
    ensures SystemRow(PhaseCounts(h), assets).health ==
            if !assets.ready then Error else if Populated(h, Failed) then Warn else Health.Ok
  {
    var counts := PhaseCounts(h);
    CountsCoverHosts(h);
    FailedCount(counts, Failed);
    if Populated(h, Failed) {
      var m :| m in h && h[m].phase == Failed;
      assert m in InPhase(h, Failed);
      assert (Failed, |InPhase(h, Failed)|) in counts;
    } else {
      assert forall n :: (Failed, n) !in counts;
    }
  }

  /**
   * The host rows are the most recently updated hosts: as many as fit, and none left out
   * is more recent than one shown.
   */
  lemma {:induction false} HostRowsAreMostRecent(h: Tracked, snapshot: seq<HostState>, assets: AssetStatus)
    requires BootStates.Keyed(h) && IsSnapshot(h, snapshot)
    ensures var shown := Shown(snapshot);
            && FeedOf(PhaseCounts(h), snapshot, assets)[2 + |PhaseCounts(h)|..] == HostRows(shown)
            && |shown| == (if |h| <= 200 then |h| else 200)
            && (forall x :: x in shown ==> x.mac in h && h[x.mac] == x)
            && (forall m, x :: m in h && h[m] !in shown && x in shown ==> h[m].updated <= x.updated)
  {
    var shown := Shown(snapshot);
    forall x | x in shown
      ensures x in snapshot
    {
    }
    forall m, x | m in h && h[m] !in shown && x in shown
      ensures h[m].updated <= x.updated
    {
      var i :| 0 <= i < |snapshot| && snapshot[i] == h[m];
      var k :| 0 <= k < |shown| && shown[k] == x;
      assert forall n :: 0 <= n < |shown| ==> shown[n] == snapshot[n];
      assert MoreRecent(snapshot[k], snapshot[i]);
    }
  }
}
