/**
 * The watch on `BootHost` objects: an index and the cluster layer of the host
 * store, kept in lockstep by events and healed by every relist.
 */
module Watch {
  import opened Prelude
  import opened Macs
  import opened Hosts
  import opened BootHosts
  import opened Reconcile

  /** The index, the store's layers, and the list a relist is still delivering. */
  datatype Mirror = Mirror(objects: Objects, layers: Layers, relisting: seq<BootHost>)

  /** What reaches the mirror: the watch's events, and the writes of other tasks. */
  datatype Event =
    | Init
    | InitApply(resource: BootHost)
    | InitDone
    | Applied(resource: BootHost)
    | Deleted(resource: BootHost)
    | Failed
    | StreamEnded
    | StatusNoted(mac: Mac, status: Status)
    | FileReloaded(records: seq<HostRecord>)

  /** Indexing a list: objects without a record are left out, the last object of an address wins. */
  function Indexed(list: seq<BootHost>): Objects {
    if list == [] then map[]
    else
      var before, last := Indexed(list[..|list| - 1]), list[|list| - 1];
      var r := ToRecord(last);
      if r.None? then before else before[r.value.mac := last]
  }

  function RecordsOf(list: seq<BootHost>): seq<HostRecord> {
    if list == [] then []
    else
      var before, r := RecordsOf(list[..|list| - 1]), ToRecord(list[|list| - 1]);
      if r.None? then before else before + [r.value]
  }

  function Handle(m: Mirror, e: Event): Mirror {
    match e
    case Init => m.(relisting := [])
    case InitApply(o) => m.(relisting := m.relisting + [o])
    case InitDone =>
      Mirror(Indexed(m.relisting), Hosts.Apply(m.layers, KubeSet(RecordsOf(m.relisting))), [])
    case Applied(o) =>
      var r := ToRecord(o);
      if r.None? then m
      else m.(objects := m.objects[r.value.mac := o], layers := Hosts.Apply(m.layers, KubeApplied(r.value)))
    case Deleted(o) =>
      var r := ToRecord(o);
      if r.None? then m
      else m.(objects := m.objects - {r.value.mac}, layers := Hosts.Apply(m.layers, KubeRemoved(r.value.mac)))
    case Failed => m
    case StreamEnded => m.(relisting := [])
    case StatusNoted(mac, status) =>
      if mac in m.objects then m.(objects := m.objects[mac := m.objects[mac].(status := Some(status))]) else m
    case FileReloaded(records) => m.(layers := Hosts.Apply(m.layers, FileLoaded(records)))
  }

  function HandleAll(m: Mirror, es: seq<Event>): Mirror {
    if es == [] then m else Handle(HandleAll(m, es[..|es| - 1]), es[|es| - 1])
  }

  const BLANK := Mirror(map[], EMPTY, [])

  class Watcher {
    const index: BootHostIndex
    const store: HostStore
    var relisting: seq<BootHost>

    constructor (index: BootHostIndex, store: HostStore)
      requires index.objects == map[] && store.View() == EMPTY
      ensures this.index == index && this.store == store && View() == BLANK
    {
      this.index, this.store, relisting := index, store, [];
    }

    function View(): Mirror
      reads this, index, store
    {
      Mirror(index.objects, store.View(), relisting)
    }

    /** Replace everything, from a completed relist. */
    method Reset(list: seq<BootHost>)
      modifies index, store
      ensures index.objects == Indexed(list)
      ensures store.View() == Hosts.Apply(old(store.View()), KubeSet(RecordsOf(list)))
      ensures store.mtime == old(store.mtime)
    {
      var indexed: Objects := map[];
      var records: seq<HostRecord> := [];
      for i := 0 to |list|
        invariant indexed == Indexed(list[..i]) && records == RecordsOf(list[..i])
      {
        assert list[..i + 1][..i] == list[..i];
        var record := ToRecord(list[i]);
        if record.Some? {
          records := records + [record.value];
          indexed := indexed[record.value.mac := list[i]];
        }
      }
      assert list[..|list|] == list;
      index.objects := indexed;
      store.SetKubeRecords(records);
    }

    /** The watch loop's reaction to one event. */
    method React(e: Event)
      requires !e.FileReloaded?
      modifies this, index, store
      ensures View() == Handle(old(View()), e)
    {
      match e {
        case Init => relisting := [];
        case InitApply(o) => relisting := relisting + [o];
        case InitDone =>
          Reset(relisting);
          relisting := [];
        case Applied(o) =>
          var record := ToRecord(o);
          if record.Some? {
            index.objects := index.objects[record.value.mac := o];
            store.ApplyKubeRecord(record.value);
          }
        case Deleted(o) =>
          var record := ToRecord(o);
          if record.Some? {
            index.objects := index.objects - {record.value.mac};
            store.RemoveKubeRecord(record.value.mac);
          }
        case Failed =>
        case StreamEnded => relisting := [];
        case StatusNoted(mac, status) => index.NoteStatus(mac, status);
      }
    }
  }

  // ---- lockstep ------------------------------------------------------------------

  /** The same addresses on both sides, and each record is its object's. */
  predicate Lockstep(m: Mirror) {
    InLockstep(m.objects, m.layers.kube, ToRecord)
  }

  predicate InLockstep(objects: Objects, kube: Records, record: BootHost -> Option<HostRecord>) {
    && objects.Keys == kube.Keys
    && forall a :: a in objects ==> record(objects[a]) == Some(kube[a]) && kube[a].mac == a
  }

  lemma {:induction false} IndexedInLockstep(list: seq<BootHost>)
    ensures Indexed(list).Keys == ByMac(RecordsOf(list)).Keys
    ensures forall a :: a in Indexed(list) ==>
              ToRecord(Indexed(list)[a]) == Some(ByMac(RecordsOf(list))[a]) && ByMac(RecordsOf(list))[a].mac == a
  {
    if list != [] {
      var init := list[..|list| - 1];
      IndexedInLockstep(init);
      var r := ToRecord(list[|list| - 1]);
      if r.Some? {
        assert (RecordsOf(init) + [r.value])[..|RecordsOf(init)|] == RecordsOf(init);
      }
    }
  }

  lemma {:induction false} RecordIgnoresStatus(o: BootHost, status: Option<Status>)
    ensures ToRecord(o.(status := status)) == ToRecord(o)
  {
  }

  lemma {:induction false} StepKeepsLockstep(m: Mirror, e: Event)
    requires Lockstep(m)
    ensures Lockstep(Handle(m, e))
  {
    match e {
      case InitDone => IndexedInLockstep(m.relisting);
      case Applied(o) =>
        if ToRecord(o).Some? {
          PutKeepsLockstep(m.objects, m.layers.kube, ToRecord, o, ToRecord(o).value);
        }
      case Deleted(o) =>
        if ToRecord(o).Some? {
          PutKeepsLockstep(m.objects, m.layers.kube, ToRecord, o, ToRecord(o).value);
        }
      case StatusNoted(mac, status) =>
        if mac in m.objects {
          RecordIgnoresStatus(m.objects[mac], Some(status));
        }
      case _ =>
    }
  }

  lemma {:induction false} PutKeepsLockstep(
    objects: Objects, kube: Records, record: BootHost -> Option<HostRecord>, o: BootHost, r: HostRecord)
    requires InLockstep(objects, kube, record) && record(o) == Some(r)
    ensures InLockstep(objects[r.mac := o], kube[r.mac := r], record)
    ensures InLockstep(objects - {r.mac}, kube - {r.mac}, record)
  {
  }

  /** Whatever events arrive in whatever order, the two sides never drift apart. */
  lemma {:induction false} AlwaysLockstep(es: seq<Event>)
    ensures Lockstep(HandleAll(BLANK, es))
  {
    if es != [] {
      AlwaysLockstep(es[..|es| - 1]);
      StepKeepsLockstep(HandleAll(BLANK, es[..|es| - 1]), es[|es| - 1]);
    }
  }

  // ---- healing -----------------------------------------------------------------------

  /** The objects a stretch of events delivers to the relist under way. */
  function Delivered(es: seq<Event>): seq<BootHost> {
    if es == [] then []
    else Delivered(es[..|es| - 1]) + if es[|es| - 1].InitApply? then [es[|es| - 1].resource] else []
  }

  predicate WithinRelist(es: seq<Event>) {
    forall e :: e in es ==> !e.Init? && !e.InitDone? && !e.StreamEnded?
  }

  lemma {:induction false} RelistBuffers(m: Mirror, es: seq<Event>)
    requires WithinRelist(es) && m.relisting == []
    ensures HandleAll(m, es).relisting == Delivered(es)
  {
    if es != [] {
      assert forall e :: e in es[..|es| - 1] ==> e in es;
      RelistBuffers(m, es[..|es| - 1]);
      assert es[|es| - 1] in es;
    }
  }

  /**
   * A completed relist makes both sides exactly what it delivered, whatever had been
   * missed before and whatever other events came in between. It begins where the watch
   * says so, or with a new stream: nothing of a stream that ended is delivered.
   */
  lemma {:induction false} RelistHeals(m: Mirror, start: Event, es: seq<Event>)
    requires start.Init? || start.StreamEnded?
    requires WithinRelist(es)
    ensures var healed := Handle(HandleAll(Handle(m, start), es), InitDone);
            && healed.objects == Indexed(Delivered(es))
            && healed.layers.kube == ByMac(RecordsOf(Delivered(es)))
            && healed.layers.synced
            && Lockstep(healed)
  {
    RelistBuffers(Handle(m, start), es);
    IndexedInLockstep(Delivered(es));
  }

  // ---- the mirror and the cluster -------------------------------------------------------

  type Key = (Option<string>, Option<string>)

  function KeyOf(o: BootHost): Key {
    (o.metadata.namespace, o.metadata.name)
  }

  /** The objects that exist, by namespace and name, both of which the apiserver requires. */
  type Cluster = map<Key, BootHost>

  predicate WellFormed(live: Cluster) {
    forall k :: k in live ==> KeyOf(live[k]) == k && IsNamed(live[k])
  }

  function MacOf(o: BootHost): Option<Mac> {
    if ToRecord(o).Some? then Some(ToRecord(o).value.mac) else None
  }

  ghost predicate Describes(live: Cluster, r: HostRecord) {
    exists k :: k in live && ToRecord(live[k]) == Some(r)
  }

  /** The cluster layer holds exactly the records of the objects that exist. */
  ghost predicate Refines(kube: Records, live: Cluster) {
    forall r: HostRecord :: (r.mac in kube && kube[r.mac] == r) <==> Describes(live, r)
  }

  predicate DistinctMacs(live: Cluster) {
    forall j, k :: j in live && k in live && j != k && MacOf(live[j]).Some? ==> MacOf(live[j]) != MacOf(live[k])
  }

  /** Two existing objects never have the same record: it carries their identity. */
  lemma {:induction false} RecordIdentifies(live: Cluster, j: Key, k: Key)
    requires WellFormed(live) && j in live && k in live
    requires ToRecord(live[j]).Some? && ToRecord(live[j]) == ToRecord(live[k])
    ensures j == k
  {
    assert RefOf(live[j]) == RefOf(live[k]);
  }

  /** Agreement needs distinct addresses. */
  lemma {:induction false} RefinementNeedsDistinctMacs(kube: Records, live: Cluster)
    requires WellFormed(live) && Refines(kube, live)
    ensures DistinctMacs(live)
  {
    forall j, k | j in live && k in live && j != k && MacOf(live[j]).Some?
      ensures MacOf(live[j]) != MacOf(live[k])
    {
      if MacOf(live[j]) == MacOf(live[k]) {
        var a, b := ToRecord(live[j]).value, ToRecord(live[k]).value;
        assert Describes(live, a) && Describes(live, b);
        RecordIdentifies(live, j, k);
      }
    }
  }

  predicate TameApply(live: Cluster, o: BootHost) {
    && (forall k :: k in live && k != KeyOf(o) && MacOf(o).Some? ==> MacOf(live[k]) != MacOf(o))
    && (KeyOf(o) in live && MacOf(live[KeyOf(o)]).Some? ==> MacOf(live[KeyOf(o)]) == MacOf(o))
  }

  function KubeAfterApply(kube: Records, o: BootHost): Records {
    if ToRecord(o).Some? then kube[ToRecord(o).value.mac := ToRecord(o).value] else kube
  }

  /**
   * An apply keeps the agreement exactly when no other object has the address and,
   * if the object existed with an address, that address was not edited.
   */
  lemma {:induction false} ApplyKeepsRefinementExactly(kube: Records, live: Cluster, o: BootHost)
    requires WellFormed(live) && IsNamed(o) && Refines(kube, live)
    ensures Refines(KubeAfterApply(kube, o), live[KeyOf(o) := o]) <==> TameApply(live, o)
  {
    var after, live' := KubeAfterApply(kube, o), live[KeyOf(o) := o];
    if Refines(after, live') {
      ApplyWasTame(kube, live, o);
    }
    if TameApply(live, o) {
      forall r: HostRecord
        ensures (r.mac in after && after[r.mac] == r) <==> Describes(live', r)
      {
        TameApplyAgreesOn(kube, live, o, r);
      }
    }
  }

  lemma {:induction false} ApplyWasTame(kube: Records, live: Cluster, o: BootHost)
    requires WellFormed(live) && IsNamed(o) && Refines(kube, live)
    requires Refines(KubeAfterApply(kube, o), live[KeyOf(o) := o])
    ensures TameApply(live, o)
  {
    var after, live' := KubeAfterApply(kube, o), live[KeyOf(o) := o];
    RefinementNeedsDistinctMacs(after, live');
    forall k | k in live && k != KeyOf(o) && MacOf(o).Some?
      ensures MacOf(live[k]) != MacOf(o)
    {
      assert live'[k] == live[k] && live'[KeyOf(o)] == o;
    }
    if KeyOf(o) in live && MacOf(live[KeyOf(o)]).Some? && MacOf(live[KeyOf(o)]) != MacOf(o) {
      var former := ToRecord(live[KeyOf(o)]).value;
      assert Describes(live, former);
    }
  }

  lemma {:induction false} TameApplyAgreesOn(kube: Records, live: Cluster, o: BootHost, r: HostRecord)
    requires WellFormed(live) && IsNamed(o) && Refines(kube, live) && TameApply(live, o)
    ensures var after := KubeAfterApply(kube, o);
            (r.mac in after && after[r.mac] == r) <==> Describes(live[KeyOf(o) := o], r)
  {
    var after, live' := KubeAfterApply(kube, o), live[KeyOf(o) := o];
    if r.mac in after && after[r.mac] == r {
      if ToRecord(o) == Some(r) {
        assert live'[KeyOf(o)] == o;
      } else {
        var k :| k in live && ToRecord(live[k]) == Some(r);
        assert k != KeyOf(o);
        assert live'[k] == live[k];
      }
    }
    if Describes(live', r) {
      var k :| k in live' && ToRecord(live'[k]) == Some(r);
      if k != KeyOf(o) {
        assert Describes(live, r);
      }
    }
  }

  predicate TameDelete(live: Cluster, o: BootHost) {
    var known := if KeyOf(o) in live then MacOf(live[KeyOf(o)]) else None;
    known == MacOf(o) || (known.None? && forall k :: k in live ==> MacOf(live[k]) != MacOf(o))
  }

  function KubeAfterDelete(kube: Records, o: BootHost): Records {
    if ToRecord(o).Some? then kube - {ToRecord(o).value.mac} else kube
  }

  /**
   * A delete keeps the agreement exactly when it carries the address the object was
   * last known by, or the object had none and nobody has the one it carries.
   */
  lemma {:induction false} DeleteKeepsRefinementExactly(kube: Records, live: Cluster, o: BootHost)
    requires WellFormed(live) && IsNamed(o) && Refines(kube, live)
    ensures Refines(KubeAfterDelete(kube, o), live - {KeyOf(o)}) <==> TameDelete(live, o)
  {
    var after, live' := KubeAfterDelete(kube, o), live - {KeyOf(o)};
    RefinementNeedsDistinctMacs(kube, live);
    if Refines(after, live') {
      DeleteWasTame(kube, live, o);
    }
    if TameDelete(live, o) {
      forall r: HostRecord
        ensures (r.mac in after && after[r.mac] == r) <==> Describes(live', r)
      {
        TameDeleteAgreesOn(kube, live, o, r);
      }
    }
  }

  lemma {:induction false} DeleteWasTame(kube: Records, live: Cluster, o: BootHost)
    requires WellFormed(live) && IsNamed(o) && Refines(kube, live)
    requires Refines(KubeAfterDelete(kube, o), live - {KeyOf(o)})
    ensures TameDelete(live, o)
  {
    var after, live' := KubeAfterDelete(kube, o), live - {KeyOf(o)};
    if KeyOf(o) in live && MacOf(live[KeyOf(o)]).Some? {
      var former := ToRecord(live[KeyOf(o)]).value;
      assert Describes(live, former);
      NoLongerDescribed(live, KeyOf(o));
      assert former.mac !in after;
    } else {
      forall k | k in live && MacOf(live[k]).Some?
        ensures MacOf(live[k]) != MacOf(o)
      {
        assert live'[k] == live[k];
        assert Describes(live', ToRecord(live[k]).value);
        assert MacOf(live[k]).value in after;
      }
    }
  }

  lemma {:induction false} NoLongerDescribed(live: Cluster, gone: Key)
    requires WellFormed(live) && gone in live && ToRecord(live[gone]).Some?
    ensures !Describes(live - {gone}, ToRecord(live[gone]).value)
  {
    if k :| k in live - {gone} && ToRecord(live[k]) == ToRecord(live[gone]) {
      RecordIdentifies(live, k, gone);
    }
  }

  lemma {:induction false} TameDeleteAgreesOn(kube: Records, live: Cluster, o: BootHost, r: HostRecord)
    requires WellFormed(live) && IsNamed(o) && Refines(kube, live) && TameDelete(live, o) && DistinctMacs(live)
    ensures var after := KubeAfterDelete(kube, o);
            (r.mac in after && after[r.mac] == r) <==> Describes(live - {KeyOf(o)}, r)
  {
    var after, live' := KubeAfterDelete(kube, o), live - {KeyOf(o)};
    if r.mac in after && after[r.mac] == r {
      var k :| k in live && ToRecord(live[k]) == Some(r);
      assert k in live' by {
        assert MacOf(live[k]) != MacOf(o);
      }
      assert live'[k] == live[k];
    }
    if Describes(live', r) {
      var k :| k in live' && ToRecord(live'[k]) == Some(r);
      assert Describes(live, r);
    }
  }

  // ---- runs -------------------------------------------------------------------------------

  function ClusterAfter(live: Cluster, e: Event): Cluster {
    match e
    case Applied(o) => live[KeyOf(o) := o]
    case Deleted(o) => live - {KeyOf(o)}
    case _ => live
  }

  predicate Tame(live: Cluster, e: Event) {
    match e
    case Applied(o) => IsNamed(o) && TameApply(live, o)
    case Deleted(o) => IsNamed(o) && TameDelete(live, o)
    case InitDone => false
    case _ => true
  }

  function ClusterAfterAll(live: Cluster, es: seq<Event>): Cluster {
    if es == [] then live else ClusterAfter(ClusterAfterAll(live, es[..|es| - 1]), es[|es| - 1])
  }

  predicate AllTame(live: Cluster, es: seq<Event>) {
    es == [] ||
    (AllTame(live, es[..|es| - 1]) && Tame(ClusterAfterAll(live, es[..|es| - 1]), es[|es| - 1]))
  }

  /** A list that delivers the cluster: its objects and no others, in any order. */
  ghost predicate Lists(list: seq<BootHost>, live: Cluster) {
    forall o :: o in list <==> exists k :: k in live && live[k] == o
  }

  lemma {:induction false} ByMacHolds(list: seq<BootHost>, r: HostRecord)
    ensures Holds(ByMac(RecordsOf(list)), r) ==> exists o :: o in list && ToRecord(o) == Some(r)
    ensures (exists o :: o in list && ToRecord(o) == Some(r))
            && (forall o :: o in list && MacOf(o) == Some(r.mac) ==> ToRecord(o) == Some(r)) ==>
              Holds(ByMac(RecordsOf(list)), r)
  {
    if list != [] {
      var init, last := list[..|list| - 1], list[|list| - 1];
      ByMacHolds(init, r);
      assert list == init + [last];
      assert last in list;
      if ToRecord(last).Some? {
        HeldAfterOneMore(RecordsOf(init), ToRecord(last).value, r);
      }
    }
  }

  predicate Holds(kube: Records, r: HostRecord) {
    r.mac in kube && kube[r.mac] == r
  }

  lemma {:induction false} HeldAfterOneMore(list: seq<HostRecord>, last: HostRecord, r: HostRecord)
    ensures Holds(ByMac(list + [last]), r) <==> if last.mac == r.mac then last == r else Holds(ByMac(list), r)
  {
    assert (list + [last])[..|list|] == list;
  }

  /** A relist of the cluster as it is makes the layer agree with it exactly when addresses are distinct. */
  lemma {:induction false} RelistRefinesExactly(list: seq<BootHost>, live: Cluster)
    requires WellFormed(live) && Lists(list, live)
    ensures Refines(ByMac(RecordsOf(list)), live) <==> DistinctMacs(live)
  {
    var kube := ByMac(RecordsOf(list));
    if Refines(kube, live) {
      RefinementNeedsDistinctMacs(kube, live);
    }
    if DistinctMacs(live) {
      forall r: HostRecord
        ensures (r.mac in kube && kube[r.mac] == r) <==> Describes(live, r)
      {
        RelistAgreesOn(list, live, r);
      }
    }
  }

  lemma {:induction false} RelistAgreesOn(list: seq<BootHost>, live: Cluster, r: HostRecord)
    requires WellFormed(live) && Lists(list, live) && DistinctMacs(live)
    ensures var kube := ByMac(RecordsOf(list)); (r.mac in kube && kube[r.mac] == r) <==> Describes(live, r)
  {
    ByMacHolds(list, r);
    var kube := ByMac(RecordsOf(list));
    if r.mac in kube && kube[r.mac] == r {
      var o :| o in list && ToRecord(o) == Some(r);
      var k :| k in live && live[k] == o;
    }
    if Describes(live, r) {
      var k :| k in live && ToRecord(live[k]) == Some(r);
      assert live[k] in list;
      forall o | o in list && MacOf(o) == Some(r.mac)
        ensures ToRecord(o) == Some(r)
      {
        var j :| j in live && live[j] == o;
      }
    }
  }

  lemma {:induction false} TameRunKeepsRefinement(m: Mirror, live: Cluster, es: seq<Event>)
    requires WellFormed(live) && Refines(m.layers.kube, live) && AllTame(live, es)
    ensures WellFormed(ClusterAfterAll(live, es))
    ensures Refines(HandleAll(m, es).layers.kube, ClusterAfterAll(live, es))
  {
    if es != [] {
      var init, e := es[..|es| - 1], es[|es| - 1];
      TameRunKeepsRefinement(m, live, init);
      var kube, before := HandleAll(m, init).layers.kube, ClusterAfterAll(live, init);
      match e {
        case Applied(o) => ApplyKeepsRefinementExactly(kube, before, o);
        case Deleted(o) => DeleteKeepsRefinementExactly(kube, before, o);
        case _ =>
      }
    }
  }

  /** An event between relists, about an object the apiserver could hold. */
  predicate BetweenRelists(e: Event) {
    match e
    case Applied(o) => IsNamed(o)
    case Deleted(o) => IsNamed(o)
    case InitDone => false
    case _ => true
  }

  ghost predicate AgreesAfter(m: Mirror, live: Cluster, es: seq<Event>) {
    Refines(HandleAll(m, es).layers.kube, ClusterAfterAll(live, es))
  }

  ghost predicate AgreesThroughout(m: Mirror, live: Cluster, es: seq<Event>) {
    forall i :: 0 <= i <= |es| ==> AgreesAfter(m, live, es[..i])
  }

  /**
   * Between relists the layer describes the cluster after every event if and only if no
   * event shares or edits an address.
   */
  lemma {:induction false} RefinementLastsExactly(m: Mirror, live: Cluster, es: seq<Event>)
    requires WellFormed(live) && Refines(m.layers.kube, live)
    requires forall e :: e in es ==> BetweenRelists(e)
    ensures AgreesThroughout(m, live, es) <==> AllTame(live, es)
  {
    if es == [] {
      forall i | 0 <= i <= |es|
        ensures AgreesAfter(m, live, es[..i])
      {
        assert es[..i] == [];
      }
    } else {
      var n := |es| - 1;
      var init := es[..n];
      RefinementLastsExactly(m, live, init);
      OneMoreAgreement(m, live, es);
      if AllTame(live, init) {
        TameRunKeepsRefinement(m, live, init);
        LastEventExactly(m, live, init, es[n]);
        assert es[n] in es;
        assert init + [es[n]] == es;
      }
    }
  }

  lemma {:induction false} OneMoreAgreement(m: Mirror, live: Cluster, es: seq<Event>)
    requires es != []
    ensures AgreesThroughout(m, live, es) <==>
            AgreesThroughout(m, live, es[..|es| - 1]) && AgreesAfter(m, live, es)
  {
    var init := es[..|es| - 1];
    assert es[..|es|] == es;
    assert forall i :: 0 <= i <= |init| ==> init[..i] == es[..i];
    if AgreesThroughout(m, live, es) {
      forall i | 0 <= i <= |init|
        ensures AgreesAfter(m, live, init[..i])
      {
        assert AgreesAfter(m, live, es[..i]);
      }
      assert AgreesAfter(m, live, es[..|es|]);
    }
    if AgreesThroughout(m, live, init) && AgreesAfter(m, live, es) {
      forall i | 0 <= i <= |es|
        ensures AgreesAfter(m, live, es[..i])
      {
        assert i < |es| ==> AgreesAfter(m, live, init[..i]);
      }
    }
  }

  lemma {:induction false} LastEventExactly(m: Mirror, live: Cluster, init: seq<Event>, e: Event)
    requires WellFormed(ClusterAfterAll(live, init)) && AgreesAfter(m, live, init)
    requires BetweenRelists(e)
    ensures AgreesAfter(m, live, init + [e]) <==> Tame(ClusterAfterAll(live, init), e)
  {
    assert (init + [e])[..|init|] == init;
    var kube, before := HandleAll(m, init).layers.kube, ClusterAfterAll(live, init);
    match e {
      case Applied(o) => ApplyKeepsRefinementExactly(kube, before, o);
      case Deleted(o) => DeleteKeepsRefinementExactly(kube, before, o);
      case _ =>
    }
  }

  /**
   * From any state at all, once a relist has delivered the cluster with distinct
   * addresses, both sides describe exactly the existing objects, and go on doing so
   * for as long as no address is shared or edited.
   */
  lemma {:induction false} HealedThenExact(m: Mirror, relist: seq<Event>, live: Cluster, later: seq<Event>)
    requires WithinRelist(relist) && WellFormed(live) && Lists(Delivered(relist), live) && DistinctMacs(live)
    requires AllTame(live, later)
    ensures var healed := Handle(HandleAll(Handle(m, Init), relist), InitDone);
            && Refines(HandleAll(healed, later).layers.kube, ClusterAfterAll(live, later))
            && Lockstep(HandleAll(healed, later))
  {
    var healed := Handle(HandleAll(Handle(m, Init), relist), InitDone);
    RelistHeals(m, Init, relist);
    RelistRefinesExactly(Delivered(relist), live);
    TameRunKeepsRefinement(healed, live, later);
    StaysLockstep(healed, later);
  }

  lemma {:induction false} StaysLockstep(m: Mirror, es: seq<Event>)
    requires Lockstep(m)
    ensures Lockstep(HandleAll(m, es))
  {
    if es != [] {
      StaysLockstep(m, es[..|es| - 1]);
      StepKeepsLockstep(HandleAll(m, es[..|es| - 1]), es[|es| - 1]);
    }
  }
}
