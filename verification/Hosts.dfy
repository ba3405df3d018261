/**
 * Host records: who a booting machine is, from a cluster layer over a bootstrap
 * file layer.
 */
module Hosts {
  import opened Prelude
  import opened Macs
  import opened Sorting

  datatype ObjectRef = ObjectRef(namespace: string, name: string, generation: int)

  datatype HostRecord = HostRecord(
    mac: Mac, name: string, role: Option<string>, stack: Option<string>, portal: Option<string>,
    extraCmdline: Option<string>, online: bool, ref: Option<ObjectRef>)

  type Records = map<Mac, HostRecord>

  /** Collecting a list into a map: the last record of an address wins. */
  function ByMac(list: seq<HostRecord>): Records {
    if list == [] then map[]
    else ByMac(list[..|list| - 1])[list[|list| - 1].mac := list[|list| - 1]]
  }

  predicate Keyed(r: Records) {
    forall m :: m in r ==> r[m].mac == m
  }

  lemma {:induction false} ByMacIsKeyed(list: seq<HostRecord>)
    ensures Keyed(ByMac(list))
  {
    if list != [] {
      ByMacIsKeyed(list[..|list| - 1]);
    }
  }

  /** Both layers. `synced` is false until the watch has listed the cluster once. */
  datatype Layers = Layers(file: Records, kube: Records, synced: bool)

  /** The cluster answers first; the file only for addresses the cluster is silent about. */
  function Resolve(l: Layers, m: Mac): Option<HostRecord> {
    if m in l.kube then Some(l.kube[m]) else if m in l.file then Some(l.file[m]) else None
  }

  /** What reading the bootstrap file came to. */
  datatype FileRead = NotFound | Unreadable | Malformed | Listed(records: seq<HostRecord>)

  datatype Change =
    | FileLoaded(records: seq<HostRecord>)
    | KubeSet(records: seq<HostRecord>)
    | KubeApplied(record: HostRecord)
    | KubeRemoved(mac: Mac)

  function Apply(l: Layers, c: Change): Layers {
    match c
    case FileLoaded(records) => l.(file := ByMac(records))
    case KubeSet(records) => l.(kube := ByMac(records), synced := true)
    case KubeApplied(record) => l.(kube := l.kube[record.mac := record])
    case KubeRemoved(m) => l.(kube := l.kube - {m})
  }

  function ApplyAll(l: Layers, changes: seq<Change>): Layers {
    if changes == [] then l
    else Apply(ApplyAll(l, changes[..|changes| - 1]), changes[|changes| - 1])
  }

  const EMPTY := Layers(map[], map[], false)

  lemma {:induction false} LayersStayKeyed(changes: seq<Change>)
    ensures Keyed(ApplyAll(EMPTY, changes).kube) && Keyed(ApplyAll(EMPTY, changes).file)
  {
    if changes != [] {
      LayersStayKeyed(changes[..|changes| - 1]);
      var c := changes[|changes| - 1];
      if c.FileLoaded? || c.KubeSet? {
        ByMacIsKeyed(c.records);
      }
    }
  }

  predicate ByAddress(a: HostRecord, b: HostRecord) {
    Less(a.mac, b.mac)
  }

  lemma {:induction false} ByAddressIsStrict()
    ensures StrictOrder(ByAddress)
  {
    forall a: HostRecord
      ensures !ByAddress(a, a)
    {
      LessIsTotal(a.mac, a.mac);
    }
    forall a: HostRecord, b: HostRecord, c: HostRecord | ByAddress(a, b) && ByAddress(b, c)
      ensures ByAddress(a, c)
    {
      LessIsTransitive(a.mac, b.mac, c.mac);
    }
  }

  /** Strictly sorted by address, one record for each address either layer knows, each as lookup resolves it. */
  ghost predicate IsListing(l: Layers, out: seq<HostRecord>) {
    && Ascending(out, ByAddress)
    && (forall r :: r in out <==> Resolve(l, r.mac) == Some(r))
    && |out| == |l.kube.Keys + l.file.Keys|
  }

  /**
   * Looking an address up finds exactly the listed record of that address; nothing is
   * listed twice, whatever the hash order.
   */
  lemma {:induction false} ListingAgreesWithLookup(changes: seq<Change>, out: seq<HostRecord>, m: Mac)
    requires IsListing(ApplyAll(EMPTY, changes), out)
    ensures match Resolve(ApplyAll(EMPTY, changes), m)
            case Some(r) => r in out && r.mac == m && forall x :: x in out && x.mac == m ==> x == r
            case None => forall x :: x in out ==> x.mac != m
    ensures forall other :: IsListing(ApplyAll(EMPTY, changes), other) ==> other == out
  {
    LayersStayKeyed(changes);
    ByAddressIsStrict();
    forall other | IsListing(ApplyAll(EMPTY, changes), other)
      ensures other == out
    {
      AscendingIsUnique(other, out, ByAddress);
    }
  }

  /** The record that a list leaves for an address: its last one. */
  ghost predicate LastFor(list: seq<HostRecord>, m: Mac, r: HostRecord) {
    exists i :: 0 <= i < |list| && list[i] == r && r.mac == m && forall j :: i < j < |list| ==> list[j].mac != m
  }

  lemma {:induction false} LastRecordWins(list: seq<HostRecord>, m: Mac, r: HostRecord)
    ensures m in ByMac(list) && ByMac(list)[m] == r <==> LastFor(list, m, r)
    ensures m in ByMac(list) <==> exists i :: 0 <= i < |list| && list[i].mac == m
  {
    if list != [] {
      var n := |list| - 1;
      LastRecordWins(list[..n], m, r);
      if list[n].mac == m {
        assert LastFor(list, m, list[n]);
      } else {
        forall i | 0 <= i < n
          ensures list[..n][i] == list[i]
        {
        }
        assert LastFor(list, m, r) <==> LastFor(list[..n], m, r);
      }
    }
  }

  /**
   * Loading the file replaces all it said before: an address it no longer has is
   * unknown unless the cluster has it, and one it has resolves to its last record there
   * unless the cluster has it. The cluster's answers stay.
   */
  lemma {:induction false} FileLoadReplacesTheFile(l: Layers, records: seq<HostRecord>, m: Mac, r: HostRecord)
    ensures var after := Apply(l, FileLoaded(records));
            && (m in l.kube ==> Resolve(after, m) == Some(l.kube[m]))
            && (m !in l.kube ==> (Resolve(after, m) == Some(r) <==> LastFor(records, m, r)))
            && after.kube == l.kube && after.synced == l.synced
  {
    LastRecordWins(records, m, r);
  }

  /** A relist replaces all the cluster said before, and where it is silent the file answers. */
  lemma {:induction false} RelistReplacesTheCluster(l: Layers, records: seq<HostRecord>, m: Mac, r: HostRecord)
    ensures var after := Apply(l, KubeSet(records));
            && (LastFor(records, m, r) ==> Resolve(after, m) == Some(r))
            && ((forall i :: 0 <= i < |records| ==> records[i].mac != m) ==>
                  Resolve(after, m) == if m in l.file then Some(l.file[m]) else None)
            && after.file == l.file && after.synced
  {
    LastRecordWins(records, m, r);
  }

  /** A record applied by the cluster answers for its address whatever the file says, and changes no other answer. */
  lemma {:induction false} AppliedRecordAnswers(l: Layers, r: HostRecord, other: Mac)
    ensures var after := Apply(l, KubeApplied(r));
            && Resolve(after, r.mac) == Some(r)
            && (other != r.mac ==> Resolve(after, other) == Resolve(l, other))
            && after.file == l.file && after.synced == l.synced
  {
  }

  /** The cluster counts as listed exactly once a list of it has been set. */
  lemma {:induction false} SyncedExactly(changes: seq<Change>)
    ensures ApplyAll(EMPTY, changes).synced <==> exists i :: 0 <= i < |changes| && changes[i].KubeSet?
  {
    if changes != [] {
      var n := |changes| - 1;
      SyncedExactly(changes[..n]);
      forall i | 0 <= i < n
        ensures changes[..n][i] == changes[i]
      {
      }
    }
  }

  /** Dropping a cluster record lets the file answer for its address, and changes no other answer. */
  lemma {:induction false} RemovalFallsBackToFile(l: Layers, m: Mac, other: Mac)
    ensures var after := Apply(l, KubeRemoved(m));
            && Resolve(after, m) == (if m in l.file then Some(l.file[m]) else None)
            && (other != m ==> Resolve(after, other) == Resolve(l, other))
            && after.file == l.file && after.synced == l.synced
  {
  }

  /** The records at some keys of a map, each once, in any order. */
  ghost predicate Holds(records: Records, keys: set<Mac>, out: seq<HostRecord>) {
    && (forall r :: r in out <==> r.mac in keys && r.mac in records && records[r.mac] == r)
    && (forall i, j :: 0 <= i < j < |out| ==> out[i].mac != out[j].mac)
    && |out| == |keys|
  }

  lemma {:induction false} DistinctAcross(a: seq<HostRecord>, b: seq<HostRecord>, i: nat, j: nat)
    requires forall i, j :: 0 <= i < j < |a| ==> a[i].mac != a[j].mac
    requires forall i, j :: 0 <= i < j < |b| ==> b[i].mac != b[j].mac
    requires forall x, y :: x in a && y in b ==> x.mac != y.mac
    requires i < j < |a + b|
    ensures ByAddress((a + b)[i], (a + b)[j]) || ByAddress((a + b)[j], (a + b)[i])
  {
    LessIsTotal((a + b)[i].mac, (a + b)[j].mac);
    if i < |a| <= j {
      assert a[i] in a && b[j - |a|] in b;
    }
  }

  lemma {:induction false} HeldByEither(l: Layers, a: seq<HostRecord>, b: seq<HostRecord>, r: HostRecord)
    requires Keyed(l.kube) && Keyed(l.file)
    requires Holds(l.kube, l.kube.Keys, a) && Holds(l.file, l.file.Keys - l.kube.Keys, b)
    ensures r in a + b <==> Resolve(l, r.mac) == Some(r)
  {
    assert r in a + b <==> r in a || r in b;
  }

  lemma {:induction false} HeldCount(l: Layers)
    ensures |l.kube.Keys + l.file.Keys| == |l.kube.Keys| + |l.file.Keys - l.kube.Keys|
  {
    assert l.kube.Keys + l.file.Keys == l.kube.Keys + (l.file.Keys - l.kube.Keys);
  }

  lemma {:induction false} SortingLists(l: Layers, a: seq<HostRecord>, b: seq<HostRecord>)
    requires Keyed(l.kube) && Keyed(l.file)
    requires Holds(l.kube, l.kube.Keys, a) && Holds(l.file, l.file.Keys - l.kube.Keys, b)
    ensures IsListing(l, SortBy(a + b, ByAddress))
  {
    var both := a + b;
    forall i, j | 0 <= i < j < |both|
      ensures ByAddress(both[i], both[j]) || ByAddress(both[j], both[i])
    {
      DistinctAcross(a, b, i, j);
    }
    forall r
      ensures r in both <==> Resolve(l, r.mac) == Some(r)
    {
      HeldByEither(l, a, b, r);
    }
    HeldCount(l);
    SortingKeeps(l, both);
  }

  lemma {:induction false} SortingKeeps(l: Layers, all: seq<HostRecord>)
    requires forall i, j :: 0 <= i < j < |all| ==> ByAddress(all[i], all[j]) || ByAddress(all[j], all[i])
    requires forall r :: r in all <==> Resolve(l, r.mac) == Some(r)
    requires |all| == |l.kube.Keys + l.file.Keys|
    ensures IsListing(l, SortBy(all, ByAddress))
  {
    ByAddressIsStrict();
    SortByAscends(all, ByAddress);
  }

  datatype HostCounts = HostCounts(file: nat, kube: nat, total: nat, synced: bool)

  class HostStore {
    const hasPath: bool
    var file: Records
    var mtime: Option<int>
    var kube: Records
    var synced: bool

    constructor (hasPath: bool)
      ensures View() == EMPTY && mtime == None && this.hasPath == hasPath
    {
      this.hasPath := hasPath;
      file, mtime, kube, synced := map[], None, map[], false;
    }

    function View(): Layers
      reads this
    {
      Layers(file, kube, synced)
    }

    /** Re-read the backing file if its time changed. A missing file keeps what was loaded; so does an error. */
    method Reload(seen: Option<int>, read: FileRead) returns (r: Result<nat, FileRead>)
      modifies this`file, this`mtime
      ensures var reread := hasPath && (seen.None? || seen != old(mtime));
              && View() == (if reread && read.Listed?
                            then Apply(old(View()), FileLoaded(read.records)) else old(View()))
              && mtime == (if reread && read.Listed? then seen else old(mtime))
              && (r.Err? <==> reread && (read.Unreadable? || read.Malformed?))
              && (r.Ok? ==>
                    r.value == if hasPath && !reread then |old(file)|
                               else if reread && read.Listed? then |read.records| else 0)
    {
      if !hasPath {
        return Ok(0);
      }
      if seen.Some? && mtime == seen {
        return Ok(|file|);
      }
      match read {
        case NotFound => return Ok(0);
        case Unreadable => return Err(read);
        case Malformed => return Err(read);
        case Listed(records) =>
          file := Collect(records);
          mtime := seen;
          return Ok(|records|);
      }
    }

    method SetKubeRecords(records: seq<HostRecord>)
      modifies this`kube, this`synced
      ensures View() == Apply(old(View()), KubeSet(records))
    {
      kube := Collect(records);
      synced := true;
    }

    method ApplyKubeRecord(record: HostRecord)
      modifies this`kube
      ensures View() == Apply(old(View()), KubeApplied(record))
    {
      kube := kube[record.mac := record];
    }

    method RemoveKubeRecord(m: Mac)
      modifies this`kube
      ensures View() == Apply(old(View()), KubeRemoved(m))
    {
      kube := kube - {m};
    }

    method Lookup(m: Mac) returns (r: Option<HostRecord>)
      ensures r == Resolve(View(), m)
    {
      if m in kube {
        return Some(kube[m]);
      }
      return if m in file then Some(file[m]) else None;
    }

    /** The cluster's records, then the file's that it does not shadow, in hash order; then sorted. */
    method ListRecords() returns (out: seq<HostRecord>)
      requires Keyed(kube) && Keyed(file)
      ensures IsListing(View(), out)
    {
      out := Values(kube, kube.Keys);
      var extra := Values(file, file.Keys - kube.Keys);
      SortingLists(View(), out, extra);
      out := SortBy(out + extra, ByAddress);
    }

    method Counts() returns (c: HostCounts)
      ensures c == HostCounts(|file|, |kube|, |kube.Keys + file.Keys|, synced)
    {
      var extra := |file.Keys - kube.Keys|;
      assert kube.Keys + file.Keys == kube.Keys + (file.Keys - kube.Keys);
      c := HostCounts(|file|, |kube|, |kube| + extra, synced);
    }
  }

  method Collect(list: seq<HostRecord>) returns (records: Records)
    ensures records == ByMac(list)
  {
    records := map[];
    for i := 0 to |list|
      invariant records == ByMac(list[..i])
    {
      assert list[..i + 1][..i] == list[..i];
      records := records[list[i].mac := list[i]];
    }
    assert list[..|list|] == list;
  }

  /** The records at some keys of a map, in whatever order the map is walked. */
  method Values(records: Records, keys: set<Mac>) returns (out: seq<HostRecord>)
    requires Keyed(records) && keys <= records.Keys
    ensures Holds(records, keys, out)
  {
    out := [];
    var left := keys;
    while left != {}
      invariant left <= keys
      invariant forall r :: r in out <==> r.mac in keys && r.mac !in left && records[r.mac] == r
      invariant forall i, j :: 0 <= i < j < |out| ==> out[i].mac != out[j].mac
      invariant |out| + |left| == |keys|
      decreases left
    {
      var m :| m in left;
      out := out + [records[m]];
      left := left - {m};
    }
  }
}
