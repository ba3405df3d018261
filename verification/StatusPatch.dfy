/**
 * Writing a status as a merge patch. Optional fields are omitted when empty, and a
 * merge patch does not delete what it does not name, so a field once written stays.
 */
module StatusPatches {
  import opened Prelude
  import opened BootHosts
  import opened MergePatches

  type Members = map<string, Json>

  function Put(name: string, value: Option<Json>): Members {
    if value.Some? then map[name := value.value] else map[]
  }

  function Five(n1: string, v1: Option<Json>, n2: string, v2: Option<Json>, n3: string, v3: Option<Json>,
                n4: string, v4: Option<Json>, n5: string, v5: Option<Json>): Members {
    Put(n1, v1) + Put(n2, v2) + Put(n3, v3) + Put(n4, v4) + Put(n5, v5)
  }

  function Text(s: Option<string>): Option<Json> {
    if s.Some? then Some(Str(s.value)) else None
  }

  function Items(s: seq<Json>): Option<Json> {
    if s == [] then None else Some(Arr(s))
  }

  function Strings(s: seq<string>): seq<Json> {
    seq(|s|, i requires 0 <= i < |s| => Str(s[i]))
  }

  function EncodeHardware(h: HardwareStatus): Json {
    Obj(Five("cpus", Some(Num(h.cpus)), "memoryKB", Some(Num(h.memoryKb)), "product", Text(h.product),
             "serial", Text(h.serial), "disks", Items(Strings(h.disks))))
  }

  function EncodeCondition(c: Condition): Json {
    Obj(map["type" := Str(c.kind), "status" := Str(c.status), "reason" := Str(c.reason), "message" := Str(c.message),
            "lastTransitionTime" := Str(c.lastTransitionTime), "observedGeneration" := Num(c.observedGeneration)])
  }

  function EncodeConditions(cs: seq<Condition>): seq<Json> {
    seq(|cs|, i requires 0 <= i < |cs| => EncodeCondition(cs[i]))
  }

  function HardwareMember(h: Option<HardwareStatus>): Option<Json> {
    if h.Some? then Some(EncodeHardware(h.value)) else None
  }

  /** The status as serde writes it: an empty field does not appear. */
  function Encode(s: Status): Json {
    Obj(Five("phase", Text(s.phase), "palletVersion", Text(s.palletVersion), "claimId", Text(s.claimId),
             "hardware", HardwareMember(s.hardware), "conditions", Items(EncodeConditions(s.conditions))))
  }

  // ---- what the patch leaves behind ----------------------------------------------

  function Or<T>(a: Option<T>, b: Option<T>): Option<T> {
    if a.Some? then a else b
  }

  function MergedHardware(stored: HardwareStatus, desired: HardwareStatus): HardwareStatus {
    HardwareStatus(desired.cpus, desired.memoryKb, Or(desired.product, stored.product),
                   Or(desired.serial, stored.serial), if desired.disks == [] then stored.disks else desired.disks)
  }

  /** The status the apiserver holds afterwards. */
  function Merged(stored: Status, desired: Status): Status {
    Status(Or(desired.phase, stored.phase), Or(desired.palletVersion, stored.palletVersion),
           Or(desired.claimId, stored.claimId),
           if desired.hardware.Some? && stored.hardware.Some?
           then Some(MergedHardware(stored.hardware.value, desired.hardware.value))
           else Or(desired.hardware, stored.hardware),
           if desired.conditions == [] then stored.conditions else desired.conditions)
  }

  /** No optional field present in the stored status, including inside hardware, is absent from the desired one. */
  predicate NothingToDelete(stored: Status, desired: Status) {
    && (stored.phase.Some? ==> desired.phase.Some?)
    && (stored.palletVersion.Some? ==> desired.palletVersion.Some?)
    && (stored.claimId.Some? ==> desired.claimId.Some?)
    && (stored.hardware.Some? ==>
        && desired.hardware.Some?
        && (stored.hardware.value.product.Some? ==> desired.hardware.value.product.Some?)
        && (stored.hardware.value.serial.Some? ==> desired.hardware.value.serial.Some?)
        && (stored.hardware.value.disks != [] ==> desired.hardware.value.disks != []))
    && (stored.conditions != [] ==> desired.conditions != [])
  }

  function Lookup(m: Members, name: string): Option<Json> {
    if name in m then Some(m[name]) else None
  }

  lemma {:induction false} PutOne(m: Members, name: string, value: Option<Json>, n: string)
    ensures Lookup(m + Put(name, value), n) == if n == name && value.Some? then value else Lookup(m, n)
    ensures (m + Put(name, value)).Keys <= m.Keys + {name}
  {
  }

  lemma {:induction false} FiveLookup(
    n1: string, v1: Option<Json>, n2: string, v2: Option<Json>, n3: string, v3: Option<Json>, n4: string,
    v4: Option<Json>, n5: string, v5: Option<Json>, n: string)
    ensures Lookup(Five(n1, v1, n2, v2, n3, v3, n4, v4, n5, v5), n) ==
            if n == n5 && v5.Some? then v5 else if n == n4 && v4.Some? then v4 else if n == n3 && v3.Some? then v3
            else if n == n2 && v2.Some? then v2 else if n == n1 then v1 else None
    ensures Five(n1, v1, n2, v2, n3, v3, n4, v4, n5, v5).Keys <= {n1, n2, n3, n4, n5}
  {
    var m1 := Put(n1, v1);
    var m2 := m1 + Put(n2, v2);
    var m3 := m2 + Put(n3, v3);
    var m4 := m3 + Put(n4, v4);
    PutOne(m1, n2, v2, n);
    PutOne(m2, n3, v3, n);
    PutOne(m3, n4, v4, n);
    PutOne(m4, n5, v5, n);
  }

  lemma {:induction false} FiveMembers(
    n1: string, v1: Option<Json>, n2: string, v2: Option<Json>, n3: string, v3: Option<Json>, n4: string,
    v4: Option<Json>, n5: string, v5: Option<Json>)
    requires |{n1, n2, n3, n4, n5}| == 5
    ensures Exactly(Five(n1, v1, n2, v2, n3, v3, n4, v4, n5, v5), n1, v1, n2, v2, n3, v3, n4, v4, n5, v5)
  {
    AllDistinct(n1, n2, n3, n4, n5);
    FiveLookup(n1, v1, n2, v2, n3, v3, n4, v4, n5, v5, n1);
    FiveLookup(n1, v1, n2, v2, n3, v3, n4, v4, n5, v5, n2);
    FiveLookup(n1, v1, n2, v2, n3, v3, n4, v4, n5, v5, n3);
    FiveLookup(n1, v1, n2, v2, n3, v3, n4, v4, n5, v5, n4);
    FiveLookup(n1, v1, n2, v2, n3, v3, n4, v4, n5, v5, n5);
  }

  lemma {:induction false} AllDistinct(a: string, b: string, c: string, d: string, e: string)
    requires |{a, b, c, d, e}| == 5
    ensures a != b && a != c && a != d && a != e && b != c && b != d && b != e && c != d && c != e && d != e
  {
  }

  lemma {:induction false} Names()
    ensures |{"cpus", "memoryKB", "product", "serial", "disks"}| == 5
    ensures |{"phase", "palletVersion", "claimId", "hardware", "conditions"}| == 5
  {
  }

  lemma {:induction false} HardwareMembers(h: HardwareStatus)
    ensures var m := EncodeHardware(h).members;
            && Lookup(m, "cpus") == Some(Num(h.cpus)) && Lookup(m, "memoryKB") == Some(Num(h.memoryKb))
            && Lookup(m, "product") == Text(h.product) && Lookup(m, "serial") == Text(h.serial)
            && Lookup(m, "disks") == Items(Strings(h.disks))
            && m.Keys <= {"cpus", "memoryKB", "product", "serial", "disks"}
  {
    Names();
    FiveMembers("cpus", Some(Num(h.cpus)), "memoryKB", Some(Num(h.memoryKb)), "product", Text(h.product),
                "serial", Text(h.serial), "disks", Items(Strings(h.disks)));
  }

  lemma {:induction false} StatusMembers(s: Status)
    ensures var m := Encode(s).members;
            && Lookup(m, "phase") == Text(s.phase) && Lookup(m, "palletVersion") == Text(s.palletVersion)
            && Lookup(m, "claimId") == Text(s.claimId) && Lookup(m, "hardware") == HardwareMember(s.hardware)
            && Lookup(m, "conditions") == Items(EncodeConditions(s.conditions))
            && m.Keys <= {"phase", "palletVersion", "claimId", "hardware", "conditions"}
  {
    Names();
    FiveMembers("phase", Text(s.phase), "palletVersion", Text(s.palletVersion), "claimId", Text(s.claimId),
                "hardware", HardwareMember(s.hardware), "conditions", Items(EncodeConditions(s.conditions)));
  }

  /** One member of a patched object. */
  lemma {:induction false} PatchedMember(t: Members, p: Members, name: string)
    requires Lookup(p, name) != Some(Null)
    ensures var m := MergePatch(Obj(t), Obj(p)).members;
            Lookup(m, name) == if name in p then Some(MergePatch(Member(Obj(t), name), p[name])) else Lookup(t, name)
  {
  }

  lemma {:induction false} SameMembers(a: Members, b: Members, names: set<string>)
    requires a.Keys <= names && b.Keys <= names
    requires forall n :: n in names ==> Lookup(a, n) == Lookup(b, n)
    ensures a == b
  {
    assert a.Keys == b.Keys by {
      forall n | n in names
        ensures n in a <==> n in b
      {
        assert Lookup(a, n) == Lookup(b, n);
      }
    }
    forall n | n in a
      ensures a[n] == b[n]
    {
      assert Lookup(a, n) == Lookup(b, n);
    }
  }

  /** One optional member after the patch. */
  function After(stored: Option<Json>, desired: Option<Json>): Option<Json> {
    if desired.None? then stored
    else Some(MergePatch(if stored.Some? then stored.value else Null, desired.value))
  }

  /** These are all the members, with these values. */
  predicate Exactly(
    m: Members, n1: string, v1: Option<Json>, n2: string, v2: Option<Json>, n3: string, v3: Option<Json>, n4: string,
    v4: Option<Json>, n5: string, v5: Option<Json>) {
    && Lookup(m, n1) == v1 && Lookup(m, n2) == v2 && Lookup(m, n3) == v3 && Lookup(m, n4) == v4 && Lookup(m, n5) == v5
    && m.Keys <= {n1, n2, n3, n4, n5}
  }

  lemma {:induction false} ExactlyIsUnique(
    a: Members, b: Members, n1: string, v1: Option<Json>, n2: string, v2: Option<Json>, n3: string, v3: Option<Json>,
    n4: string, v4: Option<Json>, n5: string, v5: Option<Json>)
    requires Exactly(a, n1, v1, n2, v2, n3, v3, n4, v4, n5, v5) && Exactly(b, n1, v1, n2, v2, n3, v3, n4, v4, n5, v5)
    ensures a == b
  {
    SameMembers(a, b, {n1, n2, n3, n4, n5});
  }

  lemma {:induction false} MergeExactly(
    t: Members, p: Members, n1: string, s1: Option<Json>, d1: Option<Json>, n2: string, s2: Option<Json>,
    d2: Option<Json>, n3: string, s3: Option<Json>, d3: Option<Json>, n4: string, s4: Option<Json>, d4: Option<Json>,
    n5: string, s5: Option<Json>, d5: Option<Json>)
    requires Exactly(t, n1, s1, n2, s2, n3, s3, n4, s4, n5, s5) && Exactly(p, n1, d1, n2, d2, n3, d3, n4, d4, n5, d5)
    requires d1 != Some(Null) && d2 != Some(Null) && d3 != Some(Null) && d4 != Some(Null) && d5 != Some(Null)
    ensures Exactly(MergePatch(Obj(t), Obj(p)).members, n1, After(s1, d1), n2, After(s2, d2), n3, After(s3, d3),
                    n4, After(s4, d4), n5, After(s5, d5))
  {
    PatchedLookup(t, p, n1, s1, d1);
    PatchedLookup(t, p, n2, s2, d2);
    PatchedLookup(t, p, n3, s3, d3);
    PatchedLookup(t, p, n4, s4, d4);
    PatchedLookup(t, p, n5, s5, d5);
    PatchedKeys(t, p, {n1, n2, n3, n4, n5});
  }

  lemma {:induction false} MergeFive(
    n1: string, s1: Option<Json>, d1: Option<Json>, n2: string, s2: Option<Json>, d2: Option<Json>, n3: string,
    s3: Option<Json>, d3: Option<Json>, n4: string, s4: Option<Json>, d4: Option<Json>, n5: string, s5: Option<Json>,
    d5: Option<Json>)
    requires |{n1, n2, n3, n4, n5}| == 5
    requires d1 != Some(Null) && d2 != Some(Null) && d3 != Some(Null) && d4 != Some(Null) && d5 != Some(Null)
    ensures MergePatch(Obj(Five(n1, s1, n2, s2, n3, s3, n4, s4, n5, s5)),
                       Obj(Five(n1, d1, n2, d2, n3, d3, n4, d4, n5, d5))) ==
            Obj(Five(n1, After(s1, d1), n2, After(s2, d2), n3, After(s3, d3), n4, After(s4, d4), n5, After(s5, d5)))
  {
    var t := Five(n1, s1, n2, s2, n3, s3, n4, s4, n5, s5);
    var p := Five(n1, d1, n2, d2, n3, d3, n4, d4, n5, d5);
    var r := Five(n1, After(s1, d1), n2, After(s2, d2), n3, After(s3, d3), n4, After(s4, d4), n5, After(s5, d5));
    FiveMembers(n1, s1, n2, s2, n3, s3, n4, s4, n5, s5);
    FiveMembers(n1, d1, n2, d2, n3, d3, n4, d4, n5, d5);
    FiveMembers(n1, After(s1, d1), n2, After(s2, d2), n3, After(s3, d3), n4, After(s4, d4), n5, After(s5, d5));
    MergeExactly(t, p, n1, s1, d1, n2, s2, d2, n3, s3, d3, n4, s4, d4, n5, s5, d5);
    ExactlyIsUnique(MergePatch(Obj(t), Obj(p)).members, r, n1, After(s1, d1), n2, After(s2, d2), n3, After(s3, d3),
                    n4, After(s4, d4), n5, After(s5, d5));
  }

  lemma {:induction false} PatchedLookup(
    t: Members, p: Members, name: string, stored: Option<Json>, desired: Option<Json>)
    requires Lookup(t, name) == stored && Lookup(p, name) == desired != Some(Null)
    ensures Lookup(MergePatch(Obj(t), Obj(p)).members, name) == After(stored, desired)
  {
    PatchedMember(t, p, name);
  }

  lemma {:induction false} PatchedKeys(t: Members, p: Members, names: set<string>)
    requires t.Keys <= names && p.Keys <= names
    ensures MergePatch(Obj(t), Obj(p)).members.Keys <= names
  {
  }

  lemma {:induction false} MergeHardware(stored: HardwareStatus, desired: HardwareStatus)
    ensures MergePatch(EncodeHardware(stored), EncodeHardware(desired)) ==
            EncodeHardware(MergedHardware(stored, desired))
  {
    Names();
    MergeFive("cpus", Some(Num(stored.cpus)), Some(Num(desired.cpus)),
              "memoryKB", Some(Num(stored.memoryKb)), Some(Num(desired.memoryKb)),
              "product", Text(stored.product), Text(desired.product),
              "serial", Text(stored.serial), Text(desired.serial),
              "disks", Items(Strings(stored.disks)), Items(Strings(desired.disks)));
    var merged := MergedHardware(stored, desired);
    assert After(Text(stored.product), Text(desired.product)) == Text(merged.product);
    assert After(Text(stored.serial), Text(desired.serial)) == Text(merged.serial);
    assert After(Items(Strings(stored.disks)), Items(Strings(desired.disks))) == Items(Strings(merged.disks));
  }

  /** Patching an object that has no such member yet writes the member as it is. */
  lemma {:induction false} PatchOntoNothing(p: Members)
    requires forall n :: n in p ==> p[n].Str? || p[n].Num? || p[n].Arr?
    ensures MergePatch(Null, Obj(p)) == Obj(p)
  {
    assert MergePatch(Null, Obj(p)).members.Keys == p.Keys;
  }

  lemma {:induction false} HardwareHasScalars(h: HardwareStatus, n: string)
    requires n in EncodeHardware(h).members
    ensures var v := EncodeHardware(h).members[n]; v.Str? || v.Num? || v.Arr?
  {
    HardwareMembers(h);
    assert Lookup(EncodeHardware(h).members, n) == Some(EncodeHardware(h).members[n]);
  }

  lemma {:induction false} HardwareOntoNothing(h: HardwareStatus)
    ensures MergePatch(Null, EncodeHardware(h)) == EncodeHardware(h)
  {
    forall n | n in EncodeHardware(h).members
      ensures var v := EncodeHardware(h).members[n]; v.Str? || v.Num? || v.Arr?
    {
      HardwareHasScalars(h, n);
    }
    PatchOntoNothing(EncodeHardware(h).members);
  }

  lemma {:induction false} AfterHardware(stored: Option<HardwareStatus>, desired: Option<HardwareStatus>)
    ensures After(HardwareMember(stored), HardwareMember(desired)) ==
            HardwareMember(if desired.Some? && stored.Some? then Some(MergedHardware(stored.value, desired.value))
                           else Or(desired, stored))
  {
    if desired.Some? {
      HardwareOntoNothing(desired.value);
      if stored.Some? {
        MergeHardware(stored.value, desired.value);
      }
    }
  }

  /** What the apiserver stores after the patch, as a status. */
  lemma {:induction false} PatchMerges(stored: Status, desired: Status)
    ensures MergePatch(Encode(stored), Encode(desired)) == Encode(Merged(stored, desired))
  {
    Names();
    MergeFive("phase", Text(stored.phase), Text(desired.phase),
              "palletVersion", Text(stored.palletVersion), Text(desired.palletVersion),
              "claimId", Text(stored.claimId), Text(desired.claimId),
              "hardware", HardwareMember(stored.hardware), HardwareMember(desired.hardware),
              "conditions", Items(EncodeConditions(stored.conditions)), Items(EncodeConditions(desired.conditions)));
    var merged := Merged(stored, desired);
    AfterHardware(stored.hardware, desired.hardware);
    assert After(Text(stored.phase), Text(desired.phase)) == Text(merged.phase);
    assert After(Text(stored.palletVersion), Text(desired.palletVersion)) == Text(merged.palletVersion);
    assert After(Text(stored.claimId), Text(desired.claimId)) == Text(merged.claimId);
    assert After(Items(EncodeConditions(stored.conditions)), Items(EncodeConditions(desired.conditions))) ==
           Items(EncodeConditions(merged.conditions));
  }

  // ---- reading a stored status back -------------------------------------------------

  function TextAt(j: Json, name: string): Option<string> {
    if Member(j, name).Str? then Some(Member(j, name).s) else None
  }

  function NumAt(j: Json, name: string): int {
    if Member(j, name).Num? then Member(j, name).n else 0
  }

  function ItemsAt(j: Json, name: string): seq<Json> {
    if Member(j, name).Arr? then Member(j, name).items else []
  }

  function OrEmpty(s: Option<string>): string {
    if s.Some? then s.value else ""
  }

  function DecodeCondition(j: Json): Condition {
    Condition(OrEmpty(TextAt(j, "type")), OrEmpty(TextAt(j, "status")), OrEmpty(TextAt(j, "reason")),
              OrEmpty(TextAt(j, "message")), OrEmpty(TextAt(j, "lastTransitionTime")), NumAt(j, "observedGeneration"))
  }

  function DecodeStrings(items: seq<Json>): seq<string> {
    seq(|items|, i requires 0 <= i < |items| => if items[i].Str? then items[i].s else "")
  }

  function DecodeHardware(j: Json): HardwareStatus {
    var cpus, memory := NumAt(j, "cpus"), NumAt(j, "memoryKB");
    HardwareStatus(if cpus < 0 then 0 else cpus, if memory < 0 then 0 else memory,
                   TextAt(j, "product"), TextAt(j, "serial"), DecodeStrings(ItemsAt(j, "disks")))
  }

  function Decode(j: Json): Status {
    Status(TextAt(j, "phase"), TextAt(j, "palletVersion"), TextAt(j, "claimId"),
           if Member(j, "hardware").Obj? then Some(DecodeHardware(Member(j, "hardware"))) else None,
           seq(|ItemsAt(j, "conditions")|, i requires 0 <= i < |ItemsAt(j, "conditions")| =>
             DecodeCondition(ItemsAt(j, "conditions")[i])))
  }

  lemma {:induction false} DecodeOfEncodeCondition(c: Condition)
    ensures DecodeCondition(EncodeCondition(c)) == c
  {
    assert |{"type", "status", "reason", "message", "lastTransitionTime", "observedGeneration"}| == 6;
  }

  lemma {:induction false} DecodeOfEncodeHardware(h: HardwareStatus)
    ensures DecodeHardware(EncodeHardware(h)) == h
  {
    HardwareMembers(h);
    var j := EncodeHardware(h);
    assert Member(j, "cpus") == Num(h.cpus) && Member(j, "memoryKB") == Num(h.memoryKb);
    assert TextAt(j, "product") == h.product && TextAt(j, "serial") == h.serial;
    assert DecodeStrings(Strings(h.disks)) == h.disks;
    assert ItemsAt(j, "disks") == Strings(h.disks);
  }

  /** A status survives being written and read. */
  lemma {:induction false} DecodeOfEncode(s: Status)
    ensures Decode(Encode(s)) == s
  {
    StatusMembers(s);
    var j := Encode(s);
    if s.hardware.Some? {
      DecodeOfEncodeHardware(s.hardware.value);
    }
    assert ItemsAt(j, "conditions") == EncodeConditions(s.conditions);
    forall i | 0 <= i < |s.conditions|
      ensures Decode(j).conditions[i] == s.conditions[i]
    {
      DecodeOfEncodeCondition(s.conditions[i]);
    }
    assert Decode(j).conditions == s.conditions;
  }

  lemma {:induction false} MergedIsDesiredExactly(stored: Status, desired: Status)
    ensures Merged(stored, desired) == desired <==> NothingToDelete(stored, desired)
  {
  }

  // ---- the whole object ---------------------------------------------------------------

  function StatusPatch(desired: Status): Json {
    Obj(map["status" := Encode(desired)])
  }

  /** What the next watch event reads from the object after the write. */
  function Echo(resource: Json, desired: Status): Status {
    Decode(Member(MergePatch(resource, StatusPatch(desired)), "status"))
  }

  function ObjectWith(rest: Members, stored: Option<Status>): Json {
    Obj(if stored.Some? then rest["status" := Encode(stored.value)] else rest - {"status"})
  }

  lemma {:induction false} EncodedOntoNothing(s: Status)
    ensures MergePatch(Null, Encode(s)) == Encode(s)
  {
    var nothing := Status(None, None, None, None, []);
    assert Encode(nothing) == Obj(map[]);
    assert MergePatch(Null, Encode(s)) == MergePatch(Obj(map[]), Encode(s));
    PatchMerges(nothing, s);
    assert Merged(nothing, s) == s;
  }

  /**
   * The echo of a status write reads as the status written exactly when nothing had
   * to be deleted; everything else in the object is left alone.
   */
  lemma {:induction false} EchoIsDesiredExactly(rest: Members, stored: Option<Status>, desired: Status, other: string)
    ensures Echo(ObjectWith(rest, stored), desired) == desired <==>
            (stored.Some? ==> NothingToDelete(stored.value, desired))
    ensures other != "status" ==>
              Member(MergePatch(ObjectWith(rest, stored), StatusPatch(desired)), other) == Member(Obj(rest), other)
  {
    var resource := ObjectWith(rest, stored);
    PatchTouchesOnlyItsMembers(resource, StatusPatch(desired), "status");
    PatchTouchesOnlyItsMembers(resource, StatusPatch(desired), other);
    match stored {
      case None =>
        EncodedOntoNothing(desired);
        DecodeOfEncode(desired);
      case Some(s) =>
        EchoIsMerged(rest, s, desired);
        MergedIsDesiredExactly(s, desired);
    }
  }

  /** The status an object carries after a write: the stored one merged with the desired one. */
  function Afterwards(stored: Option<Status>, desired: Status): Status {
    if stored.Some? then Merged(stored.value, desired) else desired
  }

  predicate Deletes(stored: Option<Status>, desired: Status) {
    stored.Some? && !NothingToDelete(stored.value, desired)
  }

  lemma {:induction false} EchoReadsAfterwards(rest: Members, stored: Option<Status>, desired: Status)
    ensures Echo(ObjectWith(rest, stored), desired) == Afterwards(stored, desired)
  {
    if stored.Some? {
      EchoIsMerged(rest, stored.value, desired);
    } else {
      EchoIsDesiredExactly(rest, stored, desired, "");
    }
  }

  /** A later pass over the same observation desires the same status of what the write left. */
  lemma {:induction false} DesiredOfAfterwards(o: Observation, stored: Option<Status>, now: string, later: string)
    ensures var desired := DesiredStatus(o, stored, now);
            DesiredStatus(o, Some(Afterwards(stored, desired)), later) == desired
  {
    var desired := DesiredStatus(o, stored, now);
    DesiredIsAFixpoint(o, stored, now, later);
    SettledByConditions(o, Afterwards(stored, desired), desired, later);
  }

  /** Of the status before, only its conditions matter to the desired one. */
  lemma {:induction false} SettledByConditions(o: Observation, a: Status, b: Status, now: string)
    requires a.conditions == b.conditions
    ensures DesiredStatus(o, Some(a), now) == DesiredStatus(o, Some(b), now)
  {
  }

  /** For every observation, a later pass finds the echo up to date if and only if nothing had to be deleted. */
  lemma {:induction false} EchoIsUpToDateExactly(
    rest: Members, stored: Option<Status>, o: Observation, now: string, later: string)
    ensures var desired := DesiredStatus(o, stored, now);
            var echo := Echo(ObjectWith(rest, stored), desired);
            DesiredStatus(o, Some(echo), later) == echo <==> !Deletes(stored, desired)
  {
    var desired := DesiredStatus(o, stored, now);
    EchoReadsAfterwards(rest, stored, desired);
    DesiredOfAfterwards(o, stored, now, later);
    if stored.Some? {
      MergedIsDesiredExactly(stored.value, desired);
    }
  }

  /** In particular it is when nothing had to be deleted. */
  lemma {:induction false} EchoIsNotStale(
    rest: Members, stored: Option<Status>, o: Observation, now: string, later: string)
    requires stored.Some? ==> NothingToDelete(stored.value, DesiredStatus(o, stored, now))
    ensures var echo := Echo(ObjectWith(rest, stored), DesiredStatus(o, stored, now));
            DesiredStatus(o, Some(echo), later) == echo
  {
    EchoIsUpToDateExactly(rest, stored, o, now, later);
  }

  /**
   * A host that is no longer tracked has a phase in its stored status and none in the
   * desired one, whatever its claim, so the phase stays and the echo is stale.
   */
  lemma {:induction false} ForgottenHostStaysStale(
    rest: Members, stored: Status, online: bool, claimId: Option<string>, generation: int, now: string, later: string)
    requires stored.phase.Some?
    ensures var o := Observation(None, online, claimId, generation);
            var echo := Echo(ObjectWith(rest, Some(stored)), DesiredStatus(o, Some(stored), now));
            echo.phase == stored.phase && DesiredStatus(o, Some(echo), later) != echo
  {
    var o := Observation(None, online, claimId, generation);
    EchoReadsAfterwards(rest, Some(stored), DesiredStatus(o, Some(stored), now));
    EchoIsUpToDateExactly(rest, Some(stored), o, now, later);
  }

  lemma {:induction false} PatchedStatus(rest: Members, stored: Status, desired: Status)
    ensures Member(MergePatch(ObjectWith(rest, Some(stored)), StatusPatch(desired)), "status") ==
            MergePatch(Encode(stored), Encode(desired))
  {
    PatchTouchesOnlyItsMembers(ObjectWith(rest, Some(stored)), StatusPatch(desired), "status");
  }

  lemma {:induction false} EchoIsMerged(rest: Members, stored: Status, desired: Status)
    ensures Echo(ObjectWith(rest, Some(stored)), desired) == Merged(stored, desired)
  {
    PatchedStatus(rest, stored, desired);
    PatchMerges(stored, desired);
    DecodeOfEncode(Merged(stored, desired));
  }
}
