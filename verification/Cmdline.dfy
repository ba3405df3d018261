/** The kernel command line as the initramfs reads it. */
module Cmdline {
  import opened Prelude
  import opened Text

  datatype BootParams = BootParams(
    portal: Option<string>, port: Option<nat>, nqn: Option<string>, nsid: Option<nat>, volume: Option<string>,
    localDisk: Option<string>, hostname: Option<string>, role: Option<string>, reportUrl: Option<string>,
    mac: Option<string>, slabs: seq<string>, dataSlab: Option<string>, boothost: Option<string>,
    tag: Option<string>, namespace: Option<string>, hostnqn: Option<string>, meta: Option<string>,
    imageStore: Option<string>, overlay: Option<string>, writable: seq<(string, Option<string>)>,
    mounts: seq<(string, string)>, mediaDev: Option<string>)

  const NOTHING := BootParams(None, None, None, None, None, None, None, None, None, None, [], None, None,
                              None, None, None, None, None, None, [], [], None)

  const MAX_U16: nat := 0xFFFF
  const MAX_U32: nat := 0xFFFF_FFFF

  /** The parameters the init knows. */
  datatype Key =
    | Portal | Port | Nqn | Nsid | Volume | LocalDisk | Slab | DataSlab | Boothost | Tag | Namespace | Hostnqn
    | Meta | ImageStore | Overlay | Writable | Mount | Media | Hostname | Role | Report | MacAddress | Unknown

  function KeyOf(name: string): Key {
    if name == "rd.stormblock.portal" then Portal
    else if name == "rd.stormblock.port" then Port
    else if name == "rd.stormblock.nqn" then Nqn
    else if name == "rd.stormblock.nsid" then Nsid
    else if name == "stormblock.volume" then Volume
    else if name == "rd.stormblock.local-disk" then LocalDisk
    else if name == "rd.stormblock.slab" then Slab
    else if name == "rd.stormblock.data-slab" then DataSlab
    else if name == "rd.stormblock.boothost" then Boothost
    else if name == "rd.stormblock.tag" then Tag
    else if name == "rd.stormblock.namespace" then Namespace
    else if name == "rd.stormblock.hostnqn" then Hostnqn
    else if name == "rd.stormblock.meta" then Meta
    else if name == "rd.stormblock.image-store" then ImageStore
    else if name == "rd.stormblock.overlay" then Overlay
    else if name == "rd.stormblock.writable" then Writable
    else if name == "rd.stormblock.mount" then Mount
    else if name == "rd.stormnetboot.media" then Media
    else if name == "storm.hostname" then Hostname
    else if name == "storm.role" then Role
    else if name == "storm.report" then Report
    else if name == "storm.mac" || name == "BOOTIF" then MacAddress
    else Unknown
  }

  /** The non-empty entries between commas. */
  function Entries(value: string): seq<string>
    decreases |value|
  {
    var i := IndexOf(value, ',');
    var first := if i == 0 then [] else [value[..i]];
    if i == |value| then first else first + Entries(value[i + 1..])
  }

  function NamedMount(entry: string): (string, Option<string>) {
    match SplitOnce(entry, ':')
    case None => (entry, None)
    case Some((name, mount)) => (name, if name != "" && mount != "" then Some(mount) else None)
  }

  function NamedMounts(entries: seq<string>): seq<(string, Option<string>)> {
    seq(|entries|, i requires 0 <= i < |entries| => NamedMount(entries[i]))
  }

  function WithMount(pairs: seq<(string, Option<string>)>): seq<(string, string)> {
    if pairs == [] then []
    else (if pairs[0].1.Some? then [(pairs[0].0, pairs[0].1.value)] else []) + WithMount(pairs[1..])
  }

  function NormaliseBootif(value: string): string {
    var trimmed := if "01-" <= value then value[3..] else value;
    Lower(Replace(trimmed, '-', ':'))
  }

  /** What one recognised, non-empty setting does. */
  function Set(p: BootParams, key: Key, value: string): BootParams {
    match key
    case Portal => p.(portal := Some(value))
    case Port => p.(port := ParseUnsigned(value, MAX_U16))
    case Nqn => p.(nqn := Some(value))
    case Nsid => p.(nsid := ParseUnsigned(value, MAX_U32))
    case Volume => p.(volume := Some(value))
    case LocalDisk => p.(localDisk := Some(value))
    case Slab => p.(slabs := p.slabs + Entries(value))
    case DataSlab => p.(dataSlab := Some(value))
    case Boothost => p.(boothost := Some(value))
    case Tag => p.(tag := Some(value))
    case Namespace => p.(namespace := Some(value))
    case Hostnqn => p.(hostnqn := Some(value))
    case Meta => p.(meta := Some(value))
    case ImageStore => p.(imageStore := Some(value))
    case Overlay => p.(overlay := Some(value))
    case Writable => p.(writable := NamedMounts(Entries(value)))
    case Mount => p.(mounts := WithMount(NamedMounts(Entries(value))))
    case Media => p.(mediaDev := Some(value))
    case Hostname => p.(hostname := Some(value))
    case Role => p.(role := Some(value))
    case Report => p.(reportUrl := Some(value))
    case MacAddress => p.(mac := Some(NormaliseBootif(value)))
    case Unknown => p
  }

  datatype Setting = Setting(key: Key, value: string)

  /** The setting a token makes: none without an equals sign, a value or a known key. */
  function SettingOf(token: string): (s: seq<Setting>)
    ensures |s| <= 1
  {
    match SplitOnce(token, '=')
    case None => []
    case Some((name, value)) => if value == "" || KeyOf(name).Unknown? then [] else [Setting(KeyOf(name), value)]
  }

  function Settings(tokens: seq<string>): seq<Setting> {
    if tokens == [] then [] else SettingOf(tokens[0]) + Settings(tokens[1..])
  }

  function ApplyAll(settings: seq<Setting>): BootParams {
    if settings == [] then NOTHING
    else
      var last := settings[|settings| - 1];
      Set(ApplyAll(settings[..|settings| - 1]), last.key, last.value)
  }

  function Parse(cmdline: string): BootParams {
    ApplyAll(Settings(SplitWhitespace(cmdline)))
  }

  /** The parser as the init runs it: one walk over the tokens, updating the fields. */
  method ParseCmdline(cmdline: string) returns (p: BootParams)
    ensures p == Parse(cmdline)
  {
    p := NOTHING;
    var tokens := SplitWhitespace(cmdline);
    for i := 0 to |tokens|
      invariant p == ApplyAll(Settings(tokens[..i]))
    {
      OneMoreToken(tokens, i);
      p := ReadToken(p, tokens[i]);
    }
    assert tokens[..|tokens|] == tokens;
  }

  /** One token: without an equals sign, a value or a known key it changes nothing. */
  method ReadToken(before: BootParams, token: string) returns (p: BootParams)
    ensures p == Change(before, SettingOf(token))
  {
    p := before;
    var parts := SplitOnce(token, '=');
    if parts.None? {
      return;
    }
    var (name, value) := parts.value;
    if value == "" {
      return;
    }
    p := Set(p, KeyOf(name), value);
  }

  function Change(p: BootParams, settings: seq<Setting>): BootParams
    requires |settings| <= 1
  {
    if settings == [] then p else Set(p, settings[0].key, settings[0].value)
  }

  lemma {:induction false} OneMoreToken(tokens: seq<string>, i: nat)
    requires i < |tokens|
    ensures ApplyAll(Settings(tokens[..i + 1])) == Change(ApplyAll(Settings(tokens[..i])), SettingOf(tokens[i]))
  {
    assert tokens[..i + 1] == tokens[..i] + [tokens[i]];
    SettingsAppend(tokens[..i], [tokens[i]]);
    OneToken(tokens[i]);
    var before, last := Settings(tokens[..i]), SettingOf(tokens[i]);
    if last == [] {
      assert before + last == before;
    } else {
      assert (before + last)[..|before + last| - 1] == before;
    }
  }

  lemma {:induction false} OneToken(token: string)
    ensures Settings([token]) == SettingOf(token)
  {
    assert [token][1..] == [];
    assert SettingOf(token) + [] == SettingOf(token);
  }

  lemma {:induction false} SettingsAppend(a: seq<string>, b: seq<string>)
    ensures Settings(a + b) == Settings(a) + Settings(b)
  {
    if a == [] {
      assert a + b == b;
    } else {
      assert (a + b)[0] == a[0] && (a + b)[1..] == a[1..] + b;
      SettingsAppend(a[1..], b);
    }
  }

  // ---- the last setting of a key decides -------------------------------------------------

  function LastValue(settings: seq<Setting>, key: Key): Option<string> {
    if settings == [] then None
    else if settings[|settings| - 1].key == key then Some(settings[|settings| - 1].value)
    else LastValue(settings[..|settings| - 1], key)
  }

  lemma {:induction false} LastValueAppend(a: seq<Setting>, b: seq<Setting>, key: Key)
    ensures LastValue(a + b, key) == if LastValue(b, key).Some? then LastValue(b, key) else LastValue(a, key)
  {
    if b == [] {
      assert a + b == a;
    } else {
      assert (a + b)[..|a + b| - 1] == a + b[..|b| - 1];
      LastValueAppend(a, b[..|b| - 1], key);
    }
  }

  function Number(value: Option<string>, max: nat): Option<nat> {
    if value.Some? then ParseUnsigned(value.value, max) else None
  }

  /** A setting decides its own field among those of the boot contract and no other. */
  lemma {:induction false} SetDecides(p: BootParams, key: Key, value: string)
    ensures var q := Set(p, key, value);
            && q.portal == (if key.Portal? then Some(value) else p.portal)
            && q.port == (if key.Port? then ParseUnsigned(value, MAX_U16) else p.port)
            && q.nqn == (if key.Nqn? then Some(value) else p.nqn)
            && q.nsid == (if key.Nsid? then ParseUnsigned(value, MAX_U32) else p.nsid)
            && q.volume == (if key.Volume? then Some(value) else p.volume)
            && q.localDisk == (if key.LocalDisk? then Some(value) else p.localDisk)
            && q.hostname == (if key.Hostname? then Some(value) else p.hostname)
            && q.role == (if key.Role? then Some(value) else p.role)
  {
  }

  predicate Decided(p: BootParams, settings: seq<Setting>) {
    && p.portal == LastValue(settings, Portal)
    && p.port == Number(LastValue(settings, Port), MAX_U16)
    && p.nqn == LastValue(settings, Nqn)
    && p.nsid == Number(LastValue(settings, Nsid), MAX_U32)
    && p.volume == LastValue(settings, Volume)
    && p.localDisk == LastValue(settings, LocalDisk)
    && p.hostname == LastValue(settings, Hostname)
    && p.role == LastValue(settings, Role)
  }

  lemma {:induction false} DecidedByOneMore(p: BootParams, before: seq<Setting>, key: Key, value: string)
    requires Decided(p, before)
    ensures Decided(Set(p, key, value), before + [Setting(key, value)])
  {
    SetDecides(p, key, value);
    OneMoreValue(before, key, value, Portal);
    OneMoreValue(before, key, value, Port);
    OneMoreValue(before, key, value, Nqn);
    OneMoreValue(before, key, value, Nsid);
    OneMoreValue(before, key, value, Volume);
    OneMoreValue(before, key, value, LocalDisk);
    OneMoreValue(before, key, value, Hostname);
    OneMoreValue(before, key, value, Role);
  }

  lemma {:induction false} OneMoreValue(before: seq<Setting>, key: Key, value: string, k: Key)
    ensures LastValue(before + [Setting(key, value)], k) == if key == k then Some(value) else LastValue(before, k)
  {
    assert (before + [Setting(key, value)])[..|before|] == before;
  }

  /** The fields of the boot contract, each from the last token that sets it. */
  lemma {:induction false} LastSettingDecides(settings: seq<Setting>)
    ensures Decided(ApplyAll(settings), settings)
  {
    if settings != [] {
      var before, last := settings[..|settings| - 1], settings[|settings| - 1];
      LastSettingDecides(before);
      assert settings == before + [Setting(last.key, last.value)];
      assert ApplyAll(settings) == Set(ApplyAll(before), last.key, last.value);
      DecidedByOneMore(ApplyAll(before), before, last.key, last.value);
    }
  }

  // ---- the fields the attachment does not need ---------------------------------------------

  function SlabsIn(settings: seq<Setting>): seq<string> {
    if settings == [] then []
    else
      var last := settings[|settings| - 1];
      SlabsIn(settings[..|settings| - 1]) + if last.key.Slab? then Entries(last.value) else []
  }

  function Mapped<T>(value: Option<string>, f: string -> seq<T>): seq<T> {
    if value.Some? then f(value.value) else []
  }

  function WritableOf(value: string): seq<(string, Option<string>)> {
    NamedMounts(Entries(value))
  }

  function MountsOf(value: string): seq<(string, string)> {
    WithMount(NamedMounts(Entries(value)))
  }

  /** Storage, media and identity, each from the last token that sets it; slabs add up. */
  predicate DecidedToo(p: BootParams, settings: seq<Setting>) {
    && p.dataSlab == LastValue(settings, DataSlab)
    && p.slabs == SlabsIn(settings)
    && p.reportUrl == LastValue(settings, Report)
    && p.mediaDev == LastValue(settings, Media)
    && p.mac == (var v := LastValue(settings, MacAddress); if v.Some? then Some(NormaliseBootif(v.value)) else None)
    && p.boothost == LastValue(settings, Boothost)
    && p.tag == LastValue(settings, Tag)
    && p.namespace == LastValue(settings, Namespace)
    && p.hostnqn == LastValue(settings, Hostnqn)
    && p.meta == LastValue(settings, Meta)
    && p.imageStore == LastValue(settings, ImageStore)
    && p.overlay == LastValue(settings, Overlay)
    && p.writable == Mapped(LastValue(settings, Writable), WritableOf)
    && p.mounts == Mapped(LastValue(settings, Mount), MountsOf)
  }

  lemma {:induction false} SetDecidesToo(p: BootParams, key: Key, value: string)
    ensures var q := Set(p, key, value);
            && q.dataSlab == (if key.DataSlab? then Some(value) else p.dataSlab)
            && q.reportUrl == (if key.Report? then Some(value) else p.reportUrl)
            && q.mediaDev == (if key.Media? then Some(value) else p.mediaDev)
            && q.boothost == (if key.Boothost? then Some(value) else p.boothost)
            && q.tag == (if key.Tag? then Some(value) else p.tag)
            && q.namespace == (if key.Namespace? then Some(value) else p.namespace)
            && q.hostnqn == (if key.Hostnqn? then Some(value) else p.hostnqn)
            && q.meta == (if key.Meta? then Some(value) else p.meta)
            && q.imageStore == (if key.ImageStore? then Some(value) else p.imageStore)
            && q.overlay == (if key.Overlay? then Some(value) else p.overlay)
            && q.slabs == p.slabs + (if key.Slab? then Entries(value) else [])
            && q.mac == (if key.MacAddress? then Some(NormaliseBootif(value)) else p.mac)
            && q.writable == (if key.Writable? then WritableOf(value) else p.writable)
            && q.mounts == (if key.Mount? then MountsOf(value) else p.mounts)
  {
  }

  lemma {:induction false} OneMoreSlab(before: seq<Setting>, key: Key, value: string)
    ensures SlabsIn(before + [Setting(key, value)]) == SlabsIn(before) + if key.Slab? then Entries(value) else []
  {
    assert (before + [Setting(key, value)])[..|before|] == before;
  }

  lemma {:induction false} DecidedTooByOneMore(p: BootParams, before: seq<Setting>, key: Key, value: string)
    requires DecidedToo(p, before)
    ensures DecidedToo(Set(p, key, value), before + [Setting(key, value)])
  {
    SetDecidesToo(p, key, value);
    OneMoreValue(before, key, value, DataSlab);
    OneMoreValue(before, key, value, Report);
    OneMoreValue(before, key, value, Media);
    OneMoreValue(before, key, value, Boothost);
    OneMoreValue(before, key, value, Tag);
    OneMoreValue(before, key, value, Namespace);
    OneMoreValue(before, key, value, Hostnqn);
    OneMoreValue(before, key, value, Meta);
    OneMoreValue(before, key, value, ImageStore);
    OneMoreValue(before, key, value, Overlay);
    OneMoreValue(before, key, value, MacAddress);
    OneMoreValue(before, key, value, Writable);
    OneMoreValue(before, key, value, Mount);
    OneMoreSlab(before, key, value);
  }

  lemma {:induction false} LastSettingDecidesToo(settings: seq<Setting>)
    ensures DecidedToo(ApplyAll(settings), settings)
  {
    if settings != [] {
      var before, last := settings[..|settings| - 1], settings[|settings| - 1];
      LastSettingDecidesToo(before);
      assert settings == before + [Setting(last.key, last.value)];
      assert ApplyAll(settings) == Set(ApplyAll(before), last.key, last.value);
      DecidedTooByOneMore(ApplyAll(before), before, last.key, last.value);
    }
  }

  // ---- in terms of the text ------------------------------------------------------------------

  /** The token gives one of these names this value; an empty one counts for nothing. */
  ghost predicate Gives(token: string, names: set<string>, value: string) {
    value != "" && exists name :: name in names && token == name + "=" + value
  }

  /** The value is what the last token to give one of the names a value gives it. */
  ghost predicate LastGiven(tokens: seq<string>, names: set<string>, value: string) {
    exists k :: 0 <= k < |tokens| && Gives(tokens[k], names, value) &&
                forall j, other :: k < j < |tokens| ==> !Gives(tokens[j], names, other)
  }

  /** These are the names of the parameter. */
  ghost predicate Names(key: Key, names: set<string>) {
    && !key.Unknown?
    && (forall n :: KeyOf(n) == key <==> n in names)
    && (forall n :: n in names ==> '=' !in n)
  }

  lemma {:induction false} PortalIsKey()
    ensures KeyOf("rd.stormblock.portal") == Portal && '=' !in "rd.stormblock.portal"
  {
  }

  lemma {:induction false} PortalIsNamed()
    ensures Names(Portal, {"rd.stormblock.portal"})
  {
    PortalIsKey();
    forall n | KeyOf(n) == Portal
      ensures n == "rd.stormblock.portal"
    {
    }
  }

  lemma {:induction false} PortIsKey()
    ensures KeyOf("rd.stormblock.port") == Port && '=' !in "rd.stormblock.port"
  {
  }

  lemma {:induction false} PortIsNamed()
    ensures Names(Port, {"rd.stormblock.port"})
  {
    PortIsKey();
    forall n | KeyOf(n) == Port
      ensures n == "rd.stormblock.port"
    {
    }
  }

  lemma {:induction false} NqnIsKey()
    ensures KeyOf("rd.stormblock.nqn") == Nqn && '=' !in "rd.stormblock.nqn"
  {
  }

  lemma {:induction false} NqnIsNamed()
    ensures Names(Nqn, {"rd.stormblock.nqn"})
  {
    NqnIsKey();
    forall n | KeyOf(n) == Nqn
      ensures n == "rd.stormblock.nqn"
    {
    }
  }

  lemma {:induction false} NsidIsKey()
    ensures KeyOf("rd.stormblock.nsid") == Nsid && '=' !in "rd.stormblock.nsid"
  {
  }

  lemma {:induction false} NsidIsNamed()
    ensures Names(Nsid, {"rd.stormblock.nsid"})
  {
    NsidIsKey();
    forall n | KeyOf(n) == Nsid
      ensures n == "rd.stormblock.nsid"
    {
    }
  }

  lemma {:induction false} VolumeIsKey()
    ensures KeyOf("stormblock.volume") == Volume && '=' !in "stormblock.volume"
  {
  }

  lemma {:induction false} VolumeIsNamed()
    ensures Names(Volume, {"stormblock.volume"})
  {
    VolumeIsKey();
    forall n | KeyOf(n) == Volume
      ensures n == "stormblock.volume"
    {
    }
  }

  lemma {:induction false} LocalDiskIsKey()
    ensures KeyOf("rd.stormblock.local-disk") == LocalDisk && '=' !in "rd.stormblock.local-disk"
  {
  }

  lemma {:induction false} LocalDiskIsNamed()
    ensures Names(LocalDisk, {"rd.stormblock.local-disk"})
  {
    LocalDiskIsKey();
    forall n | KeyOf(n) == LocalDisk
      ensures n == "rd.stormblock.local-disk"
    {
    }
  }

  lemma {:induction false} SlabIsKey()
    ensures KeyOf("rd.stormblock.slab") == Slab && '=' !in "rd.stormblock.slab"
  {
  }

  lemma {:induction false} SlabIsNamed()
    ensures Names(Slab, {"rd.stormblock.slab"})
  {
    SlabIsKey();
    forall n | KeyOf(n) == Slab
      ensures n == "rd.stormblock.slab"
    {
    }
  }

  lemma {:induction false} DataSlabIsKey()
    ensures KeyOf("rd.stormblock.data-slab") == DataSlab && '=' !in "rd.stormblock.data-slab"
  {
  }

  lemma {:induction false} DataSlabIsNamed()
    ensures Names(DataSlab, {"rd.stormblock.data-slab"})
  {
    DataSlabIsKey();
    forall n | KeyOf(n) == DataSlab
      ensures n == "rd.stormblock.data-slab"
    {
    }
  }

  lemma {:induction false} BoothostIsKey()
    ensures KeyOf("rd.stormblock.boothost") == Boothost && '=' !in "rd.stormblock.boothost"
  {
  }

  lemma {:induction false} BoothostIsNamed()
    ensures Names(Boothost, {"rd.stormblock.boothost"})
  {
    BoothostIsKey();
    forall n | KeyOf(n) == Boothost
      ensures n == "rd.stormblock.boothost"
    {
    }
  }

  lemma {:induction false} TagIsKey()
    ensures KeyOf("rd.stormblock.tag") == Tag && '=' !in "rd.stormblock.tag"
  {
  }

  lemma {:induction false} TagIsNamed()
    ensures Names(Tag, {"rd.stormblock.tag"})
  {
    TagIsKey();
    forall n | KeyOf(n) == Tag
      ensures n == "rd.stormblock.tag"
    {
    }
  }

  lemma {:induction false} NamespaceIsKey()
    ensures KeyOf("rd.stormblock.namespace") == Namespace && '=' !in "rd.stormblock.namespace"
  {
  }

  lemma {:induction false} NamespaceIsNamed()
    ensures Names(Namespace, {"rd.stormblock.namespace"})
  {
    NamespaceIsKey();
    forall n | KeyOf(n) == Namespace
      ensures n == "rd.stormblock.namespace"
    {
    }
  }

  lemma {:induction false} HostnqnIsKey()
    ensures KeyOf("rd.stormblock.hostnqn") == Hostnqn && '=' !in "rd.stormblock.hostnqn"
  {
  }

  lemma {:induction false} HostnqnIsNamed()
    ensures Names(Hostnqn, {"rd.stormblock.hostnqn"})
  {
    HostnqnIsKey();
    forall n | KeyOf(n) == Hostnqn
      ensures n == "rd.stormblock.hostnqn"
    {
    }
  }

  lemma {:induction false} MetaIsKey()
    ensures KeyOf("rd.stormblock.meta") == Meta && '=' !in "rd.stormblock.meta"
  {
  }

  lemma {:induction false} MetaIsNamed()
    ensures Names(Meta, {"rd.stormblock.meta"})
  {
    MetaIsKey();
    forall n | KeyOf(n) == Meta
      ensures n == "rd.stormblock.meta"
    {
    }
  }

  lemma {:induction false} ImageStoreIsKey()
    ensures KeyOf("rd.stormblock.image-store") == ImageStore && '=' !in "rd.stormblock.image-store"
  {
  }

  lemma {:induction false} ImageStoreIsNamed()
    ensures Names(ImageStore, {"rd.stormblock.image-store"})
  {
    ImageStoreIsKey();
    forall n | KeyOf(n) == ImageStore
      ensures n == "rd.stormblock.image-store"
    {
    }
  }

  lemma {:induction false} OverlayIsKey()
    ensures KeyOf("rd.stormblock.overlay") == Overlay && '=' !in "rd.stormblock.overlay"
  {
  }

  lemma {:induction false} OverlayIsNamed()
    ensures Names(Overlay, {"rd.stormblock.overlay"})
  {
    OverlayIsKey();
    forall n | KeyOf(n) == Overlay
      ensures n == "rd.stormblock.overlay"
    {
    }
  }

  lemma {:induction false} WritableIsKey()
    ensures KeyOf("rd.stormblock.writable") == Writable && '=' !in "rd.stormblock.writable"
  {
  }

  lemma {:induction false} WritableIsNamed()
    ensures Names(Writable, {"rd.stormblock.writable"})
  {
    WritableIsKey();
    forall n | KeyOf(n) == Writable
      ensures n == "rd.stormblock.writable"
    {
    }
  }

  lemma {:induction false} MountIsKey()
    ensures KeyOf("rd.stormblock.mount") == Mount && '=' !in "rd.stormblock.mount"
  {
  }

  lemma {:induction false} MountIsNamed()
    ensures Names(Mount, {"rd.stormblock.mount"})
  {
    MountIsKey();
    forall n | KeyOf(n) == Mount
      ensures n == "rd.stormblock.mount"
    {
    }
  }

  lemma {:induction false} MediaIsKey()
    ensures KeyOf("rd.stormnetboot.media") == Media && '=' !in "rd.stormnetboot.media"
  {
  }

  lemma {:induction false} MediaIsNamed()
    ensures Names(Media, {"rd.stormnetboot.media"})
  {
    MediaIsKey();
    forall n | KeyOf(n) == Media
      ensures n == "rd.stormnetboot.media"
    {
    }
  }

  lemma {:induction false} HostnameIsKey()
    ensures KeyOf("storm.hostname") == Hostname && '=' !in "storm.hostname"
  {
  }

  lemma {:induction false} HostnameIsNamed()
    ensures Names(Hostname, {"storm.hostname"})
  {
    HostnameIsKey();
    forall n | KeyOf(n) == Hostname
      ensures n == "storm.hostname"
    {
    }
  }

  lemma {:induction false} RoleIsKey()
    ensures KeyOf("storm.role") == Role && '=' !in "storm.role"
  {
  }

  lemma {:induction false} RoleIsNamed()
    ensures Names(Role, {"storm.role"})
  {
    RoleIsKey();
    forall n | KeyOf(n) == Role
      ensures n == "storm.role"
    {
    }
  }

  lemma {:induction false} ReportIsKey()
    ensures KeyOf("storm.report") == Report && '=' !in "storm.report"
  {
  }

  lemma {:induction false} ReportIsNamed()
    ensures Names(Report, {"storm.report"})
  {
    ReportIsKey();
    forall n | KeyOf(n) == Report
      ensures n == "storm.report"
    {
    }
  }

  lemma {:induction false} StormMacIsAddress()
    ensures KeyOf("storm.mac") == MacAddress && '=' !in "storm.mac"
  {
  }

  lemma {:induction false} BootifIsAddress()
    ensures KeyOf("BOOTIF") == MacAddress && '=' !in "BOOTIF"
  {
  }

  lemma {:induction false} MacAddressIsNamed()
    ensures Names(MacAddress, {"storm.mac", "BOOTIF"})
  {
    StormMacIsAddress();
    BootifIsAddress();
  }

  lemma {:induction false} SplitExactly(token: string, name: string, value: string)
    requires '=' !in name
    ensures SplitOnce(token, '=') == Some((name, value)) <==> token == name + "=" + value
  {
    SplitOnceIs(name, '=', value);
    var i := IndexOf(token, '=');
    if i < |token| {
      assert token == token[..i] + "=" + token[i + 1..];
    }
  }

  lemma {:induction false} SettingExactly(token: string, key: Key, names: set<string>, value: string)
    requires Names(key, names)
    ensures SettingOf(token) == [Setting(key, value)] <==> Gives(token, names, value)
  {
    forall name | name in names
      ensures SplitOnce(token, '=') == Some((name, value)) <==> token == name + "=" + value
      ensures KeyOf(name) == key
    {
      SplitExactly(token, name, value);
    }
    if SettingOf(token) == [Setting(key, value)] {
      var name := SplitOnce(token, '=').value.0;
      assert KeyOf(name) == key;
      assert name in names;
    }
  }

  lemma {:induction false} NoSettingExactly(token: string, key: Key, names: set<string>)
    requires Names(key, names)
    ensures SettingOf(token) == [] || SettingOf(token)[0].key != key <==> forall value :: !Gives(token, names, value)
  {
    forall value
      ensures SettingOf(token) == [Setting(key, value)] <==> Gives(token, names, value)
    {
      SettingExactly(token, key, names, value);
    }
    if SettingOf(token) != [] && SettingOf(token)[0].key == key {
      assert Gives(token, names, SettingOf(token)[0].value);
    }
  }

  lemma {:induction false} GivenByOneMore(init: seq<string>, last: string, names: set<string>, value: string)
    ensures LastGiven(init + [last], names, value) <==>
            Gives(last, names, value) || ((forall other :: !Gives(last, names, other)) && LastGiven(init, names, value))
  {
    var tokens := init + [last];
    if LastGiven(tokens, names, value) {
      var k :| 0 <= k < |tokens| && Gives(tokens[k], names, value) &&
               forall j, other :: k < j < |tokens| ==> !Gives(tokens[j], names, other);
      if k < |init| {
        assert tokens[|init|] == last;
        assert init[k] == tokens[k] && forall j :: k < j < |init| ==> init[j] == tokens[j];
      }
    }
    if Gives(last, names, value) {
      assert tokens[|init|] == last;
    } else if (forall other :: !Gives(last, names, other)) && LastGiven(init, names, value) {
      var k :| 0 <= k < |init| && Gives(init[k], names, value) &&
               forall j, other :: k < j < |init| ==> !Gives(init[j], names, other);
      assert tokens[k] == init[k];
      assert forall j :: k < j < |tokens| ==> tokens[j] == if j < |init| then init[j] else last;
    }
  }

  /** The last setting of a parameter is what the last token to give it a value gives it. */
  lemma {:induction false} LastGivenExactly(tokens: seq<string>, key: Key, names: set<string>, value: string)
    requires Names(key, names)
    ensures LastValue(Settings(tokens), key) == Some(value) <==> LastGiven(tokens, names, value)
  {
    if tokens != [] {
      var init, last := tokens[..|tokens| - 1], tokens[|tokens| - 1];
      LastGivenExactly(init, key, names, value);
      assert tokens == init + [last];
      SettingsAppend(init, [last]);
      OneToken(last);
      LastValueAppend(Settings(init), SettingOf(last), key);
      TokenDecidesExactly(last, key, names, value);
      GivenByOneMore(init, last, names, value);
    }
  }

  lemma {:induction false} TokenDecidesExactly(token: string, key: Key, names: set<string>, value: string)
    requires Names(key, names)
    ensures LastValue(SettingOf(token), key) == Some(value) <==> Gives(token, names, value)
    ensures LastValue(SettingOf(token), key) == None <==> forall other :: !Gives(token, names, other)
  {
    SettingExactly(token, key, names, value);
    NoSettingExactly(token, key, names);
    OneSettingDecides(SettingOf(token), key);
  }

  lemma {:induction false} OneSettingDecides(settings: seq<Setting>, key: Key)
    requires |settings| <= 1
    ensures LastValue(settings, key) ==
            if settings != [] && settings[0].key == key then Some(settings[0].value) else None
  {
  }

  /** For every command line: what is attached is what the last token of each name says. */
  lemma {:induction false} RootFromTokens(line: string, value: string)
    ensures var p, words := Parse(line), SplitWhitespace(line);
            && (p.portal == Some(value) <==> LastGiven(words, {"rd.stormblock.portal"}, value))
            && (p.nqn == Some(value) <==> LastGiven(words, {"rd.stormblock.nqn"}, value))
            && (p.volume == Some(value) <==> LastGiven(words, {"stormblock.volume"}, value))
            && (LastGiven(words, {"rd.stormblock.port"}, value) ==> p.port == ParseUnsigned(value, 0xFFFF))
            && (LastGiven(words, {"rd.stormblock.nsid"}, value) ==> p.nsid == ParseUnsigned(value, 0xFFFF_FFFF))
  {
    var words := SplitWhitespace(line);
    LastSettingDecides(Settings(words));
    PortalIsNamed();
    NqnIsNamed();
    VolumeIsNamed();
    PortIsNamed();
    NsidIsNamed();
    LastGivenExactly(words, Portal, {"rd.stormblock.portal"}, value);
    LastGivenExactly(words, Nqn, {"rd.stormblock.nqn"}, value);
    LastGivenExactly(words, Volume, {"stormblock.volume"}, value);
    LastGivenExactly(words, Port, {"rd.stormblock.port"}, value);
    LastGivenExactly(words, Nsid, {"rd.stormblock.nsid"}, value);
  }

  /** Likewise the disks, the media and who the machine is. */
  lemma {:induction false} MachineFromTokens(line: string, value: string)
    ensures var p, words := Parse(line), SplitWhitespace(line);
            && (p.localDisk == Some(value) <==> LastGiven(words, {"rd.stormblock.local-disk"}, value))
            && (p.dataSlab == Some(value) <==> LastGiven(words, {"rd.stormblock.data-slab"}, value))
            && (p.mediaDev == Some(value) <==> LastGiven(words, {"rd.stormnetboot.media"}, value))
            && (p.hostname == Some(value) <==> LastGiven(words, {"storm.hostname"}, value))
            && (p.role == Some(value) <==> LastGiven(words, {"storm.role"}, value))
            && (p.reportUrl == Some(value) <==> LastGiven(words, {"storm.report"}, value))
            && (LastGiven(words, {"storm.mac", "BOOTIF"}, value) ==> p.mac == Some(NormaliseBootif(value)))
  {
    var words := SplitWhitespace(line);
    LastSettingDecides(Settings(words));
    LastSettingDecidesToo(Settings(words));
    LocalDiskIsNamed();
    DataSlabIsNamed();
    MediaIsNamed();
    HostnameIsNamed();
    RoleIsNamed();
    ReportIsNamed();
    MacAddressIsNamed();
    LastGivenExactly(words, LocalDisk, {"rd.stormblock.local-disk"}, value);
    LastGivenExactly(words, DataSlab, {"rd.stormblock.data-slab"}, value);
    LastGivenExactly(words, Media, {"rd.stormnetboot.media"}, value);
    LastGivenExactly(words, Hostname, {"storm.hostname"}, value);
    LastGivenExactly(words, Role, {"storm.role"}, value);
    LastGivenExactly(words, Report, {"storm.report"}, value);
    LastGivenExactly(words, MacAddress, {"storm.mac", "BOOTIF"}, value);
  }

  /** And the diskless claim and its exports. */
  lemma {:induction false} ClaimFromTokens(line: string, value: string)
    ensures var p, words := Parse(line), SplitWhitespace(line);
            && (p.boothost == Some(value) <==> LastGiven(words, {"rd.stormblock.boothost"}, value))
            && (p.tag == Some(value) <==> LastGiven(words, {"rd.stormblock.tag"}, value))
            && (p.namespace == Some(value) <==> LastGiven(words, {"rd.stormblock.namespace"}, value))
            && (p.hostnqn == Some(value) <==> LastGiven(words, {"rd.stormblock.hostnqn"}, value))
            && (p.meta == Some(value) <==> LastGiven(words, {"rd.stormblock.meta"}, value))
            && (p.imageStore == Some(value) <==> LastGiven(words, {"rd.stormblock.image-store"}, value))
            && (p.overlay == Some(value) <==> LastGiven(words, {"rd.stormblock.overlay"}, value))
            && (LastGiven(words, {"rd.stormblock.writable"}, value) ==> p.writable == WritableOf(value))
            && (LastGiven(words, {"rd.stormblock.mount"}, value) ==> p.mounts == MountsOf(value))
  {
    var words := SplitWhitespace(line);
    LastSettingDecidesToo(Settings(words));
    BoothostIsNamed();
    TagIsNamed();
    NamespaceIsNamed();
    HostnqnIsNamed();
    MetaIsNamed();
    ImageStoreIsNamed();
    OverlayIsNamed();
    WritableIsNamed();
    MountIsNamed();
    LastGivenExactly(words, Boothost, {"rd.stormblock.boothost"}, value);
    LastGivenExactly(words, Tag, {"rd.stormblock.tag"}, value);
    LastGivenExactly(words, Namespace, {"rd.stormblock.namespace"}, value);
    LastGivenExactly(words, Hostnqn, {"rd.stormblock.hostnqn"}, value);
    LastGivenExactly(words, Meta, {"rd.stormblock.meta"}, value);
    LastGivenExactly(words, ImageStore, {"rd.stormblock.image-store"}, value);
    LastGivenExactly(words, Overlay, {"rd.stormblock.overlay"}, value);
    LastGivenExactly(words, Writable, {"rd.stormblock.writable"}, value);
    LastGivenExactly(words, Mount, {"rd.stormblock.mount"}, value);
  }

  /** The slabs are the entries of every token that names any, in whatever number of tokens. */
  lemma {:induction false} SlabsFromTokens(line: string, slab: string)
    ensures slab in Parse(line).slabs <==> IsSlabIn(SplitWhitespace(line), {"rd.stormblock.slab"}, slab)
  {
    LastSettingDecidesToo(Settings(SplitWhitespace(line)));
    SlabIsNamed();
    SlabsOfTokens(SplitWhitespace(line), {"rd.stormblock.slab"}, slab);
  }

  ghost predicate IsSlabIn(tokens: seq<string>, names: set<string>, slab: string) {
    exists k, value :: 0 <= k < |tokens| && Gives(tokens[k], names, value) && slab in Entries(value)
  }

  lemma {:induction false} SlabsInAppend(a: seq<Setting>, b: seq<Setting>)
    requires |b| <= 1
    ensures SlabsIn(a + b) == SlabsIn(a) + if b != [] && b[0].key.Slab? then Entries(b[0].value) else []
  {
    if b == [] {
      assert a + b == a;
    } else {
      assert (a + b)[..|a|] == a;
    }
  }

  lemma {:induction false} SlabsOfTokens(tokens: seq<string>, names: set<string>, slab: string)
    requires Names(Slab, names)
    ensures slab in SlabsIn(Settings(tokens)) <==> IsSlabIn(tokens, names, slab)
  {
    if tokens != [] {
      var init, last := tokens[..|tokens| - 1], tokens[|tokens| - 1];
      SlabsOfTokens(init, names, slab);
      assert tokens == init + [last];
      SettingsAppend(init, [last]);
      OneToken(last);
      SlabsInAppend(Settings(init), SettingOf(last));
      forall value
        ensures SettingOf(last) == [Setting(Slab, value)] <==> Gives(last, names, value)
      {
        SettingExactly(last, Slab, names, value);
      }
      SlabInOneMore(init, last, names, slab);
    }
  }

  lemma {:induction false} SlabInOneMore(init: seq<string>, last: string, names: set<string>, slab: string)
    ensures IsSlabIn(init + [last], names, slab) <==>
            IsSlabIn(init, names, slab) || exists value :: Gives(last, names, value) && slab in Entries(value)
  {
    var tokens := init + [last];
    if IsSlabIn(init, names, slab) {
      var k, value :| 0 <= k < |init| && Gives(init[k], names, value) && slab in Entries(value);
      assert tokens[k] == init[k];
    }
    assert tokens[|init|] == last;
  }

  /** Entries written between commas, empty ones and all. */
  function Commas(entries: seq<string>): string {
    if entries == [] then ""
    else if |entries| == 1 then entries[0]
    else entries[0] + "," + Commas(entries[1..])
  }

  function NonEmpty(entries: seq<string>): seq<string> {
    if entries == [] then [] else (if entries[0] == "" then [] else [entries[0]]) + NonEmpty(entries[1..])
  }

  /** A list between commas reads back as it was, its empty entries dropped. */
  lemma {:induction false} EntriesOfCommas(entries: seq<string>)
    requires forall e :: e in entries ==> ',' !in e
    ensures Entries(Commas(entries)) == NonEmpty(entries)
  {
    if |entries| == 1 {
      assert entries[0] in entries;
      assert entries[0][..|entries[0]|] == entries[0];
      assert NonEmpty(entries[1..]) == [];
    } else if |entries| > 1 {
      assert entries[0] in entries;
      var rest := Commas(entries[1..]);
      IndexOfIs(entries[0], ',', rest);
      assert (entries[0] + "," + rest)[..|entries[0]|] == entries[0];
      assert (entries[0] + "," + rest)[|entries[0]| + 1..] == rest;
      EntriesOfCommas(entries[1..]);
    }
  }

  /** A named mount: with both a name and a path it has that path; a malformed one keeps the name alone. */
  lemma {:induction false} NamedMountExactly(name: string, mount: string)
    requires ':' !in name
    ensures NamedMount(name + ":" + mount) == (name, if name != "" && mount != "" then Some(mount) else None)
    ensures NamedMount(name) == (name, None)
  {
    SplitOnceIs(name, ':', mount);
  }

  // ---- what is attached -----------------------------------------------------------------------

  function NvmeUri(p: BootParams): Option<string> {
    if p.portal.None? || p.port.None? || p.nqn.None? then None
    else Some(Uri(p.portal.value, p.port.value, p.nqn.value, if p.nsid.Some? then p.nsid.value else 1))
  }

  function Uri(portal: string, port: nat, nqn: string, nsid: nat): string {
    "nvme-tcp://" + portal + ":" + Decimal(port) + "/" + nqn + "?nsid=" + Decimal(nsid)
  }
}
