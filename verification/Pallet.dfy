/**
 * Boot pallet projection: a pinned digest and a cache directory brought up to it
 * file by file, with a failure possible at any fetch or write.
 */
module Pallets {
  import opened Prelude
  import opened Text

  const PALLET_ARTIFACT_TYPE := "application/vnd.stormblock.pallet.v1+json"
  const PALLET_CONFIG_TYPE := "application/vnd.stormblock.pallet.config.v1+json"
  const MEMBER_MEDIA_PREFIX := "application/vnd.stormblock.member."
  const ANNOTATION_ROLE := "org.stormblock.member.role"
  const ANNOTATION_NAME := "org.stormblock.member.name"
  const VERSION_LABEL := "org.stormblock.pallet.version_label"
  const VERSION := "org.stormblock.pallet.version"

  datatype Descriptor = Descriptor(mediaType: string, digest: string, size: nat, annotations: map<string, string>)

  datatype Manifest = Manifest(
    artifactType: Option<string>, config: Descriptor, layers: seq<Descriptor>, annotations: map<string, string>)

  datatype Member = Member(name: string, role: string, source: string, text: Option<string>)

  datatype PalletSpec = PalletSpec(members: seq<Member>)

  /** SHA-256 as `sha256:` and lower-case hex, the JSON readers and UTF-8, about which nothing is assumed. */
  datatype Codecs = Codecs(
    hash: Bytes -> string, manifest: Bytes -> Option<Manifest>, spec: Bytes -> Option<PalletSpec>,
    utf8: string -> Bytes)

  datatype Settings = Settings(repo: string, reference: string, requireSignature: bool)

  datatype AssetStatus = AssetStatus(
    ready: bool, detail: string, version: Option<string>, digest: Option<string>, signatureVerified: bool)

  /** The cache directory: file name to content. */
  type Cache = map<string, Bytes>

  // ---- roles and files ---------------------------------------------------------

  function FilenameForRole(role: string): Option<string> {
    if role == "kernel" then Some("vmlinuz")
    else if role == "initramfs" then Some("initramfs.img")
    else if role == "cmdline" || role == "bootconfig" then Some("cmdline")
    else None
  }

  function MemberRole(layer: Descriptor): Option<string> {
    if ANNOTATION_ROLE in layer.annotations then Some(layer.annotations[ANNOTATION_ROLE])
    else if ANNOTATION_NAME in layer.annotations then Some(layer.annotations[ANNOTATION_NAME])
    else if MEMBER_MEDIA_PREFIX <= layer.mediaType then Some(layer.mediaType[|MEMBER_MEDIA_PREFIX|..])
    else None
  }

  /** The file a layer is served as. */
  function FileOf(layer: Descriptor): Option<string> {
    if MemberRole(layer).None? then None else FilenameForRole(MemberRole(layer).value)
  }

  predicate IsInline(m: Member, role: string) {
    m.source == "inline" && (m.role == role || m.name == role)
  }

  /** The text of the first inline member of that role, if it carries one. */
  function InlineText(members: seq<Member>, role: string): Option<string> {
    if members == [] then None
    else if IsInline(members[0], role) then members[0].text
    else InlineText(members[1..], role)
  }

  /** The text that stands in for a layer's blob. */
  function InlineOf(spec: PalletSpec, layer: Descriptor): Option<string> {
    if MemberRole(layer).None? then None else InlineText(spec.members, MemberRole(layer).value)
  }

  function TempName(file: string): string {
    "." + file + ".tmp"
  }

  // ---- one layer ------------------------------------------------------------------

  /** How a write to the cache directory went; a refused one could not open its file. */
  datatype DiskAnswer = Whole | Torn(n: nat) | Refused

  /** What a blob request returned and how writing the file went. */
  datatype MemberAnswer = MemberAnswer(blob: Option<Bytes>, disk: DiskAnswer)

  datatype LayerResult =
    | Skipped
    | Inlined(file: string, content: Bytes)
    | Fetched(file: string, content: Bytes)
    | Broken(leaves: Option<(string, Bytes)>)

  function Prefix(b: Bytes, n: nat): Bytes {
    if n <= |b| then b[..n] else b
  }

  /** What a failed write leaves under the name it wrote to. */
  function Left(file: string, content: Bytes, disk: DiskAnswer): Option<(string, Bytes)> {
    if disk.Torn? then Some((file, Prefix(content, disk.n))) else None
  }

  function ServeLayer(c: Codecs, spec: PalletSpec, layer: Descriptor, a: MemberAnswer): LayerResult {
    match FileOf(layer)
    case None => Skipped
    case Some(file) =>
      match InlineOf(spec, layer)
      case Some(text) =>
        if a.disk.Whole? then Inlined(file, c.utf8(text)) else Broken(Left(file, c.utf8(text), a.disk))
      case None =>
        if a.blob.None? then Broken(None)
        else if c.hash(a.blob.value) != Lower(layer.digest) then Broken(None)
        else if layer.size != 0 && layer.size != |a.blob.value| then Broken(None)
        else if !a.disk.Whole? then Broken(Left(TempName(file), a.blob.value, a.disk))
        else Fetched(file, a.blob.value)
  }

  function Effect(cache: Cache, r: LayerResult): Cache {
    match r
    case Skipped => cache
    case Inlined(file, content) => cache[file := content]
    case Fetched(file, content) => (cache - {TempName(file)})[file := content]
    case Broken(leaves) => if leaves.None? then cache else cache[leaves.value.0 := leaves.value.1]
  }

  // ---- one refresh ------------------------------------------------------------------

  /** What the outside world answers during one refresh. `signature` is None when checking failed. */
  datatype Answers = Answers(
    manifest: Option<(Bytes, Option<string>)>, signature: Option<bool>, directory: bool,
    spec: Option<Bytes>, members: nat -> MemberAnswer)

  datatype Refreshed = Refreshed(status: AssetStatus, changed: bool)

  /** The manifest and the digest that pins it: the registry's own spelling if it gave one that matches the bytes. */
  function FetchManifest(c: Codecs, a: Answers): Option<(Bytes, string)> {
    match a.manifest
    case None => None
    case Some((bytes, header)) =>
      match header
      case None => Some((bytes, c.hash(bytes)))
      case Some(h) => if Lower(h) != c.hash(bytes) then None else Some((bytes, h))
  }

  /** A config blob as a spec; one that does not parse is an empty spec. */
  function ParsedSpec(c: Codecs, blob: Bytes): PalletSpec {
    if c.spec(blob).Some? then c.spec(blob).value else PalletSpec([])
  }

  /** The spec a refresh goes by: whatever was answered for the config blob, which nothing compares with its digest. */
  function SpecFrom(c: Codecs, config: Option<Bytes>): PalletSpec {
    if config.None? then PalletSpec([]) else ParsedSpec(c, config.value)
  }

  function SpecOf(c: Codecs, a: Answers): PalletSpec {
    SpecFrom(c, a.spec)
  }

  function VersionOf(m: Manifest, s: Settings): string {
    if VERSION_LABEL in m.annotations then m.annotations[VERSION_LABEL]
    else if VERSION in m.annotations then m.annotations[VERSION]
    else s.reference
  }

  function StatusFor(s: Settings, m: Manifest, digest: string, verified: bool): AssetStatus {
    AssetStatus(true, s.repo + ":" + s.reference, Some(VersionOf(m, s)), Some(digest), verified)
  }

  predicate IsPallet(m: Manifest) {
    m.artifactType == Some(PALLET_ARTIFACT_TYPE) || m.config.mediaType == PALLET_CONFIG_TYPE
  }

  datatype Progress = Progress(cache: Cache, served: seq<string>, ok: bool)

  /** The first n layers in turn, up to the first that breaks. */
  function ServeLayers(
    c: Codecs, spec: PalletSpec, layers: seq<Descriptor>, members: nat -> MemberAnswer, cache: Cache,
    n: nat): Progress
    requires n <= |layers|
  {
    if n == 0 then Progress(cache, [], true)
    else
      var before := ServeLayers(c, spec, layers, members, cache, n - 1);
      if !before.ok then before
      else
        var r := ServeLayer(c, spec, layers[n - 1], members(n - 1));
        Progress(Effect(before.cache, r),
                 if r.Inlined? || r.Fetched? then before.served + [r.file] else before.served,
                 !r.Broken?)
  }

  /** Whether a refresh gets past every check to the layers: the manifest, the pinned digest and the parsed pallet. */
  function ToServe(c: Codecs, s: Settings, current: Option<string>, a: Answers): Option<(string, Manifest)> {
    match FetchManifest(c, a)
    case None => None
    case Some((bytes, digest)) =>
      if Some(digest) == current || a.signature.None? || (s.requireSignature && a.signature == Some(false)) then None
      else
        match c.manifest(bytes)
        case None => None
        case Some(m) => if IsPallet(m) && a.directory then Some((digest, m)) else None
  }

  /** What a refresh leaves in the cache and what it answers; None is an error. */
  function Refresh(
    c: Codecs, s: Settings, cache: Cache, current: Option<string>, a: Answers): (Cache, Option<Refreshed>) {
    match FetchManifest(c, a)
    case None => (cache, None)
    case Some((bytes, digest)) =>
      if Some(digest) == current then
        (cache, if c.manifest(bytes).None? then None
                else Some(Refreshed(StatusFor(s, c.manifest(bytes).value, digest, true), false)))
      else
        match ToServe(c, s, current, a)
        case None => (cache, None)
        case Some((_, m)) =>
          var p := ServeLayers(c, SpecOf(c, a), m.layers, a.members, cache, |m.layers|);
          (p.cache,
           if p.ok && "vmlinuz" in p.served && "initramfs.img" in p.served
           then Some(Refreshed(StatusFor(s, m, digest, a.signature.value), true)) else None)
  }

  class PalletSource {
    const codecs: Codecs
    const settings: Settings
    var cache: Cache

    constructor (codecs: Codecs, settings: Settings, cache: Cache)
      ensures this.codecs == codecs && this.settings == settings && this.cache == cache
    {
      this.codecs, this.settings, this.cache := codecs, settings, cache;
    }

    method RefreshCache(current: Option<string>, a: Answers) returns (r: Option<Refreshed>)
      modifies this
      ensures (cache, r) == Refresh(codecs, settings, old(cache), current, a)
    {
      var fetched := FetchManifest(codecs, a);
      if fetched.None? {
        return None;
      }
      var (bytes, digest) := fetched.value;
      var parsed := codecs.manifest(bytes);
      if Some(digest) == current {
        return if parsed.None? then None else Some(Refreshed(StatusFor(settings, parsed.value, digest, true), false));
      }
      if a.signature.None? || (settings.requireSignature && !a.signature.value) {
        return None;
      }
      if parsed.None? || !IsPallet(parsed.value) || !a.directory {
        return None;
      }
      var manifest := parsed.value;
      var spec := SpecOf(codecs, a);
      var served: seq<string> := [];
      ghost var before := cache;
      for i := 0 to |manifest.layers|
        invariant ServeLayers(codecs, spec, manifest.layers, a.members, before, i) == Progress(cache, served, true)
      {
        var ok, file := ServeOne(spec, manifest.layers[i], a.members(i));
        if !ok {
          BrokenStays(codecs, spec, manifest.layers, a.members, before, i + 1, |manifest.layers|);
          return None;
        }
        if file.Some? {
          served := served + [file.value];
        }
      }
      if "vmlinuz" !in served || "initramfs.img" !in served {
        return None;
      }
      return Some(Refreshed(StatusFor(settings, manifest, digest, a.signature.value), true));
    }

    /** One layer: an inline member is written in place; a blob is verified, written aside and renamed. */
    method ServeOne(spec: PalletSpec, layer: Descriptor, a: MemberAnswer) returns (ok: bool, file: Option<string>)
      modifies this
      ensures var r := ServeLayer(codecs, spec, layer, a);
              && ok == !r.Broken? && cache == Effect(old(cache), r)
              && file == if r.Inlined? || r.Fetched? then Some(r.file) else None
    {
      var name := FileOf(layer);
      if name.None? {
        return true, None;
      }
      var text := InlineOf(spec, layer);
      if text.Some? {
        var content := codecs.utf8(text.value);
        if !a.disk.Whole? {
          if a.disk.Torn? {
            cache := cache[name.value := Prefix(content, a.disk.n)];
          }
          return false, None;
        }
        cache := cache[name.value := content];
        return true, name;
      }
      if a.blob.None? || codecs.hash(a.blob.value) != Lower(layer.digest) ||
         (layer.size != 0 && layer.size != |a.blob.value|) {
        return false, None;
      }
      var temp := TempName(name.value);
      if !a.disk.Whole? {
        if a.disk.Torn? {
          cache := cache[temp := Prefix(a.blob.value, a.disk.n)];
        }
        return false, None;
      }
      cache := cache[temp := a.blob.value];
      cache := (cache - {temp})[name.value := a.blob.value];
      return true, name;
    }
  }

  lemma {:induction false} BrokenStays(
    c: Codecs, spec: PalletSpec, layers: seq<Descriptor>, members: nat -> MemberAnswer, cache: Cache, n: nat, k: nat)
    requires n <= k <= |layers| && !ServeLayers(c, spec, layers, members, cache, n).ok
    ensures ServeLayers(c, spec, layers, members, cache, k) == ServeLayers(c, spec, layers, members, cache, n)
  {
    if n < k {
      BrokenStays(c, spec, layers, members, cache, n, k - 1);
    }
  }

  // ---- what a manifest names ----------------------------------------------------------

  /** The layer that decides a file: the last one served as it. */
  function Naming(layers: seq<Descriptor>, file: string): Option<Descriptor> {
    if layers == [] then None
    else if FileOf(layers[|layers| - 1]) == Some(file) then Some(layers[|layers| - 1])
    else Naming(layers[..|layers| - 1], file)
  }

  /** What a layer asks to be served: a text carried in the spec, or a blob of some digest and size. */
  datatype Wanted = Inline(content: Bytes) | Blob(digest: string, size: nat)

  function WantedBy(c: Codecs, spec: PalletSpec, layer: Descriptor): Wanted {
    match InlineOf(spec, layer)
    case Some(text) => Inline(c.utf8(text))
    case None => Blob(Lower(layer.digest), layer.size)
  }

  predicate Satisfies(c: Codecs, content: Bytes, w: Wanted) {
    match w
    case Inline(text) => content == text
    case Blob(digest, size) => c.hash(content) == digest && (size == 0 || size == |content|)
  }

  predicate Injective(hash: Bytes -> string, a: Bytes, b: Bytes) {
    hash(a) == hash(b) ==> a == b
  }

  /** What is served for `now` also serves for `held`; it can be told from texts, digests and sizes alone. */
  predicate Interchangeable(c: Codecs, held: Wanted, now: Wanted) {
    match (held, now)
    case (Inline(a), Inline(b)) => a == b
    case (Inline(a), Blob(digest, _)) => c.hash(a) == digest
    case (Blob(_, _), Inline(b)) => Satisfies(c, b, held)
    case (Blob(d, _), Blob(e, _)) => d == e
  }

  /** The two content checks agree with that test, collisions of the two contents aside. */
  lemma {:induction false} InterchangeableExactly(c: Codecs, held: Wanted, now: Wanted, before: Bytes, content: Bytes)
    requires Satisfies(c, before, held) && Satisfies(c, content, now) && Injective(c.hash, content, before)
    ensures Satisfies(c, content, held) <==> Interchangeable(c, held, now)
    ensures content == before <==> Interchangeable(c, held, now)
  {
  }

  predicate Holds(c: Codecs, spec: PalletSpec, layers: seq<Descriptor>, cache: Cache, file: string) {
    Naming(layers, file).Some? ==>
      file in cache && Satisfies(c, cache[file], WantedBy(c, spec, Naming(layers, file).value))
  }

  /** Every file the layers name is in the cache as they name it. */
  ghost predicate Agrees(c: Codecs, spec: PalletSpec, layers: seq<Descriptor>, cache: Cache) {
    forall file :: Holds(c, spec, layers, cache, file)
  }

  predicate IsServedName(file: string) {
    file == "vmlinuz" || file == "initramfs.img" || file == "cmdline"
  }

  lemma {:induction false} ServedNames(layer: Descriptor)
    ensures FileOf(layer).Some? ==> IsServedName(FileOf(layer).value)
  {
  }

  lemma {:induction false} TempIsNotServed(file: string, other: string)
    requires IsServedName(file)
    ensures TempName(other) != file
  {
    assert TempName(other)[0] == '.';
    assert "vmlinuz"[0] == 'v' && "initramfs.img"[0] == 'i' && "cmdline"[0] == 'c';
  }

  /** After any number of served layers the cache is as those layers name it; other files are as they were. */
  lemma {:induction false} ServedLayersAgree(
    c: Codecs, spec: PalletSpec, layers: seq<Descriptor>, members: nat -> MemberAnswer, cache: Cache, n: nat,
    file: string)
    requires n <= |layers| && IsServedName(file)
    requires ServeLayers(c, spec, layers, members, cache, n).ok
    ensures var p := ServeLayers(c, spec, layers, members, cache, n);
            && Holds(c, spec, layers[..n], p.cache, file)
            && (Naming(layers[..n], file).None? ==>
               (file in p.cache <==> file in cache) && (file in cache ==> p.cache[file] == cache[file]))
            && (file in p.served <==> Naming(layers[..n], file).Some?)
  {
    if n > 0 {
      ServedLayersAgree(c, spec, layers, members, cache, n - 1, file);
      var layer := layers[n - 1];
      assert layers[..n][..n - 1] == layers[..n - 1];
      ServedNames(layer);
      if FileOf(layer).Some? {
        TempIsNotServed(file, FileOf(layer).value);
      }
    }
  }

  // ---- runs of the server -----------------------------------------------------------------

  /** The digest is that of the bytes, in the registry's spelling or our own. */
  predicate Pins(c: Codecs, digest: string, bytes: Bytes) {
    digest == c.hash(bytes) || Lower(digest) == c.hash(bytes)
  }

  /** The server between refreshes; `accepted` remembers the digests whose signature was accepted so far. */
  datatype Server = Server(cache: Cache, status: AssetStatus, accepted: set<string>)

  /** One refresh round: a success replaces the status, an error keeps it. */
  function Round(c: Codecs, s: Settings, v: Server, a: Answers): Server {
    var (cache, r) := Refresh(c, s, v.cache, v.status.digest, a);
    var fetched := FetchManifest(c, a);
    var checked := fetched.Some? && Some(fetched.value.1) != v.status.digest && a.signature == Some(true);
    Server(cache, if r.Some? then r.value.status else v.status,
           if checked then v.accepted + {fetched.value.1} else v.accepted)
  }

  function Rounds(c: Codecs, s: Settings, v: Server, rounds: seq<Answers>): Server {
    if rounds == [] then v else Round(c, s, Rounds(c, s, v, rounds[..|rounds| - 1]), rounds[|rounds| - 1])
  }

  /**
   * A successful changed refresh leaves every file, kernel and initramfs among them,
   * as the manifest of the reported digest and the spec that was answered name it,
   * whatever was in the cache before; files they do not name are left alone.
   */
  lemma {:induction false} ChangedRefreshAgrees(
    c: Codecs, s: Settings, cache: Cache, current: Option<string>, a: Answers)
    requires var (_, r) := Refresh(c, s, cache, current, a); r.Some? && r.value.changed
    ensures var (after, r) := Refresh(c, s, cache, current, a);
            var (digest, m) := ToServe(c, s, current, a).value;
            && r.value.status.digest == Some(digest)
            && Pins(c, digest, a.manifest.value.0) && c.manifest(a.manifest.value.0) == Some(m)
            && Agrees(c, SpecOf(c, a), m.layers, after)
            && Naming(m.layers, "vmlinuz").Some? && Naming(m.layers, "initramfs.img").Some?
            && (forall f :: IsServedName(f) && Naming(m.layers, f).None? && f in cache ==>
               f in after && after[f] == cache[f])
  {
    var (after, r) := Refresh(c, s, cache, current, a);
    var (digest, m) := ToServe(c, s, current, a).value;
    assert m.layers[..|m.layers|] == m.layers;
    forall f | IsServedName(f)
      ensures Holds(c, SpecOf(c, a), m.layers, after, f)
      ensures Naming(m.layers, f).None? && f in cache ==> f in after && after[f] == cache[f]
      ensures f == "vmlinuz" || f == "initramfs.img" ==> Naming(m.layers, f).Some?
    {
      ServedLayersAgree(c, SpecOf(c, a), m.layers, a.members, cache, |m.layers|, f);
    }
    forall f
      ensures Holds(c, SpecOf(c, a), m.layers, after, f)
    {
      NamedFilesAreServed(m.layers, f);
    }
  }

  lemma {:induction false} NamedFilesAreServed(layers: seq<Descriptor>, file: string)
    ensures Naming(layers, file).Some? ==> IsServedName(file) && FileOf(Naming(layers, file).value) == Some(file)
  {
    if layers != [] {
      ServedNames(layers[|layers| - 1]);
      NamedFilesAreServed(layers[..|layers| - 1], file);
    }
  }

  // ---- in terms of what the manifest says --------------------------------------------------

  /** A layer's role: its role annotation, else its name annotation, else what its media type ends in. */
  predicate HasRole(layer: Descriptor, role: string) {
    if "org.stormblock.member.role" in layer.annotations then
      layer.annotations["org.stormblock.member.role"] == role
    else if "org.stormblock.member.name" in layer.annotations then
      layer.annotations["org.stormblock.member.name"] == role
    else
      layer.mediaType == "application/vnd.stormblock.member." + role
  }

  lemma {:induction false} RoleExactly(layer: Descriptor, role: string)
    ensures MemberRole(layer) == Some(role) <==> HasRole(layer, role)
  {
    var prefix := MEMBER_MEDIA_PREFIX;
    if prefix <= layer.mediaType {
      assert layer.mediaType == prefix + layer.mediaType[|prefix|..];
    }
    assert (prefix + role)[|prefix|..] == role;
  }

  lemma {:induction false} FileNamesDiffer()
    ensures "vmlinuz" != "initramfs.img" && "vmlinuz" != "cmdline" && "initramfs.img" != "cmdline"
  {
    assert "vmlinuz"[0] == 'v' && "initramfs.img"[0] == 'i' && "cmdline"[0] == 'c';
  }

  lemma {:induction false} RoleNamesDiffer()
    ensures "kernel" != "initramfs" && "kernel" != "cmdline" && "kernel" != "bootconfig"
    ensures "initramfs" != "cmdline" && "initramfs" != "bootconfig"
  {
    assert "kernel"[0] == 'k' && "initramfs"[0] == 'i' && "cmdline"[0] == 'c' && "bootconfig"[0] == 'b';
  }

  lemma {:induction false} FilesByRole(role: string)
    ensures FilenameForRole(role) == Some("vmlinuz") <==> role == "kernel"
    ensures FilenameForRole(role) == Some("initramfs.img") <==> role == "initramfs"
    ensures FilenameForRole(role) == Some("cmdline") <==> role == "cmdline" || role == "bootconfig"
    ensures FilenameForRole(role) == None <==>
            role != "kernel" && role != "initramfs" && role != "cmdline" && role != "bootconfig"
  {
    FileNamesDiffer();
    RoleNamesDiffer();
  }

  /** The layer has one of these roles. */
  ghost predicate HasOneOf(layer: Descriptor, roles: set<string>) {
    exists role :: role in roles && HasRole(layer, role)
  }

  lemma {:induction false} FileOfExactly(layer: Descriptor)
    ensures FileOf(layer) == Some("vmlinuz") <==> HasOneOf(layer, {"kernel"})
    ensures FileOf(layer) == Some("initramfs.img") <==> HasOneOf(layer, {"initramfs"})
    ensures FileOf(layer) == Some("cmdline") <==> HasOneOf(layer, {"cmdline", "bootconfig"})
    ensures FileOf(layer) == None <==> !HasOneOf(layer, {"kernel", "initramfs", "cmdline", "bootconfig"})
  {
    forall role
      ensures MemberRole(layer) == Some(role) <==> HasRole(layer, role)
    {
      RoleExactly(layer, role);
    }
    if MemberRole(layer).Some? {
      FilesByRole(MemberRole(layer).value);
    }
  }

  /** The last layer to have one of the roles. */
  ghost predicate LastOf(layers: seq<Descriptor>, k: nat, roles: set<string>) {
    k < |layers| && HasOneOf(layers[k], roles) && forall j :: k < j < |layers| ==> !HasOneOf(layers[j], roles)
  }

  predicate IsInlineFor(m: Member, role: string) {
    m.source == "inline" && (m.role == role || m.name == role)
  }

  /** The first inline member for the role carries this text. */
  ghost predicate CarriesText(spec: PalletSpec, role: string, text: string) {
    exists k :: 0 <= k < |spec.members| && IsInlineFor(spec.members[k], role) && spec.members[k].text == Some(text) &&
                forall j :: 0 <= j < k ==> !IsInlineFor(spec.members[j], role)
  }

  lemma {:induction false} InlineTextExactly(members: seq<Member>, role: string, text: string)
    ensures InlineText(members, role) == Some(text) <==> CarriesText(PalletSpec(members), role, text)
  {
    if members != [] {
      InlineTextExactly(members[1..], role, text);
      if IsInlineFor(members[0], role) {
        if members[0].text == Some(text) {
          assert CarriesText(PalletSpec(members), role, text);
        }
      } else if CarriesText(PalletSpec(members), role, text) {
        var k :| 0 <= k < |members| && IsInlineFor(members[k], role) && members[k].text == Some(text) &&
                 forall j :: 0 <= j < k ==> !IsInlineFor(members[j], role);
        assert members[1..][k - 1] == members[k];
        assert forall j :: 0 <= j < k - 1 ==> members[1..][j] == members[j + 1];
        assert CarriesText(PalletSpec(members[1..]), role, text);
      }
    }
  }

  /**
   * The content is the text the spec carries for the role, or, when it carries none, a
   * blob of the layer's digest and size.
   */
  ghost predicate IsContent(c: Codecs, spec: PalletSpec, role: string, layer: Descriptor, content: Bytes) {
    if exists text :: CarriesText(spec, role, text)
    then exists text :: CarriesText(spec, role, text) && content == c.utf8(text)
    else c.hash(content) == Lower(layer.digest) && (layer.size == 0 || layer.size == |content|)
  }

  lemma {:induction false} WantedExactly(c: Codecs, spec: PalletSpec, role: string, layer: Descriptor, content: Bytes)
    requires HasRole(layer, role)
    ensures Satisfies(c, content, WantedBy(c, spec, layer)) <==> IsContent(c, spec, role, layer, content)
  {
    RoleExactly(layer, role);
    assert PalletSpec(spec.members) == spec;
    forall text
      ensures InlineText(spec.members, role) == Some(text) <==> CarriesText(spec, role, text)
    {
      InlineTextExactly(spec.members, role, text);
    }
    assert InlineOf(spec, layer) == InlineText(spec.members, role);
  }

  /** The file is what the last layer with one of the roles asks for. */
  ghost predicate ServedByRole(
    c: Codecs, spec: PalletSpec, layers: seq<Descriptor>, roles: set<string>, cache: Cache, file: string) {
    exists k: nat, role :: LastOf(layers, k, roles) && role in roles && HasRole(layers[k], role) &&
                           file in cache && IsContent(c, spec, role, layers[k], cache[file])
  }

  lemma {:induction false} NamingIsLast(layers: seq<Descriptor>, file: string) returns (k: nat)
    requires Naming(layers, file).Some?
    ensures k < |layers| && layers[k] == Naming(layers, file).value && FileOf(layers[k]) == Some(file)
    ensures forall j :: k < j < |layers| ==> FileOf(layers[j]) != Some(file)
  {
    if FileOf(layers[|layers| - 1]) == Some(file) {
      k := |layers| - 1;
    } else {
      k := NamingIsLast(layers[..|layers| - 1], file);
    }
  }

  lemma {:induction false} NamingNone(layers: seq<Descriptor>, file: string)
    ensures Naming(layers, file) == None <==> forall k :: 0 <= k < |layers| ==> FileOf(layers[k]) != Some(file)
  {
    if layers != [] {
      NamingNone(layers[..|layers| - 1], file);
    }
  }

  /** The layers served as the file are those of the roles. */
  ghost predicate DecidedBy(file: string, roles: set<string>) {
    forall layer :: FileOf(layer) == Some(file) <==> HasOneOf(layer, roles)
  }

  lemma {:induction false} FilesAreRoles()
    ensures DecidedBy("vmlinuz", {"kernel"})
    ensures DecidedBy("initramfs.img", {"initramfs"})
    ensures DecidedBy("cmdline", {"cmdline", "bootconfig"})
  {
    forall layer
      ensures FileOf(layer) == Some("vmlinuz") <==> HasOneOf(layer, {"kernel"})
      ensures FileOf(layer) == Some("initramfs.img") <==> HasOneOf(layer, {"initramfs"})
      ensures FileOf(layer) == Some("cmdline") <==> HasOneOf(layer, {"cmdline", "bootconfig"})
    {
      FileOfExactly(layer);
    }
  }

  lemma {:induction false} HeldByRole(
    c: Codecs, spec: PalletSpec, layers: seq<Descriptor>, roles: set<string>, cache: Cache, file: string)
    requires DecidedBy(file, roles)
    requires Holds(c, spec, layers, cache, file)
    ensures Naming(layers, file).Some? <==> exists k :: 0 <= k < |layers| && HasOneOf(layers[k], roles)
    ensures Naming(layers, file).Some? ==> ServedByRole(c, spec, layers, roles, cache, file)
  {
    NamingNone(layers, file);
    if Naming(layers, file).Some? {
      var k := NamingIsLast(layers, file);
      assert HasOneOf(layers[k], roles);
      var role :| role in roles && HasRole(layers[k], role);
      WantedExactly(c, spec, role, layers[k], cache[file]);
      assert LastOf(layers, k, roles);
    }
  }

  /**
   * A successful changed refresh leaves as the kernel what the last layer of that role
   * asks for, as the initramfs likewise, and as the command line what the last layer of
   * either of its roles does; without such a layer the command line is left as it was.
   */
  lemma {:induction false} RolesDecideFiles(c: Codecs, s: Settings, cache: Cache, current: Option<string>, a: Answers)
    requires var (_, r) := Refresh(c, s, cache, current, a); r.Some? && r.value.changed
    ensures var after := Refresh(c, s, cache, current, a).0;
            var layers := ToServe(c, s, current, a).value.1.layers;
            && ServedByRole(c, SpecOf(c, a), layers, {"kernel"}, after, "vmlinuz")
            && ServedByRole(c, SpecOf(c, a), layers, {"initramfs"}, after, "initramfs.img")
            && if exists k :: 0 <= k < |layers| && HasOneOf(layers[k], {"cmdline", "bootconfig"})
               then ServedByRole(c, SpecOf(c, a), layers, {"cmdline", "bootconfig"}, after, "cmdline")
               else "cmdline" in cache ==> "cmdline" in after && after["cmdline"] == cache["cmdline"]
  {
    FilesAreRoles();
    RefreshedByRole(c, s, cache, current, a, "vmlinuz", {"kernel"});
    RefreshedByRole(c, s, cache, current, a, "initramfs.img", {"initramfs"});
    RefreshedByRole(c, s, cache, current, a, "cmdline", {"cmdline", "bootconfig"});
    ChangedRefreshAgrees(c, s, cache, current, a);
  }

  lemma {:induction false} RefreshedByRole(
    c: Codecs, s: Settings, cache: Cache, current: Option<string>, a: Answers, file: string, roles: set<string>)
    requires var (_, r) := Refresh(c, s, cache, current, a); r.Some? && r.value.changed
    requires DecidedBy(file, roles) && IsServedName(file)
    ensures var after := Refresh(c, s, cache, current, a).0;
            var layers := ToServe(c, s, current, a).value.1.layers;
            && (Naming(layers, file).Some? <==> exists k :: 0 <= k < |layers| && HasOneOf(layers[k], roles))
            && (Naming(layers, file).Some? ==> ServedByRole(c, SpecOf(c, a), layers, roles, after, file))
            && (Naming(layers, file).None? && file in cache ==> file in after && after[file] == cache[file])
  {
    var after := Refresh(c, s, cache, current, a).0;
    var layers := ToServe(c, s, current, a).value.1.layers;
    ChangedRefreshAgrees(c, s, cache, current, a);
    HeldByRole(c, SpecOf(c, a), layers, roles, after, file);
  }

  /** A layer of any other role is passed over. */
  lemma {:induction false} OtherRolesChangeNothing(
    c: Codecs, spec: PalletSpec, layer: Descriptor, a: MemberAnswer, cache: Cache)
    requires !HasOneOf(layer, {"kernel", "initramfs", "cmdline", "bootconfig"})
    ensures ServeLayer(c, spec, layer, a) == Skipped && Effect(cache, ServeLayer(c, spec, layer, a)) == cache
  {
    FileOfExactly(layer);
  }

  // ---- when a refresh succeeds, and what it says -----------------------------------------------

  /** The answer to a layer's request does: none is needed, or its text is written whole, or its blob matches and is. */
  predicate Deliverable(c: Codecs, spec: PalletSpec, layer: Descriptor, a: MemberAnswer) {
    if FileOf(layer).None? then true
    else if InlineOf(spec, layer).Some? then a.disk.Whole?
    else
      && a.disk.Whole? && a.blob.Some? && c.hash(a.blob.value) == Lower(layer.digest)
      && (layer.size == 0 || layer.size == |a.blob.value|)
  }

  lemma {:induction false} LayersServeExactly(
    c: Codecs, spec: PalletSpec, layers: seq<Descriptor>, members: nat -> MemberAnswer, cache: Cache, n: nat)
    requires n <= |layers|
    ensures ServeLayers(c, spec, layers, members, cache, n).ok <==>
            forall k :: 0 <= k < n ==> Deliverable(c, spec, layers[k], members(k))
  {
    if n > 0 {
      LayersServeExactly(c, spec, layers, members, cache, n - 1);
    }
  }

  /** What the registry answered for the tag: the manifest's bytes, under its own spelling of their digest or none. */
  ghost predicate Pinned(c: Codecs, a: Answers, bytes: Bytes, digest: string) {
    && a.manifest.Some? && a.manifest.value.0 == bytes
    && if a.manifest.value.1.None? then digest == c.hash(bytes)
       else a.manifest.value.1 == Some(digest) && Lower(digest) == c.hash(bytes)
  }

  /** A pallet that may be served: of either type, with its signature checked and, where required, accepted. */
  predicate MayServe(s: Settings, m: Manifest, a: Answers) {
    && a.signature.Some? && (s.requireSignature ==> a.signature == Some(true)) && a.directory
    && (m.artifactType == Some("application/vnd.stormblock.pallet.v1+json") ||
        m.config.mediaType == "application/vnd.stormblock.pallet.config.v1+json")
  }

  /**
   * For every answer: a refresh to a new digest succeeds if and only if its pallet may be
   * served, each layer is delivered, and a kernel and an initramfs are among them.
   */
  lemma {:induction false} ChangedRefreshExactly(
    c: Codecs, s: Settings, cache: Cache, current: Option<string>, a: Answers, bytes: Bytes, digest: string,
    m: Manifest)
    requires Pinned(c, a, bytes, digest) && Some(digest) != current && c.manifest(bytes) == Some(m)
    ensures var r := Refresh(c, s, cache, current, a).1;
            && (r.Some? <==>
                && MayServe(s, m, a)
                && (forall k :: 0 <= k < |m.layers| ==> Deliverable(c, SpecOf(c, a), m.layers[k], a.members(k)))
                && (exists k :: 0 <= k < |m.layers| && HasOneOf(m.layers[k], {"kernel"}))
                && (exists k :: 0 <= k < |m.layers| && HasOneOf(m.layers[k], {"initramfs"})))
            && (r.Some? ==> r.value.changed && Reports(s, m, digest, a.signature == Some(true), r.value.status))
  {
    LayersServeExactly(c, SpecOf(c, a), m.layers, a.members, cache, |m.layers|);
    if ServeLayers(c, SpecOf(c, a), m.layers, a.members, cache, |m.layers|).ok {
      ServedRoles(c, SpecOf(c, a), m.layers, a.members, cache);
    }
  }

  lemma {:induction false} ServedRoles(
    c: Codecs, spec: PalletSpec, layers: seq<Descriptor>, members: nat -> MemberAnswer, cache: Cache)
    requires ServeLayers(c, spec, layers, members, cache, |layers|).ok
    ensures var served := ServeLayers(c, spec, layers, members, cache, |layers|).served;
            && ("vmlinuz" in served <==> exists k :: 0 <= k < |layers| && HasOneOf(layers[k], {"kernel"}))
            && ("initramfs.img" in served <==> exists k :: 0 <= k < |layers| && HasOneOf(layers[k], {"initramfs"}))
  {
    FilesAreRoles();
    assert layers[..|layers|] == layers;
    NamingNone(layers, "vmlinuz");
    NamingNone(layers, "initramfs.img");
    ServedLayersAgree(c, spec, layers, members, cache, |layers|, "vmlinuz");
    ServedLayersAgree(c, spec, layers, members, cache, |layers|, "initramfs.img");
  }

  /**
   * What a status says of a pallet: its place, its version as labelled, else as
   * annotated, else the tag, and its digest.
   */
  predicate Reports(s: Settings, m: Manifest, digest: string, verified: bool, status: AssetStatus) {
    && status.ready && status.detail == s.repo + ":" + s.reference && status.digest == Some(digest)
    && (status.signatureVerified <==> verified)
    && status.version ==
       (if "org.stormblock.pallet.version_label" in m.annotations
        then Some(m.annotations["org.stormblock.pallet.version_label"])
        else if "org.stormblock.pallet.version" in m.annotations
        then Some(m.annotations["org.stormblock.pallet.version"])
        else Some(s.reference))
  }

  /** A digest already served costs nothing: the cache is left alone and its manifest reported, as verified. */
  lemma {:induction false} UnchangedRefreshExactly(
    c: Codecs, s: Settings, cache: Cache, a: Answers, bytes: Bytes, digest: string)
    requires Pinned(c, a, bytes, digest)
    ensures var (after, r) := Refresh(c, s, cache, Some(digest), a);
            && after == cache
            && (r.Some? <==> c.manifest(bytes).Some?)
            && (r.Some? ==> !r.value.changed && Reports(s, c.manifest(bytes).value, digest, true, r.value.status))
  {
  }

  /** Without a manifest whose bytes match the digest given for it, or one that parses, nothing is touched. */
  lemma {:induction false} UnpinnedRefreshFails(
    c: Codecs, s: Settings, cache: Cache, current: Option<string>, a: Answers)
    requires forall bytes, digest :: Pinned(c, a, bytes, digest) ==> c.manifest(bytes).None?
    ensures Refresh(c, s, cache, current, a) == (cache, None)
  {
    if FetchManifest(c, a).Some? {
      assert Pinned(c, a, FetchManifest(c, a).value.0, FetchManifest(c, a).value.1);
    }
  }

  /** Whatever happens, no refresh touches any other file of the directory than these. */
  lemma {:induction false} OnlyServedFilesChange(
    c: Codecs, s: Settings, cache: Cache, current: Option<string>, a: Answers, file: string)
    requires IsOtherFile(file)
    ensures var after := Refresh(c, s, cache, current, a).0;
            (file in after <==> file in cache) && (file in cache ==> after[file] == cache[file])
  {
    if ToServe(c, s, current, a).Some? {
      var m := ToServe(c, s, current, a).value.1;
      forall layer | FileOf(layer).Some?
        ensures file != FileOf(layer).value && file != TempName(FileOf(layer).value)
      {
        ServedUnderOtherNames(layer, file);
      }
      LayersLeave(c, SpecOf(c, a), m.layers, a.members, cache, |m.layers|, file);
    }
  }

  /** A name no layer is served or written aside under. */
  predicate IsOtherFile(file: string) {
    && file != "vmlinuz" && file != "initramfs.img" && file != "cmdline"
    && file != ".vmlinuz.tmp" && file != ".initramfs.img.tmp" && file != ".cmdline.tmp"
  }

  lemma {:induction false} ServedUnderOtherNames(layer: Descriptor, file: string)
    requires IsOtherFile(file) && FileOf(layer).Some?
    ensures file != FileOf(layer).value && file != TempName(FileOf(layer).value)
  {
    ServedNames(layer);
    assert TempName("vmlinuz") == ".vmlinuz.tmp" && TempName("initramfs.img") == ".initramfs.img.tmp";
    assert TempName("cmdline") == ".cmdline.tmp";
  }

  lemma {:induction false} LayersLeave(
    c: Codecs, spec: PalletSpec, layers: seq<Descriptor>, members: nat -> MemberAnswer, cache: Cache, n: nat,
    file: string)
    requires n <= |layers|
    requires forall layer :: FileOf(layer).Some? ==>
             file != FileOf(layer).value && file != TempName(FileOf(layer).value)
    ensures var after := ServeLayers(c, spec, layers, members, cache, n).cache;
            (file in after <==> file in cache) && (file in cache ==> after[file] == cache[file])
  {
    if n > 0 {
      LayersLeave(c, spec, layers, members, cache, n - 1, file);
    }
  }

  // ---- the spec the digest pins -----------------------------------------------------------

  /** The blob is the one the manifest names as its config. */
  predicate IsConfig(c: Codecs, m: Manifest, blob: Bytes) {
    c.hash(blob) == Lower(m.config.digest)
  }

  /** Both answers are the config blob the manifest names, which does not collide with another. */
  predicate SameConfig(c: Codecs, m: Manifest, a: Option<Bytes>, b: Option<Bytes>) {
    && a.Some? && b.Some? && IsConfig(c, m, a.value) && IsConfig(c, m, b.value)
    && Injective(c.hash, a.value, b.value)
  }

  /** For every file, what one spec has the layers ask for serves for the other as well. */
  ghost predicate ServeAlike(c: Codecs, held: PalletSpec, now: PalletSpec, layers: seq<Descriptor>) {
    forall f :: Naming(layers, f).Some? ==>
      Interchangeable(c, WantedBy(c, held, Naming(layers, f).value), WantedBy(c, now, Naming(layers, f).value))
  }

  /** No file in the cache collides with a text the spec carries for it. */
  ghost predicate NoTextCollides(c: Codecs, spec: PalletSpec, layers: seq<Descriptor>, cache: Cache) {
    forall f :: Naming(layers, f).Some? && f in cache && InlineOf(spec, Naming(layers, f).value).Some? ==>
      Injective(c.hash, cache[f], c.utf8(InlineOf(spec, Naming(layers, f).value).value))
  }

  /** A cache that agrees under one spec agrees under another exactly when the two serve alike. */
  lemma {:induction false} AgreementCarriesOverExactly(
    c: Codecs, held: PalletSpec, now: PalletSpec, layers: seq<Descriptor>, cache: Cache)
    requires Agrees(c, now, layers, cache) && NoTextCollides(c, held, layers, cache)
    ensures Agrees(c, held, layers, cache) <==> ServeAlike(c, held, now, layers)
  {
    forall f
      ensures Holds(c, held, layers, cache, f) <==>
              (Naming(layers, f).Some? ==>
                 Interchangeable(c, WantedBy(c, held, Naming(layers, f).value),
                                 WantedBy(c, now, Naming(layers, f).value)))
    {
      assert Holds(c, now, layers, cache, f);
    }
    if Agrees(c, held, layers, cache) {
      forall f | Naming(layers, f).Some?
        ensures Interchangeable(c, WantedBy(c, held, Naming(layers, f).value),
                                WantedBy(c, now, Naming(layers, f).value))
      {
        assert Holds(c, held, layers, cache, f);
      }
    }
  }

  /**
   * The cache agrees with what the reported digest pins, config blob included, exactly
   * when the answered spec serves as the pinned one does; an answer with the config
   * blob's digest always does.
   */
  lemma {:induction false} ChangedRefreshPinsExactly(
    c: Codecs, s: Settings, cache: Cache, current: Option<string>, a: Answers, config: Bytes)
    requires var (_, r) := Refresh(c, s, cache, current, a); r.Some? && r.value.changed
    requires var m := ToServe(c, s, current, a).value.1;
             IsConfig(c, m, config) &&
             NoTextCollides(c, ParsedSpec(c, config), m.layers, Refresh(c, s, cache, current, a).0)
    ensures var m := ToServe(c, s, current, a).value.1;
            var after := Refresh(c, s, cache, current, a).0;
            && (Agrees(c, ParsedSpec(c, config), m.layers, after) <==>
                ServeAlike(c, ParsedSpec(c, config), SpecOf(c, a), m.layers))
            && (SameConfig(c, m, a.spec, Some(config)) ==> Agrees(c, ParsedSpec(c, config), m.layers, after))
  {
    var m := ToServe(c, s, current, a).value.1;
    ChangedRefreshAgrees(c, s, cache, current, a);
    AgreementCarriesOverExactly(c, ParsedSpec(c, config), SpecOf(c, a), m.layers, Refresh(c, s, cache, current, a).0);
  }

  function LayerOf(role: string, digest: string): Descriptor {
    Descriptor("", digest, 0, map[ANNOTATION_ROLE := role])
  }

  /** A pallet of a kernel and an initramfs, both blobs. */
  function TwoBlobs(config: string, kernel: string, initramfs: string): Manifest {
    Manifest(Some(PALLET_ARTIFACT_TYPE), Descriptor(PALLET_CONFIG_TYPE, config, 0, map[]),
             [LayerOf("kernel", kernel), LayerOf("initramfs", initramfs)], map[])
  }

  lemma {:induction false} SwappedLayers(
    c: Codecs, spec: PalletSpec, layers: seq<Descriptor>, members: nat -> MemberAnswer, cache: Cache,
    initramfs: Bytes, text: string)
    requires |layers| == 2
    requires layers == [LayerOf("kernel", layers[0].digest), LayerOf("initramfs", layers[1].digest)]
    requires spec == PalletSpec([Member("kernel", "kernel", "inline", Some(text))])
    requires members(0).disk.Whole? && members(1) == MemberAnswer(Some(initramfs), Whole)
    requires c.hash(initramfs) == Lower(layers[1].digest)
    ensures var p := ServeLayers(c, spec, layers, members, cache, 2);
            && p.ok && p.served == ["vmlinuz", "initramfs.img"]
            && "vmlinuz" in p.cache && p.cache["vmlinuz"] == c.utf8(text)
  {
    assert MemberRole(layers[0]) == Some("kernel") && MemberRole(layers[1]) == Some("initramfs");
    assert spec.members[1..] == [];
    assert InlineText(spec.members, "kernel") == Some(text) && InlineText(spec.members, "initramfs") == None;
    assert ServeLayer(c, spec, layers[0], members(0)) == Inlined("vmlinuz", c.utf8(text));
    assert ServeLayer(c, spec, layers[1], members(1)) == Fetched("initramfs.img", initramfs);
    assert ServeLayers(c, spec, layers, members, cache, 1) ==
           Progress(cache["vmlinuz" := c.utf8(text)], ["vmlinuz"], true);
    TempIsNotServed("vmlinuz", "initramfs.img");
  }

  /**
   * The run that breaks the promise: the signed manifest names its kernel by digest, the
   * registry answers another blob for the config, and that blob carries a text for the
   * kernel's role. The refresh reports the signed digest as verified and serves the text.
   */
  lemma {:induction false} SwappedConfigReplacesTheKernel(
    c: Codecs, s: Settings, cache: Cache, current: Option<string>, bytes: Bytes, m: Manifest,
    config: Bytes, swapped: Bytes, initramfs: Bytes, text: string)
    requires s.requireSignature && c.manifest(bytes) == Some(m) && current != Some(c.hash(bytes))
    requires |m.layers| == 2 && m == TwoBlobs(m.config.digest, m.layers[0].digest, m.layers[1].digest)
    requires IsConfig(c, m, config) && c.spec(config) == Some(PalletSpec([]))
    requires !IsConfig(c, m, swapped)
    requires c.spec(swapped) == Some(PalletSpec([Member("kernel", "kernel", "inline", Some(text))]))
    requires c.hash(c.utf8(text)) != Lower(m.layers[0].digest) && c.hash(initramfs) == Lower(m.layers[1].digest)
    ensures var a := Answers(Some((bytes, None)), Some(true), true, Some(swapped),
                             _ => MemberAnswer(Some(initramfs), Whole));
            var (after, r) := Refresh(c, s, cache, current, a);
            && r.Some? && r.value.changed
            && r.value.status.digest == Some(c.hash(bytes)) && r.value.status.signatureVerified
            && "vmlinuz" in after && after["vmlinuz"] == c.utf8(text)
            && !Agrees(c, ParsedSpec(c, config), m.layers, after)
  {
    var a := Answers(Some((bytes, None)), Some(true), true, Some(swapped), _ => MemberAnswer(Some(initramfs), Whole));
    var kernel := m.layers[0];
    var spec := SpecOf(c, a);
    assert ToServe(c, s, current, a) == Some((c.hash(bytes), m));
    SwappedLayers(c, spec, m.layers, a.members, cache, initramfs, text);
    var after := Refresh(c, s, cache, current, a).0;
    assert m.layers[..1] == [kernel];
    assert Naming(m.layers, "vmlinuz") == Some(kernel);
    assert InlineOf(ParsedSpec(c, config), kernel) == None;
    assert !Holds(c, ParsedSpec(c, config), m.layers, after, "vmlinuz");
  }

  /**
   * Two caches that agree with one manifest, each under the spec that was answered for
   * it, hold the same file exactly when what the two specs ask for it is
   * interchangeable, collisions of the two files aside.
   */
  lemma {:induction false} AgreementDeterminesFile(
    c: Codecs, specA: PalletSpec, specB: PalletSpec, layers: seq<Descriptor>, a: Cache, b: Cache, file: string)
    requires Agrees(c, specA, layers, a) && Agrees(c, specB, layers, b) && Naming(layers, file).Some?
    requires file in a && file in b ==> Injective(c.hash, b[file], a[file])
    ensures file in a && file in b
    ensures var layer := Naming(layers, file).value;
            a[file] == b[file] <==> Interchangeable(c, WantedBy(c, specA, layer), WantedBy(c, specB, layer))
  {
    assert Holds(c, specA, layers, a, file) && Holds(c, specB, layers, b, file);
    var layer := Naming(layers, file).value;
    InterchangeableExactly(c, WantedBy(c, specA, layer), WantedBy(c, specB, layer), a[file], b[file]);
  }

  /**
   * Two successful changed refreshes of one manifest, from any caches, leave the same
   * file exactly under that condition; config blobs of the digest the manifest names
   * meet it for every file.
   */
  lemma {:induction false} RefreshesServeAlikeExactly(
    c: Codecs, s: Settings, cacheA: Cache, currentA: Option<string>, a: Answers,
    cacheB: Cache, currentB: Option<string>, b: Answers, file: string)
    requires var r := Refresh(c, s, cacheA, currentA, a).1; r.Some? && r.value.changed
    requires var r := Refresh(c, s, cacheB, currentB, b).1; r.Some? && r.value.changed
    requires var m := ToServe(c, s, currentA, a).value.1;
             m == ToServe(c, s, currentB, b).value.1 && Naming(m.layers, file).Some?
    requires var x, y := Refresh(c, s, cacheA, currentA, a).0, Refresh(c, s, cacheB, currentB, b).0;
             file in x && file in y ==> Injective(c.hash, y[file], x[file])
    ensures var x, y := Refresh(c, s, cacheA, currentA, a).0, Refresh(c, s, cacheB, currentB, b).0;
            var m := ToServe(c, s, currentA, a).value.1;
            var layer := Naming(m.layers, file).value;
            && file in x && file in y
            && (x[file] == y[file] <==>
                Interchangeable(c, WantedBy(c, SpecOf(c, a), layer), WantedBy(c, SpecOf(c, b), layer)))
            && (SameConfig(c, m, a.spec, b.spec) ==> x[file] == y[file])
  {
    var m := ToServe(c, s, currentA, a).value.1;
    ChangedRefreshAgrees(c, s, cacheA, currentA, a);
    ChangedRefreshAgrees(c, s, cacheB, currentB, b);
    AgreementDeterminesFile(c, SpecOf(c, a), SpecOf(c, b), m.layers, Refresh(c, s, cacheA, currentA, a).0,
                            Refresh(c, s, cacheB, currentB, b).0, file);
  }

  // ---- over whole runs ------------------------------------------------------------------------

  /** A pallet the cache is known to hold: the digest reported for it, the config blob answered and the manifest. */
  datatype Pallet = Pallet(digest: string, config: Option<Bytes>, manifest: Manifest)

  /** The pallet of the last successful changed refresh, unless a refresh that failed since has written to the cache. */
  function Settled(c: Codecs, s: Settings, v: Server, rounds: seq<Answers>): Option<Pallet> {
    if rounds == [] then None
    else
      var init, a := rounds[..|rounds| - 1], rounds[|rounds| - 1];
      var before := Rounds(c, s, v, init);
      var (cache, r) := Refresh(c, s, before.cache, before.status.digest, a);
      if r.Some? && r.value.changed then
        var (digest, m) := ToServe(c, s, before.status.digest, a).value;
        Some(Pallet(digest, a.spec, m))
      else if cache == before.cache then Settled(c, s, v, init)
      else None
  }

  /**
   * Over any run, whatever fails: once a changed refresh has succeeded, the status
   * reports the digest of its manifest, and the cache is as that manifest and the
   * answered spec name it, until a later refresh fails after writing a file.
   */
  lemma {:induction false} SettledServerAgrees(c: Codecs, s: Settings, v: Server, rounds: seq<Answers>)
    requires Settled(c, s, v, rounds).Some?
    ensures var pallet := Settled(c, s, v, rounds).value;
            var after := Rounds(c, s, v, rounds);
            && after.status.ready && after.status.digest == Some(pallet.digest)
            && (exists bytes :: Pins(c, pallet.digest, bytes) && c.manifest(bytes) == Some(pallet.manifest))
            && Agrees(c, SpecFrom(c, pallet.config), pallet.manifest.layers, after.cache)
            && Naming(pallet.manifest.layers, "vmlinuz").Some? && Naming(pallet.manifest.layers, "initramfs.img").Some?
  {
    var init, a := rounds[..|rounds| - 1], rounds[|rounds| - 1];
    var before := Rounds(c, s, v, init);
    var (cache, r) := Refresh(c, s, before.cache, before.status.digest, a);
    if r.Some? && r.value.changed {
      ChangedRefreshAgrees(c, s, before.cache, before.status.digest, a);
      var bytes := a.manifest.value.0;
      assert Pins(c, r.value.status.digest.value, bytes);
    } else {
      SettledServerAgrees(c, s, v, init);
    }
  }

  /** And it agrees with all that digest pins exactly when the answered spec serves as the pinned one. */
  lemma {:induction false} SettledServerPinsExactly(
    c: Codecs, s: Settings, v: Server, rounds: seq<Answers>, config: Bytes)
    requires Settled(c, s, v, rounds).Some? && IsConfig(c, Settled(c, s, v, rounds).value.manifest, config)
    requires NoTextCollides(c, ParsedSpec(c, config), Settled(c, s, v, rounds).value.manifest.layers,
                            Rounds(c, s, v, rounds).cache)
    ensures var pallet := Settled(c, s, v, rounds).value;
            var cache := Rounds(c, s, v, rounds).cache;
            && (Agrees(c, ParsedSpec(c, config), pallet.manifest.layers, cache) <==>
                ServeAlike(c, ParsedSpec(c, config), SpecFrom(c, pallet.config), pallet.manifest.layers))
            && (SameConfig(c, pallet.manifest, pallet.config, Some(config)) ==>
                  Agrees(c, ParsedSpec(c, config), pallet.manifest.layers, cache))
  {
    var pallet := Settled(c, s, v, rounds).value;
    SettledServerAgrees(c, s, v, rounds);
    AgreementCarriesOverExactly(c, ParsedSpec(c, config), SpecFrom(c, pallet.config), pallet.manifest.layers,
                                Rounds(c, s, v, rounds).cache);
  }

  // ---- signatures ------------------------------------------------------------------------

  /** This round checked the digest's signature, which is only done for a new digest, and accepted it. */
  predicate Accepts(c: Codecs, before: Server, a: Answers, digest: string) {
    && a.signature == Some(true) && before.status.digest != Some(digest)
    && FetchManifest(c, a).Some? && FetchManifest(c, a).value.1 == digest
  }

  /** Some round of the run had this digest's signature accepted. */
  ghost predicate AcceptedIn(c: Codecs, s: Settings, v: Server, rounds: seq<Answers>, digest: string) {
    exists i :: 0 <= i < |rounds| && Accepts(c, Rounds(c, s, v, rounds[..i]), rounds[i], digest)
  }

  lemma {:induction false} AcceptedOneMore(
    c: Codecs, s: Settings, v: Server, init: seq<Answers>, a: Answers, digest: string)
    ensures AcceptedIn(c, s, v, init + [a], digest) <==>
            AcceptedIn(c, s, v, init, digest) || Accepts(c, Rounds(c, s, v, init), a, digest)
  {
    var rounds := init + [a];
    assert rounds[..|init|] == init && rounds[|init|] == a;
    assert forall i :: 0 <= i < |init| ==> init[..i] == rounds[..i] && init[i] == rounds[i];
    if AcceptedIn(c, s, v, init, digest) {
      var i :| 0 <= i < |init| && Accepts(c, Rounds(c, s, v, init[..i]), init[i], digest);
      assert Accepts(c, Rounds(c, s, v, rounds[..i]), rounds[i], digest);
    }
    if Accepts(c, Rounds(c, s, v, init), a, digest) {
      assert Accepts(c, Rounds(c, s, v, rounds[..|init|]), rounds[|init|], digest);
    }
  }

  lemma {:induction false} AcceptedMeansAccepted(
    c: Codecs, s: Settings, v: Server, rounds: seq<Answers>, digest: string)
    requires v.accepted == {}
    ensures digest in Rounds(c, s, v, rounds).accepted <==> AcceptedIn(c, s, v, rounds, digest)
  {
    if rounds != [] {
      var init, a := rounds[..|rounds| - 1], rounds[|rounds| - 1];
      AcceptedMeansAccepted(c, s, v, init, digest);
      AcceptedOneMore(c, s, v, init, a, digest);
      assert init + [a] == rounds;
    }
  }

  lemma {:induction false} ReportedIsAccepted(c: Codecs, s: Settings, v: Server, rounds: seq<Answers>)
    requires s.requireSignature && v.status.digest == None
    ensures var after := Rounds(c, s, v, rounds);
            after.status.digest.Some? ==> after.status.digest.value in after.accepted
  {
    if rounds != [] {
      ReportedIsAccepted(c, s, v, rounds[..|rounds| - 1]);
    }
  }

  /** Where signatures are required, every digest ever reported had a signature accepted earlier in the run. */
  lemma {:induction false} ReportedWasSigned(c: Codecs, s: Settings, v: Server, rounds: seq<Answers>)
    requires s.requireSignature && v.status.digest == None && v.accepted == {}
    ensures var status := Rounds(c, s, v, rounds).status;
            status.digest.Some? ==> AcceptedIn(c, s, v, rounds, status.digest.value)
  {
    ReportedIsAccepted(c, s, v, rounds);
    var after := Rounds(c, s, v, rounds);
    if after.status.digest.Some? {
      AcceptedMeansAccepted(c, s, v, rounds, after.status.digest.value);
    }
  }

  /** A server that has started and reported no pallet yet. */
  predicate Started(v: Server) {
    v.status.digest == None && !v.status.signatureVerified && v.accepted == {}
  }

  /** The flag is true to the run's history: a verified pallet had its signature accepted. */
  ghost predicate FlagIsTrue(c: Codecs, s: Settings, v: Server, rounds: seq<Answers>) {
    var status := Rounds(c, s, v, rounds).status;
    status.signatureVerified ==> status.digest.Some? && AcceptedIn(c, s, v, rounds, status.digest.value)
  }

  lemma {:induction false} VerifiedNamesADigest(c: Codecs, s: Settings, v: Server, rounds: seq<Answers>)
    requires Started(v)
    ensures var status := Rounds(c, s, v, rounds).status; status.signatureVerified ==> status.digest.Some?
  {
    if rounds != [] {
      VerifiedNamesADigest(c, s, v, rounds[..|rounds| - 1]);
    }
  }

  /** A pallet without an accepted signature that a server not asking for one takes. */
  predicate TakenUnsigned(c: Codecs, s: Settings, v: Server, a: Answers) {
    a.signature == Some(false) && Refresh(c, s.(requireSignature := false), v.cache, v.status.digest, a).1.Some?
  }

  /**
   * The same unsigned pallet twice: the second round finds the digest unchanged and
   * reports as verified what no round ever accepted.
   */
  lemma {:induction false} UnsignedTwiceIsVerified(c: Codecs, s: Settings, v: Server, a: Answers)
    requires Started(v) && !s.requireSignature && TakenUnsigned(c, s, v, a)
    ensures var after := Rounds(c, s, v, [a, a]);
            && after.status.signatureVerified && after.status.digest == Some(FetchManifest(c, a).value.1)
            && (forall digest :: !AcceptedIn(c, s, v, [a, a], digest))
  {
    assert s.(requireSignature := false) == s;
    assert [a, a][..1] == [a] && [a][..0] == [];
    assert Rounds(c, s, v, [a]) == Round(c, s, v, a);
  }

  /**
   * In every run from a start the flag is true to its history if and only if signatures
   * are required (as long as there is an unsigned pallet to be fetched at all).
   */
  lemma {:induction false} FlagIsTrueExactlyWhenRequired(c: Codecs, s: Settings, v: Server, a: Answers)
    requires Started(v) && TakenUnsigned(c, s, v, a)
    ensures (forall rounds :: FlagIsTrue(c, s, v, rounds)) <==> s.requireSignature
  {
    if s.requireSignature {
      forall rounds
        ensures FlagIsTrue(c, s, v, rounds)
      {
        VerifiedNamesADigest(c, s, v, rounds);
        ReportedWasSigned(c, s, v, rounds);
      }
    } else {
      UnsignedTwiceIsVerified(c, s, v, a);
      assert !FlagIsTrue(c, s, v, [a, a]);
    }
  }

  // ---- a refresh that fails half way ------------------------------------------------------

  /** How many of the first n layers are served before one breaks. */
  function Served(
    c: Codecs, spec: PalletSpec, layers: seq<Descriptor>, members: nat -> MemberAnswer, cache: Cache, n: nat): (k: nat)
    requires n <= |layers|
    ensures k <= n && ServeLayers(c, spec, layers, members, cache, k).ok
    ensures k < n ==> !ServeLayers(c, spec, layers, members, cache, k + 1).ok
  {
    if ServeLayers(c, spec, layers, members, cache, n).ok then n
    else Served(c, spec, layers, members, cache, n - 1)
  }

  /** What a torn write of an inline member at layer k leaves of a file. */
  function TornAt(
    c: Codecs, spec: PalletSpec, layers: seq<Descriptor>, members: nat -> MemberAnswer, k: nat,
    file: string): Option<Bytes> {
    if k < |layers| && FileOf(layers[k]) == Some(file) && InlineOf(spec, layers[k]).Some? && members(k).disk.Torn?
    then Some(Prefix(c.utf8(InlineOf(spec, layers[k]).value), members(k).disk.n))
    else None
  }

  /**
   * Whether a file of the held pallet outlives a refresh to another that served k
   * layers: a torn write left content that still serves, or the last layer to replace
   * the file asks for something interchangeable, or nothing touched it.
   */
  predicate StillHeld(
    c: Codecs, heldSpec: PalletSpec, held: seq<Descriptor>, spec: PalletSpec, incoming: seq<Descriptor>,
    members: nat -> MemberAnswer, k: nat, file: string)
    requires k <= |incoming|
  {
    Naming(held, file).Some? ==>
      var wanted := WantedBy(c, heldSpec, Naming(held, file).value);
      var torn, now := TornAt(c, spec, incoming, members, k, file), Naming(incoming[..k], file);
      if torn.Some? then Satisfies(c, torn.value, wanted)
      else if now.Some? then Interchangeable(c, wanted, WantedBy(c, spec, now.value))
      else true
  }

  ghost predicate AllStillHeld(
    c: Codecs, heldSpec: PalletSpec, held: seq<Descriptor>, spec: PalletSpec, incoming: seq<Descriptor>,
    members: nat -> MemberAnswer, k: nat)
    requires k <= |incoming|
  {
    forall f :: StillHeld(c, heldSpec, held, spec, incoming, members, k, f)
  }

  /** No file collides with what the served layers put in its place. */
  ghost predicate NoFileCollides(c: Codecs, before: Cache, after: Cache) {
    forall f :: f in before && f in after ==> Injective(c.hash, after[f], before[f])
  }

  /**
   * For any two pallets: a cache that held one still holds it after a refresh to the
   * other, wherever that stopped, exactly when each of its files outlives it; a refresh
   * that does not get to the layers touches nothing. (Collisions aside, and only those
   * of a file with its replacement.)
   */
  lemma {:induction false} HalfRefreshKeepsAgreementExactly(
    c: Codecs, s: Settings, heldSpec: PalletSpec, held: seq<Descriptor>, cache: Cache, current: Option<string>,
    a: Answers)
    requires Agrees(c, heldSpec, held, cache)
    requires ToServe(c, s, current, a).Some? ==>
               var layers := ToServe(c, s, current, a).value.1.layers;
               var k := Served(c, SpecOf(c, a), layers, a.members, cache, |layers|);
               NoFileCollides(c, cache, ServeLayers(c, SpecOf(c, a), layers, a.members, cache, k).cache)
    ensures var after := Refresh(c, s, cache, current, a).0;
            match ToServe(c, s, current, a)
            case None => after == cache
            case Some((_, m)) =>
              var k := Served(c, SpecOf(c, a), m.layers, a.members, cache, |m.layers|);
              Agrees(c, heldSpec, held, after) <==>
              AllStillHeld(c, heldSpec, held, SpecOf(c, a), m.layers, a.members, k)
  {
    if ToServe(c, s, current, a).Some? {
      var layers := ToServe(c, s, current, a).value.1.layers;
      var k := Served(c, SpecOf(c, a), layers, a.members, cache, |layers|);
      StoppedAgreesExactly(c, heldSpec, held, SpecOf(c, a), layers, a.members, cache, k);
      StoppedWhere(c, SpecOf(c, a), layers, a.members, cache);
    }
  }

  lemma {:induction false} StoppedWhere(
    c: Codecs, spec: PalletSpec, layers: seq<Descriptor>, members: nat -> MemberAnswer, cache: Cache)
    ensures var k := Served(c, spec, layers, members, cache, |layers|);
            && StopsAt(c, spec, layers, members, cache, k)
            && ServeLayers(c, spec, layers, members, cache, |layers|).cache ==
               StoppedAt(c, spec, layers, members, cache, k)
  {
    var k := Served(c, spec, layers, members, cache, |layers|);
    if k < |layers| {
      BrokenStays(c, spec, layers, members, cache, k + 1, |layers|);
    }
  }

  /** The cache once k layers were served and the next, if there is one, broke. */
  function StoppedAt(
    c: Codecs, spec: PalletSpec, layers: seq<Descriptor>, members: nat -> MemberAnswer, cache: Cache, k: nat): Cache
    requires k <= |layers|
  {
    ServeLayers(c, spec, layers, members, cache, if k < |layers| then k + 1 else k).cache
  }

  predicate StopsAt(
    c: Codecs, spec: PalletSpec, layers: seq<Descriptor>, members: nat -> MemberAnswer, cache: Cache, k: nat)
    requires k <= |layers|
  {
    && ServeLayers(c, spec, layers, members, cache, k).ok
    && (k < |layers| ==> !ServeLayers(c, spec, layers, members, cache, k + 1).ok)
  }

  lemma {:induction false} StoppedAgreesExactly(
    c: Codecs, heldSpec: PalletSpec, held: seq<Descriptor>, spec: PalletSpec, incoming: seq<Descriptor>,
    members: nat -> MemberAnswer, cache: Cache, k: nat)
    requires k <= |incoming| && StopsAt(c, spec, incoming, members, cache, k) && Agrees(c, heldSpec, held, cache)
    requires NoFileCollides(c, cache, ServeLayers(c, spec, incoming, members, cache, k).cache)
    ensures Agrees(c, heldSpec, held, StoppedAt(c, spec, incoming, members, cache, k)) <==>
            AllStillHeld(c, heldSpec, held, spec, incoming, members, k)
  {
    forall f
      ensures Holds(c, heldSpec, held, StoppedAt(c, spec, incoming, members, cache, k), f) <==>
              StillHeld(c, heldSpec, held, spec, incoming, members, k, f)
    {
      StoppedHoldsExactly(c, heldSpec, held, spec, incoming, members, cache, k, f);
    }
  }

  /** The layer that broke leaves a served file as it was, unless it is an inline one whose write was torn. */
  lemma {:induction false} BreakLeaves(
    c: Codecs, spec: PalletSpec, layers: seq<Descriptor>, members: nat -> MemberAnswer, cache: Cache, k: nat, f: string)
    requires k <= |layers| && StopsAt(c, spec, layers, members, cache, k) && IsServedName(f)
    ensures var before := ServeLayers(c, spec, layers, members, cache, k).cache;
            var after := StoppedAt(c, spec, layers, members, cache, k);
            match TornAt(c, spec, layers, members, k, f)
            case Some(content) => f in after && after[f] == content
            case None => (f in after <==> f in before) && (f in before ==> after[f] == before[f])
  {
    if k < |layers| && FileOf(layers[k]).Some? {
      TempIsNotServed(f, FileOf(layers[k]).value);
    }
  }

  lemma {:induction false} StoppedHoldsExactly(
    c: Codecs, heldSpec: PalletSpec, held: seq<Descriptor>, spec: PalletSpec, incoming: seq<Descriptor>,
    members: nat -> MemberAnswer, cache: Cache, k: nat, f: string)
    requires k <= |incoming| && StopsAt(c, spec, incoming, members, cache, k) && Agrees(c, heldSpec, held, cache)
    requires NoFileCollides(c, cache, ServeLayers(c, spec, incoming, members, cache, k).cache)
    ensures Holds(c, heldSpec, held, StoppedAt(c, spec, incoming, members, cache, k), f) <==>
            StillHeld(c, heldSpec, held, spec, incoming, members, k, f)
  {
    NamedFilesAreServed(held, f);
    if Naming(held, f).Some? {
      var wanted := WantedBy(c, heldSpec, Naming(held, f).value);
      BreakLeaves(c, spec, incoming, members, cache, k, f);
      ServedLayersAgree(c, spec, incoming, members, cache, k, f);
      assert Holds(c, heldSpec, held, cache, f);
      if TornAt(c, spec, incoming, members, k, f).None? && Naming(incoming[..k], f).Some? {
        var served := ServeLayers(c, spec, incoming, members, cache, k).cache;
        InterchangeableExactly(c, wanted, WantedBy(c, spec, Naming(incoming[..k], f).value), cache[f], served[f]);
      }
    }
  }

  /**
   * And nothing repairs it when the tag goes back: the next refresh finds the digest
   * unchanged, reports the pallet ready and verified, and leaves the cache as it is.
   */
  lemma {:induction false} RevertAfterHalfRefresh(c: Codecs, s: Settings, v: Server, failing: Answers, back: Answers)
    requires Refresh(c, s, v.cache, v.status.digest, failing).1.None?
    requires FetchManifest(c, back).Some? && v.status.digest == Some(FetchManifest(c, back).value.1)
    requires c.manifest(FetchManifest(c, back).value.0).Some?
    ensures var after := Rounds(c, s, v, [failing, back]);
            && after.status.ready && after.status.signatureVerified && after.status.digest == v.status.digest
            && after.cache == Refresh(c, s, v.cache, v.status.digest, failing).0
  {
    assert [failing, back][..1] == [failing] && [failing][..0] == [];
    assert Rounds(c, s, v, [failing]) == Round(c, s, v, failing);
  }
}
