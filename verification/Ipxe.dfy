/**
 * The boot script rendered per host, and the contract between the command line it
 * carries and the initramfs that reads it.
 */
module Ipxe {
  import opened Prelude
  import opened Text
  import opened Macs
  import opened Hosts
  import opened Cmdline

  datatype Config = Config(
    portal: Option<string>, portalPort: nat, localDisk: Option<string>, extraCmdline: string, baseUrl: string)

  datatype Attach = Attach(address: string, port: nat, target: string, nsid: Option<nat>)

  datatype Claim = Claim(id: string, volumeName: string, attach: Option<Attach>)

  datatype BootPlan = BootPlan(
    mac: Option<Mac>, record: Option<HostRecord>, portal: Option<string>, portalPort: nat,
    nqn: Option<string>, nsid: Option<nat>, volume: Option<string>)

  /** A record's portal wins over the server's default. */
  function Resolve(cfg: Config, mac: Option<Mac>, record: Option<HostRecord>): BootPlan {
    var portal := if record.Some? && record.value.portal.Some? then record.value.portal else cfg.portal;
    BootPlan(mac, record, portal, cfg.portalPort, None, None, None)
  }

  /** The plan once a claim has been made: where its volume is attached replaces what was resolved. */
  function WithClaim(plan: BootPlan, claim: Option<Claim>): BootPlan {
    match claim
    case None => plan
    case Some(c) =>
      var volume := plan.(volume := Some(c.volumeName));
      if c.attach.None? then volume
      else
        var a := c.attach.value;
        volume.(portal := Some(a.address), portalPort := a.port, nqn := Some(a.target), nsid := a.nsid)
  }

  // ---- the command line ------------------------------------------------------------------

  function Token(name: string, value: string): string {
    name + "=" + value
  }

  const ROOT := Token("root", "/dev/ublkb0")
  const INITRD := Token("initrd", "initramfs.img")

  function Given(name: string, value: Option<string>): seq<string> {
    if value.Some? then [Token(name, value.value)] else []
  }

  function Shown(n: Option<nat>): Option<string> {
    if n.Some? then Some(Decimal(n.value)) else None
  }

  /** Where root comes from; nothing at all without a portal. */
  function RootParts(plan: BootPlan): seq<string> {
    if plan.portal.None? then []
    else
      Given("rd.stormblock.portal", plan.portal) + Given("rd.stormblock.port", Some(Decimal(plan.portalPort))) +
      Given("rd.stormblock.nqn", plan.nqn) + Given("rd.stormblock.nsid", Shown(plan.nsid)) +
      Given("stormblock.volume", plan.volume) + [ROOT]
  }

  function NameOf(plan: BootPlan): Option<string> {
    if plan.record.Some? then Some(plan.record.value.name) else None
  }

  function RoleOf(plan: BootPlan): Option<string> {
    if plan.record.Some? then plan.record.value.role else None
  }

  function ExtraParts(cfg: Config, plan: BootPlan): seq<string> {
    (if cfg.extraCmdline != "" then [cfg.extraCmdline] else []) +
    (if plan.record.Some? && plan.record.value.extraCmdline.Some? then [plan.record.value.extraCmdline.value] else [])
  }

  function Parts(cfg: Config, plan: BootPlan): seq<string> {
    RootParts(plan) + Given("rd.stormblock.local-disk", cfg.localDisk) +
    Given("storm.hostname", NameOf(plan)) + Given("storm.role", RoleOf(plan)) + ExtraParts(cfg, plan)
  }

  function CommandLine(cfg: Config, plan: BootPlan): string {
    Join(Parts(cfg, plan))
  }

  /** The parts that say where root comes from, pushed one at a time. */
  method PushRoot(plan: BootPlan) returns (parts: seq<string>)
    ensures parts == RootParts(plan)
  {
    parts := [];
    if plan.portal.Some? {
      parts := parts + [Token("rd.stormblock.portal", plan.portal.value)];
      parts := parts + [Token("rd.stormblock.port", Decimal(plan.portalPort))];
      if plan.nqn.Some? {
        parts := parts + [Token("rd.stormblock.nqn", plan.nqn.value)];
      }
      if plan.nsid.Some? {
        parts := parts + [Token("rd.stormblock.nsid", Decimal(plan.nsid.value))];
      }
      if plan.volume.Some? {
        parts := parts + [Token("stormblock.volume", plan.volume.value)];
      }
      parts := parts + [ROOT];
    }
  }

  /** The command line as the server builds it, part by part. */
  method BuildCommandLine(cfg: Config, plan: BootPlan) returns (line: string)
    ensures line == CommandLine(cfg, plan)
  {
    var parts := PushRoot(plan);
    ghost var p0 := parts;
    if cfg.localDisk.Some? {
      parts := parts + [Token("rd.stormblock.local-disk", cfg.localDisk.value)];
    }
    assert parts == p0 + Given("rd.stormblock.local-disk", cfg.localDisk);
    ghost var p1 := parts;
    if plan.record.Some? {
      parts := parts + [Token("storm.hostname", plan.record.value.name)];
      if plan.record.value.role.Some? {
        parts := parts + [Token("storm.role", plan.record.value.role.value)];
      }
    }
    assert parts == p1 + Given("storm.hostname", NameOf(plan)) + Given("storm.role", RoleOf(plan));
    ghost var p2 := parts;
    if cfg.extraCmdline != "" {
      parts := parts + [cfg.extraCmdline];
    }
    if plan.record.Some? && plan.record.value.extraCmdline.Some? {
      parts := parts + [plan.record.value.extraCmdline.value];
    }
    assert parts == p2 + ExtraParts(cfg, plan);
    line := Join(parts);
  }

  // ---- the settings a rendered line makes -------------------------------------------------

  /** The setting a known token makes; an empty value makes none. */
  function Kept(key: Key, value: Option<string>): seq<Setting> {
    if value.Some? && value.value != "" then [Setting(key, value.value)] else []
  }

  predicate IsName(name: string, key: Key) {
    KeyOf(name) == key && key != Unknown && NoWhitespace(name) && name != "" && '=' !in name
  }

  lemma {:induction false} NamesOfPortal()
    ensures IsName("rd.stormblock.portal", Portal)
    ensures IsName("rd.stormblock.port", Port)
  {
  }

  lemma {:induction false} NamesOfExport()
    ensures IsName("rd.stormblock.nqn", Nqn)
    ensures IsName("rd.stormblock.nsid", Nsid)
  {
  }

  lemma {:induction false} NameOfVolume()
    ensures IsName("stormblock.volume", Volume)
  {
  }

  lemma {:induction false} NameOfLocalDisk()
    ensures IsName("rd.stormblock.local-disk", LocalDisk)
  {
  }

  lemma {:induction false} NameOfHostname()
    ensures IsName("storm.hostname", Hostname)
  {
  }

  lemma {:induction false} NameOfRole()
    ensures IsName("storm.role", Role)
  {
  }

  lemma {:induction false} RootIsNoKey()
    ensures KeyOf("root") == Unknown && NoWhitespace("root") && '=' !in "root" && NoWhitespace("/dev/ublkb0")
  {
  }

  lemma {:induction false} InitrdIsNoKey()
    ensures KeyOf("initrd") == Unknown && NoWhitespace("initrd") && '=' !in "initrd" && NoWhitespace("initramfs.img")
  {
  }

  function SettingsOf(parts: seq<string>): seq<Setting> {
    Cmdline.Settings(FlatWords(parts))
  }

  lemma {:induction false} FlatWordsAppend(a: seq<string>, b: seq<string>)
    ensures FlatWords(a + b) == FlatWords(a) + FlatWords(b)
  {
    if a == [] {
      assert a + b == b;
    } else {
      assert (a + b)[0] == a[0] && (a + b)[1..] == a[1..] + b;
      FlatWordsAppend(a[1..], b);
    }
  }

  lemma {:induction false} SettingsOfAppend(a: seq<string>, b: seq<string>)
    ensures SettingsOf(a + b) == SettingsOf(a) + SettingsOf(b)
  {
    FlatWordsAppend(a, b);
    Cmdline.SettingsAppend(FlatWords(a), FlatWords(b));
  }

  /** A token without whitespace is one word, and sets what its name and value say. */
  lemma {:induction false} TokenIsWord(name: string, value: string)
    requires NoWhitespace(name) && NoWhitespace(value) && '=' !in name
    ensures SplitWhitespace(Token(name, value)) == [Token(name, value)]
    ensures SettingsOf([Token(name, value)]) == if KeyOf(name) == Unknown then [] else Kept(KeyOf(name), Some(value))
  {
    var token := Token(name, value);
    assert NoWhitespace(token);
    WordsOfWord("", token);
    assert "" + token == token;
    var one := [token];
    assert one[1..] == [];
    assert FlatWords(one) == SplitWhitespace(token) + FlatWords(one[1..]);
    assert FlatWords(one) == one;
    Cmdline.OneToken(token);
    SplitOnceIs(name, '=', value);
  }

  lemma {:induction false} SettingsOfGiven(name: string, key: Key, value: Option<string>)
    requires IsName(name, key) && (value.Some? ==> NoWhitespace(value.value))
    ensures SettingsOf(Given(name, value)) == Kept(key, value)
  {
    if value.Some? {
      TokenIsWord(name, value.value);
    }
  }

  lemma {:induction false} SettingsOfRootWord()
    ensures SettingsOf([ROOT]) == []
  {
    RootIsNoKey();
    TokenIsWord("root", "/dev/ublkb0");
  }

  /** What the server promises about the root and the machine's identity. */
  function RootSettings(plan: BootPlan): seq<Setting> {
    if plan.portal.None? then []
    else
      Kept(Portal, plan.portal) + Kept(Port, Some(Decimal(plan.portalPort))) + Kept(Nqn, plan.nqn) +
      Kept(Nsid, Shown(plan.nsid)) + Kept(Volume, plan.volume)
  }

  function Promised(cfg: Config, plan: BootPlan): seq<Setting> {
    RootSettings(plan) + Kept(LocalDisk, cfg.localDisk) + Kept(Hostname, NameOf(plan)) + Kept(Role, RoleOf(plan))
  }

  predicate OptionalWord(value: Option<string>) {
    value.Some? ==> NoWhitespace(value.value)
  }

  /** The values that go into the line are single words. */
  predicate WordsOnly(cfg: Config, plan: BootPlan) {
    && OptionalWord(plan.portal) && OptionalWord(plan.nqn) && OptionalWord(plan.volume)
    && OptionalWord(cfg.localDisk) && OptionalWord(NameOf(plan)) && OptionalWord(RoleOf(plan))
  }

  lemma {:induction false} DigitsAreWords(n: nat)
    ensures NoWhitespace(Decimal(n))
  {
    assert AllDigits(Decimal(n));
  }

  lemma {:induction false} SettingsOfRootParts(cfg: Config, plan: BootPlan)
    requires WordsOnly(cfg, plan)
    ensures SettingsOf(RootParts(plan)) == RootSettings(plan)
  {
    if plan.portal.Some? {
      NamesOfPortal();
      NamesOfExport();
      NameOfVolume();
      DigitsAreWords(plan.portalPort);
      var nsid := Shown(plan.nsid);
      if plan.nsid.Some? {
        DigitsAreWords(plan.nsid.value);
      }
      var p1 := Given("rd.stormblock.portal", plan.portal);
      var p2 := p1 + Given("rd.stormblock.port", Some(Decimal(plan.portalPort)));
      var p3 := p2 + Given("rd.stormblock.nqn", plan.nqn);
      var p4 := p3 + Given("rd.stormblock.nsid", nsid);
      var p5 := p4 + Given("stormblock.volume", plan.volume);
      SettingsOfGiven("rd.stormblock.portal", Portal, plan.portal);
      SettingsOfGiven("rd.stormblock.port", Port, Some(Decimal(plan.portalPort)));
      SettingsOfGiven("rd.stormblock.nqn", Nqn, plan.nqn);
      SettingsOfGiven("rd.stormblock.nsid", Nsid, nsid);
      SettingsOfGiven("stormblock.volume", Volume, plan.volume);
      SettingsOfRootWord();
      SettingsOfAppend(p1, Given("rd.stormblock.port", Some(Decimal(plan.portalPort))));
      SettingsOfAppend(p2, Given("rd.stormblock.nqn", plan.nqn));
      SettingsOfAppend(p3, Given("rd.stormblock.nsid", nsid));
      SettingsOfAppend(p4, Given("stormblock.volume", plan.volume));
      SettingsOfAppend(p5, [ROOT]);
    }
  }

  lemma {:induction false} SettingsOfLine(cfg: Config, plan: BootPlan)
    requires WordsOnly(cfg, plan)
    ensures Cmdline.Settings(SplitWhitespace(CommandLine(cfg, plan))) ==
            Promised(cfg, plan) + SettingsOf(ExtraParts(cfg, plan))
  {
    SplitOfJoin(Parts(cfg, plan));
    SettingsOfRootParts(cfg, plan);
    NameOfHostname();
    NameOfRole();
    NameOfLocalDisk();
    SettingsOfGiven("rd.stormblock.local-disk", LocalDisk, cfg.localDisk);
    SettingsOfGiven("storm.hostname", Hostname, NameOf(plan));
    SettingsOfGiven("storm.role", Role, RoleOf(plan));
    var p1 := RootParts(plan) + Given("rd.stormblock.local-disk", cfg.localDisk);
    var p2 := p1 + Given("storm.hostname", NameOf(plan));
    var p3 := p2 + Given("storm.role", RoleOf(plan));
    SettingsOfAppend(RootParts(plan), Given("rd.stormblock.local-disk", cfg.localDisk));
    SettingsOfAppend(p1, Given("storm.hostname", NameOf(plan)));
    SettingsOfAppend(p2, Given("storm.role", RoleOf(plan)));
    SettingsOfAppend(p3, ExtraParts(cfg, plan));
  }

  // ---- the last value of each key ------------------------------------------------------------

  function Present(value: Option<string>): Option<string> {
    if value == Some("") then None else value
  }

  lemma {:induction false} LastOfKept(before: seq<Setting>, key: Key, value: Option<string>, k: Key)
    ensures Cmdline.LastValue(before + Kept(key, value), k) ==
            if k == key && Present(value).Some? then value else Cmdline.LastValue(before, k)
  {
    if Kept(key, value) == [] {
      assert before + Kept(key, value) == before;
    } else {
      assert (before + Kept(key, value))[..|before|] == before;
    }
  }

  function PromisedRootValue(plan: BootPlan, k: Key): Option<string> {
    match k
    case Portal => Present(plan.portal)
    case Port => Some(Decimal(plan.portalPort))
    case Nqn => Present(plan.nqn)
    case Nsid => Shown(plan.nsid)
    case Volume => Present(plan.volume)
    case _ => None
  }

  lemma {:induction false} PromisedRoot(plan: BootPlan, k: Key)
    requires plan.portal.Some?
    ensures Cmdline.LastValue(RootSettings(plan), k) == PromisedRootValue(plan, k)
  {
    var port, nsid := Some(Decimal(plan.portalPort)), Shown(plan.nsid);
    var p1 := Kept(Portal, plan.portal);
    var p2 := p1 + Kept(Port, port);
    var p3 := p2 + Kept(Nqn, plan.nqn);
    var p4 := p3 + Kept(Nsid, nsid);
    LastOfKept([], Portal, plan.portal, k);
    assert [] + Kept(Portal, plan.portal) == p1;
    LastOfKept(p1, Port, port, k);
    LastOfKept(p2, Nqn, plan.nqn, k);
    LastOfKept(p3, Nsid, nsid, k);
    LastOfKept(p4, Volume, plan.volume, k);
    assert RootSettings(plan) == p4 + Kept(Volume, plan.volume);
  }

  lemma {:induction false} PromisedAll(cfg: Config, plan: BootPlan, k: Key)
    ensures Cmdline.LastValue(Promised(cfg, plan), k) ==
            match k
            case LocalDisk => Present(cfg.localDisk)
            case Hostname => Present(NameOf(plan))
            case Role => Present(RoleOf(plan))
            case _ => Cmdline.LastValue(RootSettings(plan), k)
  {
    var r := RootSettings(plan);
    var p1 := r + Kept(LocalDisk, cfg.localDisk);
    var p2 := p1 + Kept(Hostname, NameOf(plan));
    LastOfKept(r, LocalDisk, cfg.localDisk, k);
    LastOfKept(p1, Hostname, NameOf(plan), k);
    LastOfKept(p2, Role, RoleOf(plan), k);
    if plan.portal.Some? {
      PromisedRoot(plan, k);
    }
  }

  // ---- the contract -------------------------------------------------------------------------

  predicate InContract(key: Key) {
    key.Portal? || key.Port? || key.Nqn? || key.Nsid? || key.Volume? || key.LocalDisk? || key.Hostname? || key.Role?
  }

  predicate LeavesContractAlone(settings: seq<Setting>) {
    forall i :: 0 <= i < |settings| ==> !InContract(settings[i].key)
  }

  lemma {:induction false} NotSetByExtras(extras: seq<Setting>, key: Key)
    requires LeavesContractAlone(extras) && InContract(key)
    ensures Cmdline.LastValue(extras, key).None?
  {
    if extras != [] {
      NotSetByExtras(extras[..|extras| - 1], key);
    }
  }

  /** What the kernel hands the initramfs: the image's own argument, then the line. */
  function KernelArgs(cfg: Config, plan: BootPlan): string {
    INITRD + " " + CommandLine(cfg, plan)
  }

  lemma {:induction false} ArgsSetWhatLineSets(cfg: Config, plan: BootPlan)
    ensures Cmdline.Settings(SplitWhitespace(KernelArgs(cfg, plan))) ==
            Cmdline.Settings(SplitWhitespace(CommandLine(cfg, plan)))
  {
    InitrdIsNoKey();
    TokenIsWord("initrd", "initramfs.img");
    WordsAcross("", INITRD, CommandLine(cfg, plan));
    Cmdline.SettingsAppend([INITRD], SplitWhitespace(CommandLine(cfg, plan)));
    assert FlatWords([INITRD]) == [INITRD] by {
      assert [INITRD][1..] == [];
      assert FlatWords([INITRD]) == SplitWhitespace(INITRD) + FlatWords([INITRD][1..]);
    }
  }

  lemma {:induction false} PromiseSurvives(cfg: Config, plan: BootPlan, key: Key)
    requires WordsOnly(cfg, plan) && LeavesContractAlone(SettingsOf(ExtraParts(cfg, plan))) && InContract(key)
    ensures Cmdline.LastValue(Cmdline.Settings(SplitWhitespace(KernelArgs(cfg, plan))), key) ==
            Cmdline.LastValue(Promised(cfg, plan), key)
  {
    ArgsSetWhatLineSets(cfg, plan);
    SettingsOfLine(cfg, plan);
    NotSetByExtras(SettingsOf(ExtraParts(cfg, plan)), key);
    Cmdline.LastValueAppend(Promised(cfg, plan), SettingsOf(ExtraParts(cfg, plan)), key);
  }

  /**
   * The contract across the two crates: for every plan whose values are single words
   * and extra tokens that use none of the contract's keys, the init reads back what
   * the server put in. An empty value reads as absent; without a portal nothing about
   * the root is said.
   */
  lemma {:induction false} InitReadsWhatServerWrote(cfg: Config, plan: BootPlan)
    requires WordsOnly(cfg, plan) && LeavesContractAlone(SettingsOf(ExtraParts(cfg, plan)))
    requires plan.portalPort <= MAX_U16 && (plan.nsid.Some? ==> plan.nsid.value <= MAX_U32)
    ensures var p := Cmdline.Parse(KernelArgs(cfg, plan));
            && (if plan.portal.Some?
                then p.portal == Present(plan.portal) && p.port == Some(plan.portalPort) && p.nqn == Present(plan.nqn)
                     && p.nsid == plan.nsid && p.volume == Present(plan.volume)
                else p.portal == None && p.port == None && p.nqn == None && p.nsid == None && p.volume == None)
            && p.localDisk == Present(cfg.localDisk)
            && p.hostname == Present(NameOf(plan)) && p.role == Present(RoleOf(plan))
  {
    ReadsRoot(cfg, plan);
    ReadsIdentity(cfg, plan);
  }

  lemma {:induction false} ReadsRoot(cfg: Config, plan: BootPlan)
    requires WordsOnly(cfg, plan) && LeavesContractAlone(SettingsOf(ExtraParts(cfg, plan)))
    requires plan.portalPort <= MAX_U16 && (plan.nsid.Some? ==> plan.nsid.value <= MAX_U32)
    ensures var p := Cmdline.Parse(KernelArgs(cfg, plan));
            if plan.portal.Some?
            then p.portal == Present(plan.portal) && p.port == Some(plan.portalPort) && p.nqn == Present(plan.nqn)
                 && p.nsid == plan.nsid && p.volume == Present(plan.volume)
            else p.portal == None && p.port == None && p.nqn == None && p.nsid == None && p.volume == None
  {
    Cmdline.LastSettingDecides(Cmdline.Settings(SplitWhitespace(KernelArgs(cfg, plan))));
    ParseOfDecimal(plan.portalPort, MAX_U16);
    if plan.nsid.Some? {
      ParseOfDecimal(plan.nsid.value, MAX_U32);
    }
    ReadsRootKey(cfg, plan, Portal);
    ReadsRootKey(cfg, plan, Port);
    ReadsRootKey(cfg, plan, Nqn);
    ReadsRootKey(cfg, plan, Nsid);
    ReadsRootKey(cfg, plan, Volume);
  }

  lemma {:induction false} ReadsRootKey(cfg: Config, plan: BootPlan, key: Key)
    requires WordsOnly(cfg, plan) && LeavesContractAlone(SettingsOf(ExtraParts(cfg, plan)))
    requires key.Portal? || key.Port? || key.Nqn? || key.Nsid? || key.Volume?
    ensures Cmdline.LastValue(Cmdline.Settings(SplitWhitespace(KernelArgs(cfg, plan))), key) ==
            if plan.portal.Some? then PromisedRootValue(plan, key) else None
  {
    PromiseSurvives(cfg, plan, key);
    PromisedAll(cfg, plan, key);
    if plan.portal.Some? {
      PromisedRoot(plan, key);
    }
  }

  lemma {:induction false} ReadsIdentity(cfg: Config, plan: BootPlan)
    requires WordsOnly(cfg, plan) && LeavesContractAlone(SettingsOf(ExtraParts(cfg, plan)))
    ensures var p := Cmdline.Parse(KernelArgs(cfg, plan));
            p.localDisk == Present(cfg.localDisk) && p.hostname == Present(NameOf(plan))
              && p.role == Present(RoleOf(plan))
  {
    Cmdline.LastSettingDecides(Cmdline.Settings(SplitWhitespace(KernelArgs(cfg, plan))));
    PromiseSurvives(cfg, plan, LocalDisk);
    PromiseSurvives(cfg, plan, Hostname);
    PromiseSurvives(cfg, plan, Role);
    PromisedAll(cfg, plan, LocalDisk);
    PromisedAll(cfg, plan, Hostname);
    PromisedAll(cfg, plan, Role);
  }

  /** A claim the server accepts: an address, a target and a port of its own. */
  predicate Attachable(c: Claim) {
    c.attach.Some? && c.attach.value.address != "" && c.attach.value.target != "" && c.attach.value.port != 0
  }

  /** The init attaches exactly the export that was claimed, whatever portal was configured. */
  lemma {:induction false} InitAttachesTheClaim(cfg: Config, mac: Option<Mac>, record: Option<HostRecord>, claim: Claim)
    requires Attachable(claim)
    requires var plan := WithClaim(Resolve(cfg, mac, record), Some(claim));
             && WordsOnly(cfg, plan) && LeavesContractAlone(SettingsOf(ExtraParts(cfg, plan)))
             && plan.portalPort <= MAX_U16 && (plan.nsid.Some? ==> plan.nsid.value <= MAX_U32)
    ensures var plan := WithClaim(Resolve(cfg, mac, record), Some(claim));
            var a := claim.attach.value;
            Cmdline.NvmeUri(Cmdline.Parse(KernelArgs(cfg, plan))) ==
            Some(Cmdline.Uri(a.address, a.port, a.target, if a.nsid.Some? then a.nsid.value else 1))
  {
    InitReadsWhatServerWrote(cfg, WithClaim(Resolve(cfg, mac, record), Some(claim)));
  }

  /** The init finds a URI exactly when the plan names a portal and an export, and then it is that export's. */
  lemma {:induction false} UriNamesThePlannedExport(cfg: Config, plan: BootPlan)
    requires WordsOnly(cfg, plan) && LeavesContractAlone(SettingsOf(ExtraParts(cfg, plan)))
    requires plan.portalPort <= MAX_U16 && (plan.nsid.Some? ==> plan.nsid.value <= MAX_U32)
    ensures Cmdline.NvmeUri(Cmdline.Parse(KernelArgs(cfg, plan))) ==
            if Present(plan.portal).Some? && Present(plan.nqn).Some?
            then Some("nvme-tcp://" + plan.portal.value + ":" + Decimal(plan.portalPort) + "/" + plan.nqn.value +
                      "?nsid=" + Decimal(if plan.nsid.Some? then plan.nsid.value else 1))
            else None
  {
    InitReadsWhatServerWrote(cfg, plan);
  }

  /**
   * Without a claim there is no export to name: the init reads the resolved portal, a
   * host's own before the server's, and finds no URI.
   */
  lemma {:induction false} NoClaimNoUri(cfg: Config, mac: Option<Mac>, record: Option<HostRecord>)
    requires var plan := Resolve(cfg, mac, record);
             WordsOnly(cfg, plan) && LeavesContractAlone(SettingsOf(ExtraParts(cfg, plan)))
               && plan.portalPort <= MAX_U16
    ensures var p := Cmdline.Parse(KernelArgs(cfg, Resolve(cfg, mac, record)));
            && Cmdline.NvmeUri(p) == None
            && (record.Some? && record.value.portal.Some? ==> p.portal == Present(record.value.portal))
            && (record.None? || record.value.portal.None? ==> p.portal == Present(cfg.portal))
  {
    InitReadsWhatServerWrote(cfg, Resolve(cfg, mac, record));
  }

  // ---- the words of the line ------------------------------------------------------------------

  function ExtraWords(cfg: Config, plan: BootPlan): seq<string> {
    SplitWhitespace(cfg.extraCmdline) +
    (if plan.record.Some? && plan.record.value.extraCmdline.Some?
     then SplitWhitespace(plan.record.value.extraCmdline.value) else [])
  }

  lemma {:induction false} WordsOfExtras(cfg: Config, plan: BootPlan)
    ensures FlatWords(ExtraParts(cfg, plan)) == ExtraWords(cfg, plan)
  {
    var a := if cfg.extraCmdline != "" then [cfg.extraCmdline] else [];
    var b := ExtraParts(cfg, plan)[|a|..];
    assert ExtraParts(cfg, plan) == a + b;
    FlatWordsAppend(a, b);
    assert a != [] ==> a[1..] == [];
    assert b != [] ==> b[1..] == [];
  }

  lemma {:induction false} WordsOfArgs(cfg: Config, plan: BootPlan)
    ensures SplitWhitespace(KernelArgs(cfg, plan)) == SplitWhitespace(INITRD) + FlatWords(Parts(cfg, plan))
  {
    WordsAcross("", INITRD, CommandLine(cfg, plan));
    SplitOfJoin(Parts(cfg, plan));
  }

  /** The kernel gets what operators added last: the server's words, then the host's own, all of them and in order. */
  lemma {:induction false} ExtrasComeLast(cfg: Config, plan: BootPlan)
    ensures var words, extras := SplitWhitespace(KernelArgs(cfg, plan)), ExtraWords(cfg, plan);
            |extras| <= |words| && words[|words| - |extras|..] == extras
  {
    WordsOfArgs(cfg, plan);
    var front := RootParts(plan) + Given("rd.stormblock.local-disk", cfg.localDisk) +
                 Given("storm.hostname", NameOf(plan)) + Given("storm.role", RoleOf(plan));
    assert Parts(cfg, plan) == front + ExtraParts(cfg, plan);
    FlatWordsAppend(front, ExtraParts(cfg, plan));
    WordsOfExtras(cfg, plan);
    var head := SplitWhitespace(INITRD) + FlatWords(front);
    assert SplitWhitespace(KernelArgs(cfg, plan)) == head + ExtraWords(cfg, plan);
  }

  lemma {:induction false} InitrdWord()
    ensures SplitWhitespace(INITRD) == ["initrd" + "=" + "initramfs.img"]
  {
    InitrdIsNoKey();
    TokenIsWord("initrd", "initramfs.img");
  }

  lemma {:induction false} RootWord()
    ensures ROOT == "root" + "=" + "/dev/ublkb0" && SplitWhitespace(ROOT) == [ROOT]
  {
    RootIsNoKey();
    TokenIsWord("root", "/dev/ublkb0");
  }

  lemma {:induction false} WordAmong(front: seq<string>, word: string, back: seq<string>)
    requires SplitWhitespace(word) == [word]
    ensures word in FlatWords(front + ([word] + back))
  {
    FlatWordsAppend(front, [word] + back);
    var rest := [word] + back;
    assert rest[0] == word && rest[1..] == back;
  }

  /** It starts with the image's own argument, and with a portal it is told to take root from the attached device. */
  lemma {:induction false} RootIsTheAttachedDevice(cfg: Config, plan: BootPlan)
    ensures var words := SplitWhitespace(KernelArgs(cfg, plan));
            && words != [] && words[0] == "initrd" + "=" + "initramfs.img"
            && (plan.portal.Some? ==> "root" + "=" + "/dev/ublkb0" in words)
  {
    WordsOfArgs(cfg, plan);
    InitrdWord();
    if plan.portal.Some? {
      RootWord();
      var root := RootParts(plan);
      var back := Parts(cfg, plan)[|root|..];
      assert root == root[..|root| - 1] + [ROOT];
      assert Parts(cfg, plan) == root[..|root| - 1] + ([ROOT] + back);
      WordAmong(root[..|root| - 1], ROOT, back);
    }
  }

  // ---- the script around the line ------------------------------------------------------------

  function TrimSlashes(s: string): string {
    if s != "" && s[|s| - 1] == '/' then TrimSlashes(s[..|s| - 1]) else s
  }

  // The longest lines are in pieces: the verifier takes a literal apart character by character.
  const NO_MAC := "# no MAC supplied; " + "serving the default boot"
  const NO_PORTAL := "# WARNING: " + NO_PORTAL_TEXT
  const NO_PORTAL_TEXT := "no NVMe/TCP portal " + KERNEL_WILL_BOOT
  const KERNEL_WILL_BOOT := "for this host. The " + "kernel will boot but"
  const NO_ROOT := "# the initramfs has " + "nowhere to attach root from."

  const NO_RECORD := " (no host record; " + "serving defaults)"

  function Note(record: Option<HostRecord>): string {
    if record.None? then NO_RECORD else " -> " + record.value.name
  }

  function Comment(plan: BootPlan): string {
    if plan.mac.None? then NO_MAC else "# " + (Print(plan.mac.value) + Note(plan.record))
  }

  function Warning(plan: BootPlan): seq<string> {
    if plan.portal.Some? then []
    else [NO_PORTAL, NO_ROOT]
  }

  const KERNEL := "kernel ${base}/boot/vmlinuz "

  function ScriptLines(cfg: Config, plan: BootPlan): seq<string> {
    ["#!ipxe", "", Comment(plan)] + Warning(plan) +
    ["", "set base " + TrimSlashes(cfg.baseUrl)] +
    [KERNEL + KernelArgs(cfg, plan)] +
    ["initrd ${base}/boot/initramfs.img", "boot"]
  }

  function Render(cfg: Config, plan: BootPlan): string {
    Unlines(ScriptLines(cfg, plan))
  }

  /** The arguments the script boots the kernel with: those of its first kernel line. */
  function BootArgs(lines: seq<string>): Option<string> {
    if lines == [] then None
    else if KERNEL <= lines[0] then Some(lines[0][|KERNEL|..])
    else BootArgs(lines[1..])
  }

  predicate OneLine(s: string) {
    '\n' !in s && '\r' !in s
  }

  /** Nothing that goes into the script breaks a line. */
  predicate NoLineBreaks(cfg: Config, plan: BootPlan) {
    && OneLine(cfg.baseUrl)
    && (forall p :: p in ExtraParts(cfg, plan) ==> OneLine(p))
  }

  lemma {:induction false} SkipOthers(before: seq<string>, after: seq<string>)
    requires forall l :: l in before ==> l == "" || l[0] != 'k'
    ensures BootArgs(before + after) == BootArgs(after)
  {
    if before == [] {
      assert before + after == after;
    } else {
      assert before[0] in before;
      assert KERNEL[0] == 'k';
      assert (before + after)[1..] == before[1..] + after;
      SkipOthers(before[1..], after);
    }
  }

  predicate AllOneLine(lines: seq<string>) {
    forall l :: l in lines ==> OneLine(l)
  }

  lemma {:induction false} OneLineAppend(a: string, b: string)
    requires OneLine(a) && OneLine(b)
    ensures OneLine(a + b)
  {
  }

  lemma {:induction false} AllOneLineAppend(a: seq<string>, b: seq<string>)
    requires AllOneLine(a) && AllOneLine(b)
    ensures AllOneLine(a + b)
  {
  }

  lemma {:induction false} GivenIsOneLine(name: string, value: Option<string>)
    requires OneLine(name) && OptionalWord(value)
    ensures AllOneLine(Given(name, value))
  {
  }

  lemma {:induction false} RootPartsAreOneLine(cfg: Config, plan: BootPlan)
    requires WordsOnly(cfg, plan)
    ensures AllOneLine(RootParts(plan))
  {
    NamesOfPortal();
    NamesOfExport();
    NameOfVolume();
    RootIsNoKey();
    DigitsAreWords(plan.portalPort);
    if plan.nsid.Some? {
      DigitsAreWords(plan.nsid.value);
    }
    GivenIsOneLine("rd.stormblock.portal", plan.portal);
    GivenIsOneLine("rd.stormblock.port", Some(Decimal(plan.portalPort)));
    GivenIsOneLine("rd.stormblock.nqn", plan.nqn);
    GivenIsOneLine("rd.stormblock.nsid", Shown(plan.nsid));
    GivenIsOneLine("stormblock.volume", plan.volume);
  }

  lemma {:induction false} PartsAreOneLine(cfg: Config, plan: BootPlan)
    requires WordsOnly(cfg, plan) && NoLineBreaks(cfg, plan)
    ensures AllOneLine(Parts(cfg, plan))
  {
    RootPartsAreOneLine(cfg, plan);
    NameOfHostname();
    NameOfRole();
    NameOfLocalDisk();
    var p1 := RootParts(plan) + Given("rd.stormblock.local-disk", cfg.localDisk);
    var p2 := p1 + Given("storm.hostname", NameOf(plan));
    var p3 := p2 + Given("storm.role", RoleOf(plan));
    GivenIsOneLine("rd.stormblock.local-disk", cfg.localDisk);
    GivenIsOneLine("storm.hostname", NameOf(plan));
    GivenIsOneLine("storm.role", RoleOf(plan));
    AllOneLineAppend(RootParts(plan), Given("rd.stormblock.local-disk", cfg.localDisk));
    AllOneLineAppend(p1, Given("storm.hostname", NameOf(plan)));
    AllOneLineAppend(p2, Given("storm.role", RoleOf(plan)));
    AllOneLineAppend(p3, ExtraParts(cfg, plan));
  }

  lemma {:induction false} ArgsAreOneLine(cfg: Config, plan: BootPlan)
    requires WordsOnly(cfg, plan) && NoLineBreaks(cfg, plan)
    ensures OneLine(KernelArgs(cfg, plan))
  {
    PartsAreOneLine(cfg, plan);
    JoinHolds(Parts(cfg, plan), '\n');
    JoinHolds(Parts(cfg, plan), '\r');
    InitrdIsNoKey();
    OneLineAppend("initrd", "=");
    OneLineAppend("initrd=", "initramfs.img");
    OneLineAppend(INITRD, " ");
    OneLineAppend(INITRD + " ", CommandLine(cfg, plan));
  }

  lemma {:induction false} TrimmedSlashes(s: string)
    ensures TrimSlashes(s) <= s
  {
    if s != "" && s[|s| - 1] == '/' {
      TrimmedSlashes(s[..|s| - 1]);
    }
  }

  lemma {:induction false} PrintIsOneLine(m: Mac)
    ensures OneLine(Print(m))
  {
    forall i | 0 <= i < 6
      ensures OneLine(Hex2(m[i]))
    {
    }
  }

  lemma {:induction false} CommentIsOneLine(plan: BootPlan)
    requires OptionalWord(NameOf(plan))
    ensures IsCommentLine(Comment(plan))
  {
    if plan.mac.None? {
      NoMacIsComment();
    } else {
      PrintIsOneLine(plan.mac.value);
      NoteIsOneLine(plan);
      OneLineAppend(Print(plan.mac.value), Note(plan.record));
      CommentWith("# ", Print(plan.mac.value) + Note(plan.record));
    }
  }

  lemma {:induction false} NoteIsOneLine(plan: BootPlan)
    requires OptionalWord(NameOf(plan))
    ensures OneLine(Note(plan.record))
  {
    if plan.record.None? {
      OneLineAppend(" (no host record; ", "serving defaults)");
    } else {
      OneLineAppend(" -> ", plan.record.value.name);
    }
  }

  lemma {:induction false} NoMacIsComment()
    ensures IsCommentLine(NO_MAC)
  {
    CommentWith("# no MAC supplied; ", "serving the default boot");
  }

  predicate IsCommentLine(l: string) {
    l != "" && l[0] == '#' && OneLine(l)
  }

  lemma {:induction false} CommentWith(head: string, tail: string)
    requires IsCommentLine(head) && OneLine(tail)
    ensures IsCommentLine(head + tail)
  {
  }

  lemma {:induction false} KernelWillBootIsOneLine()
    ensures OneLine(KERNEL_WILL_BOOT)
  {
    OneLineAppend("for this host. The ", "kernel will boot but");
  }

  lemma {:induction false} NoPortalIsComment()
    ensures IsCommentLine(NO_PORTAL)
  {
    KernelWillBootIsOneLine();
    OneLineAppend("no NVMe/TCP portal ", KERNEL_WILL_BOOT);
    CommentWith("# WARNING: ", NO_PORTAL_TEXT);
  }

  lemma {:induction false} NoRootIsComment()
    ensures IsCommentLine(NO_ROOT)
  {
    CommentWith("# the initramfs has ", "nowhere to attach root from.");
  }

  lemma {:induction false} WarningIsComment(plan: BootPlan, l: string)
    requires l in Warning(plan)
    ensures IsCommentLine(l)
  {
    NoPortalIsComment();
    NoRootIsComment();
  }

  function UpperLines(cfg: Config, plan: BootPlan): seq<string> {
    ["#!ipxe", "", Comment(plan)] + Warning(plan) + ["", "set base " + TrimSlashes(cfg.baseUrl)]
  }

  predicate NoKernelLine(l: string) {
    OneLine(l) && (l == "" || l[0] != 'k')
  }

  lemma {:induction false} FixedUpperLines(base: string)
    requires OneLine(base)
    ensures NoKernelLine("#!ipxe") && NoKernelLine("") && NoKernelLine("set base " + base)
  {
    OneLineAppend("set base ", base);
    assert "set base "[0] == 's' && "#!ipxe"[0] == '#';
  }

  lemma {:induction false} UpperLinesAreNoKernel(cfg: Config, plan: BootPlan, l: string)
    requires WordsOnly(cfg, plan) && NoLineBreaks(cfg, plan) && l in UpperLines(cfg, plan)
    ensures NoKernelLine(l)
  {
    TrimmedSlashes(cfg.baseUrl);
    FixedUpperLines(TrimSlashes(cfg.baseUrl));
    if l in Warning(plan) {
      WarningIsComment(plan, l);
    } else if l == Comment(plan) {
      CommentIsOneLine(plan);
    }
  }

  lemma {:induction false} LowerLinesAreOneLine()
    ensures AllOneLine(["initrd ${base}/boot/initramfs.img", "boot"])
    ensures OneLine(KERNEL)
  {
    assert OneLine("initrd ${base}/boot/initramfs.img");
    assert OneLine("kernel ${base}/boot/vmlinuz ");
  }

  lemma {:induction false} LinesOfScript(cfg: Config, plan: BootPlan)
    requires WordsOnly(cfg, plan) && NoLineBreaks(cfg, plan)
    ensures Lines(Render(cfg, plan)) == ScriptLines(cfg, plan)
    ensures ScriptLines(cfg, plan) ==
            UpperLines(cfg, plan) + ([KERNEL + KernelArgs(cfg, plan)] + ["initrd ${base}/boot/initramfs.img", "boot"])
    ensures forall l :: l in UpperLines(cfg, plan) ==> NoKernelLine(l)
  {
    var upper := UpperLines(cfg, plan);
    var kernel := KERNEL + KernelArgs(cfg, plan);
    var lower := ["initrd ${base}/boot/initramfs.img", "boot"];
    forall l | l in upper
      ensures NoKernelLine(l)
    {
      UpperLinesAreNoKernel(cfg, plan, l);
    }
    ArgsAreOneLine(cfg, plan);
    LowerLinesAreOneLine();
    OneLineAppend(KERNEL, KernelArgs(cfg, plan));
    AllOneLineAppend([kernel], lower);
    AllOneLineAppend(upper, [kernel] + lower);
    assert ScriptLines(cfg, plan) == upper + ([kernel] + lower);
    LinesOfUnlines(ScriptLines(cfg, plan));
  }

  /**
   * The script, line by line: an iPXE script that sets its base to the configured URL
   * without trailing slashes, then loads the kernel with its arguments, the initramfs,
   * and boots; it warns exactly when there is no portal.
   */
  lemma {:induction false} ScriptSays(cfg: Config, plan: BootPlan)
    requires WordsOnly(cfg, plan) && NoLineBreaks(cfg, plan)
    ensures var lines := Lines(Render(cfg, plan));
            var n := |lines|;
            && n == (if plan.portal.Some? then 8 else 10)
            && lines[0] == "#!ipxe"
            && lines[n - 4] == "set base " + TrimSlashes(cfg.baseUrl)
            && lines[n - 3] == "kernel ${base}/boot/vmlinuz " + KernelArgs(cfg, plan)
            && lines[n - 2] == "initrd ${base}/boot/initramfs.img"
            && lines[n - 1] == "boot"
            && (forall k :: 0 < k < n - 4 && lines[k] != "" ==> lines[k][0] == '#')
            && (plan.mac.Some? && plan.record.Some? ==>
                  lines[2] == "# " + (Print(plan.mac.value) + (" -> " + plan.record.value.name)))
  {
    LinesOfScript(cfg, plan);
    CommentIsOneLine(plan);
    NoPortalIsComment();
    NoRootIsComment();
  }

  /** The base URL loses its trailing slashes and nothing else. */
  lemma {:induction false} BaseIsTrimmed(base: string)
    ensures var t := TrimSlashes(base);
            && t <= base && (t != "" ==> t[|t| - 1] != '/')
            && forall i :: |t| <= i < |base| ==> base[i] == '/'
  {
    if base != "" && base[|base| - 1] == '/' {
      BaseIsTrimmed(base[..|base| - 1]);
    }
  }

  /** The rendered script boots the kernel with exactly the line that was built. */
  lemma {:induction false} ScriptCarriesTheLine(cfg: Config, plan: BootPlan)
    requires WordsOnly(cfg, plan) && NoLineBreaks(cfg, plan)
    ensures BootArgs(Lines(Render(cfg, plan))) == Some(KernelArgs(cfg, plan))
  {
    var upper := UpperLines(cfg, plan);
    var kernel := KERNEL + KernelArgs(cfg, plan);
    var lower := ["initrd ${base}/boot/initramfs.img", "boot"];
    LinesOfScript(cfg, plan);
    SkipOthers(upper, [kernel] + lower);
    assert ([kernel] + lower)[0] == kernel;
    assert kernel[|KERNEL|..] == KernelArgs(cfg, plan);
  }
}
