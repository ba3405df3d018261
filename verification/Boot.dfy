/**
 * One machine's boot across the components: from the object an operator wrote and the
 * claim the registry made to what the init reads, and from the init's report back to
 * the tracker.
 */
module Boots {
  import opened Prelude
  import opened Text
  import opened Macs
  import opened BootHosts
  import opened BootStates
  import Hosts
  import Watch
  import Cmdline
  import Ipxe
  import Reports

  /** The plan the server makes for a machine it has just been told about. */
  function PlanFor(m: Watch.Mirror, mac: Mac, cfg: Ipxe.Config, claim: Option<Ipxe.Claim>): Ipxe.BootPlan {
    Ipxe.WithClaim(Ipxe.Resolve(cfg, Some(mac), Hosts.Resolve(m.layers, mac)), claim)
  }

  /** The values of the plan are words, and what operators added uses none of the contract's names. */
  predicate Plain(cfg: Ipxe.Config, plan: Ipxe.BootPlan) {
    && Ipxe.WordsOnly(cfg, plan) && Ipxe.LeavesContractAlone(Ipxe.SettingsOf(Ipxe.ExtraParts(cfg, plan)))
    && plan.portalPort <= 0xFFFF && (plan.nsid.Some? ==> plan.nsid.value <= 0xFFFF_FFFF)
  }

  /**
   * Whatever the server knew before: once an object is applied, the machine of its MAC
   * boots under the object's hostname, or its name without one, and in its role; without
   * a claim it looks to the object's portal, or to the server's without one.
   */
  lemma {:induction false} ObjectReachesTheInit(m: Watch.Mirror, o: BootHost, mac: Mac, cfg: Ipxe.Config)
    requires Macs.Parse(o.spec.bootMacAddress) == Ok(mac) && (o.spec.hostname.Some? || o.metadata.name.Some?)
    requires Plain(cfg, PlanFor(Watch.Handle(m, Watch.Applied(o)), mac, cfg, None))
    ensures var plan := PlanFor(Watch.Handle(m, Watch.Applied(o)), mac, cfg, None);
            var p := Cmdline.Parse(Ipxe.KernelArgs(cfg, plan));
            && p.hostname == Ipxe.Present(if o.spec.hostname.Some? then o.spec.hostname else o.metadata.name)
            && p.role == Ipxe.Present(o.spec.role)
            && p.portal == Ipxe.Present(if o.spec.portal.Some? then o.spec.portal else cfg.portal)
            && p.localDisk == Ipxe.Present(cfg.localDisk)
            && p.nqn == None && p.volume == None
  {
    RecordExactly(o);
    var after := Watch.Handle(m, Watch.Applied(o));
    Hosts.AppliedRecordAnswers(m.layers, ToRecord(o).value, mac);
    Ipxe.InitReadsWhatServerWrote(cfg, PlanFor(after, mac, cfg, None));
  }

  /**
   * With an attachable claim the init attaches exactly what was claimed, under the
   * claim's own volume, whatever portal was configured for the host or the server.
   */
  lemma {:induction false} ClaimReachesTheInit(m: Watch.Mirror, mac: Mac, cfg: Ipxe.Config, claim: Ipxe.Claim)
    requires claim.attach.Some? && claim.attach.value.address != "" && claim.attach.value.target != ""
    requires Plain(cfg, PlanFor(m, mac, cfg, Some(claim)))
    ensures var a := claim.attach.value;
            var p := Cmdline.Parse(Ipxe.KernelArgs(cfg, PlanFor(m, mac, cfg, Some(claim))));
            && p.portal == Some(a.address) && p.port == Some(a.port) && p.nqn == Some(a.target) && p.nsid == a.nsid
            && p.volume == Ipxe.Present(Some(claim.volumeName))
  {
    Ipxe.InitReadsWhatServerWrote(cfg, PlanFor(m, mac, cfg, Some(claim)));
  }

  /** A claim with no export yet names its volume and leaves the rest of the plan as it was resolved. */
  lemma {:induction false} UnattachedClaimNamesItsVolume(plan: Ipxe.BootPlan, claim: Ipxe.Claim)
    requires claim.attach.None?
    ensures var after := Ipxe.WithClaim(plan, Some(claim));
            && after.volume == Some(claim.volumeName)
            && after.mac == plan.mac && after.record == plan.record && after.portal == plan.portal
            && after.portalPort == plan.portalPort && after.nqn == plan.nqn && after.nsid == plan.nsid
  {
  }

  // ---- the way back -----------------------------------------------------------------------

  /** An address as PXE hands it down: a hardware type, and dashes for colons. */
  function Bootif(mac: Mac): string {
    "01-" + Replace(Print(mac), ':', '-')
  }

  lemma {:induction false} PrintedIsLower(mac: Mac)
    ensures Lower(Print(mac)) == Print(mac)
  {
    forall i | 0 <= i < 6
      ensures forall k :: 0 <= k < 2 ==> !('A' <= Hex2(mac[i])[k] <= 'Z')
    {
    }
    Reports.LowerOfLower(Print(mac));
  }

  lemma {:induction false} DashesAndBack(s: string)
    requires '-' !in s
    ensures Replace(Replace(s, ':', '-'), '-', ':') == s
  {
  }

  lemma {:induction false} NoDashInPrint(mac: Mac)
    ensures '-' !in Print(mac)
  {
    forall i | 0 <= i < 6
      ensures '-' !in Hex2(mac[i])
    {
    }
  }

  /** Both spellings of the machine's address come to the one the server prints. */
  lemma {:induction false} BootifIsTheAddress(mac: Mac)
    ensures Cmdline.NormaliseBootif(Bootif(mac)) == Print(mac)
    ensures Cmdline.NormaliseBootif(Print(mac)) == Print(mac)
  {
    var dashed := Replace(Print(mac), ':', '-');
    assert Bootif(mac)[3..] == dashed;
    NoDashInPrint(mac);
    DashesAndBack(Print(mac));
    PrintedIsLower(mac);
    assert Replace(Print(mac), '-', ':') == Print(mac);
    assert Print(mac)[2] == ':' && "01-"[2] == '-';
  }

  /** The address PXE put on the command line comes back with the report as that machine. */
  lemma {:induction false} ReportComesFromTheMachine(line: string, mac: Mac, p: Phase, detail: Option<string>, now: nat)
    requires Cmdline.LastGiven(SplitWhitespace(line), {"storm.mac", "BOOTIF"}, Bootif(mac))
    ensures Cmdline.Parse(line).mac == Some(Print(mac))
    ensures Reports.Received(Reports.BuildBody(Cmdline.Parse(line).mac.value, Slug(p), detail), now) ==
            Some(Observe(mac, p, if detail.Some? then Some(Reports.Sanitised(detail.value)) else None, now))
  {
    Cmdline.MachineFromTokens(line, Bootif(mac));
    BootifIsTheAddress(mac);
    Reports.ReportArrives(mac, p, detail, now);
  }
}
