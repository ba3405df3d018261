/**
 * The claim cache: every boot-script request of a machine gets the same root
 * volume, however requests interleave around the mutex.
 */
module Claims {
  import opened Prelude
  import opened Macs
  import opened Ipxe

  type Request = nat

  /** How far a request has come. `Locked`, `Asking` and `Minted` are inside the lock. */
  datatype Pc =
    | Waiting
    | Locked
    | Asking
    | Minted(claim: Claim)
    | Done(reply: Option<Claim>)

  datatype Task = Task(mac: Option<Mac>, pc: Pc)

  /** The server's cache and lock, the requests under way, and every usable claim ever minted. */
  datatype State = State(
    lock: Option<Request>, tasks: map<Request, Task>, claims: map<Mac, Claim>, minted: seq<(Option<Mac>, Claim)>)

  datatype Event =
    | Arrive(r: Request, mac: Option<Mac>)
    | Acquire(r: Request)
    | LookUp(r: Request)
    | Answer(r: Request, claim: Option<Claim>)
    | Remember(r: Request)

  const EMPTY := State(None, map[], map[], [])

  function At(s: State, r: Request, pc: Pc): State
    requires r in s.tasks
  {
    s.(tasks := s.tasks[r := s.tasks[r].(pc := pc)])
  }

  predicate Is(s: State, r: Request, pc: Pc) {
    r in s.tasks && s.tasks[r].pc == pc
  }

  /** One step of one request; None when it cannot happen. */
  function Step(s: State, e: Event): Option<State> {
    match e
    case Arrive(r, mac) =>
      if r in s.tasks then None else Some(s.(tasks := s.tasks[r := Task(mac, Waiting)]))
    case Acquire(r) =>
      if Is(s, r, Waiting) && s.lock.None? then Some(At(s, r, Locked).(lock := Some(r))) else None
    case LookUp(r) =>
      if !Is(s, r, Locked) then None
      else
        var mac := s.tasks[r].mac;
        if mac.Some? && mac.value in s.claims then Some(At(s, r, Done(Some(s.claims[mac.value]))).(lock := None))
        else Some(At(s, r, Asking))
    case Answer(r, claim) =>
      if !Is(s, r, Asking) then None
      else if claim.None? || !Attachable(claim.value) then Some(At(s, r, Done(None)).(lock := None))
      else Some(At(s, r, Minted(claim.value)).(minted := s.minted + [(s.tasks[r].mac, claim.value)]))
    case Remember(r) =>
      if r in s.tasks && s.tasks[r].pc.Minted? then
        var claim := s.tasks[r].pc.claim;
        var mac := s.tasks[r].mac;
        Some(At(s, r, Done(Some(claim))).(
          lock := None, claims := if mac.Some? then s.claims[mac.value := claim] else s.claims))
      else None
  }

  function Run(s: State, es: seq<Event>): Option<State> {
    if es == [] then Some(s)
    else
      match Run(s, es[..|es| - 1])
      case None => None
      case Some(t) => Step(t, es[|es| - 1])
  }

  // ---- the mutex ------------------------------------------------------------------

  predicate Holds(pc: Pc) {
    pc.Locked? || pc.Asking? || pc.Minted?
  }

  /** Exactly the holder of the lock is inside. */
  predicate Exclusive(s: State) {
    forall r :: r in s.tasks && Holds(s.tasks[r].pc) ==> s.lock == Some(r)
  }

  /** A machine without a remembered claim that the holder is asking for. */
  predicate AsksOnlyWhenUnknown(s: State) {
    forall r :: r in s.tasks && (s.tasks[r].pc.Asking? || s.tasks[r].pc.Minted?) && s.tasks[r].mac.Some? ==>
      s.tasks[r].mac.value !in s.claims
  }

  /** A claim minted for a machine is remembered, or its request still holds the lock with it. */
  predicate Accounted(s: State, entry: (Option<Mac>, Claim)) {
    entry.0.Some? ==>
      || (entry.0.value in s.claims && s.claims[entry.0.value] == entry.1)
      || (exists r :: r in s.tasks && s.tasks[r] == Task(entry.0, Minted(entry.1)))
  }

  predicate AllAccounted(s: State) {
    && (forall i :: 0 <= i < |s.minted| ==> Accounted(s, s.minted[i]))
    && (forall m :: m in s.claims ==> (Some(m), s.claims[m]) in s.minted)
    && (forall r :: r in s.tasks && s.tasks[r].pc.Minted? ==> (s.tasks[r].mac, s.tasks[r].pc.claim) in s.minted)
  }

  /** No machine has had two claims minted. */
  predicate MintedOnce(s: State) {
    forall i, j :: 0 <= i < j < |s.minted| && s.minted[i].0.Some? ==> s.minted[i].0 != s.minted[j].0
  }

  /** Every successful reply carries the remembered claim. */
  predicate RepliesAgree(s: State) {
    forall r :: r in s.tasks && s.tasks[r].pc.Done? && s.tasks[r].pc.reply.Some? && s.tasks[r].mac.Some? ==>
      s.tasks[r].mac.value in s.claims && s.claims[s.tasks[r].mac.value] == s.tasks[r].pc.reply.value
  }

  predicate Inv(s: State) {
    Exclusive(s) && AsksOnlyWhenUnknown(s) && AllAccounted(s) && MintedOnce(s) && RepliesAgree(s)
  }

  lemma {:induction false} AnswerKeepsInv(s: State, r: Request, claim: Option<Claim>)
    requires Inv(s) && Step(s, Answer(r, claim)).Some?
    ensures Inv(Step(s, Answer(r, claim)).value)
  {
    var t := Step(s, Answer(r, claim)).value;
    if t.minted != s.minted {
      var entry := (s.tasks[r].mac, claim.value);
      forall i | 0 <= i < |t.minted|
        ensures Accounted(t, t.minted[i])
        ensures i < |s.minted| && entry.0.Some? ==> s.minted[i].0 != entry.0
      {
        if i < |s.minted| {
          assert Accounted(s, s.minted[i]);
        } else {
          assert t.tasks[r] == Task(entry.0, Minted(entry.1));
        }
      }
    } else {
      forall i | 0 <= i < |t.minted|
        ensures Accounted(t, t.minted[i])
      {
        assert Accounted(s, s.minted[i]);
      }
    }
  }

  lemma {:induction false} RememberKeepsInv(s: State, r: Request)
    requires Inv(s) && Step(s, Remember(r)).Some?
    ensures Inv(Step(s, Remember(r)).value)
  {
    var t := Step(s, Remember(r)).value;
    forall i | 0 <= i < |t.minted|
      ensures Accounted(t, t.minted[i])
    {
      var entry := s.minted[i];
      assert Accounted(s, entry);
      if entry.0.Some? && !(entry.0.value in s.claims && s.claims[entry.0.value] == entry.1) {
        var holder :| holder in s.tasks && s.tasks[holder] == Task(entry.0, Minted(entry.1));
        assert Holds(s.tasks[holder].pc) && Holds(s.tasks[r].pc);
        assert holder == r;
      }
    }
  }

  lemma {:induction false} OtherStepKeepsInv(s: State, e: Event)
    requires Inv(s) && Step(s, e).Some? && !e.Answer? && !e.Remember?
    ensures Inv(Step(s, e).value)
  {
    StillAccounted(s, e);
    StillExclusive(s, e);
  }

  lemma {:induction false} StillExclusive(s: State, e: Event)
    requires Inv(s) && Step(s, e).Some? && !e.Answer? && !e.Remember?
    ensures var t := Step(s, e).value; Exclusive(t) && AsksOnlyWhenUnknown(t) && MintedOnce(t) && RepliesAgree(t)
  {
  }

  lemma {:induction false} StillAccounted(s: State, e: Event)
    requires AllAccounted(s) && Step(s, e).Some? && !e.Answer? && !e.Remember?
    ensures AllAccounted(Step(s, e).value)
  {
    var t := Step(s, e).value;
    forall i | 0 <= i < |t.minted|
      ensures Accounted(t, t.minted[i])
    {
      var entry := s.minted[i];
      assert Accounted(s, entry);
      if entry.0.Some? && !(entry.0.value in s.claims && s.claims[entry.0.value] == entry.1) {
        var holder :| holder in s.tasks && s.tasks[holder] == Task(entry.0, Minted(entry.1));
        assert t.tasks[holder] == s.tasks[holder];
      }
    }
  }

  lemma {:induction false} RunKeepsInv(es: seq<Event>)
    requires Run(EMPTY, es).Some?
    ensures Inv(Run(EMPTY, es).value)
  {
    if es != [] {
      RunKeepsInv(es[..|es| - 1]);
      var s, e := Run(EMPTY, es[..|es| - 1]).value, es[|es| - 1];
      match e {
        case Answer(r, claim) => AnswerKeepsInv(s, r, claim);
        case Remember(r) => RememberKeepsInv(s, r);
        case _ => OtherStepKeepsInv(s, e);
      }
    }
  }

  /**
   * Under every interleaving: at most one usable claim is minted per machine, and all
   * successful replies to that machine carry that same claim.
   */
  lemma {:induction false} OneClaimPerMachine(es: seq<Event>, m: Mac)
    requires Run(EMPTY, es).Some?
    ensures var s := Run(EMPTY, es).value;
            && (forall i, j :: 0 <= i < j < |s.minted| && s.minted[i].0 == Some(m) ==> s.minted[j].0 != Some(m))
            && (forall r, c :: r in s.tasks && s.tasks[r] == Task(Some(m), Done(Some(c))) ==>
                  && (Some(m), c) in s.minted
                  && forall r', c' :: r' in s.tasks && s.tasks[r'] == Task(Some(m), Done(Some(c'))) ==> c' == c)
  {
    RunKeepsInv(es);
  }

  /** A claim with an export: an address, a target and a port. */
  predicate HasExport(c: Claim) {
    c.attach.Some? && c.attach.value.address != "" && c.attach.value.target != "" && c.attach.value.port != 0
  }

  predicate OnlyExports(s: State) {
    && (forall i :: 0 <= i < |s.minted| ==> HasExport(s.minted[i].1))
    && (forall m :: m in s.claims ==> HasExport(s.claims[m]))
    && (forall r :: r in s.tasks && s.tasks[r].pc.Minted? ==> HasExport(s.tasks[r].pc.claim))
    && (forall r :: r in s.tasks && s.tasks[r].pc.Done? && s.tasks[r].pc.reply.Some? ==>
       HasExport(s.tasks[r].pc.reply.value))
  }

  /** Under every interleaving only a claim with an export is ever remembered or replied. */
  lemma {:induction false} RepliesCanBeBooted(es: seq<Event>)
    requires Run(EMPTY, es).Some?
    ensures OnlyExports(Run(EMPTY, es).value)
  {
    if es != [] {
      RepliesCanBeBooted(es[..|es| - 1]);
    }
  }

  // ---- one request, as the server runs it while it holds the lock -----------------------

  class ClaimCache {
    var claims: map<Mac, Claim>

    constructor ()
      ensures claims == map[]
    {
      claims := map[];
    }

    /** Reuse the machine's claim, or ask the registry and remember what it answers. */
    method ClaimFor(mac: Option<Mac>, answer: Option<Claim>) returns (reply: Option<Claim>)
      modifies this
      ensures var known := mac.Some? && mac.value in old(claims);
              && reply == (if known then Some(old(claims)[mac.value])
                           else if answer.Some? && Attachable(answer.value) then answer else None)
              && claims == (if mac.Some? && reply.Some? then old(claims)[mac.value := reply.value] else old(claims))
    {
      if mac.Some? && mac.value in claims {
        return Some(claims[mac.value]);
      }
      if answer.None? || !Attachable(answer.value) {
        return None;
      }
      if mac.Some? {
        claims := claims[mac.value := answer.value];
      }
      return answer;
    }
  }

  /** That is what the steps of one request amount to once it has the lock. */
  lemma {:induction false} CriticalSectionIsOneCall(s: State, r: Request, answer: Option<Claim>)
    requires Is(s, r, Locked)
    ensures var mac := s.tasks[r].mac;
            var known := mac.Some? && mac.value in s.claims;
            var usable := answer.Some? && Attachable(answer.value);
            var es := [LookUp(r)] + (if known then [] else [Answer(r, answer)] + if usable then [Remember(r)] else []);
            var t := Run(s, es);
            && t.Some?
            && t.value.tasks[r].pc == Done(if known then Some(s.claims[mac.value]) else if usable then answer else None)
            && t.value.lock == None
            && t.value.claims ==
               (if mac.Some? && !known && usable then s.claims[mac.value := answer.value] else s.claims)
  {
    var mac := s.tasks[r].mac;
    var known := mac.Some? && mac.value in s.claims;
    assert [LookUp(r)][..0] == [];
    assert Run(s, [LookUp(r)]) == Step(s, LookUp(r));
    if !known {
      assert [LookUp(r), Answer(r, answer)][..1] == [LookUp(r)];
      var two := [LookUp(r), Answer(r, answer)];
      assert Run(s, two) == Step(Step(s, LookUp(r)).value, Answer(r, answer));
      assert [LookUp(r), Answer(r, answer), Remember(r)][..2] == two;
      assert [LookUp(r)] + ([Answer(r, answer)] + [Remember(r)]) == [LookUp(r), Answer(r, answer), Remember(r)];
      assert [LookUp(r)] + ([Answer(r, answer)] + []) == two;
    } else {
      assert [LookUp(r)] + [] == [LookUp(r)];
    }
  }
}
