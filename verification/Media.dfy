/**
 * Self-refreshing boot media: the once-per-boot pass that rewrites the ESP when
 * its stamp differs from what the golden declares.
 *
 * The protocol is a machine of small steps with a stop (power cut or I/O error)
 * possible between any two. Crash model: a copy or a stamp write may leave any
 * prefix, a rename is atomic, and synced data stays.
 */
module Media {
  import opened Prelude
  import opened Text
  import opened Stamp

  type Image = Bytes

  /** The ESP: the image firmware boots, the temporary name, and the stamp. */
  datatype Disk = Disk(live: Option<Image>, staged: Option<Image>, stamp: StampFile)

  /** What the mounted golden carries under its boot-media directory. */
  datatype Golden = Golden(uki: Option<Image>, conf: StampFile)

  /** One boot: whether the command line names a media device, whether it mounts, and the golden. */
  datatype Boot = Boot(mediaNamed: bool, mounts: bool, golden: Golden)

  datatype Job = Job(uki: Image, wanted: string)

  datatype Decision =
    | Disabled
    | Skipped
    | Current(digest: string)
    | Install(from: string, job: Job)

  /** What the pass wants installed, when the golden says so readably. */
  function JobOf(g: Golden): Option<Job> {
    match ReadStamp(g.conf)
    case None => None
    case Some(w) => if g.uki.Some? then Some(Job(g.uki.value, w)) else None
  }

  function Installed(stamp: StampFile): string {
    match ReadStamp(stamp)
    case None => "unknown"
    case Some(d) => d
  }

  function Decide(b: Boot, d: Disk): Decision {
    if !b.mediaNamed then Disabled
    else if b.golden.uki.None? || b.golden.conf.Missing? then Skipped
    else
      match JobOf(b.golden)
      case None => Skipped
      case Some(job) =>
        if !b.mounts || d.stamp.Missing? then Skipped
        else if Installed(d.stamp) == job.wanted then Current(job.wanted)
        else Install(Installed(d.stamp), job)
  }

  // ---- the small-step machine ---------------------------------------------

  /** How far a pass has come. */
  datatype Pc =
    | Idle
    | Staging(job: Job)
    | Synced(job: Job)
    | Renamed(job: Job)
    | Stamping(job: Job)

  datatype State = State(disk: Disk, pc: Pc)

  /** What a stamp write has put on the disk so far. */
  datatype Torn = UpTo(n: nat) | MidCharacter

  datatype Event =
    | Begin(boot: Boot)
    | Copy(n: nat)
    | SyncStaged
    | Rename
    | WriteStamp(torn: Torn)
    | SyncStamp
    | Stop

  function TornStamp(w: string, t: Torn): Option<StampFile> {
    match t
    case UpTo(n) => if n <= |StampText(w)| then Some(StampFile.Text(StampText(w)[..n])) else None
    case MidCharacter => Some(Garbled)
  }

  function Step(s: State, e: Event): Option<State> {
    match e
    case Begin(b) =>
      if !s.pc.Idle? then None
      else
        var decision := Decide(b, s.disk);
        Some(if decision.Install? then State(s.disk, Staging(decision.job)) else s)
    case Copy(n) =>
      if s.pc.Staging? && n <= |s.pc.job.uki| then
        Some(s.(disk := s.disk.(staged := Some(s.pc.job.uki[..n]))))
      else None
    case SyncStaged =>
      if s.pc.Staging? && s.disk.staged == Some(s.pc.job.uki) then Some(s.(pc := Synced(s.pc.job)))
      else None
    case Rename =>
      if s.pc.Synced? then
        Some(State(s.disk.(live := s.disk.staged, staged := None), Renamed(s.pc.job)))
      else None
    case WriteStamp(t) =>
      if s.pc.Renamed? || s.pc.Stamping? then
        match TornStamp(s.pc.job.wanted, t)
        case None => None
        case Some(stamp) => Some(State(s.disk.(stamp := stamp), Stamping(s.pc.job)))
      else None
    case SyncStamp =>
      if s.pc.Stamping? && s.disk.stamp == StampFile.Text(StampText(s.pc.job.wanted)) then Some(State(s.disk, Idle))
      else None
    case Stop => Some(State(s.disk, Idle))
  }

  /** A run: any events the machine accepts, over any number of boots. */
  function Exec(s: State, es: seq<Event>): Option<State>
    decreases |es|
  {
    if es == [] then Some(s)
    else
      match Step(s, es[0])
      case None => None
      case Some(t) => Exec(t, es[1..])
  }

  lemma {:induction false} ExecAppend(s: State, a: seq<Event>, b: seq<Event>)
    ensures Exec(s, a + b) == match Exec(s, a) { case None => None case Some(t) => Exec(t, b) }
    decreases |a|
  {
    if a == [] {
      assert a + b == b;
    } else {
      assert (a + b)[0] == a[0] && (a + b)[1..] == a[1..] + b;
      match Step(s, a[0]) {
        case None =>
        case Some(t) => ExecAppend(t, a[1..], b);
      }
    }
  }

  // ---- a pass and the faults it may meet -------------------------------------------

  /** Where an I/O error strikes a pass. */
  datatype Fault =
    | Healthy
    | NoDirectory
    | CopyFails(n: nat)
    | StagedSyncFails
    | RenameFails
    | StampOpenFails
    | StampWriteFails(torn: Torn)
    | StampSyncFails

  function Min(a: nat, b: nat): nat {
    if a < b then a else b
  }

  function Clip(w: string, t: Torn): Torn {
    match t
    case UpTo(n) => UpTo(Min(n, |StampText(w)|))
    case MidCharacter => t
  }

  /** The machine's events for a pass that meets a fault. */
  function Trace(b: Boot, d: Disk, fault: Fault): seq<Event> {
    match Decide(b, d)
    case Install(_, job) => InstallTrace(b, job, fault)
    case _ => [Begin(b)]
  }

  function Copied(b: Boot, job: Job): seq<Event> {
    [Begin(b)] + [Copy(|job.uki|)]
  }

  function RenamedTrace(b: Boot, job: Job): seq<Event> {
    Copied(b, job) + [SyncStaged] + [Rename]
  }

  function Written(b: Boot, job: Job): seq<Event> {
    RenamedTrace(b, job) + [WriteStamp(UpTo(|StampText(job.wanted)|))]
  }

  function InstallTrace(b: Boot, job: Job, fault: Fault): seq<Event> {
    match fault
    case Healthy => Written(b, job) + [SyncStamp]
    case NoDirectory => [Begin(b)] + [Stop]
    case CopyFails(n) => [Begin(b)] + [Copy(Min(n, |job.uki|))] + [Stop]
    case StagedSyncFails => Copied(b, job) + [Stop]
    case RenameFails => Copied(b, job) + [SyncStaged] + [Stop]
    case StampOpenFails => RenamedTrace(b, job) + [Stop]
    case StampWriteFails(t) => RenamedTrace(b, job) + [WriteStamp(Clip(job.wanted, t))] + [Stop]
    case StampSyncFails => Written(b, job) + [Stop]
  }

  function AfterInstall(job: Job): Disk {
    Disk(Some(job.uki), None, StampFile.Text(StampText(job.wanted)))
  }

  /** The disk an install leaves behind, fault by fault. */
  function Residue(d: Disk, job: Job, fault: Fault): Disk {
    var renamed := d.(live := Some(job.uki), staged := None);
    match fault
    case NoDirectory => d
    case CopyFails(n) => d.(staged := Some(job.uki[..Min(n, |job.uki|)]))
    case StagedSyncFails => d.(staged := Some(job.uki))
    case RenameFails => d.(staged := Some(job.uki))
    case StampOpenFails => renamed
    case StampWriteFails(t) => renamed.(stamp := TornStamp(job.wanted, Clip(job.wanted, t)).value)
    case _ => AfterInstall(job)
  }

  lemma {:induction false} ExecSnoc(s: State, es: seq<Event>, e: Event, t: State, u: State)
    requires Exec(s, es) == Some(t) && Step(t, e) == Some(u)
    ensures Exec(s, es + [e]) == Some(u)
  {
    ExecAppend(s, es, [e]);
    assert [e][1..] == [];
    assert Exec(u, []) == Some(u);
  }

  /** The states an undisturbed install passes through. */
  lemma {:induction false} Milestones(b: Boot, d: Disk)
    requires Decide(b, d).Install?
    ensures var job := Decide(b, d).job;
            var s := State(d, Idle);
            var renamed := d.(live := Some(job.uki), staged := None);
            && Exec(s, [Begin(b)]) == Some(State(d, Staging(job)))
            && Exec(s, Copied(b, job)) == Some(State(d.(staged := Some(job.uki)), Staging(job)))
            && Exec(s, Copied(b, job) + [SyncStaged]) == Some(State(d.(staged := Some(job.uki)), Synced(job)))
            && Exec(s, RenamedTrace(b, job)) == Some(State(renamed, Renamed(job)))
            && Exec(s, Written(b, job)) == Some(State(AfterInstall(job), Stamping(job)))
  {
    var s, job := State(d, Idle), Decide(b, d).job;
    var text := StampText(job.wanted);
    var staged := d.(staged := Some(job.uki));
    assert [Begin(b)][1..] == [];
    assert job.uki[..|job.uki|] == job.uki && text[..|text|] == text;
    ExecSnoc(s, [Begin(b)], Copy(|job.uki|), State(d, Staging(job)), State(staged, Staging(job)));
    ExecSnoc(s, Copied(b, job), SyncStaged, State(staged, Staging(job)), State(staged, Synced(job)));
    var renamed := State(d.(live := Some(job.uki), staged := None), Renamed(job));
    ExecSnoc(s, Copied(b, job) + [SyncStaged], Rename, State(staged, Synced(job)), renamed);
    ExecSnoc(s, RenamedTrace(b, job), WriteStamp(UpTo(|text|)), renamed, State(AfterInstall(job), Stamping(job)));
  }

  /** Each fault's events lead the machine to the disk that fault leaves. */
  lemma {:induction false} TraceRuns(b: Boot, d: Disk, fault: Fault)
    ensures Exec(State(d, Idle), Trace(b, d, fault)) ==
            Some(State(if Decide(b, d).Install? then Residue(d, Decide(b, d).job, fault) else d, Idle))
  {
    assert [Begin(b)][1..] == [];
    if Decide(b, d).Install? {
      var s, job := State(d, Idle), Decide(b, d).job;
      var left := State(Residue(d, job, fault), Idle);
      Milestones(b, d);
      var es := InstallTrace(b, job, fault);
      var last := es[|es| - 1];
      var before := es[..|es| - 1];
      assert es == before + [last];
      match fault {
        case CopyFails(n) =>
          var cut := left.(pc := Staging(job));
          ExecSnoc(s, [Begin(b)], Copy(Min(n, |job.uki|)), State(d, Staging(job)), cut);
          ExecSnoc(s, [Begin(b)] + [Copy(Min(n, |job.uki|))], Stop, cut, left);
        case StampWriteFails(t) =>
          var cut := left.(pc := Stamping(job));
          var renamed := State(d.(live := Some(job.uki), staged := None), Renamed(job));
          ExecSnoc(s, RenamedTrace(b, job), WriteStamp(Clip(job.wanted, t)), renamed, cut);
          ExecSnoc(s, RenamedTrace(b, job) + [WriteStamp(Clip(job.wanted, t))], Stop, cut, left);
        case _ =>
          ExecSnoc(s, before, last, Exec(s, before).value, left);
      }
    }
  }

  // ---- what every run keeps --------------------------------------------------

  /** The images of the goldens booted in a run. */
  function GoldenImages(es: seq<Event>): set<Image> {
    set e | e in es && e.Begin? && e.boot.golden.uki.Some? :: e.boot.golden.uki.value
  }

  /** The image under the live name is whole, and so is a staged one about to be renamed. */
  predicate WholeImages(s: State, original: Option<Image>, images: set<Image>) {
    && (s.disk.live == original || (s.disk.live.Some? && s.disk.live.value in images))
    && (!s.pc.Idle? ==> s.pc.job.uki in images)
    && (s.pc.Synced? ==> s.disk.staged == Some(s.pc.job.uki))
  }

  lemma {:induction false} StepKeepsWholeImages(s: State, e: Event, original: Option<Image>, images: set<Image>)
    requires WholeImages(s, original, images)
    requires e.Begin? && e.boot.golden.uki.Some? ==> e.boot.golden.uki.value in images
    ensures Step(s, e).Some? ==> WholeImages(Step(s, e).value, original, images)
  {
  }

  lemma {:induction false} RunKeepsWholeImages(s: State, es: seq<Event>, original: Option<Image>, images: set<Image>)
    requires WholeImages(s, original, images) && GoldenImages(es) <= images
    ensures Exec(s, es).Some? ==> WholeImages(Exec(s, es).value, original, images)
    decreases |es|
  {
    if es != [] && Step(s, es[0]).Some? {
      assert es[0].Begin? && es[0].boot.golden.uki.Some? ==> es[0].boot.golden.uki.value in GoldenImages(es);
      StepKeepsWholeImages(s, es[0], original, images);
      assert GoldenImages(es[1..]) <= GoldenImages(es);
      RunKeepsWholeImages(Step(s, es[0]).value, es[1..], original, images);
    }
  }

  lemma {:induction false} RunKeepsStampPresence(s: State, es: seq<Event>)
    requires s.disk.stamp.Missing? ==> s.pc.Idle?
    ensures Exec(s, es).Some? && s.disk.stamp.Missing? ==> Exec(s, es).value == s
    ensures Exec(s, es).Some? && !s.disk.stamp.Missing? ==> !Exec(s, es).value.disk.stamp.Missing?
    decreases |es|
  {
    if es != [] && Step(s, es[0]).Some? {
      RunKeepsStampPresence(Step(s, es[0]).value, es[1..]);
    }
  }

  /**
   * Over every run of boots with a stop anywhere: firmware always finds the image
   * it had or the complete image of a golden that was booted; an ESP without a
   * stamp is never touched; a stamp once present stays present.
   */
  lemma {:induction false} MediaIsAlwaysBootable(d: Disk, es: seq<Event>)
    requires Exec(State(d, Idle), es).Some?
    ensures var after := Exec(State(d, Idle), es).value.disk;
            && (after.live == d.live || (after.live.Some? && after.live.value in GoldenImages(es)))
            && (d.stamp.Missing? ==> after == d)
            && (!d.stamp.Missing? ==> !after.stamp.Missing?)
  {
    RunKeepsWholeImages(State(d, Idle), es, d.live, GoldenImages(es));
    RunKeepsStampPresence(State(d, Idle), es);
  }

  /**
   * Inside a pass: until its rename the stamp does not read as the digest it
   * wants, and from its rename on the live image is the one that digest names.
   */
  predicate StampNotAhead(s: State) {
    match s.pc
    case Idle => true
    case Staging(job) => ReadStamp(s.disk.stamp) != Some(job.wanted)
    case Synced(job) => ReadStamp(s.disk.stamp) != Some(job.wanted) && s.disk.staged == Some(job.uki)
    case Renamed(job) => s.disk.live == Some(job.uki)
    case Stamping(job) => s.disk.live == Some(job.uki)
  }

  lemma {:induction false} RunKeepsStampBehindImage(s: State, es: seq<Event>)
    requires StampNotAhead(s)
    ensures Exec(s, es).Some? ==> StampNotAhead(Exec(s, es).value)
    decreases |es|
  {
    if es != [] && Step(s, es[0]).Some? {
      RunKeepsStampBehindImage(Step(s, es[0]).value, es[1..]);
    }
  }

  // ---- convergence --------------------------------------------------------------

  /** The publisher's promise: a digest names one image, and no digest is the reader's placeholder. */
  ghost predicate Published(job: Job, name: string -> Image) {
    job.uki == name(job.wanted) && job.wanted != "unknown"
  }

  ghost predicate AllPublished(es: seq<Event>, name: string -> Image) {
    forall e :: e in es && e.Begin? && JobOf(e.boot.golden).Some? ==> Published(JobOf(e.boot.golden).value, name)
  }

  /** The stamp tells the truth about the live image. */
  ghost predicate Truthful(d: Disk, name: string -> Image) {
    ReadStamp(d.stamp).Some? ==> d.live == Some(name(ReadStamp(d.stamp).value))
  }

  /** The job of a pass that began and has not yet completed, after event `e` in state `s`. */
  function NextOpen(open: Option<Job>, s: State, e: Event): Option<Job> {
    match e
    case Begin(b) =>
      var decision := Decide(b, s.disk);
      if decision.Install? then Some(decision.job) else if decision.Current? then None else open
    case SyncStamp => None
    case _ => open
  }

  /** The golden does not change until a pass for it completes. */
  predicate Patient(s: State, open: Option<Job>, es: seq<Event>)
    decreases |es|
  {
    es == [] ||
    ( && (es[0].Begin? && open.Some? && JobOf(es[0].boot.golden).Some? ==> JobOf(es[0].boot.golden) == open)
      && (Step(s, es[0]).Some? ==> Patient(Step(s, es[0]).value, NextOpen(open, s, es[0]), es[1..])))
  }

  function OpenAfter(s: State, open: Option<Job>, es: seq<Event>): Option<Job>
    decreases |es|
  {
    if es == [] || Step(s, es[0]).None? then open
    else OpenAfter(Step(s, es[0]).value, NextOpen(open, s, es[0]), es[1..])
  }

  /** What holds in a patient run: with no pass open the stamp is truthful, with one open it can only lag. */
  ghost predicate Settling(s: State, open: Option<Job>, name: string -> Image) {
    && StampNotAhead(s)
    && (!s.pc.Idle? ==> open == Some(s.pc.job) && IsDigest(s.pc.job.wanted))
    && match open
       case None => Truthful(s.disk, name)
       case Some(job) =>
         && Published(job, name)
         && (ReadStamp(s.disk.stamp) == Some(job.wanted) ==> s.disk.live == Some(job.uki))
  }

  lemma {:induction false} StepSettles(s: State, open: Option<Job>, e: Event, name: string -> Image)
    requires Settling(s, open, name) && AllPublished([e], name) && Patient(s, open, [e])
    ensures Step(s, e).Some? ==> Settling(Step(s, e).value, NextOpen(open, s, e), name)
  {
    match e {
      case Begin(b) =>
        ReadYieldsDigest(b.golden.conf);
        assert e in [e];
      case SyncStamp =>
        if Step(s, e).Some? {
          WholeStampReads(s.pc.job.wanted);
        }
      case _ =>
    }
  }

  lemma {:induction false} RunSettles(s: State, open: Option<Job>, es: seq<Event>, name: string -> Image)
    requires Settling(s, open, name) && AllPublished(es, name) && Patient(s, open, es)
    ensures Exec(s, es).Some? ==> Settling(Exec(s, es).value, OpenAfter(s, open, es), name)
    decreases |es|
  {
    if es != [] && Step(s, es[0]).Some? {
      assert es[0] in es;
      StepSettles(s, open, es[0], name);
      RunSettles(Step(s, es[0]).value, NextOpen(open, s, es[0]), es[1..], name);
    }
  }

  /** Every "current" answer in a patient run is true of the image firmware will boot. */
  lemma {:induction false} CurrentIsTrueWhenPatient(d: Disk, es: seq<Event>, b: Boot, name: string -> Image)
    requires Truthful(d, name) && AllPublished(es + [Begin(b)], name)
    requires Patient(State(d, Idle), None, es + [Begin(b)])
    requires Exec(State(d, Idle), es).Some? && Exec(State(d, Idle), es).value.pc.Idle?
    ensures var after := Exec(State(d, Idle), es).value.disk;
            Decide(b, after).Current? ==> after.live == b.golden.uki && b.golden.uki.Some?
  {
    var s := State(d, Idle);
    assert forall e :: e in es ==> e in es + [Begin(b)];
    PatientSplits(s, None, es, [Begin(b)]);
    RunSettles(s, None, es, name);
    assert Begin(b) in es + [Begin(b)];
  }

  lemma {:induction false} PatientSplits(s: State, open: Option<Job>, a: seq<Event>, b: seq<Event>)
    requires Patient(s, open, a + b) && Exec(s, a).Some?
    ensures Patient(s, open, a)
    ensures Patient(Exec(s, a).value, OpenAfter(s, open, a), b)
    decreases |a|
  {
    if a == [] {
      assert a + b == b;
    } else {
      assert (a + b)[0] == a[0] && (a + b)[1..] == a[1..] + b;
      PatientSplits(Step(s, a[0]).value, NextOpen(open, s, a[0]), a[1..], b);
    }
  }

  /** The steps of a pass that nothing interrupts. */
  function FullPass(b: Boot, d: Disk): seq<Event> {
    Trace(b, d, Healthy)
  }

  /** The media is what the golden asks for. */
  predicate UpToDate(d: Disk, job: Job) {
    d.live == Some(job.uki) && ReadStamp(d.stamp) == Some(job.wanted)
  }

  /** A boot whose pass has everything it needs to run on media this tool built. */
  predicate Equipped(b: Boot, d: Disk) {
    b.mediaNamed && b.mounts && JobOf(b.golden).Some? && !d.stamp.Missing?
  }

  /**
   * After any patient history, with passes stopped anywhere, the first pass that
   * runs through leaves image and stamp as the golden has them, and any number of
   * later boots of that golden answers "current" and writes nothing.
   */
  lemma {:induction false} FirstFullPassConverges(d: Disk, es: seq<Event>, b: Boot, name: string -> Image, later: nat)
    requires Truthful(d, name) && AllPublished(es + [Begin(b)], name)
    requires Patient(State(d, Idle), None, es + [Begin(b)])
    requires Exec(State(d, Idle), es).Some? && Exec(State(d, Idle), es).value.pc.Idle?
    requires Equipped(b, d)
    ensures var t := Exec(State(d, Idle), es).value;
            var job := JobOf(b.golden).value;
            var pass := Exec(t, FullPass(b, t.disk));
            && pass.Some? && pass.value.pc.Idle?
            && UpToDate(pass.value.disk, job)
            && Decide(b, pass.value.disk) == Current(job.wanted)
            && Exec(pass.value, seq(later, _ => Begin(b))) == pass
  {
    var t := Exec(State(d, Idle), es).value;
    var job := JobOf(b.golden).value;
    CurrentIsTrueWhenPatient(d, es, b, name);
    RunKeepsStampPresence(State(d, Idle), es);
    TraceRuns(b, t.disk, Healthy);
    ReadYieldsDigest(b.golden.conf);
    WholeStampReads(job.wanted);
    var s := Exec(t, FullPass(b, t.disk)).value;
    if Decide(b, t.disk).Current? {
      assert Begin(b) in es + [Begin(b)];
      assert Installed(t.disk.stamp) == job.wanted != "unknown";
    }
    CurrentBootsChangeNothing(s, b, later);
  }

  lemma {:induction false} CurrentBootsChangeNothing(s: State, b: Boot, later: nat)
    requires s.pc.Idle? && Decide(b, s.disk).Current?
    ensures Exec(s, seq(later, _ => Begin(b))) == Some(s)
  {
    if later > 0 {
      var es := seq(later, _ => Begin(b));
      assert es[1..] == seq(later - 1, _ => Begin(b));
      CurrentBootsChangeNothing(s, b, later - 1);
    }
  }

  // ---- when a pass installs -----------------------------------------------------------

  /** The file declares this digest before any other. */
  ghost predicate FileDeclares(f: StampFile, digest: string) {
    f.Text? && exists n: nat :: FirstDeclared(Lines(f.text), n, digest)
  }

  /** The stamp answers for this digest: it declares it, or the digest is the placeholder for declaring none. */
  ghost predicate AnswersFor(stamp: StampFile, digest: string) {
    FileDeclares(stamp, digest) || (digest == "unknown" && forall other :: !FileDeclares(stamp, other))
  }

  lemma {:induction false} ReadsDeclared(f: StampFile, digest: string)
    ensures ReadStamp(f) == Some(digest) <==> FileDeclares(f, digest)
  {
    if f.Text? {
      ReadIsFirstDeclared(f.text, digest);
      assert FileDeclares(f, digest) == exists n: nat :: FirstDeclared(Lines(f.text), n, digest);
    }
  }

  lemma {:induction false} InstalledExactly(stamp: StampFile, digest: string)
    ensures Installed(stamp) == digest <==> AnswersFor(stamp, digest)
  {
    forall other
      ensures ReadStamp(stamp) == Some(other) <==> FileDeclares(stamp, other)
    {
      ReadsDeclared(stamp, other);
    }
  }

  /**
   * In terms of the texts of conf and stamp alone: a pass that nothing interrupts puts
   * the golden's image live and stamps its digest if and only if the command line names
   * a device that mounts, the golden has an image and declares a digest, and a stamp is
   * present that does not answer for it; otherwise the media is left as it was.
   */
  lemma {:induction false} PassInstallsExactly(b: Boot, d: Disk, wanted: string)
    requires FileDeclares(b.golden.conf, wanted)
    ensures var pass := Exec(State(d, Idle), FullPass(b, d));
            var ready := b.mediaNamed && b.golden.uki.Some? && b.mounts && !d.stamp.Missing?;
            && pass.Some?
            && pass.value.disk == (if ready && !AnswersFor(d.stamp, wanted)
                                   then Disk(b.golden.uki, None, StampFile.Text(StampText(wanted))) else d)
            && (Decide(b, d).Disabled? <==> !b.mediaNamed)
            && (Decide(b, d).Skipped? <==> b.mediaNamed && !ready)
            && (Decide(b, d) == Current(wanted) <==> ready && AnswersFor(d.stamp, wanted))
            && (Decide(b, d).Install? ==> AnswersFor(d.stamp, Decide(b, d).from))
  {
    ReadsDeclared(b.golden.conf, wanted);
    InstalledExactly(d.stamp, wanted);
    InstalledExactly(d.stamp, Installed(d.stamp));
    PassWhen(b, d, wanted, AnswersFor(d.stamp, wanted));
  }

  lemma {:induction false} PassWhen(b: Boot, d: Disk, wanted: string, answers: bool)
    requires ReadStamp(b.golden.conf) == Some(wanted) && (Installed(d.stamp) == wanted <==> answers)
    ensures var pass := Exec(State(d, Idle), FullPass(b, d));
            var ready := b.mediaNamed && b.golden.uki.Some? && b.mounts && !d.stamp.Missing?;
            && pass.Some?
            && pass.value.disk == (if ready && !answers
                                   then Disk(b.golden.uki, None, StampFile.Text(StampText(wanted))) else d)
            && (Decide(b, d).Disabled? <==> !b.mediaNamed)
            && (Decide(b, d).Skipped? <==> b.mediaNamed && !ready)
            && (Decide(b, d) == Current(wanted) <==> ready && answers)
            && (Decide(b, d).Install? ==> Decide(b, d).from == Installed(d.stamp))
  {
    TraceRuns(b, d, Healthy);
  }

  /** A golden that declares nothing leaves every medium as it was. */
  lemma {:induction false} SilentGoldenIsSkipped(b: Boot, d: Disk, fault: Fault)
    requires forall digest :: !FileDeclares(b.golden.conf, digest)
    ensures Exec(State(d, Idle), Trace(b, d, fault)) == Some(State(d, Idle))
    ensures Decide(b, d) == if b.mediaNamed then Skipped else Disabled
  {
    if ReadStamp(b.golden.conf).Some? {
      ReadsDeclared(b.golden.conf, ReadStamp(b.golden.conf).value);
    }
    TraceRuns(b, d, fault);
  }

  /** The media build writes `pallet=` lines; a golden with one replaces a medium stamped with another. */
  lemma {:induction false} PalletLineIsInstalled(
    b: Boot, d: Disk, before: seq<string>, wanted: string, rest: string,
    stampedBefore: seq<string>, stamped: string, stampedRest: string)
    requires b.mediaNamed && b.mounts && b.golden.uki.Some?
    requires IsDigest(wanted) && IsDigest(stamped) && wanted != stamped
    requires forall line :: line in before + stampedBefore ==> '\n' !in line && DeclaresNothing(line)
    requires b.golden.conf == StampFile.Text(Unlines(before) + (("pallet=" + wanted) + "\n" + rest))
    requires d.stamp == StampFile.Text(Unlines(stampedBefore) + (("pallet=" + stamped) + "\n" + stampedRest))
    ensures var pass := Exec(State(d, Idle), FullPass(b, d));
            && pass.Some? && pass.value.disk.live == b.golden.uki
            && FileDeclares(pass.value.disk.stamp, wanted)
  {
    forall line | line in before
      ensures '\n' !in line && DeclaresNothing(line)
    {
      assert line in before + stampedBefore;
    }
    forall line | line in stampedBefore
      ensures '\n' !in line && DeclaresNothing(line)
    {
      assert line in before + stampedBefore;
    }
    DeclaredDigestIsRead(before, wanted, rest);
    DeclaredDigestIsRead(stampedBefore, stamped, stampedRest);
    WholeStampReads(wanted);
    ReadsDeclared(StampFile.Text(StampText(wanted)), wanted);
    PassWhen(b, d, wanted, false);
  }

  // ---- when the golden changes under an interrupted pass -----------------------

  /** The disk partway through a pass of `job` that started on `d`. */
  ghost predicate PartWay(d: Disk, job: Job, s: State) {
    match s.pc
    case Idle => false
    case Staging(j) => j == job && s.disk.live == d.live && s.disk.stamp == d.stamp
    case Synced(j) => j == job && s.disk.live == d.live && s.disk.stamp == d.stamp && s.disk.staged == Some(job.uki)
    case Renamed(j) => j == job && s.disk.live == Some(job.uki) && s.disk.stamp == d.stamp
    case Stamping(j) =>
      && j == job && s.disk.live == Some(job.uki)
      && (s.disk.stamp.Garbled? || exists n: nat :: TornStamp(job.wanted, UpTo(n)) == Some(s.disk.stamp))
  }

  predicate WithinOnePass(es: seq<Event>) {
    forall e :: e in es ==> e.Copy? || e.SyncStaged? || e.Rename? || e.WriteStamp?
  }

  lemma {:induction false} RunWithinOnePass(d: Disk, job: Job, s: State, es: seq<Event>)
    requires PartWay(d, job, s) && WithinOnePass(es)
    ensures Exec(s, es).Some? ==> PartWay(d, job, Exec(s, es).value)
    decreases |es|
  {
    if es != [] && Step(s, es[0]).Some? {
      assert es[0] in es;
      RunWithinOnePass(d, job, Step(s, es[0]).value, es[1..]);
    }
  }

  /**
   * One pass, for `job`, stopped anywhere, then a full pass for another golden. The
   * second pass fails to install its image exactly when the images differ and the
   * first stopped either between its rename and its stamp write, with the old stamp
   * naming the second golden, or in its stamp write, with the torn stamp naming it.
   */
  lemma {:induction false} RevertAfterStop(d: Disk, job: Job, es: seq<Event>, next: Boot, name: string -> Image)
    requires Truthful(d, name) && Published(job, name)
    requires Equipped(next, d) && Published(JobOf(next.golden).value, name)
    requires WithinOnePass(es) && Exec(State(d, Staging(job)), es).Some?
    ensures var stopped := Exec(State(d, Staging(job)), es).value;
            var wanted := JobOf(next.golden).value;
            var pass := Exec(State(stopped.disk, Idle), FullPass(next, stopped.disk));
            && pass.Some?
            && (pass.value.disk.live == Some(wanted.uki) <==>
                !(wanted.uki != job.uki &&
                  ((stopped.pc.Renamed? && Installed(d.stamp) == wanted.wanted) ||
                   (stopped.pc.Stamping? && Installed(stopped.disk.stamp) == wanted.wanted))))
  {
    var stopped := Exec(State(d, Staging(job)), es).value;
    RunWithinOnePass(d, job, State(d, Staging(job)), es);
    TraceRuns(next, stopped.disk, Healthy);
  }

  /** Where a run stands with the live image: as it began, renamed since the stamp was last written, or stamped. */
  datatype Trail = Original | Ahead(job: Job) | Stamped(job: Job, torn: Torn)

  function NextTrail(trail: Trail, s: State, e: Event): Trail {
    match e
    case Rename => if s.pc.Synced? then Ahead(s.pc.job) else trail
    case WriteStamp(torn) => if s.pc.Renamed? || s.pc.Stamping? then Stamped(s.pc.job, torn) else trail
    case _ => trail
  }

  function TrailAfter(s: State, trail: Trail, es: seq<Event>): Trail
    decreases |es|
  {
    if es == [] || Step(s, es[0]).None? then trail
    else TrailAfter(Step(s, es[0]).value, NextTrail(trail, s, es[0]), es[1..])
  }

  ghost predicate OnTrail(d: Disk, s: State, trail: Trail, name: string -> Image) {
    && StampNotAhead(s)
    && (!s.pc.Idle? ==> Published(s.pc.job, name))
    && (d.stamp.Missing? ==> s.pc.Idle? && s.disk == d)
    && match trail
       case Original => s.disk.live == d.live && s.disk.stamp == d.stamp && !s.pc.Renamed? && !s.pc.Stamping?
       case Ahead(job) => s.disk.live == Some(job.uki) && Published(job, name)
       case Stamped(job, torn) =>
         && s.disk.live == Some(job.uki) && Published(job, name)
         && TornStamp(job.wanted, torn) == Some(s.disk.stamp)
  }

  lemma {:induction false} StepStaysOnTrail(d: Disk, s: State, trail: Trail, e: Event, name: string -> Image)
    requires OnTrail(d, s, trail, name) && AllPublished([e], name)
    ensures Step(s, e).Some? ==> OnTrail(d, Step(s, e).value, NextTrail(trail, s, e), name)
  {
    assert e in [e];
  }

  lemma {:induction false} RunStaysOnTrail(d: Disk, s: State, trail: Trail, es: seq<Event>, name: string -> Image)
    requires OnTrail(d, s, trail, name) && AllPublished(es, name) && Exec(s, es).Some?
    ensures OnTrail(d, Exec(s, es).value, TrailAfter(s, trail, es), name)
    decreases |es|
  {
    if es != [] {
      assert es[0] in es && forall e :: e in es[1..] ==> e in es;
      StepStaysOnTrail(d, s, trail, es[0], name);
      RunStaysOnTrail(d, Step(s, es[0]).value, NextTrail(trail, s, es[0]), es[1..], name);
    }
  }

  /**
   * A golden is kept out when the last image to be renamed is another and the stamp
   * names the golden: one left from before that rename, or one torn while it was written.
   */
  predicate KeptOut(trail: Trail, stamp: StampFile, wanted: Job) {
    match trail
    case Original => false
    case Ahead(job) => job.uki != wanted.uki && Installed(stamp) == wanted.wanted
    case Stamped(job, torn) =>
      && job.uki != wanted.uki && TornStamp(job.wanted, torn).Some?
      && Installed(TornStamp(job.wanted, torn).value) == wanted.wanted
  }

  /**
   * Over every run, goldens changing at will and passes stopped anywhere: the next full
   * pass leaves its golden's image live if and only if that golden is not kept out.
   */
  lemma {:induction false} FullPassInstallsExactly(d: Disk, es: seq<Event>, next: Boot, name: string -> Image)
    requires Truthful(d, name) && AllPublished(es, name) && Exec(State(d, Idle), es).Some?
    requires Equipped(next, d) && Published(JobOf(next.golden).value, name)
    ensures var t := Exec(State(d, Idle), es).value.disk;
            var wanted := JobOf(next.golden).value;
            var pass := Exec(State(t, Idle), FullPass(next, t));
            && pass.Some?
            && (pass.value.disk.live == Some(wanted.uki) <==>
                !KeptOut(TrailAfter(State(d, Idle), Original, es), t.stamp, wanted))
  {
    var t := Exec(State(d, Idle), es).value.disk;
    RunStaysOnTrail(d, State(d, Idle), Original, es, name);
    RunKeepsStampPresence(State(d, Idle), es);
    TraceRuns(next, t, Healthy);
  }

  /** A stamp torn while `job` was written keeps out only a golden whose digest begins that of `job`. */
  lemma {:induction false} TornStampKeepsOutPrefixes(
    job: Job, torn: Torn, stamp: StampFile, wanted: Job, name: string -> Image)
    requires KeptOut(Stamped(job, torn), stamp, wanted) && IsDigest(job.wanted)
    requires Published(job, name) && Published(wanted, name)
    ensures torn.UpTo? && wanted.wanted <= job.wanted && wanted.wanted != job.wanted
  {
    TornNames(job.wanted, torn, wanted.wanted);
  }

  lemma {:induction false} TornNames(written: string, torn: Torn, named: string)
    requires IsDigest(written) && TornStamp(written, torn).Some? && named != "unknown"
    requires Installed(TornStamp(written, torn).value) == named
    ensures torn.UpTo? && named <= written
  {
    if torn.UpTo? {
      TornStampReads(written, torn.n);
    }
  }

  function BootOf(job: Job): Boot {
    Boot(true, true, Golden(Some(job.uki), StampFile.Text(StampText(job.wanted))))
  }

  /**
   * The run that the comment on `install` rules out, for any two goldens: media
   * carrying `a` meets `b`, the pass stops after its rename, the golden goes back to
   * `a`, and the next pass finds the media current while firmware boots b's image.
   */
  lemma {:induction false} RevertedGoldenKeepsTheWrongImage(a: Job, b: Job)
    requires IsDigest(a.wanted) && IsDigest(b.wanted) && a.wanted != b.wanted
    ensures var run := Exec(State(AfterInstall(a), Idle), Trace(BootOf(b), AfterInstall(a), StampOpenFails));
            && run.Some? && run.value.disk.live == Some(b.uki)
            && Decide(BootOf(a), run.value.disk) == Current(a.wanted)
  {
    WholeStampReads(a.wanted);
    WholeStampReads(b.wanted);
    assert Decide(BootOf(b), AfterInstall(a)) == Install(a.wanted, b);
    TraceRuns(BootOf(b), AfterInstall(a), StampOpenFails);
  }

  /** A golden whose digest is literally the reader's placeholder counts as installed on any unreadable stamp. */
  lemma {:induction false} PlaceholderDigestInstallsExactly(b: Boot, d: Disk)
    requires Equipped(b, d) && JobOf(b.golden).value.wanted == "unknown"
    ensures Decide(b, d).Install? <==> ReadStamp(d.stamp).Some? && ReadStamp(d.stamp) != Some("unknown")
    ensures ReadStamp(d.stamp).None? ==> Exec(State(d, Idle), FullPass(b, d)) == Some(State(d, Idle))
  {
    TraceRuns(b, d, Healthy);
  }

  // ---- the pass as the init runs it ----------------------------------------------

  datatype Outcome =
    | OutDisabled
    | OutCurrent(digest: string)
    | OutUpdated(from: string, to: string)
    | OutSkipped

  class Esp {
    var live: Option<Image>
    var staged: Option<Image>
    var stamp: StampFile

    constructor (d: Disk)
      ensures View() == d
    {
      live, staged, stamp := d.live, d.staged, d.stamp;
    }

    function View(): Disk
      reads this
    {
      Disk(live, staged, stamp)
    }

    /** One pass: whatever goes wrong, the disk is where the machine puts it, and the boot goes on. */
    method Refresh(b: Boot, fault: Fault) returns (outcome: Outcome)
      modifies this
      ensures Exec(State(old(View()), Idle), Trace(b, old(View()), fault)) == Some(State(View(), Idle))
      ensures outcome == match Decide(b, old(View()))
                         case Disabled => OutDisabled
                         case Skipped => OutSkipped
                         case Current(digest) => OutCurrent(digest)
                         case Install(from, job) =>
                           if fault.Healthy? then OutUpdated(from, job.wanted) else OutSkipped
    {
      ghost var d := View();
      if !b.mediaNamed {
        return OutDisabled;
      }
      if b.golden.uki.None? || b.golden.conf.Missing? {
        return OutSkipped;
      }
      var wanted := ReadPalletFile(b.golden.conf);
      if wanted.None? || !b.mounts || stamp.Missing? {
        return OutSkipped;
      }
      var installed := ReadPalletFile(stamp);
      var from := if installed.Some? then installed.value else "unknown";
      if from == wanted.value {
        return OutCurrent(from);
      }
      var done := Install(b.golden.uki.value, wanted.value, fault);
      ghost var job := Job(b.golden.uki.value, wanted.value);
      TraceRuns(b, d, fault);
      outcome := if done then OutUpdated(from, wanted.value) else OutSkipped;
    }

    /** Stage, sync, rename over the live image, then write the stamp. */
    method Install(uki: Image, wanted: string, fault: Fault) returns (done: bool)
      modifies this
      ensures done <==> fault.Healthy?
      ensures View() == Residue(old(View()), Job(uki, wanted), fault)
    {
      if fault.NoDirectory? {
        return false;
      }
      if fault.CopyFails? {
        staged := Some(uki[..Min(fault.n, |uki|)]);
        return false;
      }
      staged := Some(uki);
      if fault.StagedSyncFails? || fault.RenameFails? {
        return false;
      }
      live, staged := staged, None;
      if fault.StampOpenFails? {
        return false;
      }
      if fault.StampWriteFails? {
        stamp := if fault.torn.UpTo? then StampFile.Text(StampText(wanted)[..Min(fault.torn.n, |StampText(wanted)|)])
                 else Garbled;
        return false;
      }
      stamp := StampFile.Text(StampText(wanted));
      return !fault.StampSyncFails?;
    }
  }
}
