# stormnetboot, verified

A Dafny model of the network-boot service: the server that decides what a machine boots, and the initramfs
init that boots it and keeps the machine's own boot media current. It covers the stateful protocols and the
text formats that cross crates, and proves what they promise over every run, input and interleaving. Where
the promise is false of the code, the code is kept as it is, and the exact condition under which it holds is
proved instead.

| file | what it models |
|---|---|
| `Media.dfy`, `Stamp.dfy` | the crash-safe refresh of the boot media, as a machine of small steps with a stop possible at each, and the stamp it leaves |
| `BootHost.dfy`, `StatusPatch.dfy`, `MergePatch.dfy`, `Reconcile.dfy` | the status of a `BootHost`: how it is derived, how it travels as a JSON merge patch (section 2 of RFC 7396), and the capped pass that writes it |
| `Echo.dfy` | the status pass together with the watch that brings back what each patch became |
| `Hosts.dfy`, `Watch.dfy` | the two-layer record store, and the watch that keeps it and the object index in step with the cluster |
| `Pallet.dfy` | the boot pallet projected file by file from a registry into a cache directory |
| `BootState.dfy`, `Feed.dfy` | the bounded tracker of what each machine is doing, and the console feed derived from it |
| `Ipxe.dfy`, `Cmdline.dfy`, `Device.dfy` | the boot script and its kernel command line, the init's reader of it, and the guard that keeps flow-over off the data slab |
| `Report.dfy`, `Mac.dfy` | the init's hand-written JSON report and the MAC spellings |
| `Boot.dfy` | one machine's boot across the components, from object and claim to what the init reads, and its report back |
| `Claims.dfy` | one root-volume claim per machine, under every interleaving of requests |
| `Prelude.dfy`, `Text.dfy`, `Sorting.dfy` | options, string operations as Rust's standard library has them, and ordered listings |

State the program changes in place is a class whose methods are proved against functions of the old state.
Runs are sequences of events, and the lemmas speak of the functions those methods are proved against. Every
inductive proof is written out; Dafny's automatic induction is off throughout.

## Where the code and its comments disagree

- `crates/stormnetboot-init/src/media.rs:21-25` and `:156-161` say that a stop between rename and stamp only
  makes the next boot try again, and that the stamp never claims an image the ESP does not have. That fails when
  the golden goes back to what the old stamp names before a pass completes (`Media.RevertedGoldenKeepsTheWrongImage`).
  `Media.FullPassInstallsExactly` says exactly when, over every run; `Media.FirstFullPassConverges` holds when the
  golden waits.
- `media.rs:140` reads a stamp that declares nothing as the word `unknown`, so a golden whose digest is that
  word counts as installed (`Media.PlaceholderDigestInstallsExactly`).
- `media.rs:89` reports the phase `media-updated`, which `parse_phase` in
  `crates/stormnetboot-server/src/http.rs:395-406` does not know: the server refuses that report
  (`Reports.MediaUpdatedIsRefused`).
- `crates/stormnetboot-server/src/pallet.rs:3-5` says that what a machine executes is fetched by digest and verified
  before a byte is served. The config blob is not (`:221-230`): whatever is answered for it is taken, an unreadable one
  for an empty spec, and its inline text replaces any member, the kernel included (`:243-251`). A signed pallet can
  so be served with another kernel (`Pallets.SwappedConfigReplacesTheKernel`). `Pallets.ChangedRefreshPinsExactly`
  says when what is served is what the digest pins.
- `crates/stormnetboot-server/src/pallet.rs:182-189` says an unchanged digest was verified when it was written.
  That holds of every run if and only if signatures are required (`Pallets.FlagIsTrueExactlyWhenRequired`). After a
  refresh that broke halfway the files may be another pallet's (`Pallets.HalfRefreshKeepsAgreementExactly`,
  `Pallets.RevertAfterHalfRefresh`).
- `crates/stormnetboot-server/src/kube_store.rs:230-239` remembers the desired status as written, but a merge patch
  deletes nothing, so the echo can differ for ever (`StatusPatches.EchoIsUpToDateExactly`,
  `StatusPatches.ForgottenHostStaysStale`), and each pass writes such an object again, up to the whole of its cap
  (`Echoes.EchoedPassesConvergeExactly`, `Echoes.CapCanBeUsedUp`).
- `crates/stormnetboot-server/src/state.rs:117-119` speaks of evicting hosts that reached `Local`; failed hosts
  are evicted with them.
- `crates/stormnetboot-init/src/cmdline.rs:314-349` is meant to stop partition names hiding a shared device; for devices
  outside the kinds it knows it does not (`Devices.GuardOfUnknownDevice`, `Devices.Nbd0IsNotGuarded`).

## Model

| member | source | states |
|---|---|---|
| `Stamp.ReadPalletFile` | crates/stormnetboot-init/src/media.rs:230-247 | the line loop with its early return finds what the specification reader finds: the first non-empty `pallet=` value outside comments, nothing for a missing or non-UTF-8 file |
| `Stamp.ReadIsFirstDeclared` | crates/stormnetboot-init/src/media.rs:230-247 | for every text: a digest is read if and only if it is the first that any line declares, a line declaring what stands after its first equals sign when the trimmed key before it is `pallet` |
| `Stamp.SilentTextReadsNothing` | crates/stormnetboot-init/src/media.rs:230-247 | a text no line of which declares a digest reads as nothing |
| `Stamp.BlanksAndCommentsAreSilent` | crates/stormnetboot-init/src/media.rs:233-236 | blank lines and comments, indented or not, declare nothing |
| `Stamp.DeclaredDigestIsRead` | crates/stormnetboot-init/src/media.rs:230-247 | a `pallet=` line after lines that declare nothing is read, whatever follows |
| `Stamp.ReadYieldsDigest` | crates/stormnetboot-init/src/media.rs:230-247 | whatever is read from any file can be written to a stamp again and read back: trimmed, non-empty, one line |
| `Stamp.WholeStampReads` | crates/stormnetboot-init/src/media.rs:180-185 | writing a digest as a stamp and reading it gives that digest, for every digest the reader can yield |
| `Stamp.StampIsAPalletLine` | crates/stormnetboot-init/src/media.rs:180-185 | what is written is a comment line and the digest under the key the reader looks for |
| `Stamp.TornStampReads` | crates/stormnetboot-init/src/media.rs:180-185 | a stamp cut off at any character reads as nothing or as a non-empty prefix of the digest being written |
| `Media.Esp.Refresh` | crates/stormnetboot-init/src/media.rs:68-154 | whatever goes wrong, a pass leaves the disk where the small-step machine does on that fault, its answer follows the decision taken on the old disk, and every failure is a skip |
| `Media.Esp.Install` | crates/stormnetboot-init/src/media.rs:162-190 | for every point of failure, the disk that is left: staging, rename and stamp in that order |
| `Media.TraceRuns` | crates/stormnetboot-init/src/media.rs:99-190 | the events of each fault are a legal run of the machine ending in the disk that fault leaves, so what is proved of runs holds of passes |
| `Media.PassInstallsExactly` | crates/stormnetboot-init/src/media.rs:99-154 | in terms of the texts of conf and stamp: an uninterrupted pass installs and stamps if and only if the device is named and mounts, the golden has an image and declares a digest, and a stamp is present that does not answer for it; otherwise the media stays as it was |
| `Media.SilentGoldenIsSkipped` | crates/stormnetboot-init/src/media.rs:104-118 | a golden that declares no digest leaves every medium as it was, whatever goes wrong |
| `Media.PalletLineIsInstalled` | crates/stormnetboot-init/src/media.rs:99-190 | a golden whose conf has a `pallet=` line replaces a medium stamped with another digest |
| `Media.MediaIsAlwaysBootable` | crates/stormnetboot-init/src/media.rs:99-190 | over every run of boots stopped anywhere: the live image is the original or the complete image of a golden that was booted, an ESP without a stamp is never changed, a stamp once present stays |
| `Media.RunKeepsStampBehindImage` | crates/stormnetboot-init/src/media.rs:156-190 | in every run, before the rename of a pass the stamp does not read as the digest that pass wants, and from the rename on the live image is the wanted one |
| `Media.RunSettles` | crates/stormnetboot-init/src/media.rs:117-190 | in every run where the golden changes only after a pass completes, the stamp is truthful when no pass is open and can only lag when one is |
| `Media.CurrentIsTrueWhenPatient` | crates/stormnetboot-init/src/media.rs:140-144 | in such a run every `Current` answer is true of the image firmware boots |
| `Media.FirstFullPassConverges` | crates/stormnetboot-init/src/media.rs:99-190 | after any number of stopped passes the first pass that runs through leaves image and stamp as the golden has them, and every later boot of it answers `Current` and writes nothing |
| `Media.RevertAfterStop` | crates/stormnetboot-init/src/media.rs:156-161 | one pass stopped anywhere and then a full pass for any other golden: the second fails to install its image exactly when the images differ and either the first stopped between rename and stamp with the old stamp naming the second golden, or it stopped in the stamp write with the torn stamp naming it |
| `Media.FullPassInstallsExactly` | crates/stormnetboot-init/src/media.rs:99-190 | the same over every run of boots and stops, goldens changing at will: a full pass leaves its golden live if and only if that golden is not kept out by a stamp that the last rename went past or that was torn in its write |
| `Media.TornStampKeepsOutPrefixes` | crates/stormnetboot-init/src/media.rs:180-185 | a torn stamp keeps out only goldens whose digest is a proper prefix of the one being written |
| `Media.RevertedGoldenKeepsTheWrongImage` | crates/stormnetboot-init/src/media.rs:156-161 | for any two goldens, the run that breaks the comment: the stamp says A, the live image is B, the pass answers `Current` |
| `Media.PlaceholderDigestInstallsExactly` | crates/stormnetboot-init/src/media.rs:140-144 | a golden whose digest is the placeholder word is installed exactly when the stamp declares another digest; on an unreadable stamp its pass changes nothing |
| `BootHosts.DesiredIsAFixpoint` | crates/stormnetboot-server/src/boothost.rs:211-358 | deriving again from the same observation at any later time gives the identical status, transition times included |
| `BootHosts.RecordExactly` | crates/stormnetboot-server/src/boothost.rs:150-188 | an object describes a record if and only if its MAC is twelve hex digits and it has a hostname or a name; the hostname goes first, and role, stack, portal, extra words, online and identity are the object's own |
| `BootHosts.ConditionsAreThree` | crates/stormnetboot-server/src/boothost.rs:326-349 | a status has one condition of each of the three kinds and no other |
| `BootHosts.VerdictsAreThePhase` | crates/stormnetboot-server/src/boothost.rs:220-349 | for every observation, history and clock: available exactly when tracked as running, assimilating or local; progressing exactly when tracked short of local and failure; degraded exactly when tracked as failed |
| `BootHosts.UnseenReasons` | crates/stormnetboot-server/src/boothost.rs:291-323 | an unseen host is not seen, or offline when its object says so, and each condition says which |
| `BootHosts.FailureReasons` | crates/stormnetboot-server/src/boothost.rs:220-244 | a failure carries the reason the node gave, in every condition |
| `BootHosts.LocalReasons` | crates/stormnetboot-server/src/boothost.rs:245-264 | a host on its own disk is done, in words for each condition |
| `BootHosts.BootingReasons` | crates/stormnetboot-server/src/boothost.rs:265-290 | a host on its way says what it last reported, or its phase; only availability calls it running |
| `BootHosts.StalenessIgnoresTheClock` | crates/stormnetboot-server/src/boothost.rs:211-358 | a status that is up to date at one time is at every time |
| `BootHosts.StretchIsUnbroken` | crates/stormnetboot-server/src/boothost.rs:320-358 | the stretch a history ends in has one value throughout and is as long as it can be |
| `BootHosts.TransitionTimeDatesTheStretch` | crates/stormnetboot-server/src/boothost.rs:320-358 | over any history of passes each fed its predecessor, a transition time is the clock of the first pass of the current unbroken stretch, or what the history began with when the stretch reaches back to it |
| `BootHosts.TimeMovesWithVerdict` | crates/stormnetboot-server/src/boothost.rs:320-358 | from one pass to the next the time moves exactly when the verdict does |
| `StatusPatches.DecodeOfEncode` | crates/stormnetboot-server/src/boothost.rs:80-141 | a status with any of its optional fields omitted is read back as itself |
| `StatusPatches.PatchMerges` | crates/stormnetboot-server/src/kube_store.rs:230-235 | applying the desired status as a merge patch stores the desired fields, and the stored ones where the desired status omits them, inside hardware too |
| `StatusPatches.EchoIsDesiredExactly` | crates/stormnetboot-server/src/kube_store.rs:226-239 | the object that comes back carries the desired status if and only if no optional field of the stored one, inside hardware included, is absent from it; the rest of the object is untouched |
| `StatusPatches.EchoIsUpToDateExactly` | crates/stormnetboot-server/src/kube_store.rs:226-239 | for every observation and every later time, the next pass finds the echo up to date if and only if nothing had to be deleted |
| `StatusPatches.DesiredOfAfterwards` | crates/stormnetboot-server/src/kube_store.rs:217-228 | a later pass over the same observation desires the identical status of whatever the patch left |
| `StatusPatches.ForgottenHostStaysStale` | crates/stormnetboot-server/src/kube_store.rs:226-239 | a host the tracker has forgotten, claimed or not, keeps its stored phase through the patch, and its echo is stale at every later time |
| `Reconcile.BootHostIndex.NoteStatus` | crates/stormnetboot-server/src/kube_store.rs:132-136 | only the status of a known address changes |
| `Reconcile.BootHostIndex.ReconcileStatus` | crates/stormnetboot-server/src/kube_store.rs:198-249 | for every walk order, one pass writes exactly min(200, n) of the n named stale objects whose patch is accepted, counts them, and changes nothing else |
| `Reconcile.BootHostIndex.Visit` | crates/stormnetboot-server/src/kube_store.rs:211-245 | an object is patched exactly when it is named, stale and not refused, and then carries the derived status |
| `Reconcile.ServerIsLevelTriggered` | crates/stormnetboot-server/src/boothost.rs:211-358 | the server's derivation, from tracker and claims as they stand, makes a written object up to date for every later clock |
| `Reconcile.DerivedSays` | crates/stormnetboot-server/src/kube_store.rs:217-224 | what a pass writes carries phase, version and hardware of the tracked host and the claim of its address |
| `Reconcile.DerivedConditions` | crates/stormnetboot-server/src/kube_store.rs:217-224 | and verdicts that follow the tracker, the reason of an unseen host that follows its object, and the object's generation |
| `Reconcile.PassShrinksStaleness` | crates/stormnetboot-server/src/kube_store.rs:198-249 | a pass shrinks the stale set by exactly the cap or all it may write, makes nothing stale, and with nothing to write changes nothing |
| `Reconcile.PassesConverge` | crates/stormnetboot-server/src/kube_store.rs:198-249 | while the index keeps what it noted and no patch fails, k passes leave max(0, n - 200k) objects stale; once none is, passes write nothing |
| `Reconcile.FailuresOnlyDelay` | crates/stormnetboot-server/src/kube_store.rs:241-244 | whatever patches fail, staleness never grows, and a pass under the cap leaves stale only what it was refused |
| `Echoes.ServerIsLawful` | crates/stormnetboot-server/src/kube_store.rs:211-239 | whether a write and its echo settle an object, and whether it has a field to delete, depends neither on the clock nor on the write itself |
| `Echoes.EchoedRunSettles` | crates/stormnetboot-server/src/kube_store.rs:198-249 | in every run of passes and echoes, the objects with a field to delete are the same for ever and stay stale; the others settle at the rate those leave of the cap, at least |
| `Echoes.EchoedPassesConvergeExactly` | crates/stormnetboot-server/src/kube_store.rs:198-249 | after passes enough for all that was stale, nothing is stale if and only if no object had a field to delete |
| `Echoes.CapCanBeUsedUp` | crates/stormnetboot-server/src/kube_store.rs:31-38 | with 200 objects to delete from, a pass may write only those and leave every other object as it was |
| `Hosts.HostStore.Reload` | crates/stormnetboot-server/src/hosts.rs:156-187 | the file layer is replaced only by a changed, readable, well-formed file; a missing or broken one keeps what was loaded, and only a broken one is an error; the count is of records read, or held when the file is unchanged |
| `Hosts.HostStore.SetKubeRecords` | crates/stormnetboot-server/src/hosts.rs:194-199 | the cluster layer becomes the list, last record of an address winning, and is marked synced; the file layer stays |
| `Hosts.HostStore.ApplyKubeRecord` | crates/stormnetboot-server/src/hosts.rs:202-218 | one cluster record replaced, everything else kept |
| `Hosts.HostStore.RemoveKubeRecord` | crates/stormnetboot-server/src/hosts.rs:221-223 | one cluster record removed, everything else kept |
| `Hosts.HostStore.Lookup` | crates/stormnetboot-server/src/hosts.rs:232-239 | the cluster's record before the file's |
| `Hosts.HostStore.ListRecords` | crates/stormnetboot-server/src/hosts.rs:242-254 | the listing is strictly sorted by address with one record per address known to either layer, each the one lookup gives, whatever the hash order |
| `Hosts.HostStore.Counts` | crates/stormnetboot-server/src/hosts.rs:256-269 | the total counts each address either layer knows once |
| `Hosts.LayersStayKeyed` | crates/stormnetboot-server/src/hosts.rs:156-223 | in every reachable store each record sits under its own address in both layers |
| `Hosts.LastRecordWins` | crates/stormnetboot-server/src/hosts.rs:178-199 | a list collected into a layer has exactly the addresses in it, each with its last record |
| `Hosts.FileLoadReplacesTheFile` | crates/stormnetboot-server/src/hosts.rs:177-183 | loading the file forgets all it said before; the cluster's answers stay |
| `Hosts.RelistReplacesTheCluster` | crates/stormnetboot-server/src/hosts.rs:194-199 | a relist forgets all the cluster said before, and where it is silent the file answers |
| `Hosts.AppliedRecordAnswers` | crates/stormnetboot-server/src/hosts.rs:202-239 | an applied record answers for its address whatever the file says, and changes no other answer |
| `Hosts.SyncedExactly` | crates/stormnetboot-server/src/hosts.rs:194-228 | the cluster layer counts as listed exactly once a list has been set, not when single records arrive |
| `Hosts.ListingAgreesWithLookup` | crates/stormnetboot-server/src/hosts.rs:232-254 | in every reachable store, lookup finds exactly the listed record of an address, and there is only one listing |
| `Hosts.RemovalFallsBackToFile` | crates/stormnetboot-server/src/hosts.rs:220-239 | dropping a cluster record lets the file answer for its address and changes no other answer |
| `Watch.Watcher.Reset` | crates/stormnetboot-server/src/kube_store.rs:93-105 | index and cluster layer are both rebuilt from the list; objects without a record are left out of both |
| `Watch.Watcher.React` | crates/stormnetboot-server/src/kube_store.rs:144-176 | each event takes index, layers and relist buffer to the mirror's next state |
| `Watch.AlwaysLockstep` | crates/stormnetboot-server/src/kube_store.rs:93-176 | for every event sequence, status notes and file reloads among them, index and cluster layer hold the same addresses and each record is its object's |
| `Watch.RelistHeals` | crates/stormnetboot-server/src/kube_store.rs:150-159 | a completed relist makes both sides exactly what it delivered, last object of an address winning, from any state and whatever events came in between; nothing of a stream that ended is delivered |
| `Watch.RefinementNeedsDistinctMacs` | crates/stormnetboot-server/src/kube_store.rs:73-81 | the layer can describe exactly the existing objects only if no two share an address |
| `Watch.ApplyKeepsRefinementExactly` | crates/stormnetboot-server/src/kube_store.rs:107-113 | an apply keeps exact agreement with the cluster if and only if no other object has the address and the object's own was not edited |
| `Watch.DeleteKeepsRefinementExactly` | crates/stormnetboot-server/src/kube_store.rs:115-121 | a delete keeps exact agreement if and only if it carries the address the object was last known by, or the object had none and nobody has the one it carries |
| `Watch.RelistRefinesExactly` | crates/stormnetboot-server/src/kube_store.rs:93-105 | a relist of the cluster agrees with it if and only if addresses are distinct, in whatever order it was delivered |
| `Watch.TameRunKeepsRefinement` | crates/stormnetboot-server/src/kube_store.rs:107-121 | agreement lasts through every run that shares and edits no address |
| `Watch.RefinementLastsExactly` | crates/stormnetboot-server/src/kube_store.rs:107-121 | between relists, agreement holds after every event of a run if and only if no event shares or edits an address |
| `Watch.HealedThenExact` | crates/stormnetboot-server/src/kube_store.rs:93-176 | from any state, a relist of a cluster with distinct addresses makes both sides describe exactly the existing objects, until an address is shared or edited |
| `Pallets.PalletSource.RefreshCache` | crates/stormnetboot-server/src/pallet.rs:179-271 | the loop over the layers, with a failure possible at every fetch and every write, leaves the cache and gives the answer of the specification function |
| `Pallets.PalletSource.ServeOne` | crates/stormnetboot-server/src/pallet.rs:233-257 | one layer: skipped, written inline, or verified, written aside and renamed; what a failure leaves behind |
| `Pallets.ServedLayersAgree` | crates/stormnetboot-server/src/pallet.rs:429-463 | after any number of served layers every served file is as the last layer naming it says, and other files are untouched |
| `Pallets.ChangedRefreshAgrees` | crates/stormnetboot-server/src/pallet.rs:179-271 | a successful changed refresh leaves kernel, initramfs and every other named file as the manifest of the reported digest and the spec blob that was answered name them, whatever was in the cache before |
| `Pallets.RolesDecideFiles` | crates/stormnetboot-server/src/pallet.rs:118-129 | in terms of annotations and media types: the kernel, the initramfs and the command line are each what the last layer of their role asks for; without a layer for it the command line stays |
| `Pallets.RoleExactly` | crates/stormnetboot-server/src/pallet.rs:475-486 | a layer's role is its role annotation, else its name annotation, else what its media type ends in |
| `Pallets.OtherRolesChangeNothing` | crates/stormnetboot-server/src/pallet.rs:233-241 | a layer of any other role is passed over |
| `Pallets.WantedExactly` | crates/stormnetboot-server/src/pallet.rs:467-472 | a layer is served the text of the first inline member of its role, and its own blob when that member carries none or there is no such member |
| `Pallets.ChangedRefreshExactly` | crates/stormnetboot-server/src/pallet.rs:179-271 | for every answer: a refresh to a new digest succeeds if and only if the pallet is of either type, its signature was checked and accepted where required, every served layer is delivered, and kernel and initramfs are among them; and then what the status says |
| `Pallets.UnchangedRefreshExactly` | crates/stormnetboot-server/src/pallet.rs:182-189 | a digest already served leaves the cache alone and is reported whenever its manifest parses |
| `Pallets.UnpinnedRefreshFails` | crates/stormnetboot-server/src/pallet.rs:297-333 | bytes that do not match the digest given for them, or do not parse, change nothing |
| `Pallets.OnlyServedFilesChange` | crates/stormnetboot-server/src/pallet.rs:429-463 | no refresh, failing or not, touches another file than the three served and their temporary names |
| `Pallets.ChangedRefreshPinsExactly` | crates/stormnetboot-server/src/pallet.rs:221-251 | the files are as the manifest and its own config blob name them if and only if, for each file, the answered spec asks for what the pinned one does or something interchangeable; a config answer of the pinned digest suffices |
| `Pallets.SwappedConfigReplacesTheKernel` | crates/stormnetboot-server/src/pallet.rs:221-251 | the failing input: a signed manifest, another blob answered for its config, and the served kernel is that blob's text under the signed, verified digest |
| `Pallets.InterchangeableExactly` | crates/stormnetboot-server/src/pallet.rs:429-463 | whether content served for one layer also serves for another can be told from texts, digests and sizes, collisions of the two contents aside |
| `Pallets.RefreshesServeAlikeExactly` | crates/stormnetboot-server/src/pallet.rs:179-271 | two successful changed refreshes of one manifest leave the same file if and only if the two answered specs ask interchangeable things of its layer; answers of the config digest make all files equal |
| `Pallets.SettledServerAgrees` | crates/stormnetboot-server/src/main.rs:211-238 | over any run of refreshes and failures, from a successful changed refresh until a later one fails after writing a file, the reported digest is of a manifest that the cache agrees with under the spec blob then answered |
| `Pallets.SettledServerPinsExactly` | crates/stormnetboot-server/src/main.rs:211-238 | and agrees with under the config blob that manifest pins if and only if the two specs serve alike |
| `Pallets.AgreementDeterminesFile` | crates/stormnetboot-server/src/pallet.rs:429-463 | two caches agreeing with one manifest, each under its own answered spec, hold the same file if and only if the specs ask interchangeable things of its layer, collisions of the two files aside |
| `Pallets.ReportedWasSigned` | crates/stormnetboot-server/src/pallet.rs:193-199 | where signatures are required, every digest reported in a run had its signature accepted in that run |
| `Pallets.FlagIsTrueExactlyWhenRequired` | crates/stormnetboot-server/src/pallet.rs:182-199 | in every run from a start a verified pallet had its signature accepted, if and only if signatures are required (given an unsigned pallet to fetch at all) |
| `Pallets.UnsignedTwiceIsVerified` | crates/stormnetboot-server/src/pallet.rs:182-189 | the failing run: the same unsigned pallet fetched twice ends verified, with no signature ever accepted |
| `Pallets.HalfRefreshKeepsAgreementExactly` | crates/stormnetboot-server/src/pallet.rs:232-265 | for any two pallets and a refresh stopped anywhere, a cache that held one still does if and only if each of its files was left alone, replaced by something interchangeable, or torn into content that still serves |
| `Pallets.RevertAfterHalfRefresh` | crates/stormnetboot-server/src/pallet.rs:182-189 | when the tag goes back after a broken refresh, the next one reports the old digest ready and verified and leaves the mixed cache as it is |
| `BootStates.BootState.RecordPhase` | crates/stormnetboot-server/src/state.rs:130-165 | one step of the tracker: room made only for a newcomer at the cap, then the reported host alone changed; a phase never goes back, a failure always lands |
| `BootStates.BootState.RecordPalletVersion` | crates/stormnetboot-server/src/state.rs:168-176 | only the version of a tracked host changes |
| `BootStates.BootState.RecordInventory` | crates/stormnetboot-server/src/state.rs:183-209 | a new host starts as running; a known one keeps its phase |
| `BootStates.BootState.EvictFinished` | crates/stormnetboot-server/src/state.rs:219-231 | every finished host goes; only if that is not enough, one of the least recently updated others |
| `BootStates.TrackerIsBounded` | crates/stormnetboot-server/src/state.rs:115-209 | in every run from empty at most MAX_TRACKED hosts are tracked, each under its own address |
| `BootStates.NewcomerIsAsReported` | crates/stormnetboot-server/src/state.rs:156-164 | in every run, a host that was not tracked before a report is the one it is about, with that report's phase and detail, or running with its hardware, timed by it |
| `BootStates.KnownHostIsUpdated` | crates/stormnetboot-server/src/state.rs:142-208 | in every run, what each report does to each host tracked before and after it: nothing to others, nothing when it is behind, and exactly what it says otherwise |
| `BootStates.NewcomerMakesRoom` | crates/stormnetboot-server/src/state.rs:219-231 | nobody goes before the map is full; when it is and a newcomer reports, every finished host goes |
| `BootStates.PhasesInOrder` | crates/stormnetboot-server/src/state.rs:29-46 | the order phases are compared by |
| `BootStates.EvictionIsLastResort` | crates/stormnetboot-server/src/state.rs:219-231 | in every run a report about a known host evicts nobody; an in-flight host goes only when none is finished, alone, and none was updated before it |
| `BootStates.PhaseIsFurthestHeard` | crates/stormnetboot-server/src/state.rs:130-165 | while a host stays tracked its phase is the maximum of where it started and all reported since, and its detail that of the last report at that phase |
| `BootStates.PhaseIsFurthestSinceFirst` | crates/stormnetboot-server/src/state.rs:130-165 | from the report that made it tracked on, a host's phase is the furthest of all heard of it, that report included |
| `BootStates.PhaseIgnoresOrder` | crates/stormnetboot-server/src/state.rs:146-155 | reports with the same phases, in any order and repeated any number of times, leave the same phase; a failure absorbs |
| `BootStates.Snapshot` | crates/stormnetboot-server/src/state.rs:233-241 | every tracked host once, most recently updated first, ties by address |
| `BootStates.SnapshotIsUnique` | crates/stormnetboot-server/src/state.rs:233-241 | there is only one such list, so the hash order cannot show |
| `BootStates.SnapshotOrder` | crates/stormnetboot-server/src/state.rs:233-241 | later updates first, equal ones by the first octet in which their addresses differ |
| `BootStates.TallyPhases` | crates/stormnetboot-server/src/state.rs:249-252 | the tally holds each phase some host is in, with how many are |
| `BootStates.CountPhases` | crates/stormnetboot-server/src/state.rs:244-256 | the sorted list of those entries |
| `BootStates.CountsCoverHosts` | crates/stormnetboot-server/src/state.rs:244-256 | the counts add up to the tracked hosts; each phase in use is listed once, in phase order, with the number of hosts in it |
| `Feed.Collect` | crates/stormnetboot-server/src/components.rs:150-286 | the pushed rows are the feed of the counts and a snapshot of one state |
| `Feed.IdsAreDistinct` | crates/stormnetboot-server/src/components.rs:150-286 | no two rows of a feed share an id |
| `Feed.FeedIsClosed` | crates/stormnetboot-server/src/components.rs:150-286 | every relation target in a feed is the id of a row of the same feed |
| `Feed.TotalsAddUp` | crates/stormnetboot-server/src/components.rs:150-229 | read back as numbers, the system total is the number of tracked hosts and the sum of what the phase rows show |
| `Feed.SystemHealth` | crates/stormnetboot-server/src/components.rs:154-172 | the service is in error exactly when nothing is served, and warns exactly when a host failed |
| `Feed.FailedMetricCounts` | crates/stormnetboot-server/src/components.rs:154-181 | the failed metric is the number of failed hosts, and marked as an error exactly when there are any |
| `Feed.AssetsRowSays` | crates/stormnetboot-server/src/components.rs:196-229 | the pallet row is healthy exactly when something is served and tells version and signature |
| `Feed.PhaseRowsSay` | crates/stormnetboot-server/src/components.rs:231-243 | each phase row is of a listed phase, shows its count, and is in error, fine or idle as the phase is |
| `Feed.HostRowSays` | crates/stormnetboot-server/src/components.rs:245-283 | each host row is of a shown host, with its address, its health, what it last said and its phase |
| `Feed.ShortDigestShows` | crates/stormnetboot-server/src/components.rs:288-291 | the first twelve digits of a digest, with or without its algorithm |
| `Feed.HostRowsAreMostRecent` | crates/stormnetboot-server/src/components.rs:231-283 | the host rows are min(200, n) hosts, and no host left out was updated after one shown |
| `Cmdline.ParseCmdline` | crates/stormnetboot-init/src/cmdline.rs:137-194 | the token loop computes the specification parser |
| `Cmdline.ReadToken` | crates/stormnetboot-init/src/cmdline.rs:140-191 | a token without `=`, without a value or with an unknown key changes nothing; any other changes its own field |
| `Cmdline.LastSettingDecides` | crates/stormnetboot-init/src/cmdline.rs:137-194 | each field of the boot contract is that of the last token that sets it, a bad number unsetting it |
| `Cmdline.RootFromTokens` | crates/stormnetboot-init/src/cmdline.rs:137-194 | for every line and in its own words: portal, NQN, volume, port and nsid are what the last token of each name says |
| `Cmdline.MachineFromTokens` | crates/stormnetboot-init/src/cmdline.rs:137-194 | likewise local disk, data slab, media, hostname, role, report URL and MAC |
| `Cmdline.ClaimFromTokens` | crates/stormnetboot-init/src/cmdline.rs:137-194 | likewise the diskless claim, image store, overlay, writable volumes and mounts |
| `Cmdline.SlabsFromTokens` | crates/stormnetboot-init/src/cmdline.rs:154-161 | the slabs are the entries of every token that names any |
| `Cmdline.EntriesOfCommas` | crates/stormnetboot-init/src/cmdline.rs:156-160 | a list between commas reads back as it was, empty entries dropped |
| `Cmdline.NamedMountExactly` | crates/stormnetboot-init/src/cmdline.rs:98-113 | a mount needs a name and a path; a malformed one keeps the name alone |
| `Text.ParseUnsignedExactly` | crates/stormnetboot-init/src/cmdline.rs:147-149 | a number reads back with or without a plus sign unless it is too large for its field |
| `Text.OnlyDigitsParse` | crates/stormnetboot-init/src/cmdline.rs:147-149 | nothing but digits, one plus sign before them aside, is a number |
| `Ipxe.PushRoot` | crates/stormnetboot-server/src/ipxe.rs:57-74 | the root parts are pushed only with a portal, each optional one only when planned, and always in the order specified |
| `Ipxe.BuildCommandLine` | crates/stormnetboot-server/src/ipxe.rs:54-96 | the growing vector of parts joins to the specified line |
| `Ipxe.InitReadsWhatServerWrote` | crates/stormnetboot-server/src/ipxe.rs:48-96 | parsing the line gives back portal, port, NQN, nsid, volume, local disk, hostname and role as planned, and none of the root fields without a portal, when values are words and extras use none of the contract's keys |
| `Ipxe.UriNamesThePlannedExport` | crates/stormnetboot-init/src/cmdline.rs:196-207 | the init finds a URI exactly when the plan names a portal and an export, and it names that export |
| `Ipxe.InitAttachesTheClaim` | crates/stormnetboot-server/src/http.rs:260-269 | a claim that replaced whatever was resolved reaches the init as its URI |
| `Ipxe.NoClaimNoUri` | crates/stormnetboot-server/src/ipxe.rs:32-46 | without a claim the init reads the resolved portal, the record's own before the server's, and finds no URI |
| `Ipxe.ExtrasComeLast` | crates/stormnetboot-server/src/ipxe.rs:88-94 | the words operators added come last, the server's before the host's, all of them and in order |
| `Ipxe.RootIsTheAttachedDevice` | crates/stormnetboot-server/src/ipxe.rs:57-74 | the line starts with the image's argument and, with a portal, takes root from the attached device |
| `Ipxe.ScriptCarriesTheLine` | crates/stormnetboot-server/src/ipxe.rs:100-131 | the rendered script's kernel line carries exactly the built arguments |
| `Ipxe.ScriptSays` | crates/stormnetboot-server/src/ipxe.rs:100-131 | the script line by line; it warns exactly when there is no portal |
| `Ipxe.BaseIsTrimmed` | crates/stormnetboot-server/src/config.rs:179-182 | the base URL loses its trailing slashes and nothing else |
| `Boots.ObjectReachesTheInit` | crates/stormnetboot-server/src/http.rs:198-270 | once an object is applied, the machine of its MAC boots under its hostname or name, in its role, and without a claim looks to its portal, or the server's |
| `Boots.ClaimReachesTheInit` | crates/stormnetboot-server/src/http.rs:260-269 | with an attachable claim the init reads exactly its address, port, target, nsid and volume |
| `Boots.UnattachedClaimNamesItsVolume` | crates/stormnetboot-server/src/http.rs:260-269 | a claim with no export yet names its volume and leaves the rest of the plan as resolved |
| `Boots.BootifIsTheAddress` | crates/stormnetboot-init/src/cmdline.rs:351-356 | both spellings of an address on the command line come to the one the server prints |
| `Boots.ReportComesFromTheMachine` | crates/stormnetboot-init/src/report.rs:38-49 | the address PXE put on the command line comes back with a report as that machine |
| `Devices.BlockReduces` | crates/stormnetboot-init/src/cmdline.rs:322-349 | every whole device of the supported kinds and every partition of one reduces to the whole device |
| `Devices.NamesAreDistinct` | crates/stormnetboot-init/src/cmdline.rs:322-349 | distinct devices of those kinds have distinct names |
| `Devices.GuardRefusesExactlyOneDevice` | crates/stormnetboot-init/src/cmdline.rs:271-293 | flow-over is refused if and only if its target and the data slab are named in the same directory and are on one device, whole or partition on either side |
| `Devices.GuardReadsTheLine` | crates/stormnetboot-init/src/cmdline.rs:271-293 | from the text of the command line: the boot is refused if and only if the last token for the target and the last for the data slab name one device in one directory |
| `Devices.GuardNeedsBoth` | crates/stormnetboot-init/src/cmdline.rs:277-284 | without a token for either there is nothing to refuse |
| `Devices.GuardOfUnknownDevice` | crates/stormnetboot-init/src/cmdline.rs:314-349 | a device whose name ends in a digit is guarded against its own `p` partitions if and only if it is of a known kind and does not itself look like a partition |
| `Devices.Nbd0IsNotGuarded` | crates/stormnetboot-init/src/cmdline.rs:314-349 | the failing input: flow-over onto `nbd0` is let through with `nbd0p1` as the data slab |
| `Reports.EscapeText` | crates/stormnetboot-init/src/report.rs:102-116 | the character loop computes the specified escape |
| `Reports.ReadOfBody` | crates/stormnetboot-init/src/report.rs:87-116 | for all texts, reading the body by JSON's rules (section 7 of RFC 8259) gives back MAC, phase and detail, control characters other than newline, return and tab as spaces |
| `Reports.BodyHasNoControl` | crates/stormnetboot-init/src/report.rs:87-116 | no raw control character gets into the body |
| `Reports.ReportArrives` | crates/stormnetboot-server/src/http.rs:348-365 | a report of a phase arrives as that phase of that machine with its detail |
| `Reports.RecordedExactly` | crates/stormnetboot-server/src/http.rs:348-406 | for all texts, a report from the init is recorded if and only if its MAC parses and its phase, trimmed, lowercased and with dashes, is one the server knows, and then as that phase of that machine with its detail |
| `Reports.MediaUpdatedIsRefused` | crates/stormnetboot-init/src/media.rs:83-90 | the report of rewritten media is refused for every machine |
| `Macs.ParseMac` | crates/stormnetboot-server/src/mac.rs:35-61 | the nibble loop computes the specified parse: first bad character, or the digit count, or the address |
| `Macs.ParseOfPrint` | crates/stormnetboot-server/src/mac.rs:35-73 | parsing inverts printing, for every address |
| `Macs.AcceptedSpellings` | crates/stormnetboot-server/src/mac.rs:35-61 | accepted if and only if twelve hex digits remain once separators are removed; what was read prints as those digits in lower case |
| `Macs.SameMacIffSameDigits` | crates/stormnetboot-server/src/mac.rs:35-61 | two accepted spellings are one address if and only if they agree up to separators and case |
| `Macs.FirstBadCharacterIsNamed` | crates/stormnetboot-server/src/mac.rs:39-45 | a refusal names the first character that is neither a digit nor a separator |
| `Macs.DigitCountIsNamed` | crates/stormnetboot-server/src/mac.rs:52-54 | or else the number of digits |
| `Macs.AnySeparatorReads` | crates/stormnetboot-server/src/mac.rs:39-42 | every address reads back with any of the five separators |
| `Macs.LessExactly` | crates/stormnetboot-server/src/mac.rs:12-13 | addresses are ordered by the first octet in which they differ |
| `Claims.ClaimCache.ClaimFor` | crates/stormnetboot-server/src/http.rs:286-308 | a remembered claim is reused, an attachable answer remembered, and nothing else changes |
| `Claims.RunKeepsInv` | crates/stormnetboot-server/src/http.rs:286-308 | every interleaving keeps the mutex exclusive, asks only for machines without a claim, and accounts for every claim minted |
| `Claims.OneClaimPerMachine` | crates/stormnetboot-server/src/http.rs:286-308 | under every interleaving at most one usable claim is minted per machine, and every successful reply to it carries that claim |
| `Claims.RepliesCanBeBooted` | crates/stormnetboot-server/src/claims.rs:63-70 | under every interleaving only a claim with an address, a target and a port is ever remembered or replied |
| `Claims.CriticalSectionIsOneCall` | crates/stormnetboot-server/src/http.rs:286-308 | the steps of one request under the lock amount to one call of the cache |

## Left out

- HTTP, Kubernetes, registry, socket, mount and process calls: each is an outcome given from outside, success with a value or failure.
- Times are given inputs, and lock poisoning is not modelled.
- Hashes, signature acceptance, JSON decoding of manifests and specs, and UTF-8 encoding of inline text are uninterpreted functions; the loop over candidate signatures is one answer.
- FAT below the crash model: a copy or stamp write leaves any prefix, a rename is atomic, what was synced stays, directory operations persist in order.
- A stamp cut inside a character: text is characters, and such a file is `Garbled`, read as nothing; a stamp can be garbled at any point of its write.
- The pass over the index and the watch's events are modelled each as one uninterrupted step; the pass walks the snapshot it took and nothing changes the index meanwhile.
- Claim requests dropped midway: a request runs to completion.
- Which golden a claim asks for, and the boot script's refusals of unknown and offline hosts.
- The two read locks `collect` takes are one unchanging state here; the feed's actions, links and number formatting beyond the rows shown are left out.
- The JSON reader reads what section 7 of RFC 8259 allows except `\uXXXX` escapes and whitespace between tokens, neither of which the init writes.
- `export_plan`, `all_slabs` and `missing` are not modelled; the parameters they read are.
- Config validation, metrics text, console labels, log matching in the agent, CRD generation, the build scripts and `steps.rs`.
- Pallets.HalfRefreshKeepsAgreementExactly: collisions of a file with its own replacement aside, since the hash is uninterpreted; the same goes for Pallets.InterchangeableExactly and the results that rest on it.
- Devices.GuardRefusesExactlyOneDevice: one device named in two directories, by a link for instance, is two paths to the code and to the model.
- Reconcile.PassesConverge: no echo arrives between its passes; `Echoes` has the runs in which every echo does.
- Ipxe.InitReadsWhatServerWrote: values with whitespace in them, or extra tokens that use the contract's own keys, change what the init reads, and the server does not refuse them.
- Ipxe.ScriptCarriesTheLine: a line break inside an extra token list or the base URL would end the script line, and the server does not refuse one.
- Media.FirstFullPassConverges: the golden does not change until a pass completes, a digest names one image, and no digest is the reader's placeholder; `Media.FullPassInstallsExactly` and `Media.PlaceholderDigestInstallsExactly` say what happens otherwise.
- Feed.TotalsAddUp: the rows' numbers are read back up to the 64-bit range, which the tracker's cap keeps them far inside.
