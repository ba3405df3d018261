/**
 * The data-slab guard: reducing a device path to its whole device, so that a
 * flow-over is refused onto the disk that holds the node's identity.
 */
module Devices {
  import opened Prelude
  import opened Text
  import Cmdline

  // ---- the reduction ------------------------------------------------------------

  /** The position after the last `c`, or 0 when there is none. */
  function AfterLast(s: string, c: char): (i: nat)
    ensures i <= |s|
    ensures c !in s[i..]
    ensures i > 0 ==> s[i - 1] == c
  {
    if s == "" then 0
    else if s[|s| - 1] == c then |s|
    else
      var i := AfterLast(s[..|s| - 1], c);
      assert s[i..] == s[..|s| - 1][i..] + [s[|s| - 1]];
      i
  }

  function TrimDigits(s: string): string {
    if s != "" && IsDigit(s[|s| - 1]) then TrimDigits(s[..|s| - 1]) else s
  }

  predicate EndsWithDigit(s: string) {
    s != "" && IsDigit(s[|s| - 1])
  }

  /** The name ends in `p` and digits after a digit: the `p` scheme of partitions. */
  predicate HasPartitionSuffix(name: string) {
    var i := AfterLast(name, 'p');
    i > 0 && i < |name| && AllDigits(name[i..]) && EndsWithDigit(name[..i - 1])
  }

  /** Names whose trailing digits belong to the device itself. */
  predicate OwnsDigits(name: string) {
    "nvme" <= name || "mmcblk" <= name || "loop" <= name
  }

  function NameBase(name: string): string {
    if HasPartitionSuffix(name) then name[..AfterLast(name, 'p') - 1]
    else if OwnsDigits(name) then name
    else TrimDigits(name)
  }

  function DeviceBase(path: string): string {
    var cut := AfterLast(path, '/');
    path[..cut] + NameBase(path[cut..])
  }

  /** The check made before anything is attached: true lets the boot go on. */
  predicate CheckLocalDisk(p: Cmdline.BootParams) {
    p.localDisk.None? || p.dataSlab.None? || DeviceBase(p.localDisk.value) != DeviceBase(p.dataSlab.value)
  }

  // ---- device names -----------------------------------------------------------------

  predicate AllLetters(s: string) {
    forall i :: 0 <= i < |s| ==> 'a' <= s[i] <= 'z'
  }

  predicate IsNumber(s: string) {
    s != "" && AllDigits(s)
  }

  datatype Bus = Sd | Vd | Hd | Xvd

  /** The whole devices the guard is for, by the names the kernel gives them. */
  datatype Disk =
    | Lettered(bus: Bus, letters: string)
    | Nvme(controller: string, namespace: string)
    | Mmc(number: string)
    | Loop(number: string)

  predicate IsDisk(d: Disk) {
    match d
    case Lettered(_, letters) => letters != "" && AllLetters(letters)
    case Nvme(controller, namespace) => IsNumber(controller) && IsNumber(namespace)
    case Mmc(number) => IsNumber(number)
    case Loop(number) => IsNumber(number)
  }

  function BusName(b: Bus): string {
    match b
    case Sd => "sd"
    case Vd => "vd"
    case Hd => "hd"
    case Xvd => "xvd"
  }

  function DiskName(d: Disk): string {
    match d
    case Lettered(bus, letters) => BusName(bus) + letters
    case Nvme(controller, namespace) => "nvme" + controller + "n" + namespace
    case Mmc(number) => "mmcblk" + number
    case Loop(number) => "loop" + number
  }

  /** A whole device, or one of its partitions. */
  datatype Block = Whole(disk: Disk) | Part(disk: Disk, number: string)

  predicate IsBlock(b: Block) {
    IsDisk(b.disk) && (b.Part? ==> IsNumber(b.number))
  }

  function BlockName(b: Block): string {
    match b
    case Whole(d) => DiskName(d)
    case Part(d, n) => if d.Lettered? then DiskName(d) + n else DiskName(d) + "p" + n
  }

  // ---- the reduction of each name -------------------------------------------------------

  lemma {:induction false} AfterLastIs(a: string, c: char, b: string)
    requires c !in b
    ensures AfterLast(a + [c] + b, c) == |a| + 1
    decreases |b|
  {
    var s := a + [c] + b;
    if b == "" {
      assert s[|s| - 1] == c;
    } else {
      assert s[..|s| - 1] == a + [c] + b[..|b| - 1];
      AfterLastIs(a, c, b[..|b| - 1]);
      assert s[|s| - 1] == b[|b| - 1];
    }
  }

  lemma {:induction false} AfterLastNone(s: string, c: char)
    requires c !in s
    ensures AfterLast(s, c) == 0
  {
    if s != "" {
      AfterLastNone(s[..|s| - 1], c);
    }
  }

  lemma {:induction false} TrimDigitsIs(a: string, digits: string)
    requires !EndsWithDigit(a) && AllDigits(digits)
    ensures TrimDigits(a + digits) == a
    decreases |digits|
  {
    if digits == "" {
      assert a + digits == a;
    } else {
      assert (a + digits)[..|a + digits| - 1] == a + digits[..|digits| - 1];
      TrimDigitsIs(a, digits[..|digits| - 1]);
    }
  }

  /** In the `p` scheme a partition reduces to its device, whatever the device is called. */
  lemma {:induction false} PartitionSuffixReduces(name: string, number: string)
    requires EndsWithDigit(name) && IsNumber(number)
    ensures NameBase(name + "p" + number) == name
  {
    assert 'p' !in number;
    AfterLastIs(name, 'p', number);
    var s := name + "p" + number;
    assert s[|name| + 1..] == number && s[..|name|] == name;
  }

  /** A name all digits after a `p`-free stem carries no partition suffix. */
  lemma {:induction false} NoPartitionSuffix(stem: string, digits: string)
    requires 'p' !in stem && AllDigits(digits)
    ensures !HasPartitionSuffix(stem + digits)
  {
    assert 'p' !in stem + digits;
    AfterLastNone(stem + digits, 'p');
  }

  lemma {:induction false} LetteredReduces(bus: Bus, letters: string, digits: string)
    requires letters != "" && AllLetters(letters) && AllDigits(digits)
    ensures NameBase(BusName(bus) + letters + digits) == BusName(bus) + letters
  {
    var whole := BusName(bus) + letters;
    var name := whole + digits;
    assert AllLetters(whole);
    var i := AfterLast(name, 'p');
    if 0 < i {
      assert i <= |whole| by {
        assert forall j :: |whole| <= j < |name| ==> IsDigit(name[j]);
      }
      assert !EndsWithDigit(name[..i - 1]) by {
        assert i >= 2 ==> name[..i - 1][i - 2] == whole[i - 2];
      }
    }
    assert !OwnsDigits(name) by {
      assert name[0] == BusName(bus)[0];
    }
    assert !EndsWithDigit(whole) by {
      assert whole[|whole| - 1] == letters[|letters| - 1];
    }
    TrimDigitsIs(whole, digits);
  }

  lemma {:induction false} NvmeReduces(controller: string, namespace: string)
    requires IsNumber(controller) && IsNumber(namespace)
    ensures NameBase("nvme" + controller + "n" + namespace) == "nvme" + controller + "n" + namespace
    ensures EndsWithDigit("nvme" + controller + "n" + namespace)
  {
    NoPartitionSuffix("nvme" + controller + "n", namespace);
    var name := "nvme" + controller + "n" + namespace;
    assert name[..4] == "nvme";
    assert name[|name| - 1] == namespace[|namespace| - 1];
  }

  lemma {:induction false} MmcReduces(number: string)
    requires IsNumber(number)
    ensures NameBase("mmcblk" + number) == "mmcblk" + number && EndsWithDigit("mmcblk" + number)
  {
    NoPartitionSuffix("mmcblk", number);
    var name := "mmcblk" + number;
    assert name[..6] == "mmcblk" && name[|name| - 1] == number[|number| - 1];
  }

  lemma {:induction false} LoopReduces(number: string)
    requires IsNumber(number)
    ensures NameBase("loop" + number) == "loop" + number && EndsWithDigit("loop" + number)
  {
    var name := "loop" + number;
    AfterLastIs("loo", 'p', number);
    assert name == "loo" + ['p'] + number;
    assert name[..3] == "loo" && name[..4] == "loop" && name[|name| - 1] == number[|number| - 1];
  }

  /** Every block device of the grammar reduces to its whole device. */
  lemma {:induction false} BlockReduces(b: Block)
    requires IsBlock(b)
    ensures NameBase(BlockName(b)) == DiskName(b.disk)
  {
    match b.disk {
      case Lettered(bus, letters) =>
        var digits := if b.Part? then b.number else "";
        LetteredReduces(bus, letters, digits);
        assert BusName(bus) + letters + "" == BusName(bus) + letters;
      case Nvme(controller, namespace) => NvmeReduces(controller, namespace);
      case Mmc(number) => MmcReduces(number);
      case Loop(number) => LoopReduces(number);
    }
    if b.Part? && !b.disk.Lettered? {
      PartitionSuffixReduces(DiskName(b.disk), b.number);
    }
  }

  // ---- distinct devices have distinct names ------------------------------------------------

  lemma {:induction false} NvmeNamesDiffer(c1: string, n1: string, c2: string, n2: string)
    requires IsNumber(c1) && IsNumber(n1) && IsNumber(c2) && IsNumber(n2)
    requires "nvme" + c1 + "n" + n1 == "nvme" + c2 + "n" + n2
    ensures c1 == c2 && n1 == n2
  {
    var a, b := c1 + ['n'] + n1, c2 + ['n'] + n2;
    assert ("nvme" + c1 + "n" + n1)[4..] == a && ("nvme" + c2 + "n" + n2)[4..] == b;
    assert 'n' !in c1 && 'n' !in c2;
    SplitOnceIs(c1, 'n', n1);
    SplitOnceIs(c2, 'n', n2);
  }

  lemma {:induction false} FirstLetter(d: Disk)
    requires IsDisk(d)
    ensures DiskName(d) != ""
    ensures DiskName(d)[0] ==
            match d
            case Lettered(bus, _) => BusName(bus)[0]
            case Nvme(_, _) => 'n'
            case Mmc(_) => 'm'
            case Loop(_) => 'l'
  {
  }

  lemma {:induction false} NamesAreDistinct(a: Disk, b: Disk)
    requires IsDisk(a) && IsDisk(b) && DiskName(a) == DiskName(b)
    ensures a == b
  {
    FirstLetter(a);
    FirstLetter(b);
    match a {
      case Lettered(bus, letters) =>
        assert bus == b.bus;
        assert DiskName(a)[|BusName(bus)|..] == letters && DiskName(b)[|BusName(bus)|..] == b.letters;
      case Nvme(c, n) => NvmeNamesDiffer(c, n, b.controller, b.namespace);
      case Mmc(n) => assert DiskName(a)[6..] == n && DiskName(b)[6..] == b.number;
      case Loop(n) => assert DiskName(a)[4..] == n && DiskName(b)[4..] == b.number;
    }
  }

  // ---- the guard ---------------------------------------------------------------------------

  predicate IsDirectory(dir: string) {
    dir == "" || dir[|dir| - 1] == '/'
  }

  lemma {:induction false} CutOfPath(dir: string, name: string)
    requires IsDirectory(dir) && '/' !in name
    ensures AfterLast(dir + name, '/') == |dir|
  {
    if dir == "" {
      assert dir + name == name;
      AfterLastNone(name, '/');
    } else {
      var d := dir[..|dir| - 1];
      assert dir + name == d + ['/'] + name;
      AfterLastIs(d, '/', name);
    }
  }

  lemma {:induction false} BaseOfPath(dir: string, name: string)
    requires IsDirectory(dir) && '/' !in name
    ensures DeviceBase(dir + name) == dir + NameBase(name)
  {
    CutOfPath(dir, name);
    assert (dir + name)[..|dir|] == dir && (dir + name)[|dir|..] == name;
  }

  lemma {:induction false} NoSlash(b: Block)
    requires IsBlock(b)
    ensures '/' !in BlockName(b)
  {
    assert '/' !in DiskName(b.disk);
  }

  lemma {:induction false} PathReduces(dir: string, b: Block)
    requires IsDirectory(dir) && IsBlock(b)
    ensures DeviceBase(dir + BlockName(b)) == dir + DiskName(b.disk)
  {
    NoSlash(b);
    BaseOfPath(dir, BlockName(b));
    BlockReduces(b);
  }

  /**
   * For devices of the grammar, whole or partition on either side and in any directory,
   * the flow-over is refused exactly when target and data slab are named in the same
   * directory and are on one device.
   */
  lemma {:induction false} GuardRefusesExactlyOneDevice(
    p: Cmdline.BootParams, diskDir: string, disk: Block, slabDir: string, slab: Block)
    requires IsDirectory(diskDir) && IsBlock(disk) && IsDirectory(slabDir) && IsBlock(slab)
    requires p.localDisk == Some(diskDir + BlockName(disk)) && p.dataSlab == Some(slabDir + BlockName(slab))
    ensures !CheckLocalDisk(p) <==> diskDir == slabDir && disk.disk == slab.disk
  {
    PathReduces(diskDir, disk);
    PathReduces(slabDir, slab);
    SamePath(diskDir, disk.disk, slabDir, slab.disk);
  }

  /**
   * From the command line's text to the guard: the boot is refused if and only if the
   * last token for the flow-over target and the last for the data slab name one device
   * in one directory.
   */
  lemma {:induction false} GuardReadsTheLine(
    line: string, diskDir: string, disk: Block, slabDir: string, slab: Block)
    requires IsDirectory(diskDir) && IsBlock(disk) && IsDirectory(slabDir) && IsBlock(slab)
    requires Cmdline.LastGiven(SplitWhitespace(line), {"rd.stormblock.local-disk"}, diskDir + BlockName(disk))
    requires Cmdline.LastGiven(SplitWhitespace(line), {"rd.stormblock.data-slab"}, slabDir + BlockName(slab))
    ensures !CheckLocalDisk(Cmdline.Parse(line)) <==> diskDir == slabDir && disk.disk == slab.disk
  {
    Cmdline.MachineFromTokens(line, diskDir + BlockName(disk));
    Cmdline.MachineFromTokens(line, slabDir + BlockName(slab));
    GuardRefusesExactlyOneDevice(Cmdline.Parse(line), diskDir, disk, slabDir, slab);
  }

  /** Without a token for either there is nothing to refuse. */
  lemma {:induction false} GuardNeedsBoth(line: string)
    requires var words := SplitWhitespace(line);
             (forall value :: !Cmdline.LastGiven(words, {"rd.stormblock.local-disk"}, value)) ||
             (forall value :: !Cmdline.LastGiven(words, {"rd.stormblock.data-slab"}, value))
    ensures CheckLocalDisk(Cmdline.Parse(line))
  {
    var p := Cmdline.Parse(line);
    if p.localDisk.Some? && p.dataSlab.Some? {
      Cmdline.MachineFromTokens(line, p.localDisk.value);
      Cmdline.MachineFromTokens(line, p.dataSlab.value);
    }
  }

  lemma {:induction false} SamePath(dirA: string, a: Disk, dirB: string, b: Disk)
    requires IsDirectory(dirA) && IsDisk(a) && IsDirectory(dirB) && IsDisk(b)
    ensures dirA + DiskName(a) == dirB + DiskName(b) <==> dirA == dirB && a == b
  {
    NoSlash(Whole(a));
    NoSlash(Whole(b));
    SameParts(dirA, DiskName(a), dirB, DiskName(b));
    if DiskName(a) == DiskName(b) {
      NamesAreDistinct(a, b);
    }
  }

  lemma {:induction false} SameParts(dirA: string, a: string, dirB: string, b: string)
    requires IsDirectory(dirA) && '/' !in a && IsDirectory(dirB) && '/' !in b
    ensures dirA + a == dirB + b <==> dirA == dirB && a == b
  {
    CutOfPath(dirA, a);
    CutOfPath(dirB, b);
    if dirA + a == dirB + b {
      assert (dirA + a)[..|dirA|] == dirA && (dirB + b)[..|dirB|] == dirB;
      assert (dirA + a)[|dirA|..] == a && (dirB + b)[|dirB|..] == b;
    }
  }

  /**
   * Outside the grammar: a device whose name ends in a digit and whose partitions
   * follow the `p` scheme is guarded against its own partitions exactly when its name
   * reduces to itself, that is, when it is one of the three known kinds and does not
   * itself look like a partition.
   */
  lemma {:induction false} GuardOfUnknownDevice(p: Cmdline.BootParams, dir: string, name: string, number: string)
    requires IsDirectory(dir) && '/' !in name && EndsWithDigit(name) && IsNumber(number)
    requires p.localDisk == Some(dir + name) && p.dataSlab == Some(dir + (name + "p" + number))
    ensures !CheckLocalDisk(p) <==> OwnsDigits(name) && !HasPartitionSuffix(name)
  {
    var part := name + "p" + number;
    NoSlashInPartition(name, number);
    BaseOfPath(dir, name);
    BaseOfPath(dir, part);
    PartitionSuffixReduces(name, number);
    ReducesToItself(name);
    SameAfter(dir, NameBase(name), name);
  }

  /** So a flow-over onto `nbd0` is let through with its own first partition as the data slab. */
  lemma {:induction false} Nbd0IsNotGuarded(p: Cmdline.BootParams)
    requires p.localDisk == Some("/dev/nbd0") && p.dataSlab == Some("/dev/nbd0p1")
    ensures CheckLocalDisk(p)
  {
    assert "/dev/nbd0" == "/dev/" + "nbd0" && "/dev/nbd0p1" == "/dev/" + ("nbd0" + "p" + "1");
    GuardOfUnknownDevice(p, "/dev/", "nbd0", "1");
  }

  lemma {:induction false} SameAfter(dir: string, a: string, b: string)
    ensures dir + a == dir + b <==> a == b
  {
    if dir + a == dir + b {
      assert (dir + a)[|dir|..] == a && (dir + b)[|dir|..] == b;
    }
  }

  lemma {:induction false} NoSlashInPartition(name: string, number: string)
    requires '/' !in name && IsNumber(number)
    ensures '/' !in name + "p" + number
  {
    assert forall i :: 0 <= i < |number| ==> IsDigit(number[i]);
  }

  lemma {:induction false} ReducesToItself(name: string)
    requires EndsWithDigit(name)
    ensures NameBase(name) == name <==> OwnsDigits(name) && !HasPartitionSuffix(name)
  {
    if HasPartitionSuffix(name) {
      assert |NameBase(name)| < |name|;
    } else if !OwnsDigits(name) {
      TrimDigitsShortens(name);
    }
  }

  lemma {:induction false} TrimDigitsShortens(s: string)
    ensures |TrimDigits(s)| <= |s|
    ensures EndsWithDigit(s) ==> |TrimDigits(s)| < |s|
  {
    if EndsWithDigit(s) {
      TrimDigitsShortens(s[..|s| - 1]);
    }
  }
}
