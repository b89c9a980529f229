/** src/LogRotationManager.cpp: size-based rotation of a log file. When the
    live file reaches the size limit, numbered backups `<path>.N` found next
    to it are deleted or shifted up by one, largest number first, and the
    live file becomes `<path>.1` (or is emptied when no backups are kept).
    The file system is a map from path to size in bytes; the directory
    listing of the log's folder is an input in the order it is read. */
module LogRotation {
  import opened Common
  import opened Numerals
  import opened LogRotationTypes

  type FileSystem = map<string, nat>

  /** An entry of a directory listing: its name and whether it is a regular file. */
  datatype DirEntry = DirEntry(name: string, isRegular: bool)

  /** A file-system call the rotation makes. */
  datatype FileOp =
    | Remove(path: string)
    | Rename(src: string, dst: string)
    | Truncate(path: string)

  const UINT_RANGE: int := 0x1_0000_0000

  // ---------------------------------------------------------------- threshold

  /** The limit as the source computes it: `FileSize * 1000` is evaluated
      in `unsigned int` and wraps modulo 2^32 before the comparison. */
  function ThresholdAsWritten(fileSizeKb: uint32): (t: nat)
    ensures t < UINT_RANGE
    ensures fileSizeKb * 1000 < UINT_RANGE ==> t == fileSizeKb * 1000
  {
    (fileSizeKb * 1000) % UINT_RANGE
  }

  /** A limit of 5,000,000 kB (what "5GB" parses to) wraps to 705,032,704
      bytes, so a 0.7 GB file is already rotated; and a larger limit can
      give a smaller threshold. */
  lemma ThresholdWrapsAboveFourGigabytes()
    ensures ThresholdAsWritten(5000000) == 705032704
    ensures ThresholdAsWritten(4294968) < ThresholdAsWritten(4294967)
  {
  }

  /** The limit in bytes the setting evidently means: one kilobyte is 1000
      bytes, computed without wrap-around. */
  function Threshold(fileSizeKb: uint32): (t: nat)
    ensures t / 1000 == fileSizeKb && t % 1000 == 0
  {
    fileSizeKb * 1000
  }

  /** The intended threshold grows with the setting, and agrees with the
      source's wherever the product fits in 32 bits. */
  lemma ThresholdMonotone(a: uint32, b: uint32)
    ensures a <= b ==> Threshold(a) <= Threshold(b)
    ensures a * 1000 < UINT_RANGE ==> Threshold(a) == ThresholdAsWritten(a)
  {
  }

  /** The rotation decision for SIZE: the size must be readable and at
      least the limit (the comparison is inclusive). */
  predicate ShouldRotate(fs: FileSystem, filepath: string, fileSizeKb: uint32)
  {
    filepath in fs && fs[filepath] >= Threshold(fileSizeKb)
  }

  // ------------------------------------------------------------- candidates

  /** Position of the last `c` in `s`, if any (`find_last_of`). */
  function LastIndexOf(s: string, c: char): (r: Option<nat>)
    ensures r.Some? ==> r.value < |s| && s[r.value] == c
    ensures r.Some? ==> forall i :: r.value < i < |s| ==> s[i] != c
    ensures r.None? ==> c !in s
  {
    if |s| == 0 then None
    else if s[|s| - 1] == c then Some(|s| - 1)
    else LastIndexOf(s[..|s| - 1], c)
  }

  /** Directory and file name, split at the last '/'. Without a '/' both
      `substr` calls yield the whole path. */
  function SplitPath(filepath: string): (r: (string, string))
    ensures '/' in filepath ==> r.0 + "/" + r.1 == filepath && '/' !in r.1
    ensures '/' !in filepath ==> r == (filepath, filepath)
  {
    match LastIndexOf(filepath, '/')
      case Some(i) => (filepath[..i], filepath[i + 1..])
      case None => (filepath, filepath)
  }

  /** The extension of a listed name: what follows the last '.', or the
      empty string when there is no '.'. */
  function Extension(name: string): (ext: string)
    ensures '.' !in ext
    ensures |ext| <= |name| && ext == name[|name| - |ext|..]
    ensures '.' in name ==> |ext| < |name| && name[|name| - |ext| - 1] == '.'
    ensures '.' !in name ==> ext == []
  {
    match LastIndexOf(name, '.')
      case Some(i) => name[i + 1..]
      case None => []
  }

  /** The white space `strtol` skips (`isspace` in the C locale). */
  predicate IsSpace(c: char)
  {
    c == ' ' || c == '\t' || c == '\n' || c == '\r' || c == '\U{0B}' || c == '\U{0C}'
  }

  /** `s` after its leading white space. */
  function DropSpaces(s: string): (r: string)
    ensures |r| <= |s| && r == s[|s| - |r|..]
    ensures forall i :: 0 <= i < |s| - |r| ==> IsSpace(s[i])
    ensures |r| > 0 ==> !IsSpace(r[0])
  {
    if |s| > 0 && IsSpace(s[0]) then DropSpaces(s[1..]) else s
  }

  /** `strtol(ext, &end, 10)` accepted only when `*end` is the terminator:
      optional white space and sign, then digits up to the end. With no
      digits `end` stays at the start, so only the empty string is accepted,
      as 0. */
  function ParseExtension(ext: string): (r: Option<int>)
    ensures ext == [] ==> r == Some(0)
    ensures AllDecimal(ext) && ext != [] ==> r == Some(DecimalValue(ext))
    ensures ext != [] && (forall i :: 0 <= i < |ext| ==> !IsDecimalDigit(ext[i])) ==> r == None
    ensures ext != [] && r.Some? ==> IsDecimalDigit(ext[|ext| - 1])
  {
    if ext == [] then Some(0)
    else
      var t := DropSpaces(ext);
      var negative := |t| > 0 && t[0] == '-';
      var digits := if |t| > 0 && (t[0] == '+' || t[0] == '-') then t[1..] else t;
      if digits != [] && AllDecimal(digits) then
        var magnitude: int := DecimalValue(digits);
        Some(if negative then -magnitude else magnitude)
      else None
  }

  /** The number a listed entry contributes: regular files whose name
      starts with the log's file name and whose extension parses. */
  function CandidateNumber(e: DirEntry, fileName: string): Option<int>
  {
    if e.isRegular && StartsWith(e.name, fileName) then ParseExtension(Extension(e.name)) else None
  }

  /** `moved_nums` after the directory scan, in listing order. */
  function Candidates(listing: seq<DirEntry>, fileName: string): (r: seq<int>)
    ensures |r| <= |listing|
    ensures forall k :: 0 <= k < |r| ==> exists i :: 0 <= i < |listing| && CandidateNumber(listing[i], fileName) == Some(r[k])
    ensures (forall i :: 0 <= i < |listing| ==> CandidateNumber(listing[i], fileName).None?) ==> r == []
  {
    if |listing| == 0 then []
    else
      var rest := Candidates(listing[..|listing| - 1], fileName);
      match CandidateNumber(listing[|listing| - 1], fileName)
        case Some(n) => rest + [n]
        case None => rest
  }

  /** The directory scan loop. */
  method ScanDirectory(listing: seq<DirEntry>, fileName: string) returns (nums: seq<int>)
    ensures nums == Candidates(listing, fileName)
  {
    nums := [];
    var i := 0;
    while i < |listing|
      invariant 0 <= i <= |listing|
      invariant nums == Candidates(listing[..i], fileName)
    {
      assert listing[..i + 1][..i] == listing[..i];
      var file := listing[i];
      i := i + 1;
      if !file.isRegular {
        continue;
      }
      if !StartsWith(file.name, fileName) {
        continue;
      }
      var num := ParseExtension(Extension(file.name));
      if num.None? {
        continue;
      }
      nums := nums + [num.value];
    }
    assert listing[..|listing|] == listing;
  }

  /** A numbered backup next to `app.log` is a candidate. */
  lemma NumberedBackupIsCandidate()
    ensures CandidateNumber(DirEntry("app.log.3", true), "app.log") == Some(3)
  {
    assert StartsWith("app.log.3", "app.log") by { assert "app.log.3"[..7] == "app.log"; }
    assert LastIndexOf("app.log.3", '.') == Some(7) by {
      assert "app.log.3"[8] != '.';
      assert "app.log.3"[7] == '.';
    }
    assert Extension("app.log.3") == "3";
    assert DecimalValue("3") == 3 by { assert "3"[..0] == ""; }
  }

  /** Directories, other files' backups and names with a non-numeric
      extension are not candidates. */
  lemma OtherEntriesAreNoCandidates()
    ensures CandidateNumber(DirEntry("app.log.3", false), "app.log") == None
    ensures CandidateNumber(DirEntry("other.log.3", true), "app.log") == None
    ensures CandidateNumber(DirEntry("app.log.old", true), "app.log") == None
  {
    assert !StartsWith("other.log.3", "app.log") by { assert "other.log.3"[..7][0] == 'o'; }
    assert Extension("app.log.old") == "old" by {
      assert LastIndexOf("app.log.old", '.') == Some(7) by {
        assert "app.log.old"[7] == '.';
        assert "app.log.old"[10] != '.' && "app.log.old"[9] != '.' && "app.log.old"[8] != '.';
      }
    }
    NonNumericExtensionIsNoCandidate(DirEntry("app.log.old", true), "app.log");
  }

  /** A listed name whose extension is not empty and ends in anything but
      a digit (`app.log.old`, `app.log.1~`) is never a candidate. */
  lemma NonNumericExtensionIsNoCandidate(e: DirEntry, fileName: string)
    requires Extension(e.name) != [] && !IsDecimalDigit(Extension(e.name)[|Extension(e.name)| - 1])
    ensures CandidateNumber(e, fileName) == None
  {
  }

  /** The scan keeps the listing order: the candidates of two listings
      read one after the other are those of the first, then those of the
      second. */
  lemma {:induction false} CandidatesAppend(a: seq<DirEntry>, b: seq<DirEntry>, fileName: string)
    ensures Candidates(a + b, fileName) == Candidates(a, fileName) + Candidates(b, fileName)
    decreases |b|
  {
    if |b| == 0 {
      assert a + b == a;
    } else {
      var b' := b[..|b| - 1];
      assert (a + b)[..|a + b| - 1] == a + b';
      CandidatesAppend(a, b', fileName);
    }
  }

  /** Every listed entry that qualifies is scanned: its number is in
      `moved_nums`, after the numbers of the entries listed before it. */
  lemma CandidatesComplete(listing: seq<DirEntry>, fileName: string, i: nat)
    requires i < |listing| && CandidateNumber(listing[i], fileName).Some?
    ensures Candidates(listing, fileName) ==
      Candidates(listing[..i], fileName) + [CandidateNumber(listing[i], fileName).value] + Candidates(listing[i + 1..], fileName)
  {
    assert listing == listing[..i + 1] + listing[i + 1..];
    CandidatesAppend(listing[..i + 1], listing[i + 1..], fileName);
    assert listing[..i + 1][..i] == listing[..i];
  }

  // ------------------------------------------------------------------ sorting

  predicate SortedDescending(s: seq<int>)
  {
    forall i, j :: 0 <= i < j < |s| ==> s[i] >= s[j]
  }

  function InsertDescending(x: int, s: seq<int>): (r: seq<int>)
    requires SortedDescending(s)
    ensures SortedDescending(r)
    ensures multiset(r) == multiset(s) + multiset{x}
    ensures |r| == |s| + 1
    ensures r[0] == if |s| == 0 || x >= s[0] then x else s[0]
  {
    if |s| == 0 then [x]
    else if x >= s[0] then [x] + s
    else
      var tail := InsertDescending(x, s[1..]);
      assert multiset(s) == multiset{s[0]} + multiset(s[1..]) by { assert s == [s[0]] + s[1..]; }
      assert s[0] >= tail[0];
      [s[0]] + tail
  }

  /** `std::sort(..., std::greater<int>())`: the same numbers, largest first. */
  function SortDescending(s: seq<int>): (r: seq<int>)
    ensures SortedDescending(r)
    ensures multiset(r) == multiset(s)
    ensures |r| == |s|
  {
    if |s| == 0 then []
    else
      assert s == [s[0]] + s[1..];
      InsertDescending(s[0], SortDescending(s[1..]))
  }

  // ---------------------------------------------------------------- the plan

  /** `fmt::format("{:s}.{:d}", filepath, n)`. */
  function BackupName(filepath: string, n: int): (name: string)
    ensures StartsWith(name, filepath + ".")
    ensures |name| > |filepath| + 1
  {
    assert (filepath + "." + SignedToBase(n, 10))[..|filepath| + 1] == filepath + ".";
    filepath + "." + SignedToBase(n, 10)
  }

  /** The call for the backup numbered `n` when `count` (before the
      post-decrement) is compared with the backup count. */
  function BackupOp(filepath: string, n: int, count: int, backupCount: int): FileOp
  {
    if count >= backupCount then Remove(BackupName(filepath, n))
    else Rename(BackupName(filepath, n), BackupName(filepath, n + 1))
  }

  /** The calls of the backup loop over the numbers sorted largest first:
      the i-th (0-based) of m sees `count == m - i`. */
  function BackupOps(filepath: string, sorted: seq<int>, backupCount: int): (ops: seq<FileOp>)
    ensures |ops| == |sorted|
    ensures forall i :: 0 <= i < |sorted| ==> ops[i] == BackupOp(filepath, sorted[i], |sorted| - i, backupCount)
  {
    seq(|sorted|, i requires 0 <= i < |sorted| => BackupOp(filepath, sorted[i], |sorted| - i, backupCount))
  }

  /** The live file becomes backup 1, or is truncated when no backup is kept. */
  function LiveOp(filepath: string, backupCount: int): FileOp
  {
    if backupCount != 0 then Rename(filepath, BackupName(filepath, 1)) else Truncate(filepath)
  }

  /** The numbers the loop processes: the scan happens only for a non-zero
      backup count. */
  function ScannedNumbers(listing: seq<DirEntry>, filepath: string, backupCount: int): seq<int>
  {
    if backupCount != 0 then SortDescending(Candidates(listing, SplitPath(filepath).1)) else []
  }

  /** Every call a rotation makes, in order. */
  function RotationPlan(listing: seq<DirEntry>, filepath: string, backupCount: int): seq<FileOp>
  {
    BackupOps(filepath, ScannedNumbers(listing, filepath, backupCount), backupCount) + [LiveOp(filepath, backupCount)]
  }

  /** POSIX semantics of the calls: removing or renaming a missing file
      fails and changes nothing; a rename replaces an existing target;
      truncation leaves an empty file. */
  function ApplyOp(fs: FileSystem, op: FileOp): FileSystem
  {
    match op
      case Remove(p) => fs - {p}
      case Rename(p, q) => if p in fs then (fs - {p})[q := fs[p]] else fs
      case Truncate(p) => fs[p := 0]
  }

  function ApplyOps(fs: FileSystem, ops: seq<FileOp>): FileSystem
  {
    if |ops| == 0 then fs else ApplyOp(ApplyOps(fs, ops[..|ops| - 1]), ops[|ops| - 1])
  }

  // ------------------------------------------------------------------- Check

  /** LogRotationManager::Check. NONE and DATE change nothing (the DATE
      branch is empty). SIZE changes nothing when the size cannot be read or
      is below the limit, and otherwise rotates. */
  method Check(fs: FileSystem, listing: seq<DirEntry>, filepath: string, config: LogRotationConfig)
    returns (fs': FileSystem)
    ensures !config.rotation.SizeRotation? ==> fs' == fs
    ensures config.rotation.SizeRotation? && !ShouldRotate(fs, filepath, config.rotation.fileSizeKb) ==> fs' == fs
    ensures config.rotation.SizeRotation? && ShouldRotate(fs, filepath, config.rotation.fileSizeKb) ==>
      fs' == ApplyOps(fs, RotationPlan(listing, filepath, config.backupCount))
  {
    fs' := fs;
    if TypeOf(config.rotation) == NONE {
      return;
    }
    if TypeOf(config.rotation) == SIZE {
      if filepath !in fs {
        return;
      }
      var size := fs[filepath];
      if size < Threshold(config.rotation.fileSizeKb) {
        return;
      }
      fs' := Rotate(fs, listing, filepath, config.backupCount);
    }
  }

  /** The rotation proper: scan the directory (only for a non-zero backup
      count), sort the numbers largest first, remove or rename each backup
      by its rank, then rename or truncate the live file. */
  method Rotate(fs: FileSystem, listing: seq<DirEntry>, filepath: string, backupCount: int)
    returns (fs': FileSystem)
    ensures fs' == ApplyOps(fs, RotationPlan(listing, filepath, backupCount))
  {
    var (_, fileName) := SplitPath(filepath);
    var movedNums: seq<int> := [];
    if backupCount != 0 {
      movedNums := ScanDirectory(listing, fileName);
    }
    movedNums := SortDescending(movedNums);
    fs' := ShiftBackups(fs, filepath, movedNums, backupCount);
    if backupCount != 0 {
      fs' := ApplyOp(fs', Rename(filepath, BackupName(filepath, 1)));
    } else {
      fs' := ApplyOp(fs', Truncate(filepath));
    }
    ApplyOpsSnoc(fs, BackupOps(filepath, movedNums, backupCount), LiveOp(filepath, backupCount));
  }

  lemma ApplyOpsSnoc(fs: FileSystem, ops: seq<FileOp>, op: FileOp)
    ensures ApplyOps(fs, ops + [op]) == ApplyOp(ApplyOps(fs, ops), op)
  {
    assert (ops + [op])[..|ops|] == ops;
  }

  /** Applying the first `i + 1` calls is applying call `i` after the
      first `i`. */
  lemma ApplyOpsStep(fs: FileSystem, ops: seq<FileOp>, i: nat)
    requires i < |ops|
    ensures ApplyOps(fs, ops[..i + 1]) == ApplyOp(ApplyOps(fs, ops[..i]), ops[i])
  {
    assert ops[..i + 1][..i] == ops[..i];
  }

  /** The backup loop: `count` starts at the number of backups and drops by
      one per iteration; the backup is removed while `count` is at least the
      backup count and renamed to the next number after that. */
  method ShiftBackups(fs: FileSystem, filepath: string, movedNums: seq<int>, backupCount: int)
    returns (fs': FileSystem)
    ensures fs' == ApplyOps(fs, BackupOps(filepath, movedNums, backupCount))
  {
    ghost var ops := BackupOps(filepath, movedNums, backupCount);
    fs' := fs;
    var count := |movedNums|;
    var i := 0;
    while i < |movedNums|
      invariant 0 <= i <= |movedNums|
      invariant count == |movedNums| - i
      invariant fs' == ApplyOps(fs, ops[..i])
    {
      var n := movedNums[i];
      ApplyOpsStep(fs, ops, i);
      assert ops[i] == BackupOp(filepath, n, count, backupCount);
      var fnOld, fnNew := BackupName(filepath, n), BackupName(filepath, n + 1);
      if count >= backupCount {
        fs' := ApplyOp(fs', Remove(fnOld));
      } else {
        fs' := ApplyOp(fs', Rename(fnOld, fnNew));
      }
      count := count - 1;
      i := i + 1;
    }
    assert ops[..|movedNums|] == ops;
  }

  // ---------------------------------------------------------------- properties

  /** With a zero backup count nothing is scanned, so no backup is touched:
      the only call truncates the live file. */
  lemma ZeroBackupsOnlyTruncates(fs: FileSystem, listing: seq<DirEntry>, filepath: string)
    ensures RotationPlan(listing, filepath, 0) == [Truncate(filepath)]
    ensures ApplyOps(fs, RotationPlan(listing, filepath, 0)) == fs[filepath := 0]
  {
    assert RotationPlan(listing, filepath, 0)[..0] == [];
  }

  /** Deletion goes by rank: with m numbers, the i-th largest is removed
      exactly when m - i reaches the backup count, so every removed number is
      at least as large as every number that is shifted and kept. */
  lemma {:induction false} RemovesOldestFirst(filepath: string, sorted: seq<int>, backupCount: int, i: nat, j: nat)
    requires SortedDescending(sorted)
    requires i < |sorted| && j < |sorted|
    requires BackupOps(filepath, sorted, backupCount)[i].Remove?
    requires BackupOps(filepath, sorted, backupCount)[j].Rename?
    ensures i < j && sorted[i] >= sorted[j]
  {
    var m := |sorted|;
    assert m - i >= backupCount;
    assert m - j < backupCount;
  }

  /** The number of backups shifted and kept: none for a non-positive
      backup count, otherwise the smaller of m and backupCount - 1. */
  function KeptCount(m: nat, backupCount: int): nat
  {
    if backupCount <= 0 then 0 else if m < backupCount - 1 then m else backupCount - 1
  }

  function CountRenames(ops: seq<FileOp>): nat
  {
    if |ops| == 0 then 0
    else CountRenames(ops[..|ops| - 1]) + (if ops[|ops| - 1].Rename? then 1 else 0)
  }

  lemma {:induction false} RenamesAreTheLastKept(filepath: string, sorted: seq<int>, backupCount: int, k: nat)
    requires k <= |sorted|
    ensures CountRenames(BackupOps(filepath, sorted, backupCount)[..k]) ==
      var m := |sorted|;
      var firstKept := if backupCount <= 0 then m else if m - backupCount + 1 < 0 then 0 else m - backupCount + 1;
      if k <= firstKept then 0 else k - firstKept
    decreases k
  {
    var ops := BackupOps(filepath, sorted, backupCount);
    if k > 0 {
      assert ops[..k][..k - 1] == ops[..k - 1];
      RenamesAreTheLastKept(filepath, sorted, backupCount, k - 1);
    }
  }

  /** At most `backupCount - 1` backups survive the loop, so together with
      the live file renamed to `.1` at most `backupCount` remain. */
  lemma KeptBackups(filepath: string, sorted: seq<int>, backupCount: int)
    ensures CountRenames(BackupOps(filepath, sorted, backupCount)) == KeptCount(|sorted|, backupCount)
  {
    var ops := BackupOps(filepath, sorted, backupCount);
    assert ops[..|sorted|] == ops;
    RenamesAreTheLastKept(filepath, sorted, backupCount, |sorted|);
  }

  /** Distinct numbers give distinct backup names. */
  lemma BackupNameInjective(filepath: string, a: int, b: int)
    requires BackupName(filepath, a) == BackupName(filepath, b)
    ensures a == b
  {
    var p := filepath + ".";
    var sa, sb := SignedToBase(a, 10), SignedToBase(b, 10);
    assert sa == (p + sa)[|p|..];
    assert sb == (p + sb)[|p|..];
    SignedToBaseInjective(a, b, 10);
  }

  /** The path a backup call reads. */
  function Source(op: FileOp): string
  {
    match op
      case Remove(p) => p
      case Rename(p, _) => p
      case Truncate(p) => p
  }

  /** Rename safety: because the loop runs largest number first, the target
      `n + 1` of a rename is never the backup a later iteration still has
      to move or delete. */
  lemma RenameNeverHitsPendingBackup(filepath: string, sorted: seq<int>, backupCount: int, j: nat, k: nat)
    requires SortedDescending(sorted)
    requires j < k < |sorted|
    requires BackupOps(filepath, sorted, backupCount)[j].Rename?
    ensures BackupOps(filepath, sorted, backupCount)[j].dst != Source(BackupOps(filepath, sorted, backupCount)[k])
  {
    var ops := BackupOps(filepath, sorted, backupCount);
    assert ops[j].dst == BackupName(filepath, sorted[j] + 1);
    assert Source(ops[k]) == BackupName(filepath, sorted[k]);
    if ops[j].dst == Source(ops[k]) {
      BackupNameInjective(filepath, sorted[j] + 1, sorted[k]);
      assert false;
    }
  }

  /** The live file is not one of its own backups. */
  lemma LiveFileIsNoBackup(filepath: string, n: int)
    ensures BackupName(filepath, n) != filepath
  {
  }
}
