/** The rolling log writer: a current file (index 0) and numbered backups
    (1..maxBackups) that a rotation shifts by one, over a disk whose every
    primitive may fail. */
module RollingFile {
  import opened Text

  newtype byte = b: int | 0 <= b < 0x100

  /** A file is kept as the pieces that were written to it, one per write, oldest first. */
  type File = seq<seq<byte>>
  type Files = map<nat, File>

  const DEFAULT_MAX_SIZE_BYTES: int := 100 * 1024 * 1024
  const DEFAULT_MAX_BACKUPS: int := 5

  // ---------- What a rotation does to the set of files ----------

  /** Where a shift that got as far as index `hole` took the file now at `j` from. */
  function Source(j: nat, hole: nat, max: nat): nat {
    if hole < j <= max then j - 1 else j
  }

  function UpTo(max: nat): (r: set<nat>)
    ensures forall j: nat :: j in r <==> j <= max
  {
    if max == 0 then {0} else UpTo(max - 1) + {max}
  }

  /** The files once the downward renames of a rotation have reached index `hole`: every file from
      `hole` up to `max - 1` has moved up by one, the file at `max` is gone, nothing is at `hole`,
      and no other file has changed. */
  function Shift(files: Files, hole: nat, max: nat): Files
    requires hole <= max
  {
    map j | j in files.Keys + UpTo(max) && j != hole && Source(j, hole, max) in files :: files[Source(j, hole, max)]
  }

  /** What opening the current file for append does: it is created when it is missing. */
  function Touch(files: Files): Files {
    if 0 in files then files else files[0 := []]
  }

  /** The files after a rotation: everything one place older, and an empty current file. */
  function Rotated(files: Files, maxBackups: nat): Files {
    Shift(files, 0, maxBackups)[0 := []]
  }

  /** The files a write of `incoming` bytes is appended to: rotated when they would not fit. */
  function Prepared(files: Files, incoming: nat, maxSizeBytes: int, maxBackups: nat): (r: Files)
    requires 0 in files
    ensures 0 in r && (r[0] == [] || |Bytes(r[0])| + incoming <= maxSizeBytes)
  {
    if |Bytes(files[0])| + incoming > maxSizeBytes then Rotated(files, maxBackups) else files
  }

  /** What an interrupted rotation may leave: the files as they were, or a shift stopped at some index. */
  ghost predicate Interrupted(before: Files, after: Files, max: nat) {
    || after == before
    || after == Touch(Shift(before, 0, max))
    || exists hole :: 0 <= hole <= max && after == Shift(before, hole, max)
  }

  /** What a write finds and leaves: a piece appended to the current file when it fits, else a shift and a new file. */
  lemma PreparedMeans(files: Files, incoming: nat, piece: seq<byte>, maxSizeBytes: int, maxBackups: nat)
    requires 0 < maxBackups
    ensures var current, base := At(files, 0), Prepared(Touch(files), incoming, maxSizeBytes, maxBackups);
            var after := base[0 := base[0] + [piece]];
            if |Bytes(current)| + incoming <= maxSizeBytes then after == files[0 := current + [piece]]
            else
              && after[0] == [piece] && 1 in after && after[1] == current
              && (forall j: nat | 2 <= j <= maxBackups ::
                    (j in after <==> j - 1 in files) && (j in after ==> after[j] == files[j - 1]))
              && (forall j: nat | maxBackups < j ::
                    (j in after <==> j in files) && (j in after ==> after[j] == files[j]))
  {
    var touched := Touch(files);
    if |Bytes(At(files, 0))| + incoming > maxSizeBytes {
      ShiftMeans(touched, maxBackups);
    }
  }

  /** A whole shift: everything one place older, up to the oldest. */
  lemma ShiftMeans(files: Files, maxBackups: nat)
    ensures var after := Shift(files, 0, maxBackups);
            && 0 !in after
            && (forall j: nat | 1 <= j <= maxBackups ::
                  (j in after <==> j - 1 in files) && (j in after ==> after[j] == files[j - 1]))
            && (forall j: nat | maxBackups < j ::
                  (j in after <==> j in files) && (j in after ==> after[j] == files[j]))
  {
    forall j: nat ensures Source(j, 0, maxBackups) == if 1 <= j <= maxBackups then j - 1 else j {}
  }

  // ---------- Oldest-to-newest contents ----------

  function Bytes(pieces: File): seq<byte> {
    if pieces == [] then [] else pieces[0] + Bytes(pieces[1..])
  }

  lemma {:induction false} BytesConcat(a: File, b: File)
    ensures Bytes(a + b) == Bytes(a) + Bytes(b)
  {
    if a == [] {
      assert a + b == b;
    } else {
      assert (a + b)[1..] == a[1..] + b;
      BytesConcat(a[1..], b);
    }
  }

  function At(files: Files, i: nat): File {
    if i in files then files[i] else []
  }

  /** Backup `n`, then backup `n - 1`, ..., then the current file, as pieces. */
  function Retained(files: Files, n: nat): File {
    At(files, n) + if n == 0 then [] else Retained(files, n - 1)
  }

  /** The same as bytes, file by file. */
  function RetainedBytes(files: Files, n: nat): seq<byte> {
    Bytes(At(files, n)) + if n == 0 then [] else RetainedBytes(files, n - 1)
  }

  ghost predicate IsSuffix<T>(s: seq<T>, whole: seq<T>) {
    |s| <= |whole| && s == whole[|whole| - |s|..]
  }

  lemma {:induction false} RetainedBelowHole(files: Files, hole: nat, max: nat, n: nat)
    requires n < hole <= max
    ensures Retained(Shift(files, hole, max), n) == Retained(files, n)
  {
    if n == 0 {
    } else {
      RetainedBelowHole(files, hole, max, n - 1);
    }
  }

  lemma {:induction false} RetainedAboveHole(files: Files, hole: nat, max: nat, n: nat)
    requires hole <= n <= max
    ensures Retained(Shift(files, hole, max), n) == if n == 0 then [] else Retained(files, n - 1)
  {
    if n == hole {
      if n > 0 { RetainedBelowHole(files, hole, max, n - 1); }
    } else {
      RetainedAboveHole(files, hole, max, n - 1);
    }
  }

  /** A shift stopped anywhere loses exactly the oldest backup and keeps the order of the rest. */
  lemma ShiftDropsOnlyOldest(files: Files, hole: nat, max: nat)
    requires hole <= max && 0 < max
    ensures Retained(files, max) == At(files, max) + Retained(Shift(files, hole, max), max)
  {
    RetainedAboveHole(files, hole, max, max);
  }

  lemma {:induction false} RetainedDependsOnFiles(a: Files, b: Files, n: nat)
    requires forall i :: 0 <= i <= n ==> At(a, i) == At(b, i)
    ensures Retained(a, n) == Retained(b, n)
  {
    if n == 0 {
    } else {
      RetainedDependsOnFiles(a, b, n - 1);
    }
  }

  /** Appending to the current file appends to what is retained. */
  lemma {:induction false} RetainedAppend(files: Files, more: File, n: nat)
    requires 0 in files
    ensures Retained(files[0 := files[0] + more], n) == Retained(files, n) + more
  {
    var appended := files[0 := files[0] + more];
    if n == 0 {
      assert Retained(files, 0) == files[0] && Retained(appended, 0) == files[0] + more;
    } else {
      RetainedAppend(files, more, n - 1);
      assert At(appended, n) == At(files, n);
      assert At(files, n) + (Retained(files, n - 1) + more) == At(files, n) + Retained(files, n - 1) + more;
    }
  }

  lemma {:induction false} RetainedAsBytes(files: Files, n: nat)
    ensures RetainedBytes(files, n) == Bytes(Retained(files, n))
  {
    if n > 0 {
      RetainedAsBytes(files, n - 1);
      BytesConcat(At(files, n), Retained(files, n - 1));
    } else {
      assert At(files, 0) + [] == At(files, 0);
    }
  }

  /** Keeping the last writes whole keeps the last bytes: the concatenation of the files,
      oldest first, is a suffix of everything ever written. */
  lemma RetainedBytesAreLastBytes(files: Files, log: File, n: nat)
    requires IsSuffix(Retained(files, n), log)
    ensures IsSuffix(RetainedBytes(files, n), Bytes(log))
  {
    var kept := Retained(files, n);
    var lost := log[..|log| - |kept|];
    assert log == lost + kept;
    BytesConcat(lost, kept);
    RetainedAsBytes(files, n);
  }

  lemma LastBytes(before: Files, after: Files, accepted: File, log: File, n0: nat, n: nat)
    requires log == Retained(before, n0) + accepted && IsSuffix(Retained(after, n), log)
    ensures IsSuffix(RetainedBytes(after, n), RetainedBytes(before, n0) + Bytes(accepted))
  {
    RetainedBytesAreLastBytes(after, log, n);
    RetainedAsBytes(before, n0);
    BytesConcat(Retained(before, n0), accepted);
  }

  /** The largest size limit that was in force, and an index that no file lies above. */
  datatype Bounds = Bounds(maxSizeBytes: int, highest: nat)

  /** What every state of a run satisfies: the retained writes are the last ones of `log`,
      each in one file, and no file has outgrown the limit by more than a single write. */
  ghost predicate Safe(files: Files, log: File, b: Bounds, maxBackups: nat) {
    && IsSuffix(Retained(files, maxBackups), log) && maxBackups <= b.highest
    && forall i | i in files :: i <= b.highest && (|Bytes(files[i])| <= b.maxSizeBytes || |files[i]| <= 1)
  }

  /** A shift stopped anywhere is safe. */
  lemma ShiftIsSafe(files: Files, log: File, b: Bounds, maxBackups: nat, hole: nat)
    requires hole <= maxBackups && 0 < maxBackups
    requires Safe(files, log, b, maxBackups)
    ensures Safe(Shift(files, hole, maxBackups), log, b, maxBackups)
  {
    ShiftDropsOnlyOldest(files, hole, maxBackups);
  }

  lemma TouchIsSafe(files: Files, log: File, b: Bounds, maxBackups: nat)
    requires Safe(files, log, b, maxBackups)
    ensures Safe(Touch(files), log, b, maxBackups)
  {
    RetainedDependsOnFiles(files, Touch(files), maxBackups);
  }

  /** Appending a write that fits, or the first write of a file, is safe. */
  lemma AppendIsSafe(files: Files, log: File, b: Bounds, maxBackups: nat, p: seq<byte>)
    requires 0 in files && Safe(files, log, b, maxBackups)
    requires |Bytes(files[0])| + |p| <= b.maxSizeBytes || files[0] == []
    ensures Safe(files[0 := files[0] + [p]], log + [p], b, maxBackups)
    ensures |Bytes(files[0] + [p])| == |Bytes(files[0])| + |p|
  {
    RetainedAppend(files, [p], maxBackups);
    BytesConcat(files[0], [p]);
    assert Bytes([p]) == p + Bytes([]);
  }

  // ---------- Other limits ----------

  lemma SuffixOfSuffix<T>(a: seq<T>, b: seq<T>, c: seq<T>)
    requires IsSuffix(a, b) && IsSuffix(b, c)
    ensures IsSuffix(a, c)
  {
  }

  /** With fewer backups in sight, what is retained is a suffix. */
  lemma {:induction false} FewerAreASuffix(files: Files, n: nat, m: nat)
    requires m <= n
    ensures IsSuffix(Retained(files, m), Retained(files, n))
  {
    if n == m {
    } else {
      FewerAreASuffix(files, n - 1, m);
      assert Retained(files, n)[|At(files, n)|..] == Retained(files, n - 1);
      SuffixOfSuffix(Retained(files, m), Retained(files, n - 1), Retained(files, n));
    }
  }

  /** With more backups in sight but none there, nothing else is retained. */
  lemma {:induction false} NothingAbove(files: Files, n: nat, m: nat)
    requires n <= m && forall i | i in files :: i <= n
    ensures Retained(files, m) == Retained(files, n)
  {
    if m == n {
    } else {
      NothingAbove(files, n, m - 1);
      assert At(files, m) == [];
      assert [] + Retained(files, m - 1) == Retained(files, m - 1);
    }
  }

  function Largest(a: int, b: int): int {
    if a < b then b else a
  }

  function Widened(b: Bounds, maxSizeBytes: int, maxBackups: nat): Bounds {
    Bounds(Largest(b.maxSizeBytes, maxSizeBytes), Largest(b.highest, maxBackups))
  }

  /** Lowering the number of backups is safe, and so is raising it while no file lies above it. */
  lemma OtherLimitsAreSafe(files: Files, log: File, b: Bounds, n: nat, maxSizeBytes: int, m: nat)
    requires Safe(files, log, b, n) && (m <= n || b.highest <= n)
    ensures Safe(files, log, Widened(b, maxSizeBytes, m), m)
  {
    if m <= n {
      FewerAreASuffix(files, n, m);
      SuffixOfSuffix(Retained(files, m), Retained(files, n), log);
    } else {
      NothingAbove(files, n, m);
    }
  }

  /** Lowering the number of backups and raising it again brings a stale file back: after a rotation with one backup,
      of three files of one write each, the three retained again are the last writes only by coincidence. */
  lemma StaleFilesComeBackIff(old_: seq<byte>, middle: seq<byte>, new_: seq<byte>)
    ensures var files: Files := map[0 := [new_], 1 := [middle], 2 := [old_]];
            && Retained(files, 2) == [old_, middle, new_]
            && Retained(Rotated(files, 1), 1) == [new_]
            && Retained(Rotated(files, 1), 2) == [old_, new_]
            && (IsSuffix(Retained(Rotated(files, 1), 2), Retained(files, 2)) <==> old_ == middle)
  {
    var files: Files := map[0 := [new_], 1 := [middle], 2 := [old_]];
    var after := Rotated(files, 1);
    assert UpTo(1) == {0, 1};
    assert Source(1, 0, 1) == 0 && Source(2, 0, 1) == 2;
    assert At(after, 0) == [] && At(after, 1) == [new_] && At(after, 2) == [old_];
    assert Retained(after, 1) == [new_] + Retained(after, 0);
    assert Retained(files, 1) == [middle] + Retained(files, 0);
    assert [old_, middle, new_][1..] == [middle, new_];
    assert [old_, new_][0] == old_ && [middle, new_][0] == middle;
  }

  // ---------- The names of the files ----------

  /** `base` and `ext` are the two parts of the path around the extension dot. */
  function BackupPath(base: string, ext: string, index: nat): string {
    base + "." + Itoa(index) + ext
  }

  /** Different indices never share a path, and no backup has the path of the current file:
      this is what lets a file be identified with its index. */
  lemma BackupPathsAreDistinct(base: string, ext: string, i: nat, j: nat)
    ensures BackupPath(base, ext, i) == BackupPath(base, ext, j) ==> i == j
    ensures BackupPath(base, ext, i) != base + ext
  {
    var p, q := BackupPath(base, ext, i), BackupPath(base, ext, j);
    assert |p| == |base| + 1 + |Itoa(i)| + |ext|;
    if p == q {
      assert |q| == |base| + 1 + |Itoa(j)| + |ext|;
      assert Itoa(i) == p[|base| + 1..|base| + 1 + |Itoa(i)|];
      assert Itoa(j) == q[|base| + 1..|base| + 1 + |Itoa(j)|];
      ItoaInjective(i, j);
    }
  }

  /** The index stands between the dots, in decimal. */
  lemma BackupPathMeans(base: string, ext: string, d: nat, e: nat)
    requires 0 < d < 10 && e < 10
    ensures BackupPath(base, ext, d) == base + "." + [('0' as int + d) as char] + ext
    ensures BackupPath(base, ext, 10 * d + e)
            == base + "." + [('0' as int + d) as char, ('0' as int + e) as char] + ext
  {
    DigitMeans(d);
    DigitMeans(e);
    assert Itoa(d) == [DIGITS[d]];
    assert (10 * d + e) / 10 == d && (10 * d + e) % 10 == e;
    assert Itoa(10 * d + e) == [DIGITS[d]] + [DIGITS[e]];
  }

  // ---------- The disk ----------

  datatype Status = Done | NotExist | Failed

  /** The directory of the log. Every primitive may fail; a failing one changes nothing,
      except that an open may fail after it has created the file. */
  class Disk {
    var files: Files
    /** How often a primitive has failed. */
    ghost var faults: nat

    constructor (found: Files)
      ensures files == found && faults == 0
    {
      files, faults := found, 0;
    }

    /** Closing the handle on the current file. */
    method CloseHandle() returns (ok: bool)
      modifies this`faults
      ensures faults == old(faults) + if ok then 0 else 1
    {
      ok := *;
      faults := faults + if ok then 0 else 1;
    }

    method Remove(i: nat) returns (status: Status)
      modifies this
      ensures status.NotExist? ==> i !in old(files)
      ensures status.Done? ==> i in old(files)
      ensures files == if status.Failed? then old(files) else old(files) - {i}
      ensures faults == old(faults) + if status.Failed? then 1 else 0
    {
      if * {
        faults := faults + 1;
        return Failed;
      }
      status := if i in files then Done else NotExist;
      files := files - {i};
    }

    method Rename(from: nat, to: nat) returns (status: Status)
      requires from != to
      modifies this
      ensures status.NotExist? ==> from !in old(files)
      ensures status.Done? ==> from in old(files)
      ensures files == if status.Done? then (old(files) - {from})[to := old(files)[from]] else old(files)
      ensures faults == old(faults) + if status.Failed? then 1 else 0
    {
      if * {
        faults := faults + 1;
        return Failed;
      }
      if from !in files {
        return NotExist;
      }
      status := Done;
      files := (files - {from})[to := files[from]];
    }

    method OpenAppend() returns (ok: bool)
      modifies this
      ensures files == (if 0 in old(files) then old(files) else old(files)[0 := []]) || (!ok && files == old(files))
      ensures faults == old(faults) + if ok then 0 else 1
    {
      if * {
        faults := faults + 1;
        return false;
      }
      files := Touch(files);
      ok := *;
      faults := faults + if ok then 0 else 1;
    }

    /** Accepts a prefix of `p`, all of it when the write succeeds. */
    method Append(p: seq<byte>) returns (n: nat, ok: bool)
      requires 0 in files
      modifies this
      ensures n <= |p| && (ok ==> n == |p|)
      ensures files == old(files)[0 := old(files)[0] + [p[..n]]]
      ensures faults == old(faults) + if ok then 0 else 1
    {
      n, ok := |p|, true;
      if * {
        ok, faults := false, faults + 1;
        n :| 0 <= n <= |p|;
      }
      files := files[0 := files[0] + [p[..n]]];
    }
  }

  /** The rename of file `i` to `i + 1`, in the middle of a shift of `files` whose hole is `i + 1`. */
  method RenameUp(disk: Disk, i: nat, maxBackups: nat, ghost files: Files, ghost hole: nat)
    returns (failed: bool, ghost next: nat)
    requires hole == i + 1 <= maxBackups && disk.files == Shift(files, hole, maxBackups)
    modifies disk
    ensures next == if failed then i + 1 else i
    ensures disk.files == Shift(files, next, maxBackups)
    ensures disk.faults == old(disk.faults) + if failed then 1 else 0
  {
    var status := disk.Rename(i, i + 1);
    failed := status.Failed?;
    next := if failed then hole else i;
  }

  /** The file moves of a rotation: drop the oldest backup, then rename downward to the current file.
      `hole` tells how far the renames got once something has `moved`. */
  method ShiftBackups(disk: Disk, maxBackups: nat) returns (ok: bool, ghost moved: bool, ghost hole: nat)
    requires 0 < maxBackups
    modifies disk
    ensures hole <= maxBackups && (ok ==> moved && hole == 0)
    ensures disk.files == if moved then Shift(old(disk.files), hole, maxBackups) else old(disk.files)
    ensures ok <==> disk.faults == old(disk.faults)
    ensures disk.faults >= old(disk.faults)
  {
    ghost var files := disk.files;
    moved, hole := false, maxBackups;
    var status := disk.Remove(maxBackups);
    if status.Failed? {
      return false, moved, hole;
    }
    moved := true;
    var failed;
    var i := maxBackups - 1;
    while i >= 1
      invariant 0 <= i < maxBackups && hole == i + 1
      invariant disk.files == Shift(files, hole, maxBackups) && disk.faults == old(disk.faults)
    {
      failed, hole := RenameUp(disk, i, maxBackups, files, hole);
      if failed {
        return false, moved, hole;
      }
      i := i - 1;
    }
    failed, hole := RenameUp(disk, 0, maxBackups, files, hole);
    ok := !failed;
  }

  // ---------- The writer ----------

  /** The limits in force: the defaults stand for what is not positive. */
  function MaxSizeBytes(configured: int): int {
    if configured <= 0 then DEFAULT_MAX_SIZE_BYTES else configured
  }

  function MaxBackups(configured: int): nat {
    if configured <= 0 then DEFAULT_MAX_BACKUPS else configured
  }

  class Writer {
    const disk: Disk
    const maxSizeBytes: int
    const maxBackups: nat
    var file: bool // whether a handle on the current file is held
    var size: int
    ghost const bounds: Bounds
    /** Every write that reached the files so far, oldest first, in this session and those before. */
    ghost var log: File

    ghost predicate Valid()
      reads this, disk
    {
      && 0 < maxSizeBytes <= bounds.maxSizeBytes && 0 < maxBackups
      && Safe(disk.files, log, bounds, maxBackups)
      && (file ==> 0 in disk.files && size == |Bytes(disk.files[0])|)
    }

    /** A writer over files that hold the last of `log`. */
    constructor (disk: Disk, maxSizeBytes: int, maxBackups: int, ghost log: File, ghost bounds: Bounds)
      requires Safe(disk.files, log, bounds, MaxBackups(maxBackups))
      requires MaxSizeBytes(maxSizeBytes) <= bounds.maxSizeBytes
      ensures Valid() && !file && this.disk == disk && this.log == log && this.bounds == bounds
      ensures this.maxSizeBytes == MaxSizeBytes(maxSizeBytes) && this.maxBackups == MaxBackups(maxBackups)
    {
      this.disk := disk;
      this.maxSizeBytes, this.maxBackups := MaxSizeBytes(maxSizeBytes), MaxBackups(maxBackups);
      file, size := false, 0;
      this.log, this.bounds := log, bounds;
    }

    /** None when the current file cannot be opened. */
    static method New(disk: Disk, maxSizeBytes: int, maxBackups: int, ghost log: File, ghost bounds: Bounds)
      returns (w: Writer?)
      requires Safe(disk.files, log, bounds, MaxBackups(maxBackups))
      requires MaxSizeBytes(maxSizeBytes) <= bounds.maxSizeBytes
      modifies disk
      ensures w != null ==> fresh(w) && w.Valid() && w.disk == disk && w.file && w.log == log && w.bounds == bounds
      ensures w != null ==> w.maxSizeBytes == if maxSizeBytes <= 0 then 104_857_600 else maxSizeBytes
      ensures w != null ==> w.maxBackups == if maxBackups <= 0 then 5 else maxBackups
      ensures w != null ==> disk.files == if 0 in old(disk.files) then old(disk.files) else old(disk.files)[0 := []]
      ensures disk.files == old(disk.files) || disk.files == Touch(old(disk.files))
      ensures disk.faults >= old(disk.faults) && (w != null <==> disk.faults == old(disk.faults))
      ensures Safe(disk.files, log, bounds, MaxBackups(maxBackups))
    {
      var writer := new Writer(disk, maxSizeBytes, maxBackups, log, bounds);
      var ok := writer.Open();
      w := if ok then writer else null;
    }

    method Open() returns (ok: bool)
      requires Valid() && !file
      modifies this, disk
      ensures Valid() && file == ok && log == old(log)
      ensures disk.files == Touch(old(disk.files)) || (!ok && disk.files == old(disk.files))
      ensures disk.faults >= old(disk.faults) && (ok <==> disk.faults == old(disk.faults))
    {
      ok := disk.OpenAppend();
      TouchIsSafe(old(disk.files), log, bounds, maxBackups);
      if ok {
        file, size := true, |Bytes(disk.files[0])|;
      }
    }

    method Rotate() returns (ok: bool)
      requires Valid()
      modifies this, disk
      ensures Valid() && log == old(log)
      ensures ok ==> file && disk.files == Rotated(old(disk.files), maxBackups)
      ensures Interrupted(old(disk.files), disk.files, maxBackups)
      ensures disk.faults >= old(disk.faults) && (ok <==> disk.faults == old(disk.faults))
    {
      if file {
        ok := disk.CloseHandle();
        if !ok {
          return; // the handle is kept
        }
        file := false;
      }
      ghost var files, moved, hole := disk.files, false, 0;
      ok, moved, hole := ShiftBackups(disk, maxBackups);
      if moved {
        ShiftIsSafe(files, log, bounds, maxBackups, hole);
      }
      if ok {
        ok := Open();
      }
    }

    /** Gets the current file ready for `incoming` more bytes: reopened if need be, rotated if it would outgrow the
        limit. */
    method Prepare(incoming: nat) returns (ok: bool)
      requires Valid()
      modifies this, disk
      ensures Valid() && log == old(log)
      ensures ok ==> file && disk.files == Prepared(Touch(old(disk.files)), incoming, maxSizeBytes, maxBackups)
      ensures !ok ==> disk.files == old(disk.files) || Interrupted(Touch(old(disk.files)), disk.files, maxBackups)
      ensures disk.faults >= old(disk.faults) && (ok <==> disk.faults == old(disk.faults))
      ensures |Bytes(At(old(disk.files), 0))| + incoming <= maxSizeBytes ==>
                disk.files == Touch(old(disk.files)) || (!ok && disk.files == old(disk.files))
    {
      if !file {
        ok := Open();
        if !ok {
          return;
        }
      }
      if size + incoming > maxSizeBytes {
        ok := Rotate();
      } else {
        ok := true;
      }
    }

    /** Appends to the current file, which has room for `p` or is empty. */
    method AppendPiece(p: seq<byte>) returns (n: nat, ok: bool)
      requires Valid() && file && (|Bytes(disk.files[0])| + |p| <= maxSizeBytes || disk.files[0] == [])
      modifies this`size, this`log, disk
      ensures Valid() && n <= |p| && (ok ==> n == |p|) && log == old(log) + [p[..n]]
      ensures disk.files == old(disk.files)[0 := old(disk.files)[0] + [p[..n]]]
      ensures disk.faults == old(disk.faults) + if ok then 0 else 1
    {
      ghost var files := disk.files;
      n, ok := disk.Append(p);
      AppendIsSafe(files, log, bounds, maxBackups, p[..n]);
      size := size + n;
      log := log + [p[..n]];
    }

    /** Writes `p` to the current file, rotating first when it would grow past the limit.
        `reached` tells whether the write got as far as the file. */
    method Write(p: seq<byte>) returns (n: nat, ok: bool, ghost reached: bool)
      requires Valid()
      modifies this, disk
      ensures Valid() && n <= |p|
      ensures log == old(log) + if reached then [p[..n]] else []
      ensures ok ==> reached && file && n == |p|
      ensures reached ==>
                var base := Prepared(Touch(old(disk.files)), |p|, maxSizeBytes, maxBackups);
                disk.files == base[0 := base[0] + [p[..n]]]
      ensures !reached ==> n == 0 && !ok
      ensures !reached ==> disk.files == old(disk.files) || Interrupted(Touch(old(disk.files)), disk.files, maxBackups)
      // it succeeds exactly when no primitive fails
      ensures disk.faults >= old(disk.faults) && (ok <==> disk.faults == old(disk.faults))
      // a write that fits is appended and leaves every backup as it was
      ensures var current := if 0 in old(disk.files) then old(disk.files)[0] else [];
              |Bytes(current)| + |p| <= maxSizeBytes ==>
                if reached then disk.files == old(disk.files)[0 := current + [p[..n]]]
                else disk.files == old(disk.files) || disk.files == old(disk.files)[0 := current]
      // one that does not begins a new file, with every other one place older and the oldest gone
      ensures var current := if 0 in old(disk.files) then old(disk.files)[0] else [];
              reached && |Bytes(current)| + |p| > maxSizeBytes ==>
                && 0 in disk.files && disk.files[0] == [p[..n]] && 1 in disk.files && disk.files[1] == current
                && (forall j: nat | 2 <= j <= maxBackups ::
                      (j in disk.files <==> j - 1 in old(disk.files))
                      && (j in disk.files ==> disk.files[j] == old(disk.files)[j - 1]))
                && (forall j: nat | maxBackups < j ::
                      (j in disk.files <==> j in old(disk.files))
                      && (j in disk.files ==> disk.files[j] == old(disk.files)[j]))
    {
      ghost var found := disk.files;
      var ready := Prepare(|p|);
      if !ready {
        return 0, false, false;
      }
      n, ok := AppendPiece(p);
      reached := true;
      PreparedMeans(found, |p|, p[..n], maxSizeBytes, maxBackups);
    }

    method Close() returns (ok: bool)
      requires Valid()
      modifies this, disk`faults
      ensures Valid() && !file && log == old(log)
      ensures !old(file) ==> ok
      ensures disk.faults >= old(disk.faults) && (ok <==> disk.faults == old(disk.faults))
    {
      if !file {
        return true;
      }
      ok := disk.CloseHandle();
      file := false;
    }
  }

  // ---------- Every run ----------

  datatype Operation = WriteBytes(p: seq<byte>) | CloseFile

  /** What a call returned. */
  datatype Outcome = Wrote(n: nat, ok: bool) | Closed(ok: bool)

  /** The outcome fits the operation: a successful write reached the file whole, one that did not reach it failed. */
  predicate Answers(operation: Operation, outcome: Outcome, reached: bool) {
    match operation
    case WriteBytes(p) =>
      && outcome.Wrote? && outcome.n <= |p|
      && (outcome.ok ==> reached && outcome.n == |p|)
      && (!reached ==> outcome.n == 0 && !outcome.ok)
    case CloseFile => outcome.Closed? && !reached
  }

  predicate AllAnswer(operations: seq<Operation>, outcomes: seq<Outcome>, reached: seq<bool>) {
    |operations| == |outcomes| == |reached|
    && forall k :: 0 <= k < |operations| ==> Answers(operations[k], outcomes[k], reached[k])
  }

  /** What a call added to the current file: as much of the write as it reports. */
  function Piece(operation: Operation, outcome: Outcome, reached: bool): File
    requires Answers(operation, outcome, reached)
  {
    if reached then [operation.p[..outcome.n]] else []
  }

  /** Exactly what the calls added, in their order. */
  function Pieces(operations: seq<Operation>, outcomes: seq<Outcome>, reached: seq<bool>): File
    requires AllAnswer(operations, outcomes, reached)
  {
    if operations == [] then []
    else
      var n := |operations| - 1;
      Pieces(operations[..n], outcomes[..n], reached[..n]) + Piece(operations[n], outcomes[n], reached[n])
  }

  /** Every successful write is there, whole and in one piece. */
  lemma {:induction false} SuccessfulWritesAreWhole(
    operations: seq<Operation>, outcomes: seq<Outcome>, reached: seq<bool>, k: nat)
    requires AllAnswer(operations, outcomes, reached) && k < |operations|
    requires operations[k].WriteBytes? && outcomes[k].ok
    ensures operations[k].p in Pieces(operations, outcomes, reached)
  {
    var n := |operations| - 1;
    if k == n {
      assert operations[k].p[..outcomes[k].n] == operations[k].p;
      assert operations[k].p in Piece(operations[n], outcomes[n], reached[n]);
    } else {
      SuccessfulWritesAreWhole(operations[..n], outcomes[..n], reached[..n], k);
    }
  }

  /** The bytes an operation asks to write. */
  function Incoming(operation: Operation): nat {
    if operation.WriteBytes? then |operation.p| else 0
  }

  function AllIncoming(operations: seq<Operation>): nat {
    if operations == [] then 0
    else AllIncoming(operations[..|operations| - 1]) + Incoming(operations[|operations| - 1])
  }

  /** The current file has grown by `pieces`, and every backup is as it was. */
  ghost predicate Grown(before: Files, after: Files, pieces: File) {
    after - {0} == before - {0} && At(after, 0) == At(before, 0) + pieces
  }

  lemma GrownKeepsAll(before: Files, after: Files, pieces: File, n: nat)
    requires Grown(before, after, pieces)
    ensures Retained(after, n) == Retained(before, n) + pieces
  {
    var touched := Touch(before);
    RetainedDependsOnFiles(before, touched, n);
    RetainedAppend(touched, pieces, n);
    var appended := touched[0 := touched[0] + pieces];
    forall i | 0 <= i <= n ensures At(after, i) == At(appended, i) {
      if i > 0 {
        assert i in after <==> i in after - {0};
        assert i in before <==> i in before - {0};
        if i in after { assert (after - {0})[i] == (before - {0})[i]; }
      }
    }
    RetainedDependsOnFiles(after, appended, n);
  }

  method Perform(w: Writer, operation: Operation) returns (outcome: Outcome, ghost reached: bool)
    requires w.Valid()
    modifies w, w.disk
    ensures w.Valid() && Answers(operation, outcome, reached)
    ensures w.log == old(w.log) + Piece(operation, outcome, reached)
    ensures outcome.ok <==> w.disk.faults == old(w.disk.faults)
    ensures w.disk.faults >= old(w.disk.faults)
    ensures |Bytes(At(old(w.disk.files), 0))| + Incoming(operation) <= w.maxSizeBytes ==>
              Grown(old(w.disk.files), w.disk.files, Piece(operation, outcome, reached))
  {
    match operation
    case WriteBytes(p) =>
      var n, ok;
      n, ok, reached := w.Write(p);
      outcome := Wrote(n, ok);
    case CloseFile =>
      var ok := w.Close();
      outcome, reached := Closed(ok), false;
  }

  lemma PiecesOneMore(
    operations: seq<Operation>, k: nat, outcomes: seq<Outcome>, reached: seq<bool>, outcome: Outcome, r: bool)
    requires k < |operations| && AllAnswer(operations[..k], outcomes, reached) && Answers(operations[k], outcome, r)
    ensures AllAnswer(operations[..k + 1], outcomes + [outcome], reached + [r])
    ensures Pieces(operations[..k + 1], outcomes + [outcome], reached + [r])
            == Pieces(operations[..k], outcomes, reached) + Piece(operations[k], outcome, r)
  {
    var all, outs, rs := operations[..k + 1], outcomes + [outcome], reached + [r];
    assert all[..k] == operations[..k] && outs[..k] == outcomes && rs[..k] == reached;
  }

  predicate Fits(files: Files, operations: seq<Operation>, maxSizeBytes: int) {
    |Bytes(At(files, 0))| + AllIncoming(operations) <= maxSizeBytes
  }

  lemma GrownByNothing(files: Files)
    ensures Grown(files, files, [])
  {
  }

  lemma GrownAgain(a: Files, b: Files, c: Files, pieces: File, more: File)
    requires Grown(a, b, pieces) && Grown(b, c, more)
    ensures Grown(a, c, pieces + more)
  {
    assert At(a, 0) + pieces + more == At(a, 0) + (pieces + more);
  }

  lemma PieceIsIncoming(before: Files, after: Files, operation: Operation, outcome: Outcome, r: bool)
    requires Answers(operation, outcome, r) && Grown(before, after, Piece(operation, outcome, r))
    ensures |Bytes(At(after, 0))| <= |Bytes(At(before, 0))| + Incoming(operation)
  {
    var piece := Piece(operation, outcome, r);
    BytesConcat(At(before, 0), piece);
    if r { BytesOfOne(operation.p[..outcome.n]); }
  }

  lemma BytesOfOne(p: seq<byte>)
    ensures Bytes([p]) == p && Bytes([]) == []
  {
    assert Bytes([p]) == p + Bytes([]);
  }

  /** What is asked up to `k` and then by the next operation is no more than what is asked in all. */
  lemma {:induction false} IncomingSoFar(operations: seq<Operation>, k: nat)
    requires k < |operations|
    ensures AllIncoming(operations[..k + 1]) == AllIncoming(operations[..k]) + Incoming(operations[k])
    ensures AllIncoming(operations[..k + 1]) <= AllIncoming(operations)
  {
    assert operations[..k + 1][..k] == operations[..k];
    if k + 1 == |operations| {
      assert operations[..k + 1] == operations;
    } else {
      var init := operations[..|operations| - 1];
      IncomingSoFar(init, k);
      assert init[..k + 1] == operations[..k + 1];
    }
  }

  /** What the first calls did since the files were `found`, with `log` and `faults`. */
  ghost predicate Driven(w: Writer, operations: seq<Operation>, k: nat, outcomes: seq<Outcome>, reached: seq<bool>,
                         found: Files, log: File, faults: nat)
    requires k <= |operations| && AllAnswer(operations[..k], outcomes, reached)
    reads w, w.disk
  {
    var pieces := Pieces(operations[..k], outcomes, reached);
    && w.Valid() && w.log == log + pieces && w.disk.faults >= faults
    && (w.disk.faults == faults ==> forall j :: 0 <= j < k ==> outcomes[j].ok)
    && (Fits(found, operations, w.maxSizeBytes) ==>
          Grown(found, w.disk.files, pieces)
          && |Bytes(At(w.disk.files, 0))| <= |Bytes(At(found, 0))| + AllIncoming(operations[..k]))
  }

  method PerformNext(w: Writer, operations: seq<Operation>, k: nat, outcomes: seq<Outcome>, ghost reached: seq<bool>,
                     ghost found: Files, ghost log: File, ghost faults: nat)
    returns (outcome: Outcome, ghost r: bool)
    requires k < |operations| && AllAnswer(operations[..k], outcomes, reached)
    requires Driven(w, operations, k, outcomes, reached, found, log, faults)
    modifies w, w.disk
    ensures AllAnswer(operations[..k + 1], outcomes + [outcome], reached + [r])
    ensures Driven(w, operations, k + 1, outcomes + [outcome], reached + [r], found, log, faults)
  {
    IncomingSoFar(operations, k);
    ghost var before, pieces := w.disk.files, Pieces(operations[..k], outcomes, reached);
    outcome, r := Perform(w, operations[k]);
    PiecesOneMore(operations, k, outcomes, reached, outcome, r);
    AppendedTwice(log, pieces, Piece(operations[k], outcome, r));
    if Fits(found, operations, w.maxSizeBytes) {
      GrownAgain(found, before, w.disk.files, pieces, Piece(operations[k], outcome, r));
      PieceIsIncoming(before, w.disk.files, operations[k], outcome, r);
    }
  }

  method Drive(w: Writer, operations: seq<Operation>) returns (outcomes: seq<Outcome>, ghost reached: seq<bool>)
    requires w.Valid()
    modifies w, w.disk
    ensures w.Valid() && AllAnswer(operations, outcomes, reached)
    ensures w.log == old(w.log) + Pieces(operations, outcomes, reached)
    // without a fault every call succeeds
    ensures w.disk.faults == old(w.disk.faults) ==> forall k :: 0 <= k < |outcomes| ==> outcomes[k].ok
    // while all that is written fits the current file, nothing is dropped and no backup is touched
    ensures |Bytes(At(old(w.disk.files), 0))| + AllIncoming(operations) <= w.maxSizeBytes ==>
              && w.disk.files - {0} == old(w.disk.files) - {0}
              && Retained(w.disk.files, w.maxBackups)
                 == Retained(old(w.disk.files), w.maxBackups) + Pieces(operations, outcomes, reached)
  {
    outcomes, reached := [], [];
    ghost var log, found, faults := w.log, w.disk.files, w.disk.faults;
    GrownByNothing(found);
    assert log + [] == log && operations[..0] == [];
    for k := 0 to |operations|
      invariant AllAnswer(operations[..k], outcomes, reached)
      invariant Driven(w, operations, k, outcomes, reached, found, log, faults)
    {
      var outcome;
      ghost var r;
      outcome, r := PerformNext(w, operations, k, outcomes, reached, found, log, faults);
      outcomes, reached := outcomes + [outcome], reached + [r];
    }
    assert operations[..|operations|] == operations;
    if Fits(found, operations, w.maxSizeBytes) {
      GrownKeepsAll(found, w.disk.files, Pieces(operations, outcomes, reached), w.maxBackups);
    }
  }

  /** The limits a writer is configured with, and what is done with it. */
  datatype Session = Session(maxSizeBytes: int, maxBackups: int, operations: seq<Operation>)

  /** One session: a writer over the files that earlier ones left, and any sequence of writes and closes, with any
      primitive failing at any point. What the files keep are the last of all writes, each whole in one file;
      the log grows by exactly what the calls report. Without a writer there are no calls. */
  method Run(disk: Disk, session: Session, ghost log: File, ghost bounds: Bounds)
    returns (w: Writer?, outcomes: seq<Outcome>, ghost reached: seq<bool>)
    requires Safe(disk.files, log, bounds, MaxBackups(session.maxBackups))
    requires MaxSizeBytes(session.maxSizeBytes) <= bounds.maxSizeBytes
    modifies disk
    ensures w == null ==> outcomes == [] && reached == []
    ensures w == null ==> disk.files == old(disk.files) || disk.files == Touch(old(disk.files))
    ensures w != null ==> w.disk == disk && w.Valid() && w.maxBackups == MaxBackups(session.maxBackups)
    ensures w != null ==> w.bounds == bounds && AllAnswer(session.operations, outcomes, reached)
    ensures w != null ==> w.log == log + Pieces(session.operations, outcomes, reached)
    ensures Answered(session.operations, outcomes, reached)
    ensures Safe(disk.files, log + SessionPieces(session.operations, outcomes, reached),
                 bounds, MaxBackups(session.maxBackups))
  {
    w := Writer.New(disk, session.maxSizeBytes, session.maxBackups, log, bounds);
    outcomes, reached := [], [];
    if w != null {
      outcomes, reached := Drive(w, session.operations);
    } else {
      assert log + [] == log;
    }
  }

  // ---------- Several sessions ----------

  /** Either every call was answered, or no writer could be made. */
  predicate Answered(operations: seq<Operation>, outcomes: seq<Outcome>, reached: seq<bool>) {
    AllAnswer(operations, outcomes, reached) || (outcomes == [] && reached == [])
  }

  function SessionPieces(operations: seq<Operation>, outcomes: seq<Outcome>, reached: seq<bool>): File
    requires Answered(operations, outcomes, reached)
  {
    if AllAnswer(operations, outcomes, reached) then Pieces(operations, outcomes, reached) else []
  }

  predicate AllAnswered(sessions: seq<Session>, outcomes: seq<seq<Outcome>>, reached: seq<seq<bool>>) {
    |sessions| == |outcomes| == |reached|
    && forall k :: 0 <= k < |sessions| ==> Answered(sessions[k].operations, outcomes[k], reached[k])
  }

  function AllPieces(sessions: seq<Session>, outcomes: seq<seq<Outcome>>, reached: seq<seq<bool>>): File
    requires AllAnswered(sessions, outcomes, reached)
  {
    if sessions == [] then []
    else
      var n := |sessions| - 1;
      AllPieces(sessions[..n], outcomes[..n], reached[..n])
      + SessionPieces(sessions[n].operations, outcomes[n], reached[n])
  }

  lemma AllPiecesOneMore(
    sessions: seq<Session>, k: nat, outcomes: seq<seq<Outcome>>, reached: seq<seq<bool>>,
    outs: seq<Outcome>, rs: seq<bool>)
    requires k < |sessions| && AllAnswered(sessions[..k], outcomes, reached)
    requires Answered(sessions[k].operations, outs, rs)
    ensures AllAnswered(sessions[..k + 1], outcomes + [outs], reached + [rs])
    ensures AllPieces(sessions[..k + 1], outcomes + [outs], reached + [rs])
            == AllPieces(sessions[..k], outcomes, reached) + SessionPieces(sessions[k].operations, outs, rs)
  {
    var all, os, bs := sessions[..k + 1], outcomes + [outs], reached + [rs];
    assert all[..k] == sessions[..k] && os[..k] == outcomes && bs[..k] == reached;
  }

  /** The backups of the last session. */
  function LastLimit(sessions: seq<Session>): nat
    requires sessions != []
  {
    MaxBackups(sessions[|sessions| - 1].maxBackups)
  }

  /** The bounds that hold of all files after the sessions; no file found lies above `highest`. */
  function BoundsOf(sessions: seq<Session>, highest: nat): Bounds {
    if sessions == [] then Bounds(0, highest)
    else
      var n := |sessions| - 1;
      Widened(BoundsOf(sessions[..n], highest),
              MaxSizeBytes(sessions[n].maxSizeBytes), MaxBackups(sessions[n].maxBackups))
  }

  /** The number of backups is only raised where no file can lie above it: from the largest number so far. */
  predicate RaisedOverNothing(sessions: seq<Session>, highest: nat) {
    |sessions| <= 1 ||
    (var init := sessions[..|sessions| - 1];
     RaisedOverNothing(init, highest)
     && (LastLimit(sessions) <= LastLimit(init) || BoundsOf(init, highest).highest <= LastLimit(init)))
  }

  lemma {:induction false} RaisedOverNothingBefore(sessions: seq<Session>, k: nat, highest: nat)
    requires RaisedOverNothing(sessions, highest) && k <= |sessions|
    ensures RaisedOverNothing(sessions[..k], highest)
  {
    if k == |sessions| {
      assert sessions[..k] == sessions;
    } else if |sessions| == 1 {
    } else {
      var init := sessions[..|sessions| - 1];
      RaisedOverNothingBefore(init, k, highest);
      assert init[..k] == sessions[..k];
    }
  }

  /** Files found before the first session count as one write each. */
  lemma FoundFilesAreSafe(files: Files, b: Bounds, maxBackups: nat)
    requires (forall i | i in files :: |files[i]| <= 1 && i <= b.highest) && maxBackups <= b.highest
    ensures Safe(files, Retained(files, maxBackups), b, maxBackups)
  {
  }

  lemma AppendedTwice(log: File, before: File, more: File)
    ensures log + before + more == log + (before + more)
  {
  }

  /** The files when session `k` starts are safe under its limits. */
  lemma NextSessionIsSafe(files: Files, all: File, sessions: seq<Session>, k: nat, highest: nat)
    requires 0 < k < |sessions| && RaisedOverNothing(sessions[..k + 1], highest)
    requires Safe(files, all, BoundsOf(sessions[..k], highest), LastLimit(sessions[..k]))
    ensures Safe(files, all, BoundsOf(sessions[..k + 1], highest), LastLimit(sessions[..k + 1]))
    ensures MaxSizeBytes(sessions[k].maxSizeBytes) <= BoundsOf(sessions[..k + 1], highest).maxSizeBytes
  {
    assert sessions[..k + 1][..k] == sessions[..k];
    OtherLimitsAreSafe(files, all, BoundsOf(sessions[..k], highest), LastLimit(sessions[..k]),
                       MaxSizeBytes(sessions[k].maxSizeBytes), LastLimit(sessions[..k + 1]));
  }

  lemma FirstSessionIsSafe(files: Files, sessions: seq<Session>, highest: nat)
    requires sessions != [] && Found(files, highest)
    ensures var n := LastLimit(sessions[..1]); Safe(files, Retained(files, n), BoundsOf(sessions[..1], highest), n)
    ensures MaxSizeBytes(sessions[0].maxSizeBytes) <= BoundsOf(sessions[..1], highest).maxSizeBytes
  {
    var s := sessions[0];
    var b := Widened(Bounds(0, highest), MaxSizeBytes(s.maxSizeBytes), MaxBackups(s.maxBackups));
    assert sessions[..1][..0] == [] && BoundsOf([], highest) == Bounds(0, highest);
    assert BoundsOf(sessions[..1], highest) == b && LastLimit(sessions[..1]) == MaxBackups(s.maxBackups);
    FoundFilesAreSafe(files, b, MaxBackups(s.maxBackups));
  }

  /** What holds between sessions: nothing happened yet, or the files are safe under the limits so far. */
  ghost predicate SafeAfter(files: Files, all: File, found: Files, sessions: seq<Session>, k: nat, highest: nat)
    requires k <= |sessions| && sessions != []
  {
    if k == 0 then files == found && all == Retained(found, MaxBackups(sessions[0].maxBackups))
    else Safe(files, all, BoundsOf(sessions[..k], highest), LastLimit(sessions[..k]))
  }

  ghost predicate Found(files: Files, highest: nat) {
    forall i | i in files :: |files[i]| <= 1 && i <= highest
  }

  lemma SessionMayStart(files: Files, all: File, found: Files, sessions: seq<Session>, k: nat, highest: nat)
    requires k < |sessions| && RaisedOverNothing(sessions, highest) && Found(found, highest)
    requires SafeAfter(files, all, found, sessions, k, highest)
    ensures Safe(files, all, BoundsOf(sessions[..k + 1], highest), MaxBackups(sessions[k].maxBackups))
    ensures MaxSizeBytes(sessions[k].maxSizeBytes) <= BoundsOf(sessions[..k + 1], highest).maxSizeBytes
    ensures LastLimit(sessions[..k + 1]) == MaxBackups(sessions[k].maxBackups)
  {
    RaisedOverNothingBefore(sessions, k + 1, highest);
    if k == 0 {
      FirstSessionIsSafe(files, sessions, highest);
    } else {
      NextSessionIsSafe(files, all, sessions, k, highest);
    }
  }

  /** The next session, from what the ones before left. */
  method RunNext(disk: Disk, sessions: seq<Session>, k: nat, ghost all: File, ghost found: Files, ghost highest: nat)
    returns (outcomes: seq<Outcome>, ghost reached: seq<bool>)
    requires k < |sessions| && RaisedOverNothing(sessions, highest) && Found(found, highest)
    requires SafeAfter(disk.files, all, found, sessions, k, highest)
    modifies disk
    ensures Answered(sessions[k].operations, outcomes, reached)
    ensures SafeAfter(disk.files, all + SessionPieces(sessions[k].operations, outcomes, reached),
                      found, sessions, k + 1, highest)
  {
    SessionMayStart(disk.files, all, found, sessions, k, highest);
    var w;
    w, outcomes, reached := Run(disk, sessions[k], all, BoundsOf(sessions[..k + 1], highest));
  }

  /** Session after session, `log` grows by what the calls report. */
  method DriveSessions(disk: Disk, sessions: seq<Session>, ghost highest: nat)
    returns (outcomes: seq<seq<Outcome>>, ghost reached: seq<seq<bool>>, ghost all: File)
    requires sessions != [] && RaisedOverNothing(sessions, highest) && Found(disk.files, highest)
    modifies disk
    ensures AllAnswered(sessions, outcomes, reached)
    ensures all == Retained(old(disk.files), MaxBackups(sessions[0].maxBackups))
                   + AllPieces(sessions, outcomes, reached)
    ensures Safe(disk.files, all, BoundsOf(sessions, highest), LastLimit(sessions))
  {
    ghost var found := disk.files;
    ghost var log := Retained(found, MaxBackups(sessions[0].maxBackups));
    outcomes, reached, all := [], [], log;
    assert log + [] == log;
    for k := 0 to |sessions|
      invariant AllAnswered(sessions[..k], outcomes, reached)
      invariant all == log + AllPieces(sessions[..k], outcomes, reached)
      invariant SafeAfter(disk.files, all, found, sessions, k, highest)
    {
      var outs;
      ghost var rs;
      outs, rs := RunNext(disk, sessions, k, all, found, highest);
      AllPiecesOneMore(sessions, k, outcomes, reached, outs, rs);
      ghost var more := SessionPieces(sessions[k].operations, outs, rs);
      AppendedTwice(log, AllPieces(sessions[..k], outcomes, reached), more);
      all := all + more;
      outcomes, reached := outcomes + [outs], reached + [rs];
    }
    assert sessions[..|sessions|] == sessions;
  }

  /** Any number of sessions, each with its own limits and ending with or without a close, the number of backups being
      raised over nothing only: the files, oldest first, hold the last bytes of what was found and of what the calls
      of all sessions report as written, and nothing else. */
  method RunSessions(disk: Disk, sessions: seq<Session>, ghost highest: nat)
    returns (outcomes: seq<seq<Outcome>>, ghost reached: seq<seq<bool>>)
    requires sessions != [] && RaisedOverNothing(sessions, highest) && Found(disk.files, highest)
    modifies disk
    ensures AllAnswered(sessions, outcomes, reached)
    ensures IsSuffix(Retained(disk.files, LastLimit(sessions)),
                     Retained(old(disk.files), MaxBackups(sessions[0].maxBackups))
                     + AllPieces(sessions, outcomes, reached))
    ensures IsSuffix(RetainedBytes(disk.files, LastLimit(sessions)),
                     RetainedBytes(old(disk.files), MaxBackups(sessions[0].maxBackups))
                     + Bytes(AllPieces(sessions, outcomes, reached)))
  {
    ghost var files, all := disk.files, [];
    outcomes, reached, all := DriveSessions(disk, sessions, highest);
    LastBytes(files, disk.files, AllPieces(sessions, outcomes, reached), all,
              MaxBackups(sessions[0].maxBackups), LastLimit(sessions));
  }
}
