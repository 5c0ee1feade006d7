/**
 * The size limit and the hand-written rollover of utils/logs.py.
 *
 * `LoggerSetup` turns a factor in (0, 1] into a byte limit on the log file;
 * the wrapped `emit` rolls the files over before writing once the current
 * file has reached that limit. The log directory is a map from a file's
 * suffix to its contents: 0 is `<log_file>` itself and i is `<log_file>.i`.
 */
module Logs {
  import opened Wrappers

  /** `100 * 1_024 * 1_024`: GitHub's upload limit in bytes. */
  const MaxUploadSize: nat := 100 * 1024 * 1024
  /** `BACKUP_COUNT`. */
  const BackupCount: nat := 5
  /** The default `log_size_factor`. */
  const DefaultFactor: real := 0.8

  type Bytes = seq<bv8>

  /** The log directory: suffix to file contents. */
  type Dir = map<nat, Bytes>

  /** The ValueError of `_calculate_max_log_size`. */
  datatype LogError = FactorOutOfRange(factor: real)

  /** `_calculate_max_log_size(factor)`: `int(100 MiB * factor)` for a factor in (0, 1]. */
  function CalculateMaxLogSize(factor: real): (r: Result<nat, LogError>)
    ensures r.Failure? <==> !(0.0 < factor <= 1.0)
    ensures r.Failure? ==> r.error == FactorOutOfRange(factor)
    ensures r.Success? ==> r.value <= MaxUploadSize
    ensures r.Success? ==> r.value as real <= MaxUploadSize as real * factor < r.value as real + 1.0
  {
    if !(0.0 < factor <= 1.0) then Failure(FactorOutOfRange(factor))
    else
      var size := (MaxUploadSize as real * factor).Floor;
      assert size <= MaxUploadSize by {
        assert MaxUploadSize as real * factor <= MaxUploadSize as real;
      }
      Success(size)
  }

  /** The full factor gives the whole upload limit, and the default one 80% of it. */
  lemma MaxLogSizeExamples()
    ensures CalculateMaxLogSize(1.0) == Success(MaxUploadSize)
    ensures CalculateMaxLogSize(DefaultFactor) == Success(83886080)
  {
    assert (MaxUploadSize as real * DefaultFactor) == 83886080 as real;
  }

  /** A larger factor never gives a smaller limit. */
  lemma MaxLogSizeMonotonic(f: real, g: real)
    requires 0.0 < f <= g <= 1.0
    ensures CalculateMaxLogSize(f).value <= CalculateMaxLogSize(g).value
  {
    var a := CalculateMaxLogSize(f).value;
    var b := CalculateMaxLogSize(g).value;
    assert a as real <= MaxUploadSize as real * f <= MaxUploadSize as real * g < b as real + 1.0;
  }

  // ---------------------------------------------------------------- rollover, as functions of the directory

  /**
   * One turn of the loop of `_do_rollover`: when `<log_file>.i` exists it is
   * renamed to `<log_file>.(i+1)`, replacing that file; otherwise nothing
   * happens. With i = 0 this is the final rename of the log file itself.
   */
  function Shift(files: Dir, i: nat): (r: Dir)
    ensures i in files ==> i !in r && i + 1 in r && r[i + 1] == files[i]
    ensures i !in files ==> r == files
    ensures forall j :: j != i && j != i + 1 ==> SameAt(r, files, j)
  {
    if i in files then (files - {i})[i + 1 := files[i]] else files
  }

  /** The loop `for i in range(n, 0, -1)`: shift n, then n - 1, down to 1. */
  function ShiftDown(files: Dir, n: nat): (r: Dir)
    ensures forall j :: j in r ==> j in files || 2 <= j <= n + 1
    decreases n
  {
    if n == 0 then files else ShiftDown(Shift(files, n), n - 1)
  }

  /** `_do_rollover`: shift the backups, rename the log file to `.1`, and reopen it empty. */
  function Rollover(files: Dir): (r: Dir)
    ensures 0 in r && r[0] == []
    ensures forall j :: j in r ==> j in files || j <= BackupCount
  {
    Shift(ShiftDown(files, BackupCount - 1), 0)[0 := []]
  }

  /** The file under `j` is the same in both directories (present in both with equal contents, or in neither). */
  predicate SameAt(after: Dir, before: Dir, j: nat)
  {
    (j in after <==> j in before) && (j in after ==> after[j] == before[j])
  }

  /** The file under `j` in `after` is the one under `k` in `before`. */
  predicate MovedFrom(after: Dir, j: nat, before: Dir, k: nat)
  {
    (j in after <==> k in before) && (j in after ==> after[j] == before[k])
  }

  /**
   * What shifting n, n - 1, ..., 1 does to each suffix: suffix 1 is emptied,
   * each j in 2..n receives j - 1, n + 1 receives n when there was one and
   * otherwise keeps its own file, and everything else is untouched.
   */
  lemma {:induction false} ShiftDownAt(files: Dir, n: nat, j: nat)
    requires n >= 1
    ensures j == 0 || j > n + 1 ==> SameAt(ShiftDown(files, n), files, j)
    ensures j == 1 ==> j !in ShiftDown(files, n)
    ensures 2 <= j <= n ==> MovedFrom(ShiftDown(files, n), j, files, j - 1)
    ensures j == n + 1 ==> MovedFrom(ShiftDown(files, n), j, files, if n in files then n else n + 1)
    decreases n
  {
    var g := Shift(files, n);
    assert ShiftDown(files, n) == ShiftDown(g, n - 1);
    if n > 1 {
      ShiftDownAt(g, n - 1, j);
    }
  }

  /**
   * After a rollover the log file exists and is empty, `.1` holds the old log
   * file, `.j` for j in 2..4 holds the old `.(j-1)`, `.5` holds the old `.4`
   * (the old `.5` survives only when there was no `.4`), and no other suffix
   * changes.
   */
  lemma RolloverAt(files: Dir, j: nat)
    ensures j == 0 ==> j in Rollover(files) && Rollover(files)[j] == []
    ensures j == 1 ==> MovedFrom(Rollover(files), 1, files, 0)
    ensures 2 <= j < BackupCount ==> MovedFrom(Rollover(files), j, files, j - 1)
    ensures j == BackupCount ==> MovedFrom(Rollover(files), j, files, if BackupCount - 1 in files then j - 1 else j)
    ensures j > BackupCount ==> SameAt(Rollover(files), files, j)
  {
    ShiftDownAt(files, BackupCount - 1, j);
    ShiftDownAt(files, BackupCount - 1, 0);
    ShiftDownAt(files, BackupCount - 1, 1);
  }

  /** No suffix above `BackupCount` is ever created: a directory of at most five backups stays one. */
  lemma RolloverKeepsBackupCount(files: Dir)
    requires forall j :: j in files ==> j <= BackupCount
    ensures forall j :: j in Rollover(files) ==> j <= BackupCount
  {
    forall j | j in Rollover(files)
      ensures j <= BackupCount
    {
      RolloverAt(files, j);
    }
  }

  /** The check of the wrapped `emit`: the log file exists and has reached the limit. */
  predicate NeedsRollover(files: Dir, maxLogSize: nat)
  {
    0 in files && |files[0]| >= maxLogSize
  }

  /** The wrapped `emit`: roll over when needed, then append the formatted record to the log file. */
  function AfterEmit(files: Dir, maxLogSize: nat, record: Bytes): (r: Dir)
    ensures 0 in r && |record| <= |r[0]| && r[0][|r[0]| - |record|..] == record
    ensures forall j :: j in r ==> j in files || j <= BackupCount
  {
    var g := if NeedsRollover(files, maxLogSize) then Rollover(files) else files;
    g[0 := (if 0 in g then g[0] else []) + record]
  }

  /** Below the limit, a record is appended to the log file and the backups are untouched. */
  lemma EmitBelowLimit(files: Dir, maxLogSize: nat, record: Bytes, j: nat)
    requires !NeedsRollover(files, maxLogSize)
    ensures AfterEmit(files, maxLogSize, record)[0] == (if 0 in files then files[0] else []) + record
    ensures j != 0 ==> SameAt(AfterEmit(files, maxLogSize, record), files, j)
  {
  }

  /** At the limit, the record starts a fresh log file and the full one becomes `.1`. */
  lemma EmitAtLimit(files: Dir, maxLogSize: nat, record: Bytes)
    requires NeedsRollover(files, maxLogSize)
    ensures AfterEmit(files, maxLogSize, record)[0] == record
    ensures MovedFrom(AfterEmit(files, maxLogSize, record), 1, files, 0)
  {
    RolloverAt(files, 0);
    RolloverAt(files, 1);
  }

  /**
   * The check runs before the write, so after any `emit` the log file
   * overshoots the limit by less than the one record that crossed it.
   */
  lemma EmitBoundsLogFile(files: Dir, maxLogSize: nat, record: Bytes)
    ensures |AfterEmit(files, maxLogSize, record)[0]| <= maxLogSize + |record|
    ensures maxLogSize > 0 ==> |AfterEmit(files, maxLogSize, record)[0]| < maxLogSize + |record|
  {
    if NeedsRollover(files, maxLogSize) {
      EmitAtLimit(files, maxLogSize, record);
    }
  }

  // ---------------------------------------------------------------- the objects

  /** The files the handler writes: `<log_file>` and its numbered backups. */
  class LogFiles {
    var files: Dir

    /** `logging.FileHandler(log_file)` opens in append mode, creating an empty log file when there is none. */
    constructor(existing: Dir)
      ensures files == existing[0 := if 0 in existing then existing[0] else []]
    {
      files := existing[0 := if 0 in existing then existing[0] else []];
    }

    /** `os.remove(path)`. */
    method Remove(suffix: nat)
      requires suffix in files
      modifies this
      ensures files == old(files) - {suffix}
    {
      files := files - {suffix};
    }

    /** `os.rename(src, dst)`: replaces `dst` when it exists. */
    method Rename(src: nat, dst: nat)
      requires src in files && src != dst
      modifies this
      ensures files == (old(files) - {src})[dst := old(files)[src]]
    {
      files := (files - {src})[dst := files[src]];
    }

    /** `_do_rollover(handler)`. */
    method DoRollover()
      modifies this
      ensures files == Rollover(old(files))
    {
      var i: nat := BackupCount - 1;
      while i > 0
        invariant i <= BackupCount - 1
        invariant ShiftDown(files, i) == ShiftDown(old(files), BackupCount - 1)
      {
        ghost var before := files;
        if i in files {
          if i + 1 in files {
            Remove(i + 1);
          }
          Rename(i, i + 1);
        }
        assert files == Shift(before, i);
        i := i - 1;
      }
      if 0 in files {
        Rename(0, 1);
      }
      files := files[0 := []];
    }
  }

  /** A `LoggerSetup` and the size limit its wrapped `emit` reads. */
  class LoggerSetup {
    /** `MAX_LOG_SIZE`. */
    var maxLogSize: nat
    /** The directory of the file handler it set up. */
    const logFiles: LogFiles

    /** The part of `__init__` after the limit has been computed. */
    constructor(size: nat, existing: Dir)
      ensures maxLogSize == size && fresh(logFiles)
      ensures logFiles.files == existing[0 := if 0 in existing then existing[0] else []]
    {
      maxLogSize := size;
      logFiles := new LogFiles(existing);
    }

    /** The `max_log_size` setter: on a bad factor it raises and the limit stays as it was. */
    method SetMaxLogSize(factor: real) returns (r: Result<(), LogError>)
      modifies this
      ensures CalculateMaxLogSize(factor).Failure? ==>
                r == Failure(CalculateMaxLogSize(factor).error) && maxLogSize == old(maxLogSize)
      ensures CalculateMaxLogSize(factor).Success? ==> r == Success(()) && maxLogSize == CalculateMaxLogSize(factor).value
    {
      var size := CalculateMaxLogSize(factor);
      if size.Failure? {
        return Failure(size.error);
      }
      maxLogSize := size.value;
      return Success(());
    }

    /** The wrapped `emit(record)`, with the limit read at the time of the call. */
    method Emit(record: Bytes)
      modifies logFiles
      ensures logFiles.files == AfterEmit(old(logFiles.files), maxLogSize, record)
    {
      if 0 in logFiles.files && |logFiles.files[0]| >= maxLogSize {
        logFiles.DoRollover();
      }
      logFiles.files := logFiles.files[0 := (if 0 in logFiles.files then logFiles.files[0] else []) + record];
    }
  }

  /** `LoggerSetup(log_size_factor=factor)`: raises before setting anything up on a bad factor. */
  method NewLoggerSetup(factor: real, existing: Dir) returns (r: Result<LoggerSetup, LogError>)
    ensures r.Failure? <==> !(0.0 < factor <= 1.0)
    ensures r.Failure? ==> r.error == FactorOutOfRange(factor)
    ensures r.Success? ==> fresh(r.value) && fresh(r.value.logFiles)
                           && r.value.maxLogSize == CalculateMaxLogSize(factor).value
                           && r.value.logFiles.files == existing[0 := if 0 in existing then existing[0] else []]
  {
    var size := CalculateMaxLogSize(factor);
    if size.Failure? {
      return Failure(size.error);
    }
    var setup := new LoggerSetup(size.value, existing);
    return Success(setup);
  }
}
