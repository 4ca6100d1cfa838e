/**
  * `SdCardLogHandler`: a log sink that collects bytes in a fixed buffer,
  * mirrors them to an optional stream, and appends them to numbered files
  * on an SD card, rolling over by size, deleting the oldest files and
  * rescanning the card (on a cooldown) when it is missing or fails.
  *
  * The clock (`millis()`) is a parameter, and so is what the card answers
  * to each request (`LogSpec.Outcomes`). Every method is proved to move the
  * abstract state exactly as the function of the same name in LogSpec.
  */
module LogHandler {
  import opened FileNames
  import opened NumberSets
  import opened SdFat
  import LogSpec

  class SdCardLogHandler {
    const cfg: LogSpec.Config
    const sd: SdCard
    const buf: array<LogSpec.byte>
    var bufOffset: nat
    var needsScanCard: bool
    var lastBeginResult: bool
    var lastCardCheck: LogSpec.Millis
    var lastFileNum: int
    var fileNums: set<int>
    var logsDirOpen: bool
    var curLogFile: LogSpec.Option<string>
    var streamOut: seq<LogSpec.byte>

    ghost predicate Wellformed()
      reads this
    {
      cfg.Valid() && buf.Length == cfg.bufSize && bufOffset <= buf.Length
    }

    /** The abstract state: the fields, the buffered bytes and the card. */
    ghost function State(): LogSpec.State
      reads this, buf, sd
      requires Wellformed()
    {
      LogSpec.State(buf[..bufOffset], needsScanCard, lastBeginResult, lastCardCheck, lastFileNum,
                    fileNums, logsDirOpen, curLogFile, streamOut, sd.Snapshot())
    }

    ghost predicate Valid()
      reads this, buf, sd
    {
      Wellformed() && LogSpec.Inv(cfg, State())
    }

    /** The constructor's `sd.begin` call; registration with the log manager is not modelled. */
    constructor (sd: SdCard, cfg: LogSpec.Config, initialFileNum: int, beginOk: bool)
      requires cfg.Valid()
      modifies sd
      ensures this.sd == sd && this.cfg == cfg && fresh(buf)
      ensures Valid()
      ensures State() == LogSpec.Initial(cfg, initialFileNum, beginOk, old(sd.Snapshot()))
    {
      this.cfg := cfg;
      this.sd := sd;
      buf := new LogSpec.byte[cfg.bufSize];
      bufOffset := 0;
      needsScanCard := true;
      lastCardCheck := 0;
      lastFileNum := initialFileNum;
      fileNums := {};
      logsDirOpen := false;
      curLogFile := LogSpec.None;
      streamOut := [];
      new;
      lastBeginResult := sd.Begin(beginOk);
    }

    /** `write(c)`: buffer one byte; flush when the buffer is full or the byte is a line feed. */
    method Write(c: LogSpec.byte, now: LogSpec.Millis, env: LogSpec.Outcomes) returns (n: nat)
      requires Valid()
      modifies this, buf, sd
      ensures Valid() && n == 1
      ensures State() == LogSpec.Write(cfg, old(State()), c, now, env)
    {
      ghost var s := State();
      buf[bufOffset] := c;
      bufOffset := bufOffset + 1;
      assert buf[..bufOffset] == s.buffered + [c];
      if bufOffset >= buf.Length || c == LogSpec.LF {
        WriteBuf(now, env);
      }
      LogSpec.WritePreservesInv(cfg, s, c, now, env);
      n := 1;
    }

    /** `writeBuf()`: mirror, rescan if due, write to the current file, and empty the buffer. */
    method WriteBuf(now: LogSpec.Millis, env: LogSpec.Outcomes)
      requires Wellformed()
      modifies this, sd
      ensures Wellformed() && bufOffset == 0
      ensures State() == LogSpec.WriteBuf(cfg, old(State()), now, env)
    {
      ghost var s0 := State();
      if cfg.hasStream {
        streamOut := streamOut + buf[..bufOffset];
      }
      ghost var s1 := State();
      assert s1 == LogSpec.Mirror(cfg, s0);
      if needsScanCard {
        if lastCardCheck == 0 || LogSpec.Elapsed(now, lastCardCheck) >= cfg.cardCheckPeriod {
          ScanCard(now, env);
        }
      }
      ghost var s2 := State();
      assert s2 == if LogSpec.ScanDue(cfg, s1, now) then LogSpec.ScanCard(cfg, s1, now, env) else s1;
      WriteLogFile(env);
      ghost var s3 := State();
      bufOffset := 0;
      assert State() == s3.(buffered := []);
    }

    /** The file part of `writeBuf`: write the buffer, roll over by size, or fall back to "card not ready". */
    method WriteLogFile(env: LogSpec.Outcomes)
      requires Wellformed()
      modifies this, sd
      ensures Wellformed() && bufOffset == old(bufOffset)
      ensures State() == LogSpec.WriteLogFile(cfg, old(State()), env)
    {
      if lastBeginResult {
        if curLogFile.Some? {
          var name := curLogFile.value;
          var written := sd.Write(name, bufOffset, env.writeOk);
          if written > 0 {
            // with syncEveryEntry the file is synced here; syncing changes nothing in this model
            if sd.FileSize(name) > cfg.desiredFileSize {
              Rollover(env);
            }
          } else {
            // the write failed: close everything and rescan at the next flush
            curLogFile := LogSpec.None;
            logsDirOpen := false;
            needsScanCard := true;
            lastBeginResult := false;
            lastCardCheck := 0;
          }
        }
      }
    }

    /** The file is too large now: close it and make a new one. */
    method Rollover(env: LogSpec.Outcomes)
      requires Wellformed()
      modifies this, sd
      ensures Wellformed() && bufOffset == old(bufOffset)
      ensures State() == LogSpec.Rollover(cfg, old(State()), env)
    {
      ghost var s := State();
      curLogFile := LogSpec.None;
      lastFileNum := lastFileNum + 1;
      ghost var s2 := State();
      assert s2 == s.(curLogFile := LogSpec.None, lastFileNum := s.lastFileNum + 1);
      var _ := OpenLogFile(env.rollOpenOk);
      ghost var s3 := State();
      CheckMaxFiles(env.undeletable);
      assert State() == LogSpec.CheckMaxFiles(cfg, s3, env.undeletable);
    }

    /** `scanCard()`: (re)start the card, open the log directory, enumerate it, retain, open the current file. */
    method ScanCard(now: LogSpec.Millis, env: LogSpec.Outcomes)
      requires Wellformed()
      modifies this, sd
      ensures Wellformed() && bufOffset == old(bufOffset)
      ensures State() == LogSpec.ScanCard(cfg, old(State()), now, env)
    {
      needsScanCard := false;
      if !lastBeginResult {
        lastBeginResult := sd.Begin(env.beginOk);
        if !lastBeginResult {
          needsScanCard := true;
          lastCardCheck := now;
          return;
        }
      }
      OpenLogsDir(now, env);
    }

    /** The part of `scanCard` after a successful begin: make and open the log directory. */
    method OpenLogsDir(now: LogSpec.Millis, env: LogSpec.Outcomes)
      requires Wellformed()
      modifies this, sd
      ensures Wellformed() && bufOffset == old(bufOffset)
      ensures State() == LogSpec.OpenLogsDir(cfg, old(State()), now, env)
    {
      if cfg.hasLogsDir && !sd.logsDirExists {
        // a failed mkdir is only reported; opening the directory decides
        var _ := sd.Mkdir(env.mkdirOk);
      }
      ghost var s2 := State();
      assert s2 == old(State()).(card := s2.card);
      // `logsDir.open(logsDirName)` (or the root when there is no directory name)
      if env.dirOpenOk && (!cfg.hasLogsDir || sd.logsDirExists) {
        logsDirOpen := true;
        ScanLogsDir(now, env);
      } else {
        needsScanCard := true;
        lastCardCheck := now;
      }
    }

    /** The part of `scanCard` with the directory open: enumerate, retain, open the current file. */
    method ScanLogsDir(now: LogSpec.Millis, env: LogSpec.Outcomes)
      requires Wellformed()
      modifies this, sd
      ensures Wellformed() && bufOffset == old(bufOffset)
      ensures State() == LogSpec.ScanLogsDir(cfg, old(State()), now, env)
    {
      Enumerate();
      CheckMaxFiles(env.undeletable);
      var ok := OpenLogFile(env.scanOpenOk);
      if !ok {
        needsScanCard := true;
        lastCardCheck := now;
      }
    }

    /** The enumeration part of `scanCard`: track every number found in the log directory. */
    method Enumerate()
      requires Wellformed()
      modifies this
      ensures Wellformed() && bufOffset == old(bufOffset)
      ensures State() == LogSpec.Enumerate(old(State()))
    {
      fileNums, lastFileNum := ScanEntries(sd.files.Keys);
    }

    /**
      * The `openNext` loop of `scanCard`: visit every entry of the log
      * directory once, in any order; a non-zero `atoi` of the name joins
      * the tracked numbers and raises the highest one.
      */
    method ScanEntries(names: set<string>) returns (nums: set<int>, last: int)
      ensures nums == fileNums + LogSpec.Found(names)
      ensures last == Highest(lastFileNum, LogSpec.Found(names))
    {
      ghost var done: set<string> := {};
      var pending := names;
      nums, last := fileNums, lastFileNum;
      while pending != {}
        invariant done + pending == names && done !! pending
        invariant nums == fileNums + LogSpec.Found(done)
        invariant last == Highest(lastFileNum, LogSpec.Found(done))
        decreases pending
      {
        if forall e :: e !in pending {
          assert false;
        }
        var name :| name in pending;
        var num := ScannedNumber(name);
        LogSpec.FoundAdd(done, name);
        if num != 0 {
          nums := nums + {num};
          HighestAdd(lastFileNum, LogSpec.Found(done), num);
          if num > last {
            last := num;
          }
        }
        done, pending := done + {name}, pending - {name};
      }
      assert done == names;
    }

    /** `openLogFile()`: open the file named after lastFileNum, tracking its number on success. */
    method OpenLogFile(ok: bool) returns (r: bool)
      requires Wellformed()
      modifies this, sd
      ensures Wellformed() && bufOffset == old(bufOffset) && r == ok
      ensures State() == LogSpec.OpenLogFile(cfg, old(State()), ok)
    {
      var name := GetName(lastFileNum, cfg.nameBufSize);
      r := sd.Open(name, ok);
      if r {
        curLogFile := LogSpec.Some(name);
        fileNums := fileNums + {lastFileNum};
      }
    }

    /**
      * `checkMaxFiles()`: while too many numbers are tracked, remove the file
      * of the smallest and erase it from the set, whatever remove returned.
      */
    method CheckMaxFiles(undeletable: set<string>)
      requires Wellformed()
      modifies this, sd
      ensures Wellformed() && bufOffset == old(bufOffset)
      ensures State() == LogSpec.CheckMaxFiles(cfg, old(State()), undeletable)
    {
      ghost var s0 := State();
      while |fileNums| > cfg.maxFilesToKeep
        invariant LogSpec.CheckMaxFiles(cfg, s0.(fileNums := fileNums, card := sd.Snapshot()), undeletable)
               == LogSpec.CheckMaxFiles(cfg, s0, undeletable)
        modifies this`fileNums, sd
        decreases |fileNums|
      {
        // the iterator is always at the smallest remaining number: all smaller ones were erased
        LeastExists(fileNums);
        var num :| IsLeast(num, fileNums);
        assert num == Least(fileNums);
        var name := GetName(num, cfg.nameBufSize);
        var _ := sd.Remove(name, name !in undeletable);
        fileNums := fileNums - {num};
      }
    }
  }
}
