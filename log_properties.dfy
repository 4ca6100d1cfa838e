/**
  * What the handler's state machine guarantees, stated on the functions of
  * module LogSpec: the retention bound and its deletion order, what the
  * directory scan collects, the failure transitions of `scanCard` and of a
  * failed write, the cooldown, rollover, the buffer, and that file numbers
  * never go down.
  */
module LogProperties {
  import opened FileNames
  import opened NumberSets
  import opened SdFat
  import opened LogSpec

  // ---------------------------------------------------------------------
  // checkMaxFiles

  /** The retention loop touches only the tracked numbers and the card. */
  lemma CheckMaxFilesFrame(cfg: Config, s: State, undeletable: set<string>)
    requires cfg.Valid()
    ensures var r := CheckMaxFiles(cfg, s, undeletable);
            r == s.(fileNums := r.fileNums, card := r.card)
            && r.card.logsDirExists == s.card.logsDirExists
            && r.card.beginCalls == s.card.beginCalls
  {
    CheckMaxFilesResult(cfg, s, undeletable);
    RemoveAllEffect(s.card, Names(cfg, Dropped(s.fileNums, cfg.maxFilesToKeep)), undeletable);
  }

  /**
    * After `checkMaxFiles()` at most maxFilesToKeep numbers are tracked, and
    * they are the largest of the numbers tracked before; within the bound
    * the call changes nothing.
    */
  lemma CheckMaxFilesRetention(cfg: Config, s: State, undeletable: set<string>)
    requires cfg.Valid()
    ensures var r := CheckMaxFiles(cfg, s, undeletable);
            && |r.fileNums| == (if |s.fileNums| <= cfg.maxFilesToKeep then |s.fileNums| else cfg.maxFilesToKeep)
            && r.fileNums <= s.fileNums
            && (forall x, y | x in s.fileNums && x !in r.fileNums && y in r.fileNums :: x < y)
    ensures |s.fileNums| <= cfg.maxFilesToKeep ==> CheckMaxFiles(cfg, s, undeletable) == s
  {
    if |s.fileNums| <= cfg.maxFilesToKeep {
      assert CheckMaxFiles(cfg, s, undeletable) == s;
    }
    CheckMaxFilesResult(cfg, s, undeletable);
    var kept := Retained(s.fileNums, cfg.maxFilesToKeep);
    RetainedProps(s.fileNums, cfg.maxFilesToKeep);
    forall x, y | x in s.fileNums && x !in kept && y in kept
      ensures x < y
    {
      assert x in s.fileNums - kept;
    }
  }

  /**
    * The removals of `checkMaxFiles()`: one `remove` per erased number,
    * smallest first, whether or not it succeeds; an entry is gone afterwards
    * exactly when it was named and its removal succeeded.
    */
  lemma CheckMaxFilesRemovals(cfg: Config, s: State, undeletable: set<string>)
    requires cfg.Valid()
    ensures var r := CheckMaxFiles(cfg, s, undeletable);
            var d := Dropped(s.fileNums, cfg.maxFilesToKeep);
            && r.card.removeCalls == s.card.removeCalls + Names(cfg, d)
            && (forall i, j | 0 <= i < j < |d| :: d[i] < d[j])
            && (forall x :: x in d <==> x in s.fileNums && x !in r.fileNums)
            && (forall n :: n in r.card.files <==> n in s.card.files && (n !in Names(cfg, d) || n in undeletable))
  {
    var d := Dropped(s.fileNums, cfg.maxFilesToKeep);
    CheckMaxFilesResult(cfg, s, undeletable);
    DroppedProps(s.fileNums, cfg.maxFilesToKeep);
    RemoveAllEffect(s.card, Names(cfg, d), undeletable);
  }

  // ---------------------------------------------------------------------
  // The directory scan and openLogFile

  /** A number is found exactly when it is the non-zero `atoi` of some entry name. */
  lemma FoundMembership(names: set<string>, x: int)
    ensures x in Found(names) <==> x != 0 && exists n | n in names :: ScannedNumber(n) == x
  {
  }

  /**
    * The `openNext` loop: every entry whose `atoi` is non-zero joins the
    * tracked numbers and nothing else does; lastFileNum becomes the largest
    * of its old value and those numbers, so it never goes down.
    */
  lemma EnumerateEffect(s: State)
    ensures var r := Enumerate(s);
            && r == s.(fileNums := r.fileNums, lastFileNum := r.lastFileNum)
            && (forall n | n in s.card.files && ScannedNumber(n) != 0 ::
                  ScannedNumber(n) in r.fileNums && ScannedNumber(n) <= r.lastFileNum)
            && (forall x | x in r.fileNums && x !in s.fileNums ::
                  x != 0 && exists n | n in s.card.files :: ScannedNumber(n) == x)
            && s.lastFileNum <= r.lastFileNum
            && (r.lastFileNum == s.lastFileNum || exists n | n in s.card.files :: ScannedNumber(n) == r.lastFileNum)
  {
    var found := Found(s.card.files.Keys);
    HighestProps(s.lastFileNum, found);
    forall n | n in s.card.files && ScannedNumber(n) != 0
      ensures ScannedNumber(n) in found
    {
      FoundMembership(s.card.files.Keys, ScannedNumber(n));
    }
    forall x | x in found
      ensures x != 0 && exists n | n in s.card.files :: ScannedNumber(n) == x
    {
      FoundMembership(s.card.files.Keys, x);
    }
  }

  /**
    * `openLogFile()`: on success the file named after lastFileNum is open
    * and exists on the card, and its number is tracked; on failure nothing
    * changes.
    */
  lemma OpenLogFileEffect(cfg: Config, s: State, ok: bool)
    requires cfg.Valid()
    ensures var r := OpenLogFile(cfg, s, ok);
            && (ok ==> && r.curLogFile == Some(NameOf(cfg, s.lastFileNum))
                       && r.fileNums == s.fileNums + {s.lastFileNum}
                       && NameOf(cfg, s.lastFileNum) in r.card.files
                       && r.card.files.Keys == s.card.files.Keys + {NameOf(cfg, s.lastFileNum)})
            && (!ok ==> r == s)
  {
  }

  // ---------------------------------------------------------------------
  // scanCard

  /** `sd.begin` reports success: it already had, or the call made now succeeds. */
  predicate Begins(s: State, env: Outcomes) {
    s.lastBeginResult || env.beginOk
  }

  /** `logsDir.open` succeeds: the directory existed or `mkdir` made it, and the open completes. */
  predicate DirReady(cfg: Config, s: State, env: Outcomes) {
    env.dirOpenOk && (!cfg.hasLogsDir || s.card.logsDirExists || env.mkdirOk)
  }

  /**
    * A failed `sd.begin` in `scanCard()` leaves the scan pending, restarts
    * the cooldown and returns before the directory, fileNums or lastFileNum
    * are touched.
    */
  lemma ScanCardBeginFails(cfg: Config, s: State, now: Millis, env: Outcomes)
    requires cfg.Valid() && !Begins(s, env)
    ensures ScanCard(cfg, s, now, env)
         == s.(lastBeginResult := false, needsScanCard := true, lastCardCheck := now, card := Begun(s.card))
  {
  }

  /**
    * The part of `scanCard()` with the directory open: a failed
    * `openLogFile` leaves the scan pending and restarts the cooldown; a
    * successful one leaves the file of lastFileNum open with its number
    * tracked. lastFileNum never goes down.
    */
  lemma ScanLogsDirOutcome(cfg: Config, s: State, now: Millis, env: Outcomes)
    requires cfg.Valid()
    ensures var r := ScanLogsDir(cfg, s, now, env);
            && r.needsScanCard == (s.needsScanCard || !env.scanOpenOk)
            && (!env.scanOpenOk ==> r.lastCardCheck == now && r.curLogFile == s.curLogFile)
            && (env.scanOpenOk ==> && r.lastCardCheck == s.lastCardCheck
                                   && r.curLogFile == Some(NameOf(cfg, r.lastFileNum))
                                   && r.lastFileNum in r.fileNums)
            && r.logsDirOpen == s.logsDirOpen && r.lastBeginResult == s.lastBeginResult
            && r.card.beginCalls == s.card.beginCalls
            && s.lastFileNum <= r.lastFileNum
            && r.buffered == s.buffered && r.streamOut == s.streamOut
  {
    var e := Enumerate(s);
    EnumerateEffect(s);
    var c := CheckMaxFiles(cfg, e, env.undeletable);
    CheckMaxFilesFrame(cfg, e, env.undeletable);
    OpenLogFileEffect(cfg, c, env.scanOpenOk);
  }

  /**
    * The part of `scanCard()` after a successful `begin`: the scan stays
    * pending exactly when the directory open or `openLogFile` fails.
    */
  lemma OpenLogsDirOutcome(cfg: Config, s: State, now: Millis, env: Outcomes)
    requires cfg.Valid()
    ensures var r := OpenLogsDir(cfg, s, now, env);
            && r.needsScanCard == (s.needsScanCard || !(DirReady(cfg, s, env) && env.scanOpenOk))
            && (!(DirReady(cfg, s, env) && env.scanOpenOk) ==> r.lastCardCheck == now)
            && (DirReady(cfg, s, env) && env.scanOpenOk ==>
                  && r.lastCardCheck == s.lastCardCheck
                  && r.curLogFile == Some(NameOf(cfg, r.lastFileNum))
                  && r.lastFileNum in r.fileNums
                  && r.logsDirOpen)
            && r.lastBeginResult == s.lastBeginResult
            && r.card.beginCalls == s.card.beginCalls
            && s.lastFileNum <= r.lastFileNum
            && r.buffered == s.buffered && r.streamOut == s.streamOut
  {
    var s2 := if cfg.hasLogsDir && !s.card.logsDirExists then s.(card := MadeDir(s.card, env.mkdirOk)) else s;
    assert DirOpens(cfg, s2.card, env) == DirReady(cfg, s, env);
    if DirOpens(cfg, s2.card, env) {
      ScanLogsDirOutcome(cfg, s2.(logsDirOpen := true), now, env);
    }
  }

  /**
    * The outcome of `scanCard()`: the scan stays pending exactly when `begin`,
    * the directory open or `openLogFile` fails, and then the cooldown
    * restarts at `now`; a full success leaves the file of lastFileNum open
    * with its number tracked. `begin` is called only when the last call had
    * failed, and lastFileNum never goes down.
    */
  lemma ScanCardOutcome(cfg: Config, s: State, now: Millis, env: Outcomes)
    requires cfg.Valid()
    ensures var r := ScanCard(cfg, s, now, env);
            && (r.needsScanCard <==> !(Begins(s, env) && DirReady(cfg, s, env) && env.scanOpenOk))
            && (r.needsScanCard ==> r.lastCardCheck == now)
            && (!r.needsScanCard ==> && r.lastCardCheck == s.lastCardCheck
                                     && r.curLogFile == Some(NameOf(cfg, r.lastFileNum))
                                     && r.lastFileNum in r.fileNums
                                     && r.logsDirOpen)
            && r.lastBeginResult == Begins(s, env)
            && r.card.beginCalls == s.card.beginCalls + (if s.lastBeginResult then 0 else 1)
            && s.lastFileNum <= r.lastFileNum
            && r.buffered == s.buffered && r.streamOut == s.streamOut
  {
    var s0 := s.(needsScanCard := false);
    var s1 := if s0.lastBeginResult then s0 else s0.(lastBeginResult := env.beginOk, card := Begun(s0.card));
    if s1.lastBeginResult {
      OpenLogsDirOutcome(cfg, s1, now, env);
      assert DirReady(cfg, s1, env) == DirReady(cfg, s, env);
    }
  }

  /**
    * A scan that fails at `begin` or at the directory open leaves the tracked
    * numbers, lastFileNum, the current file and the directory's entries as
    * they were.
    */
  lemma ScanCardNoDirectory(cfg: Config, s: State, now: Millis, env: Outcomes)
    requires cfg.Valid() && !(Begins(s, env) && DirReady(cfg, s, env))
    ensures var r := ScanCard(cfg, s, now, env);
            && r.fileNums == s.fileNums && r.lastFileNum == s.lastFileNum
            && r.card.files == s.card.files && r.card.removeCalls == s.card.removeCalls
            && r.curLogFile == s.curLogFile
  {
    var s0 := s.(needsScanCard := false);
    var s1 := if s0.lastBeginResult then s0 else s0.(lastBeginResult := env.beginOk, card := Begun(s0.card));
    if s1.lastBeginResult {
      var s2 := if cfg.hasLogsDir && !s1.card.logsDirExists then s1.(card := MadeDir(s1.card, env.mkdirOk)) else s1;
      assert !DirOpens(cfg, s2.card, env);
    }
  }

  /**
    * How many numbers a scan that reached the directory leaves tracked: at
    * most maxFilesToKeep besides lastFileNum, since `openLogFile` inserts
    * lastFileNum after `checkMaxFiles` has run.
    */
  lemma ScanCardRetention(cfg: Config, s: State, now: Millis, env: Outcomes)
    requires cfg.Valid() && Begins(s, env) && DirReady(cfg, s, env)
    ensures var r := ScanCard(cfg, s, now, env);
            |r.fileNums - {r.lastFileNum}| <= cfg.maxFilesToKeep && |r.fileNums| <= cfg.maxFilesToKeep + 1
  {
    var s0 := s.(needsScanCard := false);
    var s1 := if s0.lastBeginResult then s0 else s0.(lastBeginResult := env.beginOk, card := Begun(s0.card));
    var s2 := if cfg.hasLogsDir && !s1.card.logsDirExists then s1.(card := MadeDir(s1.card, env.mkdirOk)) else s1;
    var s3 := s2.(logsDirOpen := true);
    var e := Enumerate(s3);
    var c := CheckMaxFiles(cfg, e, env.undeletable);
    CheckMaxFilesRetention(cfg, e, env.undeletable);
    CheckMaxFilesFrame(cfg, e, env.undeletable);
    assert ScanCard(cfg, s, now, env) == ScanLogsDir(cfg, s3, now, env);
    var r := ScanCard(cfg, s, now, env);
    assert r.lastFileNum == c.lastFileNum;
    assert r.fileNums - {r.lastFileNum} <= c.fileNums;
    SubsetSize(r.fileNums - {r.lastFileNum}, c.fileNums);
    assert r.fileNums <= c.fileNums + {r.lastFileNum};
    SubsetSize(r.fileNums, c.fileNums + {r.lastFileNum});
  }

  // ---------------------------------------------------------------------
  // The file part of writeBuf

  /** Writing to the file never touches the buffer or the stream, never calls `begin`, never lowers lastFileNum. */
  lemma WriteLogFileFrame(cfg: Config, s: State, env: Outcomes)
    requires cfg.Valid()
    ensures var r := WriteLogFile(cfg, s, env);
            && r.buffered == s.buffered && r.streamOut == s.streamOut
            && r.card.beginCalls == s.card.beginCalls
            && s.lastFileNum <= r.lastFileNum
  {
    if s.lastBeginResult && s.curLogFile.Some? && env.writeOk && |s.buffered| > 0 {
      var name := s.curLogFile.value;
      var s1 := s.(card := Appended(s.card, name, |s.buffered|));
      if SizeOf(s1.card, name) > cfg.desiredFileSize {
        RolloverFrame(cfg, s1, env);
        assert WriteLogFile(cfg, s, env) == Rollover(cfg, s1, env);
      }
    }
  }

  /** Rollover moves to the next number and changes only the file, the tracked numbers and the card. */
  lemma RolloverFrame(cfg: Config, s: State, env: Outcomes)
    requires cfg.Valid()
    ensures var r := Rollover(cfg, s, env);
            && r == s.(lastFileNum := s.lastFileNum + 1, curLogFile := r.curLogFile,
                       fileNums := r.fileNums, card := r.card)
            && r.card.beginCalls == s.card.beginCalls
  {
    var s2 := s.(curLogFile := None, lastFileNum := s.lastFileNum + 1);
    CheckMaxFilesFrame(cfg, OpenLogFile(cfg, s2, env.rollOpenOk), env.undeletable);
  }

  /** While `begin` has not succeeded, or no file is open, no file write is attempted and nothing changes. */
  lemma NoFileWriteWhileNotReady(cfg: Config, s: State, env: Outcomes)
    requires cfg.Valid() && (!s.lastBeginResult || s.curLogFile.None?)
    ensures WriteLogFile(cfg, s, env) == s
  {
  }

  /**
    * A file write that stores nothing (an error, or zero bytes) closes the
    * file and the directory and marks the card as not ready with
    * lastCardCheck = 0, so that the next flush rescans whatever the clock
    * says.
    */
  lemma WriteFailure(cfg: Config, s: State, env: Outcomes)
    requires cfg.Valid() && s.lastBeginResult && s.curLogFile.Some?
    requires !env.writeOk || |s.buffered| == 0
    ensures var r := WriteLogFile(cfg, s, env);
            r == s.(curLogFile := None, logsDirOpen := false, needsScanCard := true,
                    lastBeginResult := false, lastCardCheck := 0, card := r.card)
    ensures !env.writeOk ==> WriteLogFile(cfg, s, env).card == s.card
    ensures forall now: Millis :: ScanDue(cfg, WriteLogFile(cfg, s, env), now)
  {
    var r := WriteLogFile(cfg, s, env);
    assert r.needsScanCard && r.lastCardCheck == 0;
  }

  /** A successful write appends the whole buffer; up to desiredFileSize the file stays current. */
  lemma WriteAppends(cfg: Config, s: State, env: Outcomes)
    requires cfg.Valid() && s.lastBeginResult && s.curLogFile.Some? && env.writeOk && |s.buffered| > 0
    requires SizeOf(s.card, s.curLogFile.value) + |s.buffered| <= cfg.desiredFileSize
    ensures WriteLogFile(cfg, s, env) == s.(card := WriteLogFile(cfg, s, env).card)
    ensures SizeOf(WriteLogFile(cfg, s, env).card, s.curLogFile.value)
         == SizeOf(s.card, s.curLogFile.value) + |s.buffered|
  {
  }

  /** Card ready and no scan pending, yet no file open: the state a failed rollover open leaves. */
  predicate Stuck(s: State) {
    s.lastBeginResult && !s.needsScanCard && s.curLogFile.None?
  }

  /**
    * Rollover: once a write takes the file past desiredFileSize, the next
    * number is used and its file opened, and retention runs. A failed open
    * leaves no file open and neither schedules a rescan nor resets `begin`.
    */
  lemma RolloverEffect(cfg: Config, s: State, env: Outcomes)
    requires Consistent(cfg, s) && s.curLogFile.Some? && env.writeOk && |s.buffered| > 0
    requires SizeOf(s.card, s.curLogFile.value) + |s.buffered| > cfg.desiredFileSize
    ensures var r := WriteLogFile(cfg, s, env);
            && r.lastFileNum == s.lastFileNum + 1
            && r.needsScanCard == s.needsScanCard && r.lastBeginResult == s.lastBeginResult
            && r.lastCardCheck == s.lastCardCheck
            && |r.fileNums| <= cfg.maxFilesToKeep
            && (env.rollOpenOk ==> r.curLogFile == Some(NameOf(cfg, s.lastFileNum + 1)))
            && (env.rollOpenOk && cfg.maxFilesToKeep >= 1 ==> s.lastFileNum + 1 in r.fileNums)
            && (!env.rollOpenOk ==> Stuck(r))
  {
    var name := s.curLogFile.value;
    var s1 := s.(card := Appended(s.card, name, |s.buffered|));
    var s2 := s1.(curLogFile := None, lastFileNum := s1.lastFileNum + 1);
    var o := OpenLogFile(cfg, s2, env.rollOpenOk);
    assert WriteLogFile(cfg, s, env) == Rollover(cfg, s1, env);
    CheckMaxFilesFrame(cfg, o, env.undeletable);
    CheckMaxFilesRetention(cfg, o, env.undeletable);
    CheckMaxFilesResult(cfg, o, env.undeletable);
    if env.rollOpenOk && cfg.maxFilesToKeep >= 1 {
      assert o.fileNums == s.fileNums + {s.lastFileNum + 1};
      assert forall y | y in s.fileNums :: y <= s.lastFileNum + 1;
      RetainedOfLarger(s.fileNums, cfg.maxFilesToKeep, s.lastFileNum + 1);
      assert WriteLogFile(cfg, s, env).fileNums == Retained(o.fileNums, cfg.maxFilesToKeep);
    }
  }

  // ---------------------------------------------------------------------
  // writeBuf

  /**
    * `writeBuf()` always hands the whole buffer to the stream when there is
    * one, whatever the card does, and always ends with an empty buffer.
    */
  lemma WriteBufStream(cfg: Config, s: State, now: Millis, env: Outcomes)
    requires cfg.Valid()
    ensures WriteBuf(cfg, s, now, env).streamOut
         == if cfg.hasStream then s.streamOut + s.buffered else s.streamOut
    ensures WriteBuf(cfg, s, now, env).buffered == []
  {
    var s1 := Mirror(cfg, s);
    if ScanDue(cfg, s1, now) {
      ScanCardOutcome(cfg, s1, now, env);
      WriteLogFileFrame(cfg, ScanCard(cfg, s1, now, env), env);
    } else {
      WriteLogFileFrame(cfg, s1, env);
    }
  }

  /**
    * The cooldown: `sd.begin` is requested during a flush exactly when a
    * scan is pending, the last `begin` failed, and either lastCardCheck is 0
    * or cardCheckPeriod has passed since it.
    */
  lemma WriteBufBeginCalls(cfg: Config, s: State, now: Millis, env: Outcomes)
    requires cfg.Valid()
    ensures WriteBuf(cfg, s, now, env).card.beginCalls
         == s.card.beginCalls + (if ScanDue(cfg, s, now) && !s.lastBeginResult then 1 else 0)
  {
    var s1 := Mirror(cfg, s);
    if ScanDue(cfg, s1, now) {
      ScanCardOutcome(cfg, s1, now, env);
      WriteLogFileFrame(cfg, ScanCard(cfg, s1, now, env), env);
    } else {
      WriteLogFileFrame(cfg, s1, env);
    }
  }

  /**
    * Within the cooldown a pending scan is not attempted and, with no file
    * open, the flush does nothing but mirror the buffer and empty it.
    */
  lemma WriteBufCooldown(cfg: Config, s: State, now: Millis, env: Outcomes)
    requires Consistent(cfg, s) && s.needsScanCard
    requires s.lastCardCheck != 0 && Elapsed(now, s.lastCardCheck) < cfg.cardCheckPeriod
    ensures WriteBuf(cfg, s, now, env) == Mirror(cfg, s).(buffered := [])
  {
    NoFileWriteWhileNotReady(cfg, Mirror(cfg, s), env);
  }

  /** A flush never lowers lastFileNum. */
  lemma WriteBufLastFileNum(cfg: Config, s: State, now: Millis, env: Outcomes)
    requires cfg.Valid()
    ensures s.lastFileNum <= WriteBuf(cfg, s, now, env).lastFileNum
  {
    var s1 := Mirror(cfg, s);
    if ScanDue(cfg, s1, now) {
      ScanCardOutcome(cfg, s1, now, env);
      WriteLogFileFrame(cfg, ScanCard(cfg, s1, now, env), env);
    } else {
      WriteLogFileFrame(cfg, s1, env);
    }
  }

  // ---------------------------------------------------------------------
  // write

  /**
    * `write(c)`: the byte is buffered; when it fills the buffer or is a
    * line feed, the buffer (now ending in `c`) is flushed and emptied.
    * Between calls the buffer holds fewer than BUF_SIZE bytes.
    */
  lemma WriteBuffering(cfg: Config, s: State, c: byte, now: Millis, env: Outcomes)
    requires Inv(cfg, s)
    ensures Write(cfg, s, c, now, env).buffered == if Flushes(cfg, s, c) then [] else s.buffered + [c]
    ensures |Write(cfg, s, c, now, env).buffered| < cfg.bufSize
    ensures Write(cfg, s, c, now, env).streamOut
         == if Flushes(cfg, s, c) && cfg.hasStream then s.streamOut + (s.buffered + [c]) else s.streamOut
    ensures s.lastFileNum <= Write(cfg, s, c, now, env).lastFileNum
  {
    WritePreservesInv(cfg, s, c, now, env);
    if Flushes(cfg, s, c) {
      WriteBufStream(cfg, s.(buffered := s.buffered + [c]), now, env);
      WriteBufLastFileNum(cfg, s.(buffered := s.buffered + [c]), now, env);
    }
  }

  /** Once stuck, a `write` keeps the handler stuck and makes no request to the card. */
  lemma StuckWrite(cfg: Config, s: State, c: byte, now: Millis, env: Outcomes)
    requires cfg.Valid() && Stuck(s)
    ensures var r := Write(cfg, s, c, now, env);
            Stuck(r) && r.card == s.card && r.fileNums == s.fileNums && r.lastFileNum == s.lastFileNum
  {
    var s1 := s.(buffered := s.buffered + [c]);
    if Flushes(cfg, s, c) {
      NoFileWriteWhileNotReady(cfg, Mirror(cfg, s1), env);
    }
  }

  // ---------------------------------------------------------------------
  // Runs of many writes

  /** One call of `write(c)` at clock reading `now`, with the card answering `env`. */
  datatype Step = Step(c: byte, now: Millis, env: Outcomes)

  /** The state after a sequence of `write` calls. */
  ghost function Run(cfg: Config, s: State, steps: seq<Step>): State
    requires cfg.Valid()
    decreases |steps|
  {
    if steps == [] then s
    else Run(cfg, Write(cfg, s, steps[0].c, steps[0].now, steps[0].env), steps[1..])
  }

  /** The invariant, and with it bufOffset < BUF_SIZE, holds after any number of writes. */
  lemma {:induction false} RunPreservesInv(cfg: Config, s: State, steps: seq<Step>)
    requires Inv(cfg, s)
    ensures Inv(cfg, Run(cfg, s, steps))
    decreases |steps|
  {
    if steps != [] {
      WritePreservesInv(cfg, s, steps[0].c, steps[0].now, steps[0].env);
      RunPreservesInv(cfg, Write(cfg, s, steps[0].c, steps[0].now, steps[0].env), steps[1..]);
    }
  }

  /** File numbers only increase: no sequence of writes lowers lastFileNum. */
  lemma {:induction false} RunLastFileNum(cfg: Config, s: State, steps: seq<Step>)
    requires Inv(cfg, s)
    ensures s.lastFileNum <= Run(cfg, s, steps).lastFileNum
    decreases |steps|
  {
    if steps != [] {
      var s' := Write(cfg, s, steps[0].c, steps[0].now, steps[0].env);
      WriteBuffering(cfg, s, steps[0].c, steps[0].now, steps[0].env);
      WritePreservesInv(cfg, s, steps[0].c, steps[0].now, steps[0].env);
      RunLastFileNum(cfg, s', steps[1..]);
    }
  }

  /**
    * A failed rollover open is never recovered from: whatever the card and
    * the clock do afterwards, no request reaches the card again.
    */
  lemma {:induction false} StuckForever(cfg: Config, s: State, steps: seq<Step>)
    requires cfg.Valid() && Stuck(s)
    ensures Stuck(Run(cfg, s, steps)) && Run(cfg, s, steps).card == s.card
    decreases |steps|
  {
    if steps != [] {
      StuckWrite(cfg, s, steps[0].c, steps[0].now, steps[0].env);
      StuckForever(cfg, Write(cfg, s, steps[0].c, steps[0].now, steps[0].env), steps[1..]);
    }
  }
}
