/**
  * The state machine of `SdCardLogHandler` as functions on values: one
  * function per member function of the class (`write`, `writeBuf`,
  * `scanCard`, `openLogFile`, `checkMaxFiles`), each giving the state after
  * the call from the state before it, the clock reading and the outcomes
  * the card delivers. The class in module LogHandler is proved to follow
  * these functions; the lemmas below state what they guarantee.
  */
module LogSpec {
  import opened FileNames
  import opened NumberSets
  import opened SdFat

  /** `uint8_t`, the unit the log stream hands to `write`. */
  type byte = x: int | 0 <= x < 256

  /** A reading of `millis()`: an unsigned 32-bit millisecond counter. */
  type Millis = x: int | 0 <= x < 0x1_0000_0000

  const LF: byte := 10

  datatype Option<T> = None | Some(value: T)

  /** The handler's construction-time settings (header constants and configuration). */
  datatype Config = Config(
    bufSize: nat,              // BUF_SIZE, capacity of `buf`
    maxFilesToKeep: nat,       // retention bound
    desiredFileSize: nat,      // rollover threshold in bytes
    cardCheckPeriod: nat,      // cooldown between card scans, in ms
    nameBufSize: nat,          // sizeof(nameBuf)
    syncEveryEntry: bool,      // sync the file after every write
    hasStream: bool,           // writeToStream != NULL
    hasLogsDir: bool)          // logsDirName != NULL
  {
    /** A C array holds at least one element; `buf[bufOffset++]` needs room for one byte. */
    predicate Valid() {
      bufSize >= 1 && nameBufSize >= 1
    }
  }

  /** What the card answers to each request one flush can make. */
  datatype Outcomes = Outcomes(
    beginOk: bool,              // sd.begin succeeds
    mkdirOk: bool,              // sd.mkdir(logsDirName) succeeds
    dirOpenOk: bool,            // logsDir.open succeeds (when the directory exists)
    scanOpenOk: bool,           // curLogFile.open succeeds inside scanCard
    writeOk: bool,              // curLogFile.write stores the whole buffer
    rollOpenOk: bool,           // curLogFile.open succeeds after a rollover
    undeletable: set<string>)   // names FatFile::remove fails on

  /** The handler's fields, the card's observable state and what the passthrough stream received. */
  datatype State = State(
    buffered: seq<byte>,          // buf[0 .. bufOffset)
    needsScanCard: bool,
    lastBeginResult: bool,
    lastCardCheck: Millis,
    lastFileNum: int,
    fileNums: set<int>,
    logsDirOpen: bool,
    curLogFile: Option<string>,   // the open log file, by name; None when closed
    streamOut: seq<byte>,         // everything written to writeToStream so far
    card: Volume)

  function NameOf(cfg: Config, num: int): string
    requires cfg.Valid()
  {
    GetName(num, cfg.nameBufSize)
  }

  /** `millis() - lastCardCheck` in unsigned 32-bit arithmetic. */
  function Elapsed(now: Millis, since: Millis): (d: Millis)
    ensures since <= now ==> d == now - since
    ensures now < since ==> d == now + 0x1_0000_0000 - since
  {
    (now - since) % 0x1_0000_0000
  }

  /** The condition under which `writeBuf` calls `scanCard`. */
  predicate ScanDue(cfg: Config, s: State, now: Millis) {
    s.needsScanCard && (s.lastCardCheck == 0 || Elapsed(now, s.lastCardCheck) >= cfg.cardCheckPeriod)
  }

  // ---------------------------------------------------------------------
  // Construction

  /** The state right after the constructor: it has called `sd.begin` once. */
  function Initial(cfg: Config, initialFileNum: int, beginOk: bool, card: Volume): (s: State)
    requires cfg.Valid()
    ensures Inv(cfg, s)
    ensures s.needsScanCard && s.lastCardCheck == 0 && s.buffered == [] && s.fileNums == {}
  {
    State([], true, beginOk, 0, initialFileNum, {}, false, None, [], Begun(card))
  }

  // ---------------------------------------------------------------------
  // checkMaxFiles

  /** The names `checkMaxFiles` passes to `remove`, one per number. */
  function Names(cfg: Config, nums: seq<int>): seq<string>
    requires cfg.Valid()
  {
    seq(|nums|, i requires 0 <= i < |nums| => NameOf(cfg, nums[i]))
  }

  /** One `FatFile::remove` per name, in order; the outcome only decides whether the entry goes. */
  function RemoveAll(v: Volume, names: seq<string>, undeletable: set<string>): Volume
    decreases |names|
  {
    if names == [] then v
    else RemoveAll(Removed(v, names[0], names[0] !in undeletable), names[1..], undeletable)
  }

  /**
    * The removals `checkMaxFiles` issues: one request per name, in order,
    * and every entry whose removal succeeds is gone; nothing else changes.
    */
  lemma {:induction false} RemoveAllEffect(v: Volume, names: seq<string>, undeletable: set<string>)
    ensures RemoveAll(v, names, undeletable).removeCalls == v.removeCalls + names
    ensures forall n :: n in RemoveAll(v, names, undeletable).files <==>
                        n in v.files && (n !in names || n in undeletable)
    ensures forall n | n in RemoveAll(v, names, undeletable).files ::
              RemoveAll(v, names, undeletable).files[n] == v.files[n]
    ensures RemoveAll(v, names, undeletable).logsDirExists == v.logsDirExists
    ensures RemoveAll(v, names, undeletable).beginCalls == v.beginCalls
    decreases |names|
  {
    if names != [] {
      RemoveAllEffect(Removed(v, names[0], names[0] !in undeletable), names[1..], undeletable);
      assert names == [names[0]] + names[1..];
    }
  }

  /**
    * `checkMaxFiles()`: while more than maxFilesToKeep numbers are tracked,
    * remove the file of the smallest one (`*fileNums.begin()`) and erase the
    * number, whether or not the removal succeeded.
    */
  ghost function CheckMaxFiles(cfg: Config, s: State, undeletable: set<string>): State
    requires cfg.Valid()
    decreases |s.fileNums|
  {
    if |s.fileNums| <= cfg.maxFilesToKeep then s
    else
      var num := Least(s.fileNums);
      var name := NameOf(cfg, num);
      CheckMaxFiles(cfg, s.(fileNums := s.fileNums - {num}, card := Removed(s.card, name, name !in undeletable)), undeletable)
  }

  /**
    * What the retention loop amounts to: the tracked numbers become the
    * `maxFilesToKeep` largest, and one removal is issued per erased number,
    * smallest first; nothing else changes.
    */
  lemma {:induction false} CheckMaxFilesResult(cfg: Config, s: State, undeletable: set<string>)
    requires cfg.Valid()
    ensures CheckMaxFiles(cfg, s, undeletable)
         == s.(fileNums := Retained(s.fileNums, cfg.maxFilesToKeep),
               card := RemoveAll(s.card, Names(cfg, Dropped(s.fileNums, cfg.maxFilesToKeep)), undeletable))
    decreases |s.fileNums|
  {
    var k := cfg.maxFilesToKeep;
    if |s.fileNums| > k {
      var m := Least(s.fileNums);
      var name := NameOf(cfg, m);
      var s' := s.(fileNums := s.fileNums - {m}, card := Removed(s.card, name, name !in undeletable));
      CheckMaxFilesResult(cfg, s', undeletable);
      var names := Names(cfg, Dropped(s.fileNums, k));
      assert Dropped(s.fileNums, k) == [m] + Dropped(s.fileNums - {m}, k);
      assert names[0] == name;
      assert names[1..] == Names(cfg, Dropped(s.fileNums - {m}, k));
    }
  }

  // ---------------------------------------------------------------------
  // openLogFile

  /** `openLogFile()`: open (creating if needed) the file named after lastFileNum; on success track its number. */
  function OpenLogFile(cfg: Config, s: State, ok: bool): State
    requires cfg.Valid()
  {
    if ok then
      var name := NameOf(cfg, s.lastFileNum);
      s.(curLogFile := Some(name), fileNums := s.fileNums + {s.lastFileNum}, card := Created(s.card, name))
    else s
  }

  // ---------------------------------------------------------------------
  // scanCard

  /** The numbers the `openNext` loop takes from the entries: every non-zero `atoi` result. */
  function Found(names: set<string>): set<int> {
    set n | n in names && ScannedNumber(n) != 0 :: ScannedNumber(n)
  }

  /** Visiting one more entry adds its number, unless `atoi` gives 0. */
  lemma FoundAdd(names: set<string>, n: string)
    ensures Found(names + {n}) == Found(names) + (if ScannedNumber(n) != 0 then {ScannedNumber(n)} else {})
  {
  }

  /** The `openNext` loop: every found number joins fileNums, and lastFileNum rises to the largest. */
  ghost function Enumerate(s: State): State {
    var found := Found(s.card.files.Keys);
    s.(fileNums := s.fileNums + found, lastFileNum := Highest(s.lastFileNum, found))
  }

  /** Whether `logsDir.open` succeeds on the card `v`. */
  predicate DirOpens(cfg: Config, v: Volume, env: Outcomes) {
    env.dirOpenOk && (!cfg.hasLogsDir || v.logsDirExists)
  }

  /**
    * `scanCard()`: call `sd.begin` unless the last call succeeded, then go on
    * to the log directory; every failure leaves the scan pending and
    * restarts the cooldown.
    */
  ghost function ScanCard(cfg: Config, s: State, now: Millis, env: Outcomes): State
    requires cfg.Valid()
  {
    var s0 := s.(needsScanCard := false);
    var s1 := if s0.lastBeginResult then s0 else s0.(lastBeginResult := env.beginOk, card := Begun(s0.card));
    if !s1.lastBeginResult then s1.(needsScanCard := true, lastCardCheck := now)
    else OpenLogsDir(cfg, s1, now, env)
  }

  /** The part of `scanCard` after a successful begin: create the log directory if missing, then open it. */
  ghost function OpenLogsDir(cfg: Config, s: State, now: Millis, env: Outcomes): State
    requires cfg.Valid()
  {
    var s2 := if cfg.hasLogsDir && !s.card.logsDirExists then s.(card := MadeDir(s.card, env.mkdirOk)) else s;
    if DirOpens(cfg, s2.card, env) then ScanLogsDir(cfg, s2.(logsDirOpen := true), now, env)
    else s2.(needsScanCard := true, lastCardCheck := now)
  }

  /** The part of `scanCard` with the directory open: enumerate, retain, open the current file. */
  ghost function ScanLogsDir(cfg: Config, s: State, now: Millis, env: Outcomes): State
    requires cfg.Valid()
  {
    var s4 := OpenLogFile(cfg, CheckMaxFiles(cfg, Enumerate(s), env.undeletable), env.scanOpenOk);
    if env.scanOpenOk then s4 else s4.(needsScanCard := true, lastCardCheck := now)
  }

  // ---------------------------------------------------------------------
  // writeBuf

  /** The file part of `writeBuf`: write, roll over by size, or fall back to "card not ready". */
  ghost function WriteLogFile(cfg: Config, s: State, env: Outcomes): State
    requires cfg.Valid()
  {
    if !s.lastBeginResult || s.curLogFile.None? then s
    else
      var name := s.curLogFile.value;
      var written := if env.writeOk then |s.buffered| else -1;
      var s1 := if env.writeOk then s.(card := Appended(s.card, name, |s.buffered|)) else s;
      if written > 0 then
        if SizeOf(s1.card, name) > cfg.desiredFileSize then Rollover(cfg, s1, env) else s1
      else
        s1.(curLogFile := None, logsDirOpen := false, needsScanCard := true,
            lastBeginResult := false, lastCardCheck := 0)
  }

  /** The file grew past desiredFileSize: close it, open the next number, and retain. */
  ghost function Rollover(cfg: Config, s: State, env: Outcomes): State
    requires cfg.Valid()
  {
    var s2 := s.(curLogFile := None, lastFileNum := s.lastFileNum + 1);
    CheckMaxFiles(cfg, OpenLogFile(cfg, s2, env.rollOpenOk), env.undeletable)
  }

  ghost function Mirror(cfg: Config, s: State): State {
    if cfg.hasStream then s.(streamOut := s.streamOut + s.buffered) else s
  }

  ghost function WriteBuf(cfg: Config, s: State, now: Millis, env: Outcomes): State
    requires cfg.Valid()
  {
    var s1 := Mirror(cfg, s);
    var s2 := if ScanDue(cfg, s1, now) then ScanCard(cfg, s1, now, env) else s1;
    WriteLogFile(cfg, s2, env).(buffered := [])
  }

  // ---------------------------------------------------------------------
  // write

  /** Whether appending `c` to `s.buffered` makes `write` flush. */
  predicate Flushes(cfg: Config, s: State, c: byte) {
    |s.buffered| + 1 >= cfg.bufSize || c == LF
  }

  ghost function Write(cfg: Config, s: State, c: byte, now: Millis, env: Outcomes): State
    requires cfg.Valid()
  {
    var s1 := s.(buffered := s.buffered + [c]);
    if Flushes(cfg, s, c) then WriteBuf(cfg, s1, now, env) else s1
  }

  // ---------------------------------------------------------------------
  // The invariant kept between calls

  /** Everything the handler keeps consistent, except the buffer bound. */
  ghost predicate Consistent(cfg: Config, s: State) {
    && cfg.Valid()
    && (s.needsScanCard ==> s.curLogFile.None?)
    && (s.curLogFile.Some? ==>
          s.lastBeginResult && s.logsDirOpen && s.curLogFile.value == NameOf(cfg, s.lastFileNum))
    && (forall k | k in s.fileNums :: k <= s.lastFileNum)
  }

  ghost predicate Inv(cfg: Config, s: State) {
    Consistent(cfg, s) && |s.buffered| < cfg.bufSize
  }

  lemma CheckMaxFilesConsistent(cfg: Config, s: State, undeletable: set<string>)
    requires Consistent(cfg, s)
    ensures Consistent(cfg, CheckMaxFiles(cfg, s, undeletable))
  {
    CheckMaxFilesResult(cfg, s, undeletable);
    RetainedProps(s.fileNums, cfg.maxFilesToKeep);
  }

  lemma EnumerateConsistent(cfg: Config, s: State)
    requires Consistent(cfg, s) && s.curLogFile.None?
    ensures Consistent(cfg, Enumerate(s)) && Enumerate(s).curLogFile.None?
  {
    var found := Found(s.card.files.Keys);
    var h := Highest(s.lastFileNum, found);
    HighestProps(s.lastFileNum, found);
    assert forall k | k in s.fileNums + found :: k <= h;
  }

  lemma OpenLogFileConsistent(cfg: Config, s: State, ok: bool)
    requires Consistent(cfg, s) && s.lastBeginResult && s.logsDirOpen && !s.needsScanCard
    ensures Consistent(cfg, OpenLogFile(cfg, s, ok))
  {
  }

  lemma ScanLogsDirConsistent(cfg: Config, s: State, now: Millis, env: Outcomes)
    requires Consistent(cfg, s) && s.curLogFile.None? && s.lastBeginResult && s.logsDirOpen && !s.needsScanCard
    ensures Consistent(cfg, ScanLogsDir(cfg, s, now, env))
  {
    EnumerateConsistent(cfg, s);
    CheckMaxFilesConsistent(cfg, Enumerate(s), env.undeletable);
    CheckMaxFilesResult(cfg, Enumerate(s), env.undeletable);
    OpenLogFileConsistent(cfg, CheckMaxFiles(cfg, Enumerate(s), env.undeletable), env.scanOpenOk);
  }

  lemma ScanCardConsistent(cfg: Config, s: State, now: Millis, env: Outcomes)
    requires Consistent(cfg, s) && s.needsScanCard
    ensures Consistent(cfg, ScanCard(cfg, s, now, env))
  {
    var s0 := s.(needsScanCard := false);
    var s1 := if s0.lastBeginResult then s0 else s0.(lastBeginResult := env.beginOk, card := Begun(s0.card));
    if s1.lastBeginResult {
      var s2 := if cfg.hasLogsDir && !s1.card.logsDirExists then s1.(card := MadeDir(s1.card, env.mkdirOk)) else s1;
      if DirOpens(cfg, s2.card, env) {
        ScanLogsDirConsistent(cfg, s2.(logsDirOpen := true), now, env);
      }
    }
  }

  lemma WriteLogFileConsistent(cfg: Config, s: State, env: Outcomes)
    requires Consistent(cfg, s)
    ensures Consistent(cfg, WriteLogFile(cfg, s, env))
  {
    if s.lastBeginResult && s.curLogFile.Some? && env.writeOk && |s.buffered| > 0 {
      var name := s.curLogFile.value;
      var s1 := s.(card := Appended(s.card, name, |s.buffered|));
      if SizeOf(s1.card, name) > cfg.desiredFileSize {
        var s2 := s1.(curLogFile := None, lastFileNum := s1.lastFileNum + 1);
        CheckMaxFilesConsistent(cfg, OpenLogFile(cfg, s2, env.rollOpenOk), env.undeletable);
        assert WriteLogFile(cfg, s, env) == Rollover(cfg, s1, env);
      }
    }
  }

  lemma WriteBufConsistent(cfg: Config, s: State, now: Millis, env: Outcomes)
    requires Consistent(cfg, s)
    ensures Inv(cfg, WriteBuf(cfg, s, now, env))
  {
    var s1 := Mirror(cfg, s);
    if ScanDue(cfg, s1, now) {
      ScanCardConsistent(cfg, s1, now, env);
      WriteLogFileConsistent(cfg, ScanCard(cfg, s1, now, env), env);
    } else {
      WriteLogFileConsistent(cfg, s1, env);
    }
  }

  /**
    * Every call of `write` keeps the invariant; in particular
    * bufOffset < BUF_SIZE holds between calls, so `buf[bufOffset++]`
    * never writes past the buffer.
    */
  lemma WritePreservesInv(cfg: Config, s: State, c: byte, now: Millis, env: Outcomes)
    requires Inv(cfg, s)
    ensures Inv(cfg, Write(cfg, s, c, now, env))
  {
    if Flushes(cfg, s, c) {
      WriteBufConsistent(cfg, s.(buffered := s.buffered + [c]), now, env);
    }
  }
}
