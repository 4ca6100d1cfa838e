/**
  * An abstract model of the SdFat volume the log handler writes to. Only
  * what the handler can observe or change is kept: whether the log
  * directory exists, the entries of that directory with their sizes, and a
  * record of the `begin` and `remove` requests the card received. Whether a
  * request succeeds is decided by the caller-supplied outcome (the card may
  * be absent, full or failing at any moment).
  */
module SdFat {

  datatype Volume = Volume(
    logsDirExists: bool,          // the configured log directory is present (the root always is)
    files: map<string, nat>,      // entries of the log directory and their sizes in bytes
    beginCalls: nat,              // number of `sd.begin` requests so far
    removeCalls: seq<string>)     // names passed to `FatFile::remove`, in order

  /** `fileSize()` of the entry `name` (an entry that is gone reads as empty). */
  function SizeOf(v: Volume, name: string): nat {
    if name in v.files then v.files[name] else 0
  }

  /** `sd.begin(csPin, divisor)`: counted; its outcome is the caller's. */
  function Begun(v: Volume): Volume
  {
    v.(beginCalls := v.beginCalls + 1)
  }

  /** `sd.mkdir(logsDirName)`: on success the log directory exists. */
  function MadeDir(v: Volume, ok: bool): Volume
  {
    if ok then v.(logsDirExists := true) else v
  }

  /** A successful open with `O_CREAT`: the entry exists afterwards, an existing one keeps its size. */
  function Created(v: Volume, name: string): Volume
  {
    if name in v.files then v else v.(files := v.files[name := 0])
  }

  /** `write(buf, count)` with `O_APPEND` that stored all `count` bytes: the entry grows by `count`. */
  function Appended(v: Volume, name: string, count: nat): Volume
  {
    v.(files := v.files[name := SizeOf(v, name) + count])
  }

  /** `FatFile::remove(&logsDir, name)`: recorded; on success the entry is gone. */
  function Removed(v: Volume, name: string, ok: bool): Volume
  {
    v.(files := if ok then v.files - {name} else v.files, removeCalls := v.removeCalls + [name])
  }

  /** The card object (`SdFat &sd`) the handler is given. */
  class SdCard {
    var logsDirExists: bool
    var files: map<string, nat>
    var beginCalls: nat
    var removeCalls: seq<string>

    ghost function Snapshot(): Volume
      reads this
    {
      Volume(logsDirExists, files, beginCalls, removeCalls)
    }

    constructor (logsDirExists: bool, files: map<string, nat>)
      ensures Snapshot() == Volume(logsDirExists, files, 0, [])
    {
      this.logsDirExists := logsDirExists;
      this.files := files;
      beginCalls := 0;
      removeCalls := [];
    }

    function FileSize(name: string): (size: nat)
      reads this
      ensures size == SizeOf(Snapshot(), name)
    {
      if name in files then files[name] else 0
    }

    method Begin(ok: bool) returns (r: bool)
      modifies this
      ensures r == ok
      ensures Snapshot() == Begun(old(Snapshot()))
    {
      beginCalls := beginCalls + 1;
      r := ok;
    }

    method Mkdir(ok: bool) returns (r: bool)
      modifies this
      ensures r == ok
      ensures Snapshot() == MadeDir(old(Snapshot()), ok)
    {
      if ok {
        logsDirExists := true;
      }
      r := ok;
    }

    /** Open `name` for append, creating it; `ok` is whether the card completes the open. */
    method Open(name: string, ok: bool) returns (r: bool)
      modifies this
      ensures r == ok
      ensures Snapshot() == if ok then Created(old(Snapshot()), name) else old(Snapshot())
    {
      if ok && name !in files {
        files := files[name := 0];
      }
      r := ok;
    }

    /** `write(buf, count)` on the open entry `name`: the byte count written, or -1 on failure. */
    method Write(name: string, count: nat, ok: bool) returns (written: int)
      modifies this
      ensures written == if ok then count else -1
      ensures Snapshot() == if ok then Appended(old(Snapshot()), name, count) else old(Snapshot())
    {
      if ok {
        files := files[name := FileSize(name) + count];
        written := count;
      } else {
        written := -1;
      }
    }

    method Remove(name: string, ok: bool) returns (r: bool)
      modifies this
      ensures r == ok
      ensures Snapshot() == Removed(old(Snapshot()), name, ok)
    {
      if ok {
        files := files - {name};
      }
      removeCalls := removeCalls + [name];
      r := ok;
    }
  }
}
