# SdCardLogHandler, modelled in Dafny

`SdCardLogHandler` is a log sink for Particle devices. It collects the bytes
of log lines in a fixed buffer and flushes the buffer on a line feed or when
the buffer is full. A flush does four things in order:

- mirrors the bytes to an optional stream;
- rescans the SD card if a scan is pending and the cooldown has passed;
- appends the bytes to the current numbered file (`000042.txt`) and rolls
  over to the next number once the file is larger than `desiredFileSize`;
- on a failed write, falls back to "card not ready".

A scan does the following:

- restarts the card if needed and creates the log directory;
- collects the numbers of the files it finds into the ordered set
  `fileNums` and raises `lastFileNum` to the largest;
- deletes the files of the smallest numbers beyond `maxFilesToKeep`;
- opens the file of `lastFileNum`.

The project has six modules:

- `FileNames` (`file_names.dfy`): the `%06u.txt` formatting of `getName` and
  the C `atoi` the scan applies to every entry name. It proves that the two
  round-trip, and that for numbers below 10^6 name order is number order.
- `NumberSets` (`number_sets.dfy`): the ordered-set side.
  - Least and greatest elements.
  - `Highest`, the running maximum of the scan loop.
  - `Retained`/`Dropped`: what "erase the smallest until at most k are left"
    keeps and removes, and in which order.
- `SdFat` (`sd_fat.dfy`): the card as a value `Volume` (whether the log
  directory exists, its entries with their sizes, and the `begin` and
  `remove` requests it received), and the class `SdCard` whose methods stand
  for the SdFat calls. Whether a call succeeds is a parameter: the card may
  be missing, full or failing at any moment.
- `LogSpec` (`log_spec.dfy`): the handler's state as a value, with one
  function per member function of the class, giving the state after the
  call. Each function takes the state before the call, the clock reading and
  the outcomes the card delivers during one flush (`Outcomes`). This module
  also holds the invariant `Inv` and its preservation.
- `LogHandler` (`log_handler.dfy`): the class `SdCardLogHandler`, with
  fields, an array `buf`, `while` loops for the directory scan and for
  `checkMaxFiles`, and methods that update the fields in place. Every method
  is proved to change the abstract state exactly as the `LogSpec` function of
  the same name. `Write` also keeps `Valid()`, which includes
  `bufOffset < BUF_SIZE`.
- `LogProperties` (`log_properties.dfy`): what the state machine
  guarantees, stated on the `LogSpec` functions:
  - the retention bound, which files it keeps and the order of deletion;
  - what the scan collects;
  - each failure transition of `scanCard` and of a failed write;
  - the cooldown, rollover, the buffer and the stream;
  - over any sequence of writes: the invariant holds, `lastFileNum` never
    goes down, and the handler never recovers once a rollover open has
    failed.

The header values are fields of `LogSpec.Config`: `BUF_SIZE`,
`maxFilesToKeep`, `desiredFileSize`, `cardCheckPeriod`, `sizeof(nameBuf)`,
`syncEveryEntry`, whether a stream is set and whether a log directory name is
set. The initial `lastFileNum` is a constructor parameter. The model assumes
nothing about their values beyond `BUF_SIZE >= 1` and `sizeof(nameBuf) >= 1`.
It takes these initial values for the header's field initialisers: an empty
buffer, `needsScanCard` true, `lastCardCheck` 0, no file open and an empty
`fileNums`.

`millis()` is a parameter of `write` and is a 32-bit unsigned value.
`millis() - lastCardCheck` wraps modulo 2^32 (`LogSpec.Elapsed`).

### Where the code differs from its documentation

The model follows the code in each of these cases:

- **Rollover threshold.** Rollover happens when the file size is strictly
  greater than `desiredFileSize`, not when it is greater than or equal
  (src/SdCardLogHandlerRK.cpp:163).
- **Retention bound after a scan.** `openLogFile` inserts `lastFileNum`
  after `checkMaxFiles` has run, and `fileNums` is never cleared between
  scans. So a scan can leave `maxFilesToKeep + 1` numbers tracked
  (`ScanCardRetention` proves that this is the bound).
- **Failed open during rollover.** This failure is ignored: no file stays
  open, `needsScanCard` stays false and `lastBeginResult` stays true.
  - No later flush rescans or writes.
  - `RolloverEffect` proves that the failure leads to this state, and
    `StuckForever` proves that no sequence of writes leaves it.
- **`maxFilesToKeep` of 0.** It is not rejected. A rollover then opens the
  new file and immediately asks the card to remove it.
- **Names of negative numbers.** `getName` prints a negative number as
  `num + 2^32`.
- **Number 0.** File number 0 can be opened and tracked, but a scan ignores
  an entry whose `atoi` is 0.

## Model

| member | source | states |
|---|---|---|
| `FileNames.DecimalDigits` | src/SdCardLogHandlerRK.cpp:114 | `%0<w>u` prints at least one character, and only decimal digits |
| `FileNames.DecimalValue` | src/SdCardLogHandlerRK.cpp:114 | reading back the printed digits gives the number: the zero padding adds nothing |
| `FileNames.DecimalWidth` | src/SdCardLogHandlerRK.cpp:114 | a number below 10^w fills exactly w digits of `%0<w>u` |
| `FileNames.DecimalAtMost` | src/SdCardLogHandlerRK.cpp:114 | a number below 10^d never prints wider than d digits |
| `FileNames.DecimalInjective` | src/SdCardLogHandlerRK.cpp:114 | two numbers print the same exactly when they are equal |
| `FileNames.GetNameBounds` | src/SdCardLogHandlerRK.cpp:113-116 | `snprintf` leaves fewer than `sizeof(nameBuf)` characters, a prefix of the full `%06u.txt` text, and all of it when it fits |
| `FileNames.ShortName` | src/SdCardLogHandlerRK.cpp:113-116 | for 0 <= n < 10^6 and a buffer of at least 11 bytes, the name is the six-digit text of n followed by ".txt" |
| `FileNames.NameFormat` | src/SdCardLogHandlerRK.cpp:113-116 | for 0 <= n < 10^6 the name has ten characters: six digits whose value is n, then ".txt" |
| `FileNames.DigitsFromOfDigits` | src/SdCardLogHandlerRK.cpp:90 | atoi's digit loop over a digit string that ends at a non-digit yields acc * 10^len + the string's value |
| `FileNames.AtoiOfDigits` | src/SdCardLogHandlerRK.cpp:90 | `atoi` of a digit string followed by a non-digit or nothing is the value of the digits |
| `FileNames.NameParsesBack` | src/SdCardLogHandlerRK.cpp:90 | when nameBuf keeps all digits, `atoi(getName(num))` is num mod 2^32 (a negative num comes back as num + 2^32) |
| `FileNames.NameRoundTrip` | src/SdCardLogHandlerRK.cpp:113-116 | for 0 <= n < 10^6, `atoi(getName(n)) == n` |
| `FileNames.LexIrreflexive` | src/SdCardLogHandlerRK.cpp:114 | no name sorts before itself |
| `FileNames.LexAppend` | src/SdCardLogHandlerRK.cpp:114 | names with equal-length heads compare by their heads, then by their tails |
| `FileNames.DecimalOrder` | src/SdCardLogHandlerRK.cpp:114 | fixed-width digit strings sort exactly as the numbers they denote, in both directions |
| `FileNames.NameOrder` | src/SdCardLogHandlerRK.cpp:113-116 | for numbers below 10^6, name order is number order, and distinct numbers get distinct names |
| `NumberSets.Least` | src/SdCardLogHandlerRK.cpp:133 | `*fileNums.begin()` of a non-empty set is its smallest element |
| `NumberSets.HighestProps` | src/SdCardLogHandlerRK.cpp:93-95 | the running maximum is at least the initial value, is the initial value or a found number, and bounds every found number |
| `NumberSets.HighestAdd` | src/SdCardLogHandlerRK.cpp:93-95 | one more number raises the maximum exactly when it is larger than the current one |
| `NumberSets.RetainedProps` | src/SdCardLogHandlerRK.cpp:135-139 | erasing the smallest until at most k remain keeps min(size, k) numbers, a subset, each larger than every dropped number |
| `NumberSets.DroppedProps` | src/SdCardLogHandlerRK.cpp:135-139 | the erased numbers come out strictly increasing, and they are exactly the numbers not kept |
| `NumberSets.RetainedIsLargest` | src/SdCardLogHandlerRK.cpp:135-139 | any subset of that size lying above the rest is the retained set: the retained set is the k largest |
| `NumberSets.RetainedKeepsGreatest` | src/SdCardLogHandlerRK.cpp:135-139 | with k >= 1 the greatest number always survives |
| `NumberSets.RetainedOfLarger` | src/SdCardLogHandlerRK.cpp:166-171 | a number above all tracked ones survives retention when k >= 1 |
| `SdFat.SdCard.FileSize` | src/SdCardLogHandlerRK.cpp:163 | `fileSize()` of an entry is its recorded size (0 when absent) |
| `SdFat.SdCard.Begin` | src/SdCardLogHandlerRK.cpp:62 | `sd.begin` is counted and returns the card's answer |
| `SdFat.SdCard.Mkdir` | src/SdCardLogHandlerRK.cpp:73 | a successful `mkdir` makes the log directory exist |
| `SdFat.SdCard.Open` | src/SdCardLogHandlerRK.cpp:120 | a successful open with `O_CREAT` leaves the entry present, keeping an existing size |
| `SdFat.SdCard.Write` | src/SdCardLogHandlerRK.cpp:158 | a successful append grows the entry by the count and returns it; a failure returns -1 and changes nothing |
| `SdFat.SdCard.Remove` | src/SdCardLogHandlerRK.cpp:138 | every `remove` is recorded; a successful one deletes the entry |
| `LogSpec.Elapsed` | src/SdCardLogHandlerRK.cpp:151 | `millis() - lastCardCheck` in unsigned 32-bit arithmetic: the difference, or the difference plus 2^32 when the clock wrapped |
| `LogSpec.Initial` | src/SdCardLogHandlerRK.cpp:31-40 | the constructor's state satisfies the invariant, with a scan pending and an empty buffer |
| `LogSpec.RemoveAllEffect` | src/SdCardLogHandlerRK.cpp:138 | the removals issue one request per name in order; an entry is gone exactly when it was named and its removal succeeded; sizes and the rest are unchanged |
| `LogSpec.CheckMaxFilesResult` | src/SdCardLogHandlerRK.cpp:132-141 | the retention loop leaves the retained set tracked and issues the removals of the dropped numbers, smallest first; nothing else changes |
| `LogSpec.FoundAdd` | src/SdCardLogHandlerRK.cpp:90-92 | visiting one more entry adds its `atoi` value unless it is 0 |
| `LogSpec.CheckMaxFilesConsistent` | src/SdCardLogHandlerRK.cpp:132-141 | retention keeps the invariant |
| `LogSpec.EnumerateConsistent` | src/SdCardLogHandlerRK.cpp:85-98 | the scan loop keeps every tracked number at most lastFileNum |
| `LogSpec.OpenLogFileConsistent` | src/SdCardLogHandlerRK.cpp:118-129 | opening the file of lastFileNum keeps the invariant: the open file is always the file of lastFileNum |
| `LogSpec.ScanLogsDirConsistent` | src/SdCardLogHandlerRK.cpp:85-104 | the directory part of a scan keeps the invariant |
| `LogSpec.ScanCardConsistent` | src/SdCardLogHandlerRK.cpp:56-111 | `scanCard` keeps the invariant |
| `LogSpec.WriteLogFileConsistent` | src/SdCardLogHandlerRK.cpp:156-184 | the file write, rollover and failure reset keep the invariant |
| `LogSpec.WriteBufConsistent` | src/SdCardLogHandlerRK.cpp:144-188 | a flush keeps the invariant and leaves the buffer below BUF_SIZE |
| `LogSpec.WritePreservesInv` | src/SdCardLogHandlerRK.cpp:45-54 | every `write` keeps the invariant, so `buf[bufOffset++]` never writes past the buffer |
| `LogHandler.SdCardLogHandler.constructor` | src/SdCardLogHandlerRK.cpp:31-40 | the handler starts in the initial state, having called `sd.begin` once |
| `LogHandler.SdCardLogHandler.Write` | src/SdCardLogHandlerRK.cpp:45-54 | `write` returns 1, keeps `Valid()` (so bufOffset < BUF_SIZE), and moves the state as `LogSpec.Write` |
| `LogHandler.SdCardLogHandler.WriteBuf` | src/SdCardLogHandlerRK.cpp:144-188 | the flush moves the state as `LogSpec.WriteBuf` and ends with bufOffset = 0 |
| `LogHandler.SdCardLogHandler.WriteLogFile` | src/SdCardLogHandlerRK.cpp:156-184 | the file part of the flush moves the state as `LogSpec.WriteLogFile` |
| `LogHandler.SdCardLogHandler.Rollover` | src/SdCardLogHandlerRK.cpp:165-171 | closing, incrementing lastFileNum, opening and retention move the state as `LogSpec.Rollover` |
| `LogHandler.SdCardLogHandler.ScanCard` | src/SdCardLogHandlerRK.cpp:56-111 | `scanCard` moves the state as `LogSpec.ScanCard` |
| `LogHandler.SdCardLogHandler.OpenLogsDir` | src/SdCardLogHandlerRK.cpp:71-110 | the directory creation and open move the state as `LogSpec.OpenLogsDir` |
| `LogHandler.SdCardLogHandler.ScanLogsDir` | src/SdCardLogHandlerRK.cpp:81-104 | enumeration, retention and opening move the state as `LogSpec.ScanLogsDir` |
| `LogHandler.SdCardLogHandler.Enumerate` | src/SdCardLogHandlerRK.cpp:85-98 | the `openNext` loop moves the state as `LogSpec.Enumerate` |
| `LogHandler.SdCardLogHandler.ScanEntries` | src/SdCardLogHandlerRK.cpp:85-98 | visiting every entry once, in any order, adds exactly the non-zero `atoi` values and ends at their maximum with the old lastFileNum |
| `LogHandler.SdCardLogHandler.OpenLogFile` | src/SdCardLogHandlerRK.cpp:118-129 | `openLogFile` returns the open's outcome and moves the state as `LogSpec.OpenLogFile` |
| `LogHandler.SdCardLogHandler.CheckMaxFiles` | src/SdCardLogHandlerRK.cpp:132-141 | the loop, always at the smallest remaining number, moves the state as `LogSpec.CheckMaxFiles` |
| `LogProperties.CheckMaxFilesFrame` | src/SdCardLogHandlerRK.cpp:132-141 | retention changes only fileNums and the directory's entries |
| `LogProperties.CheckMaxFilesRetention` | src/SdCardLogHandlerRK.cpp:132-141 | afterwards min(size, maxFilesToKeep) numbers remain, all larger than every erased one; within the bound the call is a no-op |
| `LogProperties.CheckMaxFilesRemovals` | src/SdCardLogHandlerRK.cpp:132-141 | one `remove` per erased number, strictly increasing, and the erased numbers are exactly those no longer tracked, whatever `remove` returned |
| `LogProperties.FoundMembership` | src/SdCardLogHandlerRK.cpp:90-92 | a number is collected exactly when it is the non-zero `atoi` of some entry |
| `LogProperties.EnumerateEffect` | src/SdCardLogHandlerRK.cpp:85-98 | every entry with a non-zero `atoi` is tracked and nothing else is added; lastFileNum becomes the maximum of itself and those numbers and never decreases |
| `LogProperties.OpenLogFileEffect` | src/SdCardLogHandlerRK.cpp:118-129 | a successful open makes the file of lastFileNum current, creates it and tracks lastFileNum; a failed one changes nothing |
| `LogProperties.ScanLogsDirOutcome` | src/SdCardLogHandlerRK.cpp:99-104 | after enumeration and retention, a failed open leaves the scan pending with lastCardCheck = now; a successful one leaves lastFileNum tracked and its file open |
| `LogProperties.OpenLogsDirOutcome` | src/SdCardLogHandlerRK.cpp:71-110 | after a good `begin`, the scan stays pending exactly when the directory open or the file open fails |
| `LogProperties.ScanCardOutcome` | src/SdCardLogHandlerRK.cpp:56-111 | the scan stays pending exactly when begin, directory open or file open fails, and then lastCardCheck = now; `begin` is requested only when the last one failed; lastFileNum never goes down |
| `LogProperties.ScanCardBeginFails` | src/SdCardLogHandlerRK.cpp:60-68 | a failed `begin` sets the flag and the timestamp and returns before touching the directory, fileNums or lastFileNum |
| `LogProperties.ScanCardNoDirectory` | src/SdCardLogHandlerRK.cpp:106-110 | a scan that fails at begin or at the directory open leaves fileNums, lastFileNum, the entries and the current file unchanged |
| `LogProperties.ScanCardRetention` | src/SdCardLogHandlerRK.cpp:99-101 | a scan that reaches the directory leaves at most maxFilesToKeep numbers besides lastFileNum, so at most maxFilesToKeep + 1 |
| `LogProperties.WriteLogFileFrame` | src/SdCardLogHandlerRK.cpp:156-184 | the file part of the flush leaves the buffer and the stream alone, never calls `begin` and never lowers lastFileNum |
| `LogProperties.RolloverFrame` | src/SdCardLogHandlerRK.cpp:165-171 | rollover sets lastFileNum to exactly one more and changes only the current file, fileNums and the card |
| `LogProperties.NoFileWriteWhileNotReady` | src/SdCardLogHandlerRK.cpp:156-157 | without a successful `begin` or an open file, no write is attempted and nothing changes |
| `LogProperties.WriteFailure` | src/SdCardLogHandlerRK.cpp:174-182 | a write storing nothing closes file and directory, sets needsScanCard, clears lastBeginResult and zeroes lastCardCheck, so the next flush rescans at any clock reading |
| `LogProperties.WriteAppends` | src/SdCardLogHandlerRK.cpp:158-163 | a successful write grows the file by the buffer length and, up to desiredFileSize, changes nothing else |
| `LogProperties.RolloverEffect` | src/SdCardLogHandlerRK.cpp:163-172 | past desiredFileSize: lastFileNum + 1, its file opened and tracked (k >= 1), at most k numbers kept, scan and begin flags untouched; a failed open leaves the handler stuck |
| `LogProperties.WriteBufStream` | src/SdCardLogHandlerRK.cpp:146-148 | a flush always appends the whole buffer to the stream when one is set, whatever the card does, and ends with an empty buffer |
| `LogProperties.WriteBufBeginCalls` | src/SdCardLogHandlerRK.cpp:150-154 | `begin` is requested exactly when a scan is pending, the last begin failed, and lastCardCheck is 0 or cardCheckPeriod has passed |
| `LogProperties.WriteBufCooldown` | src/SdCardLogHandlerRK.cpp:150-154 | within the cooldown a pending scan is skipped and the flush only mirrors and empties the buffer |
| `LogProperties.WriteBufLastFileNum` | src/SdCardLogHandlerRK.cpp:144-188 | a flush never lowers lastFileNum |
| `LogProperties.WriteBuffering` | src/SdCardLogHandlerRK.cpp:45-54 | the byte is buffered; on a full buffer or a line feed the buffer, ending in the byte, goes to the stream and is emptied; between calls the buffer stays below BUF_SIZE |
| `LogProperties.StuckWrite` | src/SdCardLogHandlerRK.cpp:156-157 | in the stuck state a write keeps the handler stuck and sends nothing to the card |
| `LogProperties.RunPreservesInv` | src/SdCardLogHandlerRK.cpp:45-54 | after any sequence of writes the invariant, and bufOffset < BUF_SIZE, still hold |
| `LogProperties.RunLastFileNum` | src/SdCardLogHandlerRK.cpp:166 | no sequence of writes lowers lastFileNum: file numbers only increase |
| `LogProperties.StuckForever` | src/SdCardLogHandlerRK.cpp:168 | after a failed rollover open, no sequence of writes ever reaches the card again |

## Left out

- Constructor wiring: the `StreamLogHandler` base class (formatting and filtering of log lines), `LogManager` registration and the `dateTimeCallback` hook. These are runtime registration and foreign code; the constructor models only its `sd.begin` call.
- `dateTimeCallback`: wall-clock reads for file timestamps, which are metadata only.
- Debug macros and `Serial.printlnf`: diagnostic output only.
- `pinMode(csPin, OUTPUT)`: a hardware pin setting with no effect on the state.
- `sync()` with `syncEveryEntry`: durability is not observable in this model, so syncing changes nothing.
- SdFat internals:
  - `begin`, `exists`, `mkdir`, `open`, `openNext`, `getName`, `write`, `fileSize` and `remove` act on an abstract directory (names to sizes).
  - Each call's success is an outcome parameter. For example, `logsDir.open` on an already open `logsDir` is covered by the outcome `dirOpenOk`, not derived from the state.
  - The 8.3 and long-file-name forms of entry names are not modelled. Names longer than 63 characters are cut to 63, as `char name[64]` does.
- SdFat.SdCard.Write: does not model partial writes (some bytes stored, but fewer than `bufOffset`), because the outcome is a boolean; a write stores the whole buffer or fails with -1.
- Integer width:
  - `atoi` is unbounded; its overflow is undefined behaviour in C.
  - `lastFileNum++` is unbounded; 32-bit overflow is not modelled.
  - `%u` of a negative `int` is modelled as the number mod 2^32.
- Concurrency: the handler is assumed to have a single caller.
- The order in which `openNext` visits entries: the loop takes them in any order, and the proved result does not depend on the order.
- Stage methods:
  - `scanCard` is split into `ScanCard`, `OpenLogsDir`, `ScanLogsDir`, `Enumerate` and `ScanEntries`.
  - `writeBuf` is split into `WriteBuf`, `WriteLogFile` and `Rollover`.
  - These are consecutive parts of one C++ function, kept apart so that each proof stays small. Each part has a `LogSpec` function of the same name.
- The contents of the stream: it is modelled as the sequence of bytes written to it, in order.
