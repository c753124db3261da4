# OpenASLC in Dafny

OpenASLC is a soft PLC. A JSON document is parsed into rules, each a condition tree of AND, OR, NOT,
INPUT and TON_TIMER nodes and an output bit. A scan loop loads the inputs, runs the rules in order over
a packed process image and hands out the outputs, while documents are deployed, archived and logged from
other threads. This project models that program and proves what it promises.

Run `dafny verify dfyconfig.toml` to verify everything.

## How the model is laid out

- `ProcessImage`, `Interpreter`, `Scan`: the objects that change in place (byte arrays under masks, trees
  whose timers count, the program holder, the driver and the engine), each method proved against a function
  on values. The C++ node classes become one class with a kind tag; its structure never changes, only its
  counter does.
- `Logic`: those functions. A tree carries its counters as a value, and an image is the set of signals that are 1.
- `History`, `Runs`: the semantics without counters and the theorems that the counting machine computes it.
- `Rewrites`, `Reorder`, `Simultaneous`: what may be done to programs without changing their runs, and what
  one scan solves.
- `Json`, `Parser`: the parser and its exactness.
- `HotSwap`: the interleavings of the scan thread with reloading threads.
- `Logger`, `FlushSteps`, `LogRotation`, `LogReader`, `LoggedFiles`: the ring buffer, its two flushing threads, the
  rotating files, a reader of them, and the way from a call to what is read.
- `ByteValues`, `Frames`, `FrameIO`, `Base64`, `HashPadding`, `Sha256`, `Sha1`, `HashFacts`: the byte codecs,
  and the facts that fix their tables and operations.
- `Archive`, `Deploy`, `DeployRows`: the commit history, concurrent deploy requests, and what their rows say.
- `ExampleProgram`: the example document, from its text to what it does.
- `ScanClock`: start times of cycles.
- `Words`, `Wrappers`: number widths, options and results.

## What is false of the code, and when it holds

- A timer with a non-zero preset does not stay on for ever: after 2^64 true cycles its counter wraps around
  (`History.TimerExactForeverIff`). The history theorems therefore ask that cycles times period stay below 2^64,
  and for a timer that delays this bound is exact (`History.TimerExactWhileIff`).
- "A swapped-in program's timers always start at 0", says the header of the interpreter. That holds for
  `reload_from_json` (`Interpreter.LogicRuntime.ReloadFromJson`); `reload` installs an object with the counters it
  has (`Interpreter.LogicRuntime.Reload`), which after a scan are zero exactly if no timer counted on in it
  (`Logic.TickedZeroedIff`).
- The bounds test of the process image is wrong exactly when the sum wraps around into the area
  (`ProcessImage.BoundsCheckExactIff`). The parser never produces such an offset.
- Moving a timer inside an AND is wrong for an empty AND, which the parser rejects (`Rewrites.TimerOverAndIff`).
- A control frame with more than 125 bytes of payload does not decode (`Frames.ControlRoundTripIff`).
- Commits "never collide", says the archive. Two of them hash the same text when payload, author, message and
  millisecond agree, and also when an author's name runs over a line break into the message
  (`Archive.SharedTextIff`); the primary key then refuses the second.
- HEAD of the archive need not be the running program. It is exactly when the row inserted last came with its
  snapshot and holds the document swapped in last; without a new row, HEAD is what the archive held at the start
  (`Deploy.HeadRunsIff`). Deploys that do not overlap and are
  archived in full have this (`Deploy.HeadIsRunning`); overlapping ones may or may not
  (`Deploy.OverlapDecidesNothing`); a direct `reload` of another program, as `src/main.cpp` makes one, breaks it.

## Model

| member | source | states |
|---|---|---|
| `ProcessImage.WithBitSetsOneBit` | src/memory_map.cpp:68-72 | a masked store into a byte sets that bit to the value and leaves the other seven |
| `ProcessImage.BitIsLowBit` | src/memory_map.cpp:58 | the mask of an index selects that bit counted from the low end of the byte |
| `ProcessImage.SetBitAdds` | src/memory_map.cpp:68-69 | setting a bit that was off adds 2^bit to the byte |
| `ProcessImage.ClearedBitSubtracts` | src/memory_map.cpp:70-71 | clearing a bit that was on takes 2^bit from the byte |
| `ProcessImage.WithBitStores` | src/memory_map.cpp:68-72 | a masked store changes that one bit of that one byte, bits counted from the low end |
| `ProcessImage.MaskedStoreWritesOneSignal` | src/memory_map.cpp:61-73 | storing through a mask changes exactly one of the 16384 signals of the image |
| `ProcessImage.ReplacedAreaImage` | src/memory_map.cpp:82-87 | replacing every byte of one area replaces its signals and leaves the two other areas |
| `ProcessImage.ImageDeterminesAreas` | include/openaslc/memory_map.hpp:22-50 | the packing loses nothing: two maps that show the same signals hold the same bytes |
| `ProcessImage.BoundsCheckExactIff` | src/memory_map.cpp:34-39 | with `size_t` wrap-around, the bounds test agrees with offset + count <= size if and only if the sum does not land in [2^64, 2^64 + size] |
| `ProcessImage.MemoryMap.ReadBit` | src/memory_map.cpp:53-59 | for every 64-bit offset: the bit of the byte counted from its low end, or the error for a bad bit index or an offset outside the area, or the one access (offset 2^64 - 1) that the wrapped bounds test lets through |
| `ProcessImage.MemoryMap.WriteBit` | src/memory_map.cpp:61-73 | for every 64-bit offset: writes one signal of the image, that bit of that byte counted from the low end, or raises the matching error and writes nothing; the access the bounds test wrongly lets through is told apart |
| `ProcessImage.MemoryMap.ReadByte` | src/memory_map.cpp:41-45 | for every 64-bit offset: the byte there, the range error, or the access the bounds test wrongly lets through |
| `ProcessImage.MemoryMap.WriteBytes` | src/memory_map.cpp:82-87 | for every 64-bit offset and length: replaces the block of bytes at the offset and no other byte of any area, or raises and changes nothing; the wrapped sums the bounds test lets through are told apart |
| `ProcessImage.CopyInto` | src/memory_map.cpp:86 | the element-by-element copy leaves the bytes before and after the block |
| `ProcessImage.MemoryMap.GetAreaSnapshot` | src/memory_map.cpp:89-94 | a copy of all bytes of one area |
| `Interpreter.LogicNode.Evaluate` | src/logic_interpreter.cpp:210-256 | one evaluation in place: it fails if and only if some reference lies outside the image, with the timers in front of that reference ticked and those behind it as they were; otherwise it gives the value of the tree and leaves every timer of the tree ticked or reset; it only reads the image |
| `Interpreter.LogicNode.EvaluateAnd` | src/logic_interpreter.cpp:216-225 | every child is evaluated whatever the earlier ones gave, so all their timers advance; an error stops at the child that raised it |
| `Interpreter.LogicNode.EvaluateOr` | src/logic_interpreter.cpp:229-235 | the same for OR |
| `Interpreter.LogicNode.EvaluateInput` | src/logic_interpreter.cpp:221-223 | evaluating one child leaves the counters of its siblings alone |
| `Interpreter.LogicProgram.ExecuteRule` | src/logic_interpreter.cpp:292-295 | one rule writes one signal with its condition's value and advances that condition's timers alone; an error leaves the image and the other rules |
| `Interpreter.LogicProgram.Execute` | src/logic_interpreter.cpp:291-296 | the rules run in order on one image; an error of the map stops the scan exactly at the first rule that can raise one, with everything in front of it done and nothing behind it |
| `Interpreter.Build` | src/logic_interpreter.cpp:117-184 | the allocated tree is the parsed condition, with its subtrees disjoint |
| `Interpreter.FromJson` | src/logic_interpreter.cpp:258-274 | succeeds exactly when the document parses, and then holds the parsed rules with fresh timers |
| `Interpreter.LogicRuntime.ExecuteCycle` | src/logic_interpreter.cpp:305-314 | runs one scan of the current program, with the same account of an error, or nothing when none is loaded |
| `Interpreter.LogicRuntime.Reload` | src/logic_interpreter.cpp:316-319 | installs the object as it is, so its timers start at zero if and only if the object's counters are zero |
| `Interpreter.LogicRuntime.ReloadFromJson` | src/logic_interpreter.cpp:321-325 | swaps after a successful parse, with all timers at zero; a rejected document leaves the current program in place |
| `Logic.EvaluationIsLocal` | src/logic_interpreter.cpp:210-256 | value and counters after an evaluation depend on the signals the tree reads and on nothing else |
| `Logic.EvaluationKeepsShape` | src/logic_interpreter.cpp:249-256 | evaluation changes counters alone, never what a tree reads |
| `Logic.UntargetedUnchanged` | src/logic_interpreter.cpp:291-296 | a signal no rule targets keeps its value |
| `Logic.LastWriterWins` | src/logic_interpreter.cpp:291-296 | a targeted signal ends equal to the last rule that targets it, evaluated on what the earlier rules left |
| `Logic.AfterConcat` | include/openaslc/logic_interpreter.hpp:116-120 | a scan of two rule lists one after the other is a scan of their concatenation |
| `Logic.AttemptSucceeds` | src/logic_interpreter.cpp:210-256 | the evaluation that stops at errors is the plain one when no reference is out of range |
| `Logic.TickedZeroedIff` | include/openaslc/logic_interpreter.hpp:84-87 | a program that has run has its timers at zero if and only if no timer counted on in its last scan |
| `History.ThresholdIsLeast` | src/logic_interpreter.cpp:254-255 | max(1, ceil(preset/period)) is the least positive count whose product with the period reaches the preset |
| `History.FiresAtThreshold` | src/logic_interpreter.cpp:249-256 | without overflow the timer comparison is that threshold test |
| `History.TimerExactForeverIff` | src/logic_interpreter.cpp:249-256 | with `uint64_t` wrap-around, a timer meets its rule at every length of the run of true cycles if and only if its preset is zero |
| `History.TimerExactWhileIff` | src/logic_interpreter.cpp:249-256 | a timer that delays meets its rule at every length 1..N of the run of true cycles if and only if N * period stays below 2^64 |
| `History.CounterIsStreak` | src/logic_interpreter.cpp:249-256 | a timer's counter is the number of consecutive true results of its input |
| `History.TimerIsStreak` | src/logic_interpreter.cpp:249-256 | a timer fires exactly when that number has reached the threshold |
| `History.MachineMeetsHistory` | src/logic_interpreter.cpp:210-256 | after every history, a tree that counted in place has the value of the stateless semantics, in which TON(c) means that c held in each of the last `Threshold` cycles |
| `History.ResumedMeetsHistory` | src/logic_interpreter.cpp:316-319 | a tree put back to work with its old counters continues the history of its own evaluations |
| `Runs.ProgramMeetsHistory` | src/logic_interpreter.cpp:291-296 | at every rule of every scan of every run, the machine has the memory of a semantics without counters, in which rule r sees the memories left by rules 0..r-1 in each scan so far |
| `Runs.RuleMeetsHistory` | src/logic_interpreter.cpp:291-296 | the bit a rule writes is what its condition means on that history |
| `Runs.RunMeetsHistory` | src/logic_interpreter.cpp:291-296 | the memory after any number of scans is the stateless one |
| `Rewrites.TimerOverAndIff` | src/logic_interpreter.cpp:216-225 | TON(AND(c..)) and AND(TON(c)..) agree on all histories if and only if the AND is non-empty or the timer never delays |
| `Rewrites.TimerOverAndOnMachine` | src/logic_interpreter.cpp:216-256 | the counting machine cannot tell those two conditions apart on any history |
| `Rewrites.TimerOverTimer` | src/logic_interpreter.cpp:249-256 | TON(TON(c)) holds exactly after k1 + k2 - 1 consecutive true cycles of c |
| `Rewrites.NestedTimersAreOneTimer` | src/logic_interpreter.cpp:249-256 | two nested timers equal one timer with preset (k1 + k2 - 1) * period |
| `Rewrites.TimedAlternativeHolds` | src/logic_interpreter.cpp:229-256 | OR(TON(c)..) implies TON(OR(c..)) |
| `Rewrites.TimerOverOrDiffers` | src/logic_interpreter.cpp:229-256 | the converse fails: two signals taking turns |
| `Rewrites.PlugKeepsMeaning` | src/logic_interpreter.cpp:210-256 | a part of a condition may be replaced by one of the same meaning at any depth under AND, OR, NOT and timers |
| `Rewrites.RewritingKeepsRuns` | src/logic_interpreter.cpp:291-296 | replacing conditions by conditions of the same meaning changes no run of a program |
| `Rewrites.RewritingInsideKeepsRuns` | src/logic_interpreter.cpp:291-296 | so rewriting any part of any rule changes no run of the program |
| `Reorder.RuleCommutesWithBlock` | src/logic_interpreter.cpp:291-296 | moving a rule over rules it does not conflict with leaves memory and counters as they were |
| `Reorder.ReorderedScan` | src/logic_interpreter.cpp:291-296 | one scan of a permutation that keeps conflicting pairs in order: same memory, each rule with its own counters |
| `Reorder.ReorderingKeepsRuns` | src/logic_interpreter.cpp:291-296 | the same after every run of every length on every input sequence |
| `Reorder.IndependentRulesSwap` | src/logic_interpreter.cpp:291-296 | two rules that do not touch each other's signals may change places |
| `Reorder.ConflictingOrderMatters` | include/openaslc/logic_interpreter.hpp:116-120 | the order of a conflicting pair does matter: a two-stage chain read in the wrong order |
| `Simultaneous.ScanSolves` | src/logic_interpreter.cpp:291-296 | when no rule reads what it or a later rule writes and no signal is written twice, the final memory satisfies every rule's equation at once |
| `Simultaneous.ScanIsTheOnlySolution` | src/logic_interpreter.cpp:291-296 | and it is the only such memory that agrees with the old one off the outputs |
| `Simultaneous.SettlesInOneScan` | src/logic_interpreter.cpp:291-296 | without timers and under unchanged inputs every later scan leaves the memory of the first |
| `Simultaneous.SelfNegationNeverSettles` | src/logic_interpreter.cpp:291-296 | without that layering a program may have no solution and never settle |
| `Parser.SignalExact` | src/logic_interpreter.cpp:73-115 | a signal reference is accepted exactly when it says area, byte in range and bit 0..7, names no remote node, and is not %I where that is barred |
| `Parser.ConditionExact` | src/logic_interpreter.cpp:117-184 | a condition parses to a tree if and only if the tree is well formed and the document says what its canonical document says |
| `Parser.RuleExact` | src/logic_interpreter.cpp:186-202 | the same for a rule, with the default identifier filled in |
| `Parser.ParserExact` | src/logic_interpreter.cpp:258-274 | the same for whole documents: exactly which documents are accepted, and as what |
| `Parser.CanonicalRoundTrip` | src/logic_interpreter.cpp:258-274 | the canonical document of a well-formed program with zeroed timers parses to that program |
| `Parser.CanonicalInjective` | src/logic_interpreter.cpp:258-274 | two programs with one canonical document are one program |
| `Parser.AcceptedIsSafe` | src/logic_interpreter.cpp:73-115 | accepted programs stay inside the image, never target %I, and start with their timers at zero |
| `Parser.ParseInputs` | src/logic_interpreter.cpp:124-129 | the loop over children succeeds exactly when every child parses |
| `Json.AsInt64` | src/logic_interpreter.cpp:54-62 | reading an unsigned integer of 2^63 or more as `int64_t` gives a negative number, which every caller rejects |
| `HotSwap.SwapsCommuteWithCycle` | src/logic_interpreter.cpp:316-325 | swaps give the same result before and after any change to a cycle's own image and counters |
| `HotSwap.EveryPrefixExplained` | src/logic_interpreter.cpp:305-325 | at every point of every interleaving the state is a serial run, plus the swaps made during the open cycle, plus the part of one program that has run |
| `HotSwap.EveryInterleavingIsSerial` | src/logic_interpreter.cpp:305-325 | every interleaving of copy, rule steps, parses and installs ends in the state of a serial run with whole cycles, with the swaps in their order and the scan thread's steps in theirs |
| `HotSwap.CurrentIsLastInstalled` | src/logic_interpreter.cpp:316-319 | after every run of actions the current program is that of the last install, or the one at the start |
| `HotSwap.ProgramsAreAccepted` | src/logic_interpreter.cpp:321-325 | every accepted document makes one program object with its rules and zero timers, a rejected one changes nothing, and scans move timers alone |
| `HotSwap.NothingBlocks` | src/logic_interpreter.cpp:305-325 | parses and installs are possible in every state, and the scan thread always has exactly one next step |
| `HotSwap.CycleStepByStep` | src/logic_interpreter.cpp:305-314 | left alone, copying the pointer and running the rules one by one is a whole cycle of the current program |
| `HotSwap.CycleIsExecuted` | src/logic_interpreter.cpp:305-314 | the step for a whole cycle leaves the rules and the image that `ExecuteCycle` reports |
| `HotSwap.ScansAreRun` | src/logic_interpreter.cpp:305-314 | n scans have the images and counters of the run semantics |
| `HotSwap.DeployedThenScanned` | src/logic_interpreter.cpp:305-325 | parsing a document, installing its program and scanning gives the images of the document's rules from zero timers |
| `Scan.RunStaysSound` | src/logic_interpreter.cpp:73-115 | whatever is deployed during a run, no scan ever meets a program that could leave the image or write %I |
| `Scan.InputChangeWritesSignal` | src/mock_driver.cpp:36-45 | an input change gives that bit of %I the value asked for and no other; one out of range does nothing |
| `Scan.DeploymentSwapsProgram` | src/logic_interpreter.cpp:321-325 | an accepted document replaces the program and nothing else, a rejected one changes nothing |
| `Scan.RunFollowsInputs` | src/mock_driver.cpp:15-45 | in every run, a signal of %I in scan n has the value of its last change, or the one it had at the start |
| `Scan.RunFollowsDeployments` | src/logic_interpreter.cpp:305-325 | in every run, the program of scan n is that of the last accepted document, or the one at the start; only its timers have moved |
| `Scan.ScanShowsInputs` | src/aslc_engine.cpp:81-91 | %I equals the driver's inputs before, during and after the logic step of every scan |
| `Scan.UntargetedSurvives` | src/logic_interpreter.cpp:291-296 | a %Q or %M signal survives scans, input changes and deployments until a scan whose program targets it |
| `Scan.TargetedFollowsLastRule` | src/logic_interpreter.cpp:291-296 | a targeted signal ends the scan equal to its last rule, and the recorded output byte shows it |
| `Scan.SystemRunsProgram` | src/aslc_engine.cpp:78-103 | between deployments the system runs one program scan by scan |
| `Scan.DeployedDocumentMeetsHistory` | src/logic_interpreter.cpp:258-296 | from document to meaning: after a deployment every scan leaves the memory the stateless semantics of its rules gives for the inputs loaded since |
| `Scan.MockDriver.ReadInputs` | src/mock_driver.cpp:15-17 | %I becomes the simulated inputs, %Q and %M stay |
| `Scan.MockDriver.WriteOutputs` | src/mock_driver.cpp:19-34 | the recorded output bytes show the %Q of the image |
| `Scan.MockDriver.SetMockInputBit` | src/mock_driver.cpp:36-45 | sets one input bit, or ignores a reference out of range |
| `Scan.AslcEngine.ReadAndExecute` | src/aslc_engine.cpp:81-91 | the read and logic steps never raise an error of the map on a sound system, and compute one scan |
| `Scan.AslcEngine.RunCycle` | src/aslc_engine.cpp:78-100 | one turn of the loop is one scan, with the outputs handed over and the counter advanced |
| `Scan.AslcEngine.Run` | src/aslc_engine.cpp:73-104 | the loop over any script of events performs exactly a run of the system, and the cycle counter ends at the number of cycles cut to 64 bits |
| `ScanClock.Run` | src/aslc_engine.cpp:76-103 | the loop with absolute deadlines starts cycle n at `Start` |
| `ScanClock.StartClosedForm` | src/aslc_engine.cpp:76-103 | cycle n starts at the maximum over j <= n of t0 + j * period plus all work of cycles j..n-1 |
| `ScanClock.LatenessIsOverrun` | src/aslc_engine.cpp:76-103 | a cycle is never early, and is late by the overrun of the worst stretch before it, no more |
| `ScanClock.OnScheduleIff` | src/aslc_engine.cpp:76-103 | every cycle starts exactly on its period if and only if no cycle works longer than one |
| `Logger.StoreIsPush` | src/ring_buffer_logger.cpp:77-90 | storing at the head of the circular array and stepping on is a push on a bounded queue that forgets its oldest entry |
| `Logger.RingBufferLogger.Log` | src/ring_buffer_logger.cpp:74-92 | the entry, cut to 160 characters, is pushed, and the drop is counted exactly when the buffer was full |
| `Logger.RingBufferLogger.Drain` | src/ring_buffer_logger.cpp:105-118 | the locked part of a flush takes out all pending entries, oldest first |
| `FlushSteps.EveryEntryAccounted` | src/ring_buffer_logger.cpp:60-131 | in every interleaving, written entries, the batch in transit and the ring are exactly the last 1024 entries of each stretch between drains, in order, one thread at most holds a batch, and the dropped counter is the number missing |
| `FlushSteps.StopLosesNothing` | src/ring_buffer_logger.cpp:60-72 | once stopped, nothing is in transit: what was not dropped is in the file or was logged after the last flush |
| `FlushSteps.SurvivorsInOrder` | src/ring_buffer_logger.cpp:105-118 | the surviving entries are logged entries at increasing positions |
| `FlushSteps.DroppedNothingIff` | src/ring_buffer_logger.cpp:83-90 | nothing is dropped if and only if no more than 1024 entries come between two drains |
| `FlushSteps.LoggingNeverWaits` | src/ring_buffer_logger.cpp:74-92 | logging is possible in every state and puts the call's level, time and first 160 characters at the end of the ring |
| `FlushSteps.StartedWrites` | src/ring_buffer_logger.cpp:52-58 | the logger can be started when stopped, and a started one can write all that is pending |
| `FlushSteps.StopFinishes` | src/ring_buffer_logger.cpp:60-72 | from every reachable state `stop` can run to its end, and then what was not dropped is written |
| `LogRotation.BatchLength` | src/ring_buffer_logger.cpp:127-130 | a batch of n entries is at most 194 n characters of text |
| `LogRotation.FlushedBatchBound` | src/ring_buffer_logger.cpp:122-131 | a flushed batch is at most 1024 * 194 characters |
| `LogRotation.LogFiles.RotateIfNeeded` | src/ring_buffer_logger.cpp:136-151 | the loop of renames moves each file to its next suffix, suffix by suffix, whichever files exist, for every configured limit |
| `LogRotation.LogFiles.WriteEntries` | src/ring_buffer_logger.cpp:122-134 | appends the lines of the batch and rotates exactly when the live file has reached the limit |
| `LogRotation.WrittenShowsFamily` | src/ring_buffer_logger.cpp:136-151 | on a contiguous family that is: the live file becomes the newest backup and the oldest drops out when the family is full |
| `LogRotation.RetentionAndBound` | src/ring_buffer_logger.cpp:122-151 | over any run: at most max(1, max_backups) backups, contents exactly all batches but the oldest ones, whole and in order, none lost before every backup exists with at least the size limit, and every size bounded |
| `LogRotation.FilesShowFamily` | src/ring_buffer_logger.cpp:122-151 | from a clean directory the files are always the contiguous family .1 .. .m |
| `LogReader.LineReadsBack` | src/ring_buffer_logger.cpp:127-130 | a line carries the time, the level and the message of its entry: a reader that knows the shape of a line gets all three back |
| `LogReader.LinesReadBack` | src/ring_buffer_logger.cpp:127-130 | reading back what is written for any entries without line breaks gives exactly these entries |
| `LoggedFiles.FilesHoldSurvivors` | src/ring_buffer_logger.cpp:60-151 | from call to file: in every interleaving of logging, draining, writing and stopping, the entries written are a prefix of the survivors, the files hold the lines of all of them but the oldest and read back as those entries, every backup is below max_file_bytes + 1024 * 194 characters and the live file below max_file_bytes |
| `LoggedFiles.StoppedFilesHoldAll` | src/ring_buffer_logger.cpp:60-72 | once the logger has stopped with an empty ring, the files hold the newest survivors |
| `Frames.BigEndianRoundTrip` | src/telemetry_server.cpp:203-209 | lengths written most significant byte first read back |
| `Frames.TextRoundTrip` | src/telemetry_server.cpp:194-213 | a text frame decodes to its payload and the bytes after it are untouched |
| `Frames.ClientRoundTrip` | src/telemetry_server.cpp:238-285 | the decoder undoes every mask whose bytes are payload byte i under key byte i modulo 4, for every opcode and length form |
| `Frames.MaskUndone` | src/telemetry_server.cpp:281-285 | unmasking such bytes gives the payload |
| `Frames.ServerFrameHeaders` | src/telemetry_server.cpp:195-219 | what the server sends is final, has no reserved bits and no mask, and carries its opcode |
| `Frames.StandardFrames` | src/telemetry_server.cpp:194-221 | the unmasked text message and the ping of section 5.7 of RFC 6455, byte by byte |
| `Frames.StandardMaskedFrame` | src/telemetry_server.cpp:252-285 | the masked messages of that section decode to "Hello" |
| `Frames.StandardLengths` | src/telemetry_server.cpp:198-210 | and its two longer length forms |
| `Frames.StreamRoundTrip` | src/telemetry_server.cpp:194-285 | any stream of text frames decodes to its payloads in order and consumes every byte |
| `Frames.TextFrameIsShortest` | src/telemetry_server.cpp:198-210 | no frame that decodes to this payload has fewer bytes |
| `Frames.ControlRoundTripIff` | src/telemetry_server.cpp:215-221 | a control frame decodes to its payload if and only if the payload has at most 125 bytes |
| `FrameIO.SendAll` | src/telemetry_server.cpp:182-192 | however the socket cuts the sends, all bytes go out in order, or a part of them after a failure |
| `FrameIO.SendTextFrame` | src/telemetry_server.cpp:194-213 | the bytes sent are the text frame of the payload |
| `FrameIO.SendControlFrame` | src/telemetry_server.cpp:215-221 | the bytes sent are the control frame, unless a send failed |
| `FrameIO.ReceivePayload` | src/telemetry_server.cpp:271-280 | however the reads are cut, the payload is the next bytes of the stream, or the connection closed |
| `FrameIO.PollClientFrame` | src/telemetry_server.cpp:238-296 | reads exactly one frame, closes on close or end of stream, and answers close with close and ping with pong |
| `FrameIO.PingIsAnswered` | src/telemetry_server.cpp:287-294 | a masked ping of up to 125 bytes is answered by a pong that carries it back |
| `FrameIO.OtherReplies` | src/telemetry_server.cpp:287-296 | a close is answered by the bytes 88 00, and nothing but close and ping is answered |
| `FrameIO.Unmask` | src/telemetry_server.cpp:281-285 | the loop takes the mask off in place |
| `Base64.Encode` | src/telemetry_server.cpp:116-144 | the loop writes the groups of the encoding with the padded tail |
| `Base64.EncodedIffDecoded` | src/telemetry_server.cpp:116-144 | its texts are exactly those the decoder of RFC 4648 accepts, each for its own bytes, with 4 * ceil(n/3) characters |
| `Base64.EncodedInjective` | src/telemetry_server.cpp:116-144 | different bytes have different texts |
| `Base64.AlphabetTable` | src/telemetry_server.cpp:117-118 | the alphabet is table 1 of RFC 4648, letter by letter |
| `Base64.FoobarEncoded` | src/telemetry_server.cpp:116-144 | the test vector "foobar" of section 10 of RFC 4648 |
| `HashPadding.PadMessage` | src/config_archive.cpp:80-88 | the loop of zeros and the loop of length bytes give the padding of the message |
| `HashPadding.FewestZeros` | src/telemetry_server.cpp:51-54 | no shorter run of zeros aligns the message to whole blocks |
| `HashPadding.PadInjective` | src/config_archive.cpp:80-88 | padding is injective on messages below 2^61 bytes |
| `HashFacts.PaddingShape` | src/config_archive.cpp:80-88 | message, one set bit, zeros, and the length in bits as a big-endian number |
| `HashFacts.BlockWordsInOrder` | src/config_archive.cpp:38-41 | word i of a block is the big-endian number of its bytes 4 i to 4 i + 3 |
| `Sha256.ProcessBlock` | src/config_archive.cpp:36-74 | the in-place schedule and the shifted a..h loop compute the recursive definition of section 6.2.2 of FIPS 180-4, in the standard's own order of terms, for any addition that may be reordered |
| `Sha256.WordsReorder` | src/config_archive.cpp:45 | addition modulo 2^32 may be: the code adds the terms of the schedule and the new state from the other end |
| `Sha256.Hash` | src/config_archive.cpp:76-91 | the digest is the compression folded over the blocks of the padding |
| `Sha256.DigestConcat` | src/config_archive.cpp:89-91 | hashing whole blocks in two parts is hashing their concatenation |
| `HashFacts.InitialState` | src/config_archive.cpp:77-78 | the initial words are the square roots of the first eight primes |
| `HashFacts.Constants0` | src/config_archive.cpp:22-30 | the first four round constants are cube roots of primes; fifteen lemmas like it state the others |
| `HashFacts.TruthTables256` | src/config_archive.cpp:51-56 | choice and majority have their truth tables |
| `HashFacts.ExampleSchedules` | src/config_archive.cpp:42-46 | the first computed words of the schedule for the long example message, for both hashes |
| `HashFacts.ExampleRounds256` | src/config_archive.cpp:49-66 | the first rounds of the worked example "abc" of FIPS 180-2, appendix B.1 |
| `HashFacts.FeedForward` | src/config_archive.cpp:67-74 | word i of the state is working variable i at first, and variable i is added to it in the end |
| `Sha1.ProcessBlock` | src/telemetry_server.cpp:63-103 | the same for SHA-1, against section 6.1 of RFC 3174 |
| `Sha1.Hash` | src/telemetry_server.cpp:46-103 | the digest is that compression folded over the blocks of the padding |
| `HashFacts.InitialBytes` | src/telemetry_server.cpp:47 | the initial words, byte by byte |
| `HashFacts.RoundConstants` | src/telemetry_server.cpp:81-93 | the round constants are square roots of 2, 3, 5 and 10 |
| `HashFacts.TruthTables1` | src/telemetry_server.cpp:79-94 | choice, parity, majority and parity by round |
| `HashFacts.ExampleRounds1` | src/telemetry_server.cpp:77-103 | the first rounds of the worked example "abc" of FIPS 180-2, appendix A.1 |
| `HashFacts.FeedForward1` | src/telemetry_server.cpp:98-102 | each working variable is added to its own word of the state |
| `Archive.SharedTextIff` | src/config_archive.cpp:187-191 | for payloads dumped without line breaks and times of one length, two commits hash the same text (and then share an id) if and only if payload and time are the same and author and message are, or one author runs over a line break into the other's message |
| `Archive.CommitKeepsConsistent` | src/config_archive.cpp:165-235 | whatever fails, ids stay distinct, each parent is the commit before, older rows stay, and success means a new HEAD with its snapshot |
| `Archive.HistoryIsParentWalk` | src/config_archive.cpp:257-284 | rows by descending row id are the parent walk from HEAD, cut at the limit; a negative limit means all |
| `Archive.ConfigArchive.CommitPayload` | src/config_archive.cpp:165-235 | on success the new row names the old HEAD as its parent and comes with its snapshot; a refused row changes nothing, a refused snapshot leaves the row without one; it succeeds if and only if the id is new and the storage refuses neither, and the history stays linear |
| `Archive.ConfigArchive.Record` | src/config_archive.cpp:237-255 | appends a deployment row unless the storage refuses it, and changes nothing else |
| `Archive.ConfigArchive.GetCommitHistory` | src/config_archive.cpp:257-284 | returns the parent walk from HEAD |
| `Deploy.DeployInvariants` | src/web_server.cpp:63-123 | in every interleaving of requests and direct reloads, with any failures and on top of any earlier rows: new payloads were accepted and installed, new deployments name existing commits, new deployments <= new commits <= swaps, with equality once every request is settled without failure |
| `DeployRows.RequestsAreArrivals` | src/web_server.cpp:63-81 | document, author and message of a request stay what they were when it arrived |
| `DeployRows.RowsTellOfRequests` | src/web_server.cpp:76-81 | in every interleaving each new commit row is one request's, with its author (or "anonymous") and message, its snapshot is that request's document, and the new deployments are the requests answered 200 |
| `Deploy.NothingBlocks` | src/web_server.cpp:63-123 | no request waits for another: each has its next step until it is answered |
| `Deploy.HeadRunsIff` | src/web_server.cpp:63-81 | in every such interleaving, HEAD is the running program if and only if the last row inserted came with its snapshot and holds the document of the last swap, which may also be a direct reload or the program of the start |
| `Deploy.DistinctHeadRunsIff` | src/web_server.cpp:63-81 | so among different documents the request that swapped last must also be the one whose row was inserted last, in full |
| `Deploy.HeadIsRunning` | src/web_server.cpp:63-81 | deploys that do not overlap and are archived in full, with no direct reload, leave HEAD at the running program |
| `Deploy.OverlapDecidesNothing` | src/web_server.cpp:63-81 | two overlapping deploys that both answer 200 may leave HEAD wrong or right, by the order of their commits alone |
| `ExampleProgram.DocumentParses` | examples/logic_example.json:1-30 | the example document parses to the three rules it spells |
| `ExampleProgram.UnnamedRule` | src/logic_interpreter.cpp:188-193 | a rule without an identifier is called rules[n] by its place |
| `ExampleProgram.OtherWordsParse` | src/logic_interpreter.cpp:73-171 | the other words of the schema, and the references that are refused |
| `ExampleProgram.AreasEnd` | include/openaslc/memory_map.hpp:22-50 | the last byte of each area is accepted and the next is not |
| `ExampleProgram.RulesLayered` | src/logic_interpreter.cpp:291-296 | its rules read inputs alone, so a scan solves their equations at once |
| `ExampleProgram.ExampleFollowsInputs` | src/logic_interpreter.cpp:210-296 | from text to outputs: after every scan %Q0.0 is %I0.0, %Q0.1 is %I0.0 and %I0.1, and %Q0.2 is on exactly when %I0.2 was on in each of the last five scans |

## Left out

- FrameIO.Socket.RecvHeader: the two, two or eight, and four header bytes are assumed to arrive in one read; the code does not retry a short one.
- FrameIO.PollClientFrame: a payload length too large to allocate is not modelled, and neither is `select`.
- Logger.RingBufferLogger.Log: the dropped counter is unbounded, not 64 bits wide; the clock is a parameter.
- LogRotation.LogFiles.RotateIfNeeded: renames are assumed to succeed; file system errors are not modelled.
- ProcessImage.MemoryMap.WriteBit: the access that the bounds test wrongly lets through is undefined behaviour of the source; the model names the case and says nothing of the memory after it. The same goes for ProcessImage.MemoryMap.WriteBytes.
- Interpreter.LogicNode.Signal: nodes and rules are built by the parser alone, so the last 64-bit offset is not considered for them.
- Scan.AslcEngine.Run: one mock driver, as in `src/main.cpp`, not a list of drivers, and events fall between scans; `HotSwap` has the finer interleavings.
- HotSwap.EveryInterleavingIsSerial: a rule's read and write are one step, because no other thread writes the image; memory ordering is not modelled.
- FlushSteps.EveryEntryAccounted: one thread starts and stops the logger; two threads in `stop` at once are not modelled.
- Deploy.DeployInvariants: SQLite is append-only tables with a primary key, commit ids are given per commit, and payload text is the document itself; one process at a time has the archive file open.
- Archive.ConfigArchive.CommitPayload: `dump` and the hash are arbitrary functions, time is a parameter.
- ScanClock.Run: sleeping ends exactly at the deadline; real-time scheduling is not modelled.
- The rendering of hash digests as hexadecimal or bytes, and timestamps beyond their 24 characters.
- Texts of parse errors, HTTP routes and responses, the WebSocket handshake header, sockets and threads as such.
- `read_bytes`, `write_byte`, `copy_snapshot_to`, `toggle_mock_input_bit` and `from_file`, which add nothing to the operations above.
- Cryptographic strength of the hashes, the web pages, the scripts and the planned features under `Concepts/`.
