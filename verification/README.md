# A verified model of simbus

simbus connects bus simulators that run in lock step: a server collects what every device
drives, resolves the shared wires, arbitrates, advances time and writes a compressed trace;
client libraries speak PCI, PCIe and AXI4. This project models the parts of it that do real
work and proves what they are for. `dafny verify dfyconfig.toml` checks everything.

**The LXT2 trace writer** (`server/lxt2_write.c`). `SplayTree` relinks tree nodes in place;
`Dictionary` threads an insertion-ordered chain through them. `ChangeCodec` is the meaning of
a change code and `ChangeEncoder` the loops that choose one. `TraceFormat` is the byte layout
with a reader for it, `TraceReader` replays masks and codes into frames. `TraceRecorder` is
the writer without compression; `TraceInvariant` and `TraceSteps` say what every step of the
real writer keeps in relation to it, `TraceWriter` is the writer itself, and `TraceRun` the
theorem about whole runs. `TraceHistory` says from the calls alone which value every facility
has at every time. `Facilities` orders, partitions and numbers the facilities.

What `TraceRun.Write` proves: for every configuration and every list of calls, the file that
is written reads back; the frames a reader decodes are the recorded ones **if and only if**
every code that overwrites another at the same time position still decodes (`Overwrites`, a
guard on three values), and otherwise are right up to exactly the first frame where one does
not; every section that starts with a checkpoint decodes alone; and if times never go back
and no facility changes twice within a time step, decoding gives every facility's value at
every time. That last condition is needed: a one-bit facility that pulses within one time step
is decoded wrongly at that time (`PulseLost`, `PulseDecodedWrong`), because the code kept at
line 1987 inverts the value before the pulse instead of the one within it.

**PCI arbitration and wires** (`PciArbiter`, `Wires`), **random numbers** (`Mersenne`),
**simulated time** (`SimTime`) and the **lock-step barrier** (`LockStep`) are the server's
state machines; safety is proved for every reachable state and every run. **PCIe TLPs**
(`TlpStream`, `TlpQueue`, `TlpPackets`, `TlpEndpoint`), **PCI-X write bursts** (`PciXBurst`)
and **AXI4** (`Axi4`) are the client libraries.

Conventions. Output is appended to sequences, sockets become lists of network events, and
clocks and remote parties become scripts: a list of edges, each saying what the other side
does, after which it is always ready and silent. Every result holds for every script. The
arbiter's results hold for all random numbers; `PciArbiter.Simulate` runs it with its own
generator. Where the code and its comments disagree the model follows
the code.

Results that differ from what one would expect of the code, each with the exact condition
under which it does what it should:

- A second change of a facility within a time step decodes correctly if and only if its code
  means the same against the value before the first (`ChangeDecodesIff`, `PulseLost`). If no
  two frames have the same time, a file tells the whole history if and only if that holds
  throughout (`FileTellsIff`).
- `<` on simulated times is the exact order if and only if the coarser mantissa does not wrap
  to the wrong side of the other (`LessExactIff`, `LessWraps`). `+=` is exact if and only if
  the sum fits, and a mantissa within 5 of 2^64 rounds to 0 (`Clock.Add`, `UnitsValue`).
- The byte enables of a TLP write select the requested bytes if and only if a one-word write
  starts at byte 0 and a longer one reaches its last word (`EnablesExact`, `ShortWriteLoses`).
- An AXI4 response arrives unchanged if and only if it is OKAY or EXOKAY: `resp&2` is stored
  as a bit value, which is X (`ResponseArrives`). A 16-bit write never reaches the device, and
  its SLVERR is lost the same way (`Master.Write`).

## Model

| member | source | states |
|---|---|---|
| `SplayTree.Splay` | server/lxt2_write.c:109-150 | the top-down splay ends, keeps the search order and exactly the same nodes with their keys and values, and brings the key to the root if it is there; otherwise everything left of the root is below the key and everything right above it |
| `SplayTree.Insert` | server/lxt2_write.c:153-186 | inserting gives the old nodes plus one new one, at the root, in search order; a key that is there already adds nothing |
| `SplayTree.DescendLeft` | server/lxt2_write.c:117-129 | one zig-zig or zig step to the left moves a strictly smaller middle tree between the two side trees, losing no node |
| `SplayTree.DescendRight` | server/lxt2_write.c:130-142 | the same to the right |
| `SplayTree.Assemble` | server/lxt2_write.c:144-149 | the final relinking joins the side trees under the root in search order |
| `Dictionaries.Dictionary.Find` | server/lxt2_write.c:1236-1239 | a look-up finds a key exactly when it was interned, and its `val` is its position in insertion order |
| `Dictionaries.Dictionary.Intern` | server/lxt2_write.c:1152-1172 | the dictionary's contents grow by the key, at the end, exactly if it is new; the index returned is its position |
| `Dictionaries.Dictionary.Add` | server/lxt2_write.c:1947-1974 | a new key is linked behind the last one of the chain and becomes a node of the tree |
| `Dictionaries.Dictionary.Drain` | server/lxt2_write.c:1329-1375 | walking the chain yields all keys in insertion order with `val` equal to position, so the internal-error exits cannot be reached; the dictionary is then empty |
| `ChangeEncoder.TruncateBitvec` | server/lxt2_write.c:31-55 | the suffix kept is the shortest one that left-fills back to the whole value |
| `ChangeEncoder.ChooseCode` | server/lxt2_write.c:1844-1942 | the loops over characters choose exactly the specified code |
| `ChangeEncoder.ConstantCode` | server/lxt2_write.c:1844-1868 | a value gets a constant code exactly if it repeats one of 0, 1, x, z |
| `ChangeEncoder.ArithmeticCode` | server/lxt2_write.c:1906-1940 | the integers built bit by bit select the add and subtract codes as specified |
| `ChangeCodec.ChoiceDecodes` | server/lxt2_write.c:1837-1942 | whichever code is chosen, and however the mask shift at line 1924 is read, applying it to the old value gives the new one |
| `ChangeCodec.ChangeDecodes` | server/lxt2_write.c:1837-1975 | the same with dictionary entries: every single change decodes |
| `ChangeCodec.ChangeDecodesIff` | server/lxt2_write.c:1977-1990 | a code chosen against one value and applied to another decodes right if and only if `Overwrites` holds |
| `ChangeCodec.SectionStartDecodes` | server/lxt2_write.c:1859-1870 | at the first position of a section codes do not depend on the old value |
| `ChangeCodec.NormaliseMeans` | server/lxt2_write.c:1799-1829 | what is recorded for a caller's string, character by character: its first characters, or all of it behind zeros or copies of its first character, in lower case |
| `ChangeCodec.FixedUpUnique` | server/lxt2_write.c:1799-1829 | only one string meets that description |
| `ChangeCodec.NormaliseKeepsNumber` | server/lxt2_write.c:1799-1829 | a binary number brought to a length that holds it is the same number |
| `ChangeCodec.CodeTable` | server/lxt2_write.h:86-112 | what the codes 0 to 6, 15 and 16 do, by number |
| `ChangeCodec.CodeTableSums` | server/lxt2_write.h:86-112 | codes 7 to 10 add 1 to 4 and codes 11 to 14 subtract 1 to 4, modulo two to the width |
| `ChangeCodec.CodeTableEntries` | server/lxt2_write.h:86-112 | codes from 18 on are dictionary entries, filled on the left |
| `ChangeCodec.ChoiceFirst` | server/lxt2_write.c:1844-1880 | at a section's start only constants and dictionary entries are written; elsewhere inversion comes first |
| `ChangeCodec.ChoiceShifts` | server/lxt2_write.c:1882-1904 | then shifts, the left one before the right one |
| `ChangeCodec.ChoiceSums` | server/lxt2_write.c:1906-1940 | then sums: which difference gets which code |
| `ChangeCodec.ChoiceLast` | server/lxt2_write.c:1844-1868 | constants and the dictionary last |
| `TraceFormat.ReadSectionBack` | server/lxt2_write.c:1222-1379 | reading a section's bytes gives back its times, masks, codes and both dictionaries, if its three 32-bit counts have not wrapped |
| `TraceFormat.ReadGranuleBack` | server/lxt2_write.c:1222-1271 | reading a granule's bytes gives the granule back and stops exactly at its end |
| `TraceFormat.NumRoundTrip` | server/lxt2_write.c:377-442 | a number written in w bytes, most significant first, reads back if it fits |
| `TraceFormat.NumBytesAt` | server/lxt2_write.c:377-442 | which byte of a number is written where |
| `TraceFormat.SmallSection` | server/lxt2_write.c:1222-1379 | the bytes of one section, spelled out |
| `TraceFormat.ReadStringsBack` | server/lxt2_write.c:1332-1349 | NUL-terminated dictionary strings read back |
| `TraceReader.CheckpointFrames` | server/lxt2_write.c:1492-1530 | a section that starts with a checkpoint gives the same frames whatever came before it |
| `TraceReader.FramesMore` | server/lxt2_write.c:1152-1172 | dictionaries that grow later do not change the meaning of granules already written |
| `TraceReader.ReplayOrder` | server/lxt2_write.c:1977-1988 | bit p of a mask is position p of the granule and takes the next code |
| `TraceInvariant.PutInRange` | server/lxt2_write.c:1977-1988 | storing a code never runs over the 64 entries of `chg`, and only ever replaces a code of the current time |
| `TraceInvariant.ChangeCount` | server/lxt2_write.c:910-923 | `chgpos` is the number of bits set in `msk`, none of them above `timepos` |
| `TraceInvariant.PutDecodes` | server/lxt2_write.c:1977-1990 | after storing a code the reader's value at the current position is what that code makes of the value before |
| `TraceInvariant.PutReplay` | server/lxt2_write.c:1977-1990 | and its values at earlier positions are unchanged |
| `TraceInvariant.ChangeKeeps` | server/lxt2_write.c:1831-1990 | recording a change keeps the whole invariant |
| `TraceInvariant.SealKeeps` | server/lxt2_write.c:1453-1465 | moving to the next position keeps it |
| `TraceInvariant.FlushKeeps` | server/lxt2_write.c:1145-1296 | writing out a granule keeps it |
| `TraceInvariant.FinishKeeps` | server/lxt2_write.c:1307-1433 | finishing a section keeps it |
| `TraceInvariant.DictGrows` | server/lxt2_write.c:1947-1974 | a new dictionary entry keeps it |
| `TraceInvariant.AddKeeps` | server/lxt2_write.c:905-923 | a new symbol, whose initial value is already a change, keeps it |
| `TraceInvariant.PositionSeen` | server/lxt2_write.c:1977-1988 | the reader sees the recorded values at a position if and only if each overwriting code still decodes |
| `TraceSteps.CodesFit` | server/lxt2_write.c:1253-1271 | every change code fits the byte width chosen for its granule, and each list has one code per mask bit |
| `TraceSteps.WidthEnough` | server/lxt2_write.c:1174-1182 | every index below the number of entries fits the width chosen from that number |
| `TraceSteps.ShippedKeeps` | server/lxt2_write.c:1145-1296 | writing a granule as the code does it keeps invariant and bytes in agreement |
| `TraceSteps.EndedKeeps` | server/lxt2_write.c:1307-1433 | so does finishing a section |
| `TraceWriter.FixValue` | server/lxt2_write.c:1799-1829 | the caller's string, brought to length and lower case by the loops, is as `NormaliseMeans` says, in terms of the string alone |
| `TraceWriter.Trace.AddSymbol` | server/lxt2_write.c:876-934 | adding a bit symbol of some width keeps the writer's invariant and follows the recorder; it is refused once values are written |
| `TraceWriter.Trace.SetTime` | server/lxt2_write.c:1443-1537 | setting the time, with all flushes and bursts it causes, keeps the invariant and follows the recorder |
| `TraceWriter.Trace.Emit` | server/lxt2_write.c:1773-1996 | so does emitting a value for a facility, which then has the caller's string brought to length and lower case |
| `TraceWriter.Trace.Close` | server/lxt2_write.c:2136-2144 | so does closing a trace that has a header or was never used |
| `TraceWriter.Trace.RecordChange` | server/lxt2_write.c:1831-1990 | one change: redundant ones leave everything as it is, others add one code and at most one dictionary entry |
| `TraceWriter.Trace.FlushGranule` | server/lxt2_write.c:1068-1440 | a flush writes exactly the bytes of the granule, empties masks and change lists, and finishes full sections |
| `TraceWriter.Trace.Burst` | server/lxt2_write.c:1492-1530 | re-emitting all values at a section's start makes it a checkpoint and changes no value |
| `TraceWriter.Trace.EmitMaps` | server/lxt2_write.c:1233-1250 | each mask is written as the index under which it was interned; the look-up cannot fail |
| `TraceWriter.Trace.EmitCodes` | server/lxt2_write.c:1253-1271 | exactly the codes of the granule are written and the lists emptied |
| `TraceRun.Write` | server/lxt2_write.c:1068-1537 | for every run the sections' contents read back; they decode to the recorded frames if and only if that is possible, with the right times and up to exactly the first frame that is lost in any case, each checkpointed section on its own; quiet runs decode to the facilities' history |
| `TraceRun.ClosedFaithful` | server/lxt2_write.c:2136-2144 | the same for any state that satisfies the invariant between sections |
| `TraceRun.FileTellsUntil` | server/lxt2_write.c:1977-1988 | decoding a file gives the right values at every time before the first lost frame, and wrong ones at the times where that frame is the last one |
| `TraceRun.FileTellsIff` | server/lxt2_write.c:1977-1988 | a file tells the whole history if no frame is lost, and only then if no two frames have the same time |
| `TraceRun.DecodesLastChange` | server/lxt2_write.c:1773-1834 | so a reader who is told the history decodes, for every facility and time, what the last change up to then said |
| `TraceRun.PulseDecodedWrong` | server/lxt2_write.c:1977-1988 | from the file of a one-bit pulse within one time step a reader gets the right value before it and a wrong one at it |
| `TraceHistory.FramesTellHistory` | server/lxt2_write.c:1443-1537 | looking up any time among the frames of a run with nondecreasing times gives the values set by the calls made up to that time |
| `TraceHistory.LastChangeCounts` | server/lxt2_write.c:1773-1834 | the value at a time is what the last change up to that time said |
| `TraceHistory.NoChangeNoValue` | server/lxt2_write.c:905-923 | and the initial value if there was none |
| `TraceHistory.QuietOk` | server/lxt2_write.c:1977-1988 | a run in which no facility changes twice between two time calls, except at the first position of a section, can be decoded |
| `TraceHistory.PulseLost` | server/lxt2_write.c:1977-1988 | the code of such a pulse loses exactly the frame of its time step, the second |
| `Facilities.MergeSort` | server/lxt2_write.c:61-105 | the half-buffer merge sort yields a sorted, stable reordering and touches nothing outside its range |
| `Facilities.Merge` | server/lxt2_write.c:72-95 | the merge loops produce the specified merge; `k < j` means nothing unread is overwritten |
| `Facilities.StablePermutes` | server/lxt2_write.c:57-60 | keeping the order of equal names implies being a permutation |
| `Facilities.MergedStable` | server/lxt2_write.c:78-90 | of equal names those from the left run come first |
| `CStrings.StrLessMeans` | server/lxt2_write.c:78-90 | the name order is decided by the first difference, a string before its extensions |
| `Facilities.Partition` | server/lxt2_write.c:639-657 | real facilities first, aliases last, each in their old order |
| `Facilities.SymbolTable.Add` | server/lxt2_write.c:876-934 | succeeds exactly for new names before the facilities are written |
| `Facilities.SymbolTable.Alias` | server/lxt2_write.c:939-985 | succeeds exactly for a new name and an existing symbol of the same width; the alias stands for a real symbol, never for an alias |
| `Facilities.SymbolTable.Arrange` | server/lxt2_write.c:585-664 | the order is a permutation of all symbols, sorted in both parts; the number written for an alias is below the number of real facilities and is that of the facility it stands for |
| `Wires.ResolveMeans` | server/PciProtocol.cc:575-588 | the blend of any number of drivers floats, has a level or is unknown exactly as their multiset says |
| `Wires.ResolveAnyOrder` | server/PciProtocol.cc:599-660 | it does not depend on the order of the devices |
| `Wires.FeedbackRestores` | server/PciProtocol.cc:590-597 | adding a device's drive to what it is sent gives the wire if and only if that drive is part of it |
| `Wires.DeviceSeesWire` | server/PciProtocol.cc:662-704 | and it always is, for every device |
| `Wires.SentMeans` | server/PciProtocol.cc:590-597 | a device is sent a floating wire exactly if nobody drives it differently, or it drives X itself |
| `Wires.SentWhat` | server/PciProtocol.cc:590-597 | otherwise it is sent the wire itself, X if somebody drives against its level |
| `Wires.BlendSignals` | server/PciProtocol.cc:599-704 | the loops over devices and bits compute that for every bit |
| `PciArbiter.StepSafe` | server/PciProtocol.cc:325-479 | every step keeps: GNT# low for the granted device only, only attached slots request |
| `PciArbiter.OneGrant` | server/PciProtocol.cc:133-152 | so it holds in every reachable state |
| `PciArbiter.GrantFound` | server/PciProtocol.cc:438-468 | the search ends at a requesting slot, its device exists, and it is not the old grantee |
| `PciArbiter.NewGrantFirst` | server/PciProtocol.cc:438-468 | the grant goes to the nearest requesting slot after the old one, or after the random one if nobody had it |
| `PciArbiter.MasterTookBus` | server/PciProtocol.cc:351-403 | in every run whoever is master took the bus at a rising edge at which it, and it alone, saw GNT# low and the master before it drove neither FRAME# nor IRDY# low, or it itself drove FRAME# low if there was none |
| `PciArbiter.MasterChanges` | server/PciProtocol.cc:351-403 | a device becomes master exactly under these conditions |
| `PciArbiter.MasterHolds` | server/PciProtocol.cc:351-403 | in every run a master keeps the bus as long as it drives FRAME# or IRDY# low |
| `PciArbiter.MasterDropped` | server/PciProtocol.cc:386-402 | a master is dropped exactly at a rising edge where nobody is granted and it drives neither FRAME# nor IRDY# low |
| `PciArbiter.MasterReleased` | server/PciProtocol.cc:351-403 | in every run a master without grant that drives neither line is gone after four steps |
| `PciArbiter.GrantRecalled` | server/PciProtocol.cc:416-431 | a grant is withdrawn without a successor exactly if nobody requests, there is a master, grants are not parked and the random number is a multiple of the linger count |
| `PciArbiter.GrantStays` | server/PciProtocol.cc:405-436 | the grant changes only one step after a rising edge and never while its holder requests |
| `PciArbiter.GrantApproaches` | server/PciProtocol.cc:405-479 | while a slot requests, every move of the grant brings it strictly closer |
| `PciArbiter.MovesBounded` | server/PciProtocol.cc:405-479 | moves and remaining distance together never exceed the starting distance |
| `PciArbiter.NoStarvation` | server/PciProtocol.cc:405-479 | in every run a slot that keeps requesting is granted after at most 15 moves of the grant, or 16 if nobody held it |
| `PciArbiter.DeviceNotStarved` | server/PciProtocol.cc:405-479 | with one device per slot, a device that drives REQ# low all along and whose request has been sampled is granted within that many moves |
| `PciArbiter.RequestSeen` | server/PciProtocol.cc:325-349 | within four steps a device that drives REQ# low has its request sampled, and it stays so |
| `PciArbiter.SampledOwn` | server/PciProtocol.cc:331-349 | with one device per slot the sampled request is that device's REQ#, high if it drives none |
| `PciArbiter.SampledLast` | server/PciProtocol.cc:331-349 | of several devices on a slot the last one that drives REQ# counts |
| `PciArbiter.GrantMoves` | server/PciProtocol.cc:435-479 | the grant does move at the next arbitration unless its holder still requests |
| `PciArbiter.Arbiter.Step` | server/PciProtocol.cc:238-290 | the arbiter with its loops is the specified state machine |
| `PciArbiter.Arbiter.TrackReq` | server/PciProtocol.cc:325-403 | sampling and the change of master are the specified ones |
| `PciArbiter.Arbiter.Arbitrate` | server/PciProtocol.cc:405-479 | so is arbitration |
| `PciArbiter.Simulate` | server/PciProtocol.cc:238-290 | the arbiter with its own generator, from power-up: its runs are runs of the state machine, whose random numbers are the generator's in order |
| `PciArbiter.OnlyWhenDrawn` | server/PciProtocol.cc:416-439 | the random number matters only where one is drawn |
| `PciArbiter.RandomFits` | server/protocol.h:80-83 | every number of the generator is below 2^32, so not negative as a `long` |
| `Mersenne.Generator.Draw` | server/mt19937int.c:82-121 | the i-th number drawn is the tempered element 624+i of the recurrence, and below 2^32 |
| `Mersenne.Generator.Regenerate` | server/mt19937int.c:90-110 | the three in-place loops turn elements b..b+623 into b+624..b+1247 |
| `Mersenne.Generator.Seed` | server/mt19937int.c:65-80 | seeding fills in the first 624 elements |
| `Mersenne.TemperRoundTrip` | server/mt19937int.c:112-116 | tempering has an inverse on 32-bit words |
| `Mersenne.TemperInjective` | server/mt19937int.c:112-116 | so it is one-to-one |
| `Mersenne.TwistBits` | server/mt19937int.c:90-110 | bit by bit, what the recurrence takes from two neighbouring words |
| `Mersenne.ShiftSBits` | server/mt19937int.c:112-116 | bit by bit, the stage of tempering with mask B |
| `Mersenne.ShiftTBits` | server/mt19937int.c:112-116 | and the one with mask C |
| `Mersenne.FirstNumber` | server/mt19937int.c:65-121 | the first number drawn with the default seed 4357 is 3510405877 |
| `Mersenne.SequenceNarrow` | server/mt19937int.c:66-110 | no element ever needs more than 32 bits |
| `SimTime.Clock.Add` | server/simtime.h:58-73 | the sum in the finer unit, modulo 2^64; exact if and only if it fits in 64 bits |
| `SimTime.Less` | server/simtime.h:75-92 | the exact order whenever no mantissa wraps |
| `SimTime.LessExactIff` | server/simtime.h:75-92 | and exactly when else |
| `SimTime.LessWraps` | server/simtime.h:75-92 | a pair of times that it orders wrongly |
| `SimTime.EarlierStrictWeak` | server/simtime.h:75-92 | the exact order is a strict weak order whose ties are equal times |
| `SimTime.UnitsValue` | server/simtime.h:94-109 | stepwise rounding to coarser units, which gives 0 for mantissas within 5 of 2^64, and exact scaling modulo 2^64 to finer ones |
| `SimTime.RoundedError` | server/simtime.h:94-109 | after n steps 10^n times the result misses the mantissa by at least -4(10^n-1)/9 and at most 5(10^n-1)/9 |
| `SimTime.UnitsMonotone` | server/simtime.h:94-109 | a time that is not earlier never has a smaller value, whatever the two exponents and the units asked for |
| `SimTime.RunClock` | server/PciProtocol.cc:283-290 | bus time is the exact sum of the phase lengths |
| `SimTime.ElapsedCycles` | server/PciProtocol.cc:41-53 | which is 30 ns per cycle at 33 MHz and 15 ns at 66 MHz |
| `SimTime.PhaseTimes` | server/PciProtocol.cc:41-53 | and the time at the end of each phase |
| `LockStep.Server.Serve` | server/service.cc:320-466 | whatever messages arrive in whatever batches, every bus is where its messages take it, turn by turn; its trace is lawful, and each of its devices has received exactly its rounds |
| `LockStep.Server.Turn` | server/service.cc:394-466 | a turn adds to the trace of each bus exactly the messages listened to, its initialization if that is due, and a round if all its devices are ready then, the order to finish exactly if one has exited; the rounds are sent in time order; no bus is left waiting with all its devices ready |
| `LockStep.LeavingEndsRun` | server/service.cc:384-466 | from the turn in which a device leaves, whatever else arrives, the only round of its bus is the order to finish, and none follows it |
| `LockStep.RoundComes` | server/client.cc:60-310 | a bus gets its round in the turn in which every device has reported or left, and only then; it is FINISH exactly if a device has left |
| `LockStep.ArrivedFlags` | server/client.cc:60-310 | after a batch a device counts as ready or gone exactly as its own messages say |
| `LockStep.Server.InitializeBuses` | server/service.cc:397-420 | exactly the buses whose devices are all ready, and that have not been before, are initialized |
| `LockStep.Server.ReceiveAll` | server/service.cc:384-392 | exactly the messages of devices that had not exited when the server began to wait take effect, in order |
| `LockStep.Server.RunAll` | server/service.cc:453-466 | exactly the buses in the run list get a round, the others stay as they are |
| `LockStep.InitializedOnce` | server/service.cc:397-420 | a bus is initialized exactly once before each of its rounds |
| `LockStep.EveryoneReports` | server/service.cc:428-449 | between two rounds every device has reported |
| `LockStep.ExitEndsRun` | server/protocol.cc:111-135 | after a device has exited the next round is FINISH, and no round follows |
| `LockStep.FinishNeedsExit` | server/service.cc:437-446 | no bus finishes before a device has exited |
| `LockStep.ReceivedInv` | server/client.cc:157-306 | HELLO, READY, FINISH and end of file keep the invariant |
| `LockStep.RoundInv` | server/protocol.cc:98-190 | so does a round |
| `LockStep.Scan` | server/service.cc:437-446 | the scan that stops at the first device not ready still notices every exit when all are |
| `LockStep.SendRound` | server/protocol.cc:98-190 | every device's flag is cleared and every device gets the same message |
| `LockStep.Server.ReadyBuses` | server/service.cc:422-449 | exactly the initialized buses whose devices are all ready run, each once, earliest first if their times compare exactly |
| `LockStep.TraceTimesOrdered` | server/service.cc:451-462 | the trace times set before the rounds of one turn never go back |
| `TlpStream.StreamRoundTrip` | libsimbus/simbus_pcie_tlp_tlp.c:53-112 | the receiver's reassembly of the beats of any packets gives back those packets, whole and in order |
| `TlpStream.BeatRoundTrip` | libsimbus/simbus_pcie_tlp_tlp.c:340-381 | the byte and bit loops recover the one or two words of a beat |
| `TlpStream.BeatLayout` | libsimbus/simbus_pcie_tlp_tlp.c:57-92 | which wire of a beat carries which bit, with which enable |
| `TlpStream.OnlyLastMarked` | libsimbus/simbus_pcie_tlp_tlp.c:84-87 | TLAST is set on the final beat only; n words take (n+1)/2 beats |
| `TlpStream.ReceiveBeat` | libsimbus/simbus_pcie_tlp_tlp.c:340-381 | the receiver's loops are the specified gathering |
| `TlpQueue.Port.SendTlp` | libsimbus/simbus_pcie_tlp_tlp.c:114-155 | the outermost call returns when all packets queued before and meanwhile are sent, each once, whole, in order; queued are its own packet and then, in order, the replies of exactly the edges it took; an inner call only appends |
| `TlpQueue.Port.SendRaw` | libsimbus/simbus_pcie_tlp_tlp.c:53-112 | for every pattern of readiness the accepted beats are the packet's, none lost or repeated; the replies of the edges it takes are queued in order |
| `TlpQueue.Port.NextPosedge` | libsimbus/simbus_pcie_tlp.c:217-231 | the replies of a clock edge are queued in order and leave the packet under way undisturbed; on an idle port all of them and the replies of the edges their sending takes are queued |
| `TlpQueue.Port.Receive` | libsimbus/simbus_pcie_tlp_tlp.c:299-305 | replies to incoming packets are all queued, behind the packet under way if there is one |
| `TlpQueue.Port.Append` | libsimbus/simbus_pcie_tlp_tlp.c:147-154 | the ring stays a ring with the new cell at its tail |
| `TlpQueue.Port.Remove` | libsimbus/simbus_pcie_tlp_tlp.c:134-145 | the head leaves the ring; no cell leaves twice |
| `TlpQueue.Session` | libsimbus/simbus_pcie_tlp_tlp.c:114-155 | in any session the receiver gets every queued packet once, whole, in order; queued are exactly the caller's own packets and the replies of every edge so far, and the caller's are among them in the order of the calls |
| `TlpPackets.BuildWrite` | libsimbus/simbus_pcie_tlp_write.c:54-130 | the packet is built in the specified format |
| `TlpPackets.WriteRoundTrip` | libsimbus/simbus_pcie_tlp_write.c:54-130 | received, it calls the handler with the same 64-bit address, data and enables |
| `TlpPackets.EnablesExact` | libsimbus/simbus_pcie_tlp_write.c:76-97 | the enables select the requested bytes if and only if off is 0 (or nothing is written) for one word, off+len reaches the last word for more |
| `TlpPackets.EnablesPerByte` | libsimbus/simbus_pcie_tlp_write.c:76-97 | what the enables say about every byte, in all cases |
| `TlpPackets.WriteFormat` | libsimbus/simbus_pcie_tlp_write.c:54-130 | the fields of a write packet, by number |
| `TlpPackets.ReadFormat` | libsimbus/simbus_pcie_tlp_read.c:48-97 | the fields of a read request |
| `TlpPackets.ReplyFormat` | libsimbus/simbus_pcie_tlp_tlp.c:236-284 | the fields of a completion: ids, byte count, low address bits, data |
| `TlpPackets.DispatchTable` | libsimbus/simbus_pcie_tlp_tlp.c:196-290 | what every kind of packet, by its first byte, makes the receiver do |
| `TlpPackets.ShortWriteLoses` | libsimbus/simbus_pcie_tlp_write.c:82-87 | a one-word write that loses a byte |
| `TlpPackets.ReadAnswered` | libsimbus/simbus_pcie_tlp_tlp.c:236-284 | a read request is answered with the handler's data under its tag |
| `TlpPackets.ReadRoundTrip` | libsimbus/simbus_pcie_tlp_read.c:48-145 | the answer lands in the tag's slot with status 0 and yields the handler's data |
| `TlpPackets.SwapInPlace` | libsimbus/simbus_pcie_tlp_tlp.c:26-45 | the in-place loop reverses the bytes of every word and nothing else |
| `TlpPackets.SwapAllTwice` | libsimbus/simbus_pcie_tlp_tlp.c:26-45 | doing it twice gives the words back |
| `TlpPackets.SwapMeans` | libsimbus/simbus_pcie_tlp_tlp.c:26-45 | byte k of a swapped word is byte 3 - k |
| `TlpEndpoint.Endpoint.Complete` | libsimbus/simbus_pcie_tlp_tlp.c:183-305 | every received packet has exactly the specified effect; message codes 0x20+k and 0x24+k assert and deassert line k and no other packet touches the lines; the buffer is empty afterwards |
| `TlpEndpoint.Endpoint.Crank` | libsimbus/simbus_pcie_tlp_tlp.c:157-167 | a word is appended unless the buffer is full |
| `TlpEndpoint.Endpoint.ReceiveTlp` | libsimbus/simbus_pcie_tlp_tlp.c:340-381 | a beat's words go into the buffer, and the last beat of a packet makes it take effect |
| `TlpEndpoint.Endpoint.Receive` | libsimbus/simbus_pcie_tlp_tlp.c:340-381 | the beats of a packet have the effect of the whole packet, once, on interrupt lines as well |
| `TlpEndpoint.Wait` | libsimbus/simbus_pcie_tlp_tlp.c:284-338 | after any packets an interrupt line is asserted exactly if its last message asserted it, or there was none and it was before |
| `TlpEndpoint.Endpoint.Request` | libsimbus/simbus_pcie_tlp.c:254-261 | tags go round modulo 32 |
| `TlpEndpoint.Endpoint.Collect` | libsimbus/simbus_pcie_tlp_read.c:100-144 | the slot is freed; the data is the completion's, bytes reversed, or all ones if its status is not 0 |
| `TlpEndpoint.Read` | libsimbus/simbus_pcie_tlp_read.c:48-145 | a whole read between two endpoints, crossing beat by beat, with any requests and messages reaching the requester while it waits, returns what the responder's handler gave; the request and its answer are sent, both buffers are empty and no completion is left behind |
| `PciXBurst.EnablesExact` | libsimbus/simbus_pci_target.c:545-624 | the enables of every word select exactly the burst's bytes in that word |
| `PciXBurst.BurstWrites` | libsimbus/simbus_pci_target.c:708-804 | after any number of words, each byte of the burst that they reach has been written once and no other byte at all |
| `PciXBurst.BurstCoversExactly` | libsimbus/simbus_pci_target.c:708-804 | a burst that runs to its word count writes each byte of [addr, addr+count) once and no other |
| `PciXBurst.RightByte` | libsimbus/simbus_pci_target.c:770-783 | every byte written comes from its own lane |
| `PciXBurst.BurstBytes` | libsimbus/simbus_pci_target.c:753-786 | the same for a whole burst, by byte address |
| `PciXBurst.Target.MemoryWrite` | libsimbus/simbus_pci_target.c:691-820 | the data of exactly the clock edges where the initiator is ready is written, never more than the word count that follows from address, count and width, fewer only if FRAME# ends the burst early; each byte gets its own byte of the word it belongs to, once, and no other byte is written; what is driven at every edge, ACK64# included |
| `Axi4.Session` | libsimbus/simbus_axi4_slave.c:425-497 | any sequence of aligned accesses calls the device once each with the same address and data, returns what a plain memory would, in 3 clocks per write and 2 per read |
| `Axi4.Master.Write` | libsimbus/simbus_axi4_write.c:88-149 | three clocks, one device call for 8 and 32 bits and none for 16, the response modulo 2, both sides idle |
| `Axi4.Master.Read` | libsimbus/simbus_axi4_read.c:162-206 | two clocks, one device call, the memory's data, both sides idle |
| `Axi4.Slave.Edge` | libsimbus/simbus_axi4_slave.c:425-497 | the slave with its loops is the specified machine, all signals changing together |
| `Axi4.Slave.Reset` | libsimbus/simbus_axi4_slave.c:309-333 | after reset the slave is idle |
| `Axi4.ResponseArrives` | libsimbus/simbus_axi4_slave.c:453-483 | a response arrives unchanged if and only if it is below 2; which value each wire has |
| `Axi4.SecondWriteEdge` | libsimbus/simbus_axi4_slave.c:335-370 | at the second edge the device is called with the address and data the master put on the wires |
| `Axi4.FirstReadEdge` | libsimbus/simbus_axi4_slave.c:472-485 | at the first edge of a read the device is called with the address on the wires |
| `Axi4.BitsRoundTrip` | libsimbus/simbus_axi4_slave.c:270-307 | numbers put on wires bit by bit come off them unchanged |
| `Axi4.WriteLanes` | libsimbus/simbus_axi4_slave.c:345-363 | byte k of a write is on the eight wires of the lane of its address, all other wires are X |
| `Axi4.ReadLanesMean` | libsimbus/simbus_axi4_slave.c:372-424 | the same for the answer to a read |
| `Axi4.StoredByte` | libsimbus/simbus_axi4_slave.c:270-307 | the least significant byte of the data goes to the lowest address |

## Left out

- Sockets, `select`, process start-up, configuration files, gzip and file I/O: replaced by event lists and byte sequences.
- VPI code, Verilog modules, cameras, PNG and examples: bindings and thin wrappers.
- LXT2 doubles, strings, arrays of rows, partial mode, break files, dumpoff/dumpon, bracket stripping, and a flush in the middle of a run.
- The header of an LXT2 file and the size and time fields of a section's header: facility names and geometry are not decoded.
- TraceWriter.Trace: numbers facilities in the order they were added; that the written order is sorted with aliases last is proved separately in `Facilities`. Symbols are values in a sequence.
- TraceWriter.Trace.AddSymbol: takes only a width; names and the refusal of duplicates are `Facilities.SymbolTable.Add`, and kinds of symbols other than bits are not modelled.
- TraceWriter.Trace.Emit: takes the facility itself; finding it through an alias is `Facilities.SymbolTable.Alias`.
- TraceWriter.Trace.Close: a trace on which a time was set but no value ever emitted has no facility header; `TraceRun.Write` reports such a run as `Headless`.
- TraceRun.Write: `TooBig` is reported as soon as a 32-bit counter could wrap at the next flush, so it may be reported for a run that would just fit. Section headers and the sorted order of facilities are not in the bytes read back.
- TraceRun.PulseDecodedWrong: does not say which wrong value is decoded.
- PciArbiter.Next: a linger count of 0 and slot numbers of 16 or more are excluded.
- Interrupt routing and RESET# of the PCI server (`route_interrupts_`, `calculate_reset_n_`) are not modelled.
- LockStep.Server.Turn: how far a protocol advances its time is an input; buses without devices are excluded.
- PCI target reads, configuration cycles, retries, split completions and DAC addresses; PCI-X byte count 0; addresses are unbounded numbers, so a burst across 2^64 is not modelled.
- PciXBurst.Target.MemoryWrite: starts after the attribute phase; the random retry and the delay before DEVSEL# are not modelled.
- TLP messages other than interrupts, and reads issued from inside a callback.
- TlpEndpoint.Read: both ends have handlers installed; the beats are those `TlpQueue` proves to be on the wires, but the two are not run in one method.
- TlpEndpoint.Endpoint.Complete: calls the handlers as pure functions; a handler that sends packets itself is the re-entrant case treated in `TlpQueue`.
- AXI4 64-bit accesses, the write timeout, byte strobes, bursts, and BID/RID.
