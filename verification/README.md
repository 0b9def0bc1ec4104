# The on-board command executive, verified

This project models the on-board software's command executive in Dafny 4.11 and proves what it does
over every run. A telecommand (TC) packet is parsed, gated by mode and routed to a handler; handlers
change fixed-size tables (housekeeping sets, time-based schedule, limit checks, event-actions, memory,
parameters) that later act on their own. `dafny verify dfyconfig.toml` checks everything.

Each C object whose fields are updated in place is a class here, and each of its operations a method
proved equal to a function on values; what the code promises is then proved of those functions, call by
call and over whole runs.

- **Octets and packets.** `Bytes`, `BitString`, `Crc16`, `TcFrame`, `TmFrame`, `SpacePacket`, `TcPacket`,
  `TmPacket`, `PusTm`: the bit-serial CRC as a linear, invertible shift register, so that every burst of at
  most 16 bits is detected (and some of 17 are not); headers that decode to what was encoded. `BitFields` gives
  every header field its bit position.
- **The TM store.** `TmStore` refines a FIFO of 31 packets; `TmStoreSteps` is the same ring with one
  producer and one consumer, access by access in any interleaving.
- **Housekeeping.** `HkModel` is a plain list of sets; `Housekeeping`, with `HkPool`, is the set table with
  pointers into a shared pool that TC(3,3) compacts, proved to refine the list. `HkTicks` is the table over
  many ticks.
- **Schedule, event-actions, limit checks, memory, events, small services.** `Schedule`, `EventAction`,
  `Monitoring`, `MemoryModel`, `Events`, `SmallServices` on values, and `...Service` classes beside them.
- **The executive.** `Executive` is the closed loop on values, `ExecutiveService.Obc` the dispatcher, the two
  release loops and the main loop's two branches over the service objects. `ReportGrammar`, `Dispatcher`,
  `Invariants`, `Safety` and `Release` prove what holds of every call.
- **From octets to effects.** `Uplink` is a telecommand octet by octet, the table of what the simulation routes
  where, and the reports ground gets back. For each telecommand `HkCommands`, `StoredCommands`, `MonitorCommands`,
  `MemoryCommands` and `ShortCommands` say from its octets when it is accepted, with which code it is refused,
  what is in the tables afterwards and what is not touched, and which reports were built, in numbers and octets
  and not in terms of the functions above.
- **Runs.** `MicroSteps` takes a run apart into every feed, release, batch event, control step, check,
  housekeeping round and packet sent, and proves that they add up to the main loop. What is proved over runs
  holds between any two of these steps: `Runs` (the service 1 log, soundness, packets that read back),
  `SafeMode` (no change without an admitted telecommand), `LedgerRuns` over `ScheduleLedger` and `EventRuns`
  over `ActionLedger` (nothing inserted or raised is unaccounted for, by ledgers computed from the steps),
  `PacketRuns` (nor is any packet), `CounterRuns` (packets numbered without gaps), `MonitorRuns` (one event per
  excursion), `HkRuns` (each housekeeping set's own reports), `ModeRuns` (the mode is what mode functions and
  stored trigger events make it). `SimTarget` is the simulation's routing table and whitelist, `SimBoot` the state
  its runs start from.
- **The Mode Manager.** `ModeSteps` is its task as single accesses interleaved with requests and faults,
  `ModeManager` the code.
- **The database.** `Srdb` (parameters, lookups, generated header), `Xtce` (declared types and parameters, and
  what a reference reads), `HkLayout` (containers against header and packets), `Whitelist` (SAFE whitelist
  against the gate).

A rejected TC, a full store, a full queue, a wrapped counter and a packet that does not parse are part of
the model, not preconditions. Integers wrap where the C integers do.

## Findings

- *Names in the generated XTCE.* The header generator looks up a housekeeping parameter in a dictionary, where
  the last of several parameters of one name wins; the XTCE generator takes the first for the bits that follow,
  refers to the upper-cased name, and writes a type of that name once, for the first parameter that needs it.
  Header and XTCE agree on a set if and only if everything declared under a listed name, upper-cased, has the
  header's width, first and last parameter of every listed name but the last are equally wide, and no parameter
  changes a header field by taking its name (`HkLayout.LayoutsAgree`, `HkLayout.Agreeing`). Names that are unique
  up to case and none of the 14 header names suffice (`HkLayout.UniqueNamesAgree`); what is checked is less:
  loading a directory does not look at names (`HkLayout.DuplicateNamesDisagree`), and composing a database
  compares them exactly, so that `temp` of 8 bits and `TEMP` of 32, both with limits, pass and `TEMP` reads 8
  bits (`HkLayout.NamesInTwoCasesDisagree`); an 8-bit `timestamp` passes too (`HkLayout.HeaderNameDisagrees`).
- *The STANDBY counter.* It is not cleared by the tick that times out, and wraps at 32 bits. No stay in
  STANDBY is longer than 300 ticks under any interleaving (`ModeSteps.StandbyStay`). A stay that no request
  and no fault disturbs is of 300 ticks, and not of 299 at most, if and only if the counter before it is
  2^32 - 1 (`ModeSteps.LongStayExact`), and requests for STANDBY drive it there from the start of the Mode
  Manager (`ModeSteps.LongStay`).
- *Insertion order.* The schedule breaks ties by request identifier. An accepted insertion keeps ties in
  insertion order if and only if its identifier exceeds those in the table with its tag
  (`ScheduleLedger.InsertKeepsTies`), and no other operation disturbs that order
  (`ScheduleLedger.OthersKeepTies`). It holds for the first 65535 insertions since boot
  (`ScheduleLedger.FirstInOrder`) and not for the 65536th, by a run from boot (`ScheduleLedger.WrapBreaksTies`).
- *Time steps.* `obsw_obt_advance` moves the clock by the time given, from whatever state, if and only if the
  step is below 65536 ms (`Obt.BoundIsExact`); a longer one acts as its remainder (`Obt.LongStep`).
- *Report counters.* A housekeeping set whose values take 1007 to 1023 octets fits the buffer they are collected in
  but no packet: its report uses a number and builds nothing. A report uses as many numbers as it builds packets if and
  only if its set is not of such a length (`CounterRuns.ReportCounts`). 252 variables of four octets make one
  (`CounterRuns.NumberWithoutPacket`), a TC(3,1) never does, and without such sets at boot the numbers of TM(3,25) follow
  each other over every run (`CounterRuns.RunNumbered`).
- *Documentation.* `include/obsw/pus/s3.h:18` says that sets defined by TC(3,1) persist until reset; TC(3,3)
  deletes them, and the code is followed.

## Model

| member | source | states |
|---|---|---|
| Crc16.Crc16Ccitt | src/ccsds/tc_frame.c:13-32 | the byte-wise loop over a 16-bit word computes the register of the bit-serial definition, for every message |
| Crc16.AbsorbLinear | src/ccsds/tc_frame.c:13-32 | the register is linear: the register of a sum of two messages and two starts is the sum of their registers |
| Crc16.CancelledBy | src/ccsds/tc_frame.c:13-32 | of all patterns of at most 16 bits exactly one brings a register to zero: the shift step is invertible |
| Crc16.Residue | src/ccsds/tc_frame.c:44-75 | the check of the last two octets passes exactly when the register over the whole frame is zero |
| Crc16.BurstDetected | src/ccsds/tc_frame.c:13-62 | an accepted frame of any length is no longer accepted after any change within 16 consecutive bits, error control field included |
| Crc16.SeventeenBitsCanPass | src/ccsds/tc_frame.c:13-32 | 16 is exact: the generator pattern on 17 bits, anywhere, turns accepted frames into accepted frames |
| Crc16.CheckValue | src/ccsds/tc_frame.c:13-32 | the standard check value: the digits 1 to 9 give 0x29B1 |
| TcFrame.Decode | src/ccsds/tc_frame.c:44-86 | accepted exactly when long enough, checked, and of the length its own header says; a CRC error exactly when long enough and not checked; header fields and data of what is accepted |
| TcFrame.BurstRejected | src/ccsds/tc_frame.c:44-86 | an accepted TC frame hit by a burst of at most 16 bits is not accepted |
| TcFrame.DecodeInjective | src/ccsds/tc_frame.c:63-90 | two accepted frames with equal fields, payload and reserved bits are the same octets: no bit is ignored unseen |
| BitFields.TcFrameHeader | src/ccsds/tc_frame.c:63-74 | the decoded fields are the numbers at their bit positions: version, bypass flag, control command flag, reserved bits, spacecraft, virtual channel, length, sequence number |
| BitFields.TcFrameAccepted | src/ccsds/tc_frame.c:44-82 | a frame is accepted if and only if it has eight octets or more, the CRC in the last two, and its length less one in the ten bits from bit 22 |
| TmFrame.Build | src/ccsds/tm_frame.c:45-117 | the whole buffer: header, payload cut to the zone, idle fill, error control field; what lies behind is untouched |
| TmFrame.WriteIdle | src/ccsds/tm_frame.c:27-43 | an idle packet in place, or nothing where fewer than seven octets are free |
| TmFrame.BuiltFrameChecks | src/ccsds/tm_frame.c:104-117 | a frame built with its error control field has residue zero and passes the check, whatever its length and content |
| TmFrame.UnusedSpaceIsOnePacket | src/ccsds/tm_frame.c:27-43 | unused space of seven octets or more parses as one idle space packet that fills it exactly |
| TmFrame.DamagedFrameFails | src/ccsds/tm_frame.c:104-117 | a built frame hit by a burst of at most 16 bits fails the check |
| BitFields.TmFrameHeader | src/ccsds/tm_frame.c:66-82 | every field of a built frame header at its bit position, spacecraft and channel cut to their widths, segment length 3, first header pointer 0 or 2047 |
| BitFields.TmFrameZone | src/ccsds/tm_frame.c:27-102 | the data zone octet by octet: the payload as far as it fits, then an idle packet that fills the rest, or what the buffer held |
| SpacePacket.EncodePrimary | src/ccsds/space_packet.c:4-27 | the six octets of the primary header, and no other octet of the buffer |
| SpacePacket.DecodeEncode | src/ccsds/space_packet.c:4-52 | decoding an encoded header returns it, for all in-range fields |
| SpacePacket.EncodeDecode | src/ccsds/space_packet.c:4-52 | encoding a decoded header returns its octets, for all octets |
| TmPacket.DecodeEncode | src/pus/pus_tm.c:31-76 | a built packet reads back with its service, counters, timestamp and data, the APID to 11 and the sequence count to 14 bits |
| BitFields.TmPacketHeader | src/pus/pus_tm.c:31-76 | the octets of every built packet say, at the 14 positions the database declares for its header, what the packet was built with |
| PusTm.Build | src/pus/pus_tm.c:13-76 | one packet appended to the store, or too large, or store full; nothing else |
| PusTm.OfferFaithful | src/pus/pus_tm.c:31-76 | building keeps the store an ordered selection of the packets built |
| PusTm.WaitingReadsBack | src/pus/pus_tm.c:31-76 | every waiting packet reads back as one that was built |
| TmStore.TmStore.Enqueue | src/tm/store.c:19-35 | the ring as a FIFO: appended, or full exactly at 31 packets, or too large |
| TmStore.TmStore.Dequeue | src/tm/store.c:37-56 | the oldest packet in the caller's buffer and gone from the ring; on any error nothing changes |
| TmStore.TmStore.Count | src/tm/store.c:63-69 | the length of the FIFO, wrapped or not |
| TmStore.RingPush | src/tm/store.c:31-34 | writing the slot at head and moving head appends one packet across the wrap |
| TmStore.RingPop | src/tm/store.c:53-54 | moving tail removes the oldest packet across the wrap |
| TmStoreSteps.NextKeeps | src/tm/store.c:19-56 | every single access of producer or consumer keeps: accepted = delivered, then the ring, then the packet being written |
| TmStoreSteps.RunKeeps | src/tm/store.c:14-69 | so does every interleaving of them |
| TmStoreSteps.DeliveredInOrder | src/tm/store.c:14-69 | under every interleaving the packets delivered are a prefix of those accepted: none lost, doubled, reordered or half-read |
| TmStoreSteps.RefusedOnlyWhenFull | src/tm/store.c:27-29 | whatever the consumer is at, a packet is refused exactly when 31 are in the ring |
| TmStoreSteps.RefusedOnlyWhenEmpty | src/tm/store.c:42-44 | whatever the producer is at, the consumer is refused exactly when the ring is empty |
| TmStoreSteps.EnqueueAlone | src/tm/store.c:19-35 | undisturbed, the producer's accesses append exactly the packet, as the sequential store does |
| Housekeeping.S3.Define | src/pus/s3.c:111-180 | TC(3,1) on the pointer table is the list operation of which `HkCommands.Define` says what it does to the octets given: accepted exactly for a fresh, well-formed, known set with a slot and n cells free; its set is appended |
| Housekeeping.S3.Delete | src/pus/s3.c:230-269 | TC(3,3) filters exactly the listed sets out of the list, if all are defined, disabled and listed once; otherwise nothing changes |
| Housekeeping.S3.RemoveDefined | src/pus/s3.c:195-228 | pointers lowered, pool slid, slot closed: together they drop one set from the list and keep the pool tiled |
| Housekeeping.S3.SlidePool | src/pus/s3.c:210-217 | the pool behind the deleted set moves down by its length and the rest stays |
| Housekeeping.S3.PoolOffset | src/pus/s3.c:182-193 | the cell a set's pointer equals, or -1 for a boot-time set |
| Housekeeping.S3.FindSet | src/pus/s3.c:18-28 | the first set with an id, or none |
| Housekeeping.S3.FindParam | src/pus/s3.c:95-105 | the first parameter table entry with an id, or none |
| Housekeeping.S3.DefineCheck | src/pus/s3.c:118-148 | the checks of TC(3,1) decide exactly whether its data are well formed |
| Housekeeping.S3.DeleteCheck | src/pus/s3.c:238-260 | the checks of TC(3,3) decide exactly whether all listed sets may be deleted, each once |
| Housekeeping.S3.LowerPointers | src/pus/s3.c:202-210 | exactly the pool pointers above the deleted set go down by its length |
| Housekeeping.S3.CloseSlot | src/pus/s3.c:217-227 | the set table loses one slot and keeps its order |
| Housekeeping.S3.Enable | src/pus/s3.c:271-304 | TC(3,5) restarts one set with the given interval |
| Housekeeping.S3.Disable | src/pus/s3.c:306-330 | TC(3,6) stops one set and keeps its definition |
| Housekeeping.S3.SerialiseSet | src/pus/s3.c:53-68 | the values in list order, each big-endian at its width, or zero where they do not fit |
| Housekeeping.S3.PutBe | src/pus/s3.c:31-49 | one value, most significant octet first, at its width |
| Housekeeping.S3.EmitReport | src/pus/s3.c:71-89 | one TM(3,25) with set id and values; none where the values overflow the buffer |
| Housekeeping.S3.Tick | src/pus/s3.c:365-392 | one countdown step of every set and the reports that fall due |
| Housekeeping.S3.BindSizes | src/pus/s3.c:340-359 | accepted exactly for the right number of widths 1, 2 and 4; then all widths of the set are set, in its own array or pool cells, and no other |
| HkPool.RemovedTiled | src/pus/s3.c:195-228 | after a removal the remaining sets tile the pool prefix in table order |
| HkPool.RemovedView | src/pus/s3.c:195-228 | after a removal every other set has its id, timing and exact parameter list |
| HkPool.AppendedView | src/pus/s3.c:155-175 | a set appended at the end of the used prefix keeps the tiling and joins the list |
| HkModel.PeriodIsInterval | src/pus/s3.c:365-392 | the countdown of one enabled set with interval k falls due exactly once in every k ticks, for any number of ticks |
| HkModel.SilentSet | src/pus/s3.c:365-392 | a set that is off or has no interval reports nothing and keeps its countdown |
| HkTicks.TableRuns | src/pus/s3.c:365-392 | over any ticks of the table, the TM(3,25) under a set's id are those the set alone would send, at its own due ticks and with the values of those ticks, whatever the other sets do |
| HkTicks.TablePeriod | src/pus/s3.c:365-392 | in any table, an enabled set that fits a packet reports n / interval times in n ticks |
| HkModel.WithoutMembers | src/pus/s3.c:230-269 | a set survives a deletion, whole, exactly when it was there and is not listed |
| HkModel.WithoutUnion | src/pus/s3.c:230-269 | deleting in two commands or in one is the same |
| HkModel.DeleteFrees | src/pus/s3.c:195-228 | a deletion frees exactly the cells of the deleted sets, wherever they lie: no fragmentation |
| HkModel.DefineThenDelete | src/pus/s3.c:111-269 | TC(3,3) of a set just defined undoes TC(3,1) |
| HkCommands.Define | src/pus/s3.c:111-180 | TC(3,1) from its octets: refused with code 5 or 4 exactly when its data, or slots and pool, do not allow it; else one disabled set more, with the identifier and interval of its octets, and for each identifier listed, in that order, four octets of the first table entry that has it; nothing else changes |
| HkCommands.Delete | src/pus/s3.c:230-269 | TC(3,3) from its octets: the sets left are those not listed, in their order; refused exactly when the list repeats itself or names a set that may not go |
| HkCommands.Enable | src/pus/s3.c:271-304 | TC(3,5) from its octets: switch, interval and countdown of the first set with the identifier, or the code of the refusal |
| HkCommands.Disable | src/pus/s3.c:306-330 | TC(3,6) from its octets: the switch, and nothing else |
| HkCommands.DueReport | src/pus/s3.c:53-89 | the TM(3,25) of a set that TC(3,1) asked for: one per due tick, four octets per identifier of the TC, in its order, most significant first, of the value the table has under it |
| Invariants.DefineKept | src/pus/s3.c:111-180 | a definition keeps distinct ids and the slot and cell limits, and every boot-time set |
| Invariants.DeleteKept | src/pus/s3.c:230-269 | a deletion keeps them too |
| Schedule.NextFreeSkips | src/pus/s11.c:31-40 | the wrapping search for an identifier passes only blocked ones, at most as many as there are, and ends unblocked |
| Schedule.KeyOrder | src/pus/s11.c:15-18 | comparing 48-bit tags is comparing coarse and then fine time, and no tag stands for two times |
| Schedule.DueOrderSorted | src/pus/s11.c:165-201 | a run's list holds exactly the activities whose coarse and fine time is not after the time given, each once, sorted by coarse time, fine time and request id |
| Schedule.DueOrderFirst | src/pus/s11.c:175-189 | the earliest due activity is unique and comes first |
| ScheduleService.S11.TakeId | src/pus/s11.c:31-40 | the loop ends with the first free identifier, never zero, never one in the table |
| ScheduleService.S11.RemoveAt | src/pus/s11.c:42-46 | swap-remove loses exactly one activity |
| ScheduleService.S11.Insert | src/pus/s11.c:66-99 | TC(11,4) stores a checked packet of another service under a fresh identifier, or rejects |
| ScheduleService.S11.Delete | src/pus/s11.c:101-120 | TC(11,5) removes exactly the named activity |
| ScheduleService.S11.DeleteAll | src/pus/s11.c:122-133 | TC(11,6) empties the table |
| ScheduleService.S11.Enable | src/pus/s11.c:135-146 | TC(11,17) keeps the table and enables release |
| ScheduleService.S11.Disable | src/pus/s11.c:148-159 | TC(11,18) keeps the table and disables release |
| ScheduleService.S11.FindEarliest | src/pus/s11.c:175-189 | the scan finds the earliest due activity, ties by request id, or that none is due |
| StoredCommands.Insert | src/pus/s11.c:66-99 | TC(11,4) from its octets: coarse and fine time and the packet behind them, under the first identifier from the counter on that is neither zero nor taken; refused exactly when the packet is not a complete TC of another service of at most 64 octets, or the table is full |
| StoredCommands.Delete | src/pus/s11.c:101-120 | TC(11,5) from its octets |
| StoredCommands.DeleteAll | src/pus/s11.c:122-133 | TC(11,6): an empty table and nothing else |
| StoredCommands.Enable | src/pus/s11.c:135-146 | TC(11,17): release is on |
| StoredCommands.Disable | src/pus/s11.c:148-159 | TC(11,18): release is off |
| KeyedTable.Remove | src/pus/s11.c:42-46 | moving the last row into a hole removes one key from the map the table stands for |
| ScheduleLedger.Conservation | src/pus/s11.c:66-133 | over every sequence of operations: accepted insertions are the pending, released and deleted ones, each once; identifiers distinct and not zero |
| ScheduleLedger.InsertKeepsIds | src/pus/s11.c:31-40 | an accepted insertion keeps pending identifiers in insertion order if and only if its own exceeds all in the table |
| ScheduleLedger.InsertKeepsTies | src/pus/s11.c:175-189 | it keeps the release order of equal tags the insertion order if and only if its identifier exceeds those in the table with its tag |
| ScheduleLedger.OthersKeepIds | src/pus/s11.c:42-201 | no other operation upsets the order of identifiers |
| ScheduleLedger.OthersKeepTies | src/pus/s11.c:42-201 | nor the order in which equal tags are released: only an insertion can |
| ScheduleLedger.DeletesExactly | src/pus/s11.c:101-133 | TC(11,5) and TC(11,6) delete exactly the insertions pending under the identifiers they take out |
| ScheduleLedger.FirstInOrder | src/pus/s11.c:175-189 | for the first 65535 insertions since boot equal tags go in insertion order |
| ScheduleLedger.WrapBreaksTies | src/pus/s11.c:31-40 | a run from boot in which the 65536th insertion goes before the 65535th, of the same tag |
| EventActionService.S19.Add | src/pus/s19.c:50-80 | TC(19,1) defines or replaces the action of one event with a checked packet of another service |
| EventActionService.S19.Delete | src/pus/s19.c:82-104 | TC(19,2) removes exactly one definition |
| EventActionService.S19.DeleteAll | src/pus/s19.c:106-117 | TC(19,3) removes all definitions and keeps the queue |
| EventActionService.S19.Enable | src/pus/s19.c:119-130 | TC(19,4) enables and changes nothing else |
| EventActionService.S19.Disable | src/pus/s19.c:132-144 | definitions stay, the queue is discarded |
| EventActionService.S19.OnEvent | src/pus/s19.c:150-162 | a matched event is queued while enabled, or counted as dropped at four |
| EventActionService.S19.TakeBatch | src/pus/s19.c:169-174 | the batch is the queue, which is then empty |
| EventActionService.S19.FindDef | src/pus/s19.c:15-24 | the definition of an event, or none |
| StoredCommands.SetAction | src/pus/s19.c:50-80 | TC(19,1) from its octets: the packet behind the event is its action; refused exactly when it is not a complete TC of another service of at most 64 octets, or the event is new and the table full |
| StoredCommands.DeleteAction | src/pus/s19.c:82-104 | TC(19,2) from its octets |
| StoredCommands.DeleteActions | src/pus/s19.c:106-117 | TC(19,3): no definition left, the queue kept |
| StoredCommands.EnableActions | src/pus/s19.c:119-130 | TC(19,4): the service is on |
| StoredCommands.DisableActions | src/pus/s19.c:132-144 | TC(19,5): the service is off and nothing waits |
| ActionLedger.Conservation | src/pus/s19.c:132-185 | over every sequence of operations: matched events are the dispatched, skipped, discarded, dropped, taken and queued ones, each once, the counter modulo 65536, dispatch in event order |
| MonitoringService.S12.Check | src/pus/s12.c:196-228 | one round over all definitions: latches and events as specified |
| MonitoringService.S12.Add | src/pus/s12.c:105-152 | TC(12,3) adds or replaces one definition with clear latches, or rejects; `MonitorCommands.Add` says which from the octets |
| MonitoringService.S12.Delete | src/pus/s12.c:154-177 | TC(12,4) removes one definition by moving the last into the hole |
| MonitoringService.S12.DeleteAll | src/pus/s12.c:179-190 | TC(12,5) removes all |
| MonitoringService.S12.Enable | src/pus/s12.c:75-90 | TC(12,1) clears every latch |
| MonitoringService.S12.Disable | src/pus/s12.c:92-103 | TC(12,2) keeps definitions and latches |
| MonitorCommands.Add | src/pus/s12.c:105-152 | TC(12,3) from its octets: parameter, low and high limit, low and high event and severity each from its place, latches clear, in place of the definition for the parameter or at the end; every other as it was; refused exactly for a severity other than 1 to 4, an unknown parameter, limits out of order or a full table |
| MonitorCommands.GivenBack | src/pus/s12.c:130-148 | every definition is what some octets ask for, field by field |
| MonitorCommands.Delete | src/pus/s12.c:154-177 | TC(12,4) from its octets |
| MonitorCommands.DeleteAll | src/pus/s12.c:179-190 | TC(12,5): an empty table |
| MonitorCommands.Enable | src/pus/s12.c:75-90 | TC(12,1): the checks are on and no latch is set |
| MonitorCommands.Disable | src/pus/s12.c:92-103 | TC(12,2): the checks are off, latches kept |
| MonitorCommands.Round | src/pus/s12.c:196-228 | the packets of a round of checks, octet by octet: per definition in table order the severity, event and value of each limit newly exceeded, low before high; and every latch afterwards |
| Parameters.LessIsOrder | src/pus/s12.c:117-126 | the comparison of float patterns is that of the numbers they stand for, infinities included, and false for a NaN |
| Monitoring.AddSound | src/pus/s12.c:105-152 | an added definition keeps one per parameter, limits in order and latches apart |
| Monitoring.DeleteSound | src/pus/s12.c:154-177 | so does a deletion |
| Monitoring.OneEventPerExcursion | src/pus/s12.c:196-228 | per side, exactly one event per entry into the out-of-limit state, for any history of values |
| Monitoring.NanLimitNeverFires | src/pus/s12.c:120-130 | a NaN limit never fires |
| Monitoring.TableFollowsTrips | src/pus/s12.c:196-228 | in the table every definition behaves as if it were alone |
| MonitorRuns.ExcursionsReported | src/pus/s12.c:75-228 | in every state of every run, with TC(12,x) at any time: each definition is, but for its latches, the one in the octets of the last completed TC(12,3) for its parameter (or of the start), and has since then, or since it was enabled again, raised one event per excursion beyond each limit, in order, and no other |
| MonitorRuns.RoundIsGains | src/pus/s12.c:196-228 | the events of a round of checks are what its definitions gain, in table order |
| Invariants.CheckHeard | src/pus/s12.c:196-228 | they are also what service 5 reports and service 19 hears in that round |
| Monitoring.CheckSound | src/pus/s12.c:196-228 | one definition per parameter, limits in order, never latched on both sides |
| MemoryModel.ResolveExact | src/pus/s6.c:31-54 | a range resolves exactly when one region with the access holds all of it, without 32-bit wrap |
| MemoryService.S6.ResolveRange | src/pus/s6.c:31-54 | the scan over regions is that resolution, and its range lies in local memory |
| MemoryService.S6.Load | src/pus/s6.c:56-95 | TC(6,2) copies into the resolved range, or rejects |
| MemoryService.S6.Check | src/pus/s6.c:97-154 | TC(6,5) compares the CRC of the range |
| MemoryService.S6.Dump | src/pus/s6.c:156-203 | TC(6,9) reports the octets of the range |
| MemoryModel.LoadChangesOnlyRange | src/pus/s6.c:84-92 | a load changes the named octets and no others |
| MemoryModel.LoadThenDump | src/pus/s6.c:56-203 | with disjoint readable regions, a dump after a load reports exactly the loaded octets |
| MemoryModel.LoadThenCheck | src/pus/s6.c:56-154 | and a check against their CRC succeeds |
| MemoryCommands.Load | src/pus/s6.c:56-95 | TC(6,2) from its octets: the data octets from the local address of the first writable region that holds the range, every other octet of memory as before; code 5 or 6 exactly otherwise |
| MemoryCommands.Check | src/pus/s6.c:97-154 | TC(6,5) from its octets, both ways: TM(6,10) and TM(1,7), or TM(6,11) with the CRC the range has and TM(1,8) |
| MemoryCommands.Dump | src/pus/s6.c:156-203 | TC(6,9) from its octets: TM(6,6) with address, memory identifier and the octets of the range |
| Verification.S1.AcceptFailure | src/pus/s1.c:47-62 | one TM(1,2) with the reference and the code |
| Verification.S1.AcceptSuccess | src/pus/s1.c:33-45 | one TM(1,1) with the reference |
| Verification.S1.CompletionSuccess | src/pus/s1.c:64-76 | one TM(1,7) with the reference |
| Verification.S1.CompletionFailure | src/pus/s1.c:78-93 | one TM(1,8) with the reference and the code |
| Verification.S1.DispatchResponder | src/pus/s1.c:95-111 | the dispatcher's flags become the rejection code, or nothing |
| TcPacket.ReferenceIsHeader | src/pus/s1.c:23-31 | for unsegmented TCs the reference in every report is the TC's own first four octets |
| Uplink.ExtractedFields | src/tc/dispatcher.c:76-101 | a packet parses if and only if it is version 0, complete, flagged and has five octets behind its header; then service and subservice are its octets 7 and 8 and user data begin at octet 11 |
| Uplink.RoundTrip | src/tc/dispatcher.c:76-101 | every telecommand, as ground encodes it octet by octet, is read back as it is, whatever follows it |
| Events.S5.Report | src/pus/s5.c:12-66 | one event packet; SAFE only for a stored HIGH trigger; service 19 hears of every event; `ModeRuns` says what that makes of the mode |
| Fsm.Fsm.TcAllowed | src/fdir/fsm.c:48-73 | the scan lets through everything in NOMINAL and exactly the whitelist otherwise |
| Fsm.Fsm.ToSafe | src/fdir/fsm.c:24-34 | SAFE, counted unless already there |
| Fsm.Fsm.ToNominal | src/fdir/fsm.c:36-46 | NOMINAL, the count kept |
| Fsm.Fsm.ToStandby | src/fdir/fsm.c:16-22 | STANDBY, the count kept |
| SmallServices.S8.PerformFunction | src/pus/s8.c:14-62 | TC(8,1): acceptance, the call, completion or failure |
| SmallServices.S9.SetTime | src/pus/s9.c:12-33 | TC(9,128) sets the clock and clears its remainder |
| SmallServices.S17.Ping | src/pus/s17.c:10-34 | TC(17,1): TM(17,2) between acceptance and completion |
| SmallServices.S20.SetValue | src/pus/s20.c:55-86 | TC(20,1) sets exactly the first entry with the id |
| SmallServices.S20.GetValue | src/pus/s20.c:88-113 | TC(20,3) reports id and raw value |
| ShortCommands.Ping | src/pus/s17.c:10-34 | TC(17,1) is answered by one empty TM(17,2) |
| ShortCommands.SetTime | src/pus/s9.c:12-33 | TC(9,128) from its octets: coarse and fine time, remainder zero |
| ShortCommands.SetParam | src/pus/s20.c:55-86 | TC(20,1) from its octets: the value of the first entry with the identifier and no other |
| ShortCommands.GetParam | src/pus/s20.c:88-113 | TC(20,3) from its octets: TM(20,2) with the identifier and the four octets of the value |
| ShortCommands.Perform | src/pus/s8.c:14-62 | TC(8,1) from its octets: the mode a mode function leads to, or the TM(5,x) of an event function, SAFE if it is a stored HIGH trigger, what service 19 makes of it, and success only if it was stored |
| Dispatcher.FeedServed | src/tc/dispatcher.c:68-129 | every parseable TC gets one TM(1,2), or TM(1,1) and one of TM(1,7), TM(1,8); OK exactly with TM(1,7); a TC answered by TM(1,2) changes no table |
| Dispatcher.GateHolds | src/tc/dispatcher.c:103-107 | outside NOMINAL a TC off the whitelist only has its rejection reported |
| Dispatcher.FirstMatch | src/tc/dispatcher.c:109-124 | the lookup finds the first full match, or tells whether the service is routed |
| Uplink.RoutedTo | sim/main.c:384-440 | the routing table of the simulation takes each of 27 pairs of service and subservice to the handler meant for it, and tells an unknown subservice from an unknown service |
| Uplink.DispatcherRefuses | src/tc/dispatcher.c:103-129 | a telecommand that the gate or the table stops has one effect, its TM(1,2): code 7 for the gate, 3 for the subservice, 2 for the service |
| ReportGrammar.CheckHandled | src/pus/s6.c:97-154 | TC(6,5) keeps the grammar in all its branches |
| ReportGrammar.PerformHandled | src/pus/s8.c:14-62 | TC(8,1) keeps the grammar although an event may come between |
| Safety.FeedKept | src/tc/dispatcher.c:68-129 | whatever the packet, the invariant of all tables, store and clock holds afterwards and boot-time sets are untouched |
| Safety.HandleFrame | src/tc/dispatcher.c:109-124 | a handler changes its own service's state only |
| Safety.FeedIsolated | src/tc/dispatcher.c:68-129 | a TC of another service cannot change the schedule or the event-action definitions |
| Release.RunReleasesDue | src/pus/s11.c:165-201 | one run feeds exactly the activities whose coarse and fine time is not after the clock's, in order of coarse time, fine time and request id, and leaves exactly the others, even if a released TC resets the clock |
| Release.RunDispatchesQueue | src/pus/s19.c:164-185 | one run dispatches exactly the queue it found, in order; events raised meanwhile wait |
| Release.StoredNeverNest | src/pus/s11.c:74-83 | every stored packet parses when fed and is not of the storing service |
| MicroSteps.MicrosIs | sim/main.c:599-745 | the single steps of an input end where the main loop does and make its calls of the dispatcher, in order |
| Runs.RunAccounted | sim/main.c:599-745 | over every run the TM(1,x) log is that of the TCs fed, uplinked, scheduled or event-triggered, in order; the invariant is kept |
| Runs.RunSound | sim/main.c:599-745 | every state between two steps of any run is sound and has the boot-time sets of the start |
| SimBoot.BootReady | sim/main.c:474-556 | the state in which the simulation enters its loop meets what the theorems over runs ask of a start |
| SafeMode.ChangeNeedsTc | src/tc/dispatcher.c:103-124 | whenever a service's configuration differs between two states of a run, switches and intervals of sets included, a telecommand was let through in the mode it met and handled by that service in between |
| SafeMode.RunFrozen | src/fdir/fsm.c:48-73 | over any run whose telecommands all meet SAFE or STANDBY, sets, memory, limit checks, event-actions and schedule are not reconfigured |
| SafeMode.DatabaseRestricts | srdb/obsw_srdb/model.py:320-326 | the whitelist generated from the database has that effect |
| Runs.TickBounded | sim/main.c:621-622 | a tick feeds at most the activities on entry and one queue |
| Runs.PacketsReadBack | src/pus/pus_tm.c:31-76 | in every state between two steps of any run, every packet in the store reads back as one a service built |
| Runs.StepsOnlyAdd | src/pus/pus_tm.c:31-76 | a step other than sending builds packets one after the other and does nothing else to store and log |
| Runs.SentReadsBack | sim/main.c:616-743 | whatever a sensor frame sends reads back, limit-check events and housekeeping reports included |
| LedgerRuns.ScheduleConserved | src/pus/s11.c:66-201 | over every run from boot: insertions are the TC(11,4) of the run that completed, in order; those released are, packet by packet, what the runs of the schedule fed, each once; those deleted are as many as its TC(11,5) and TC(11,6) took out; all others are the table |
| PacketRuns.PacketsConserved | src/tm/store.c:19-56 | between any two steps of any run: packets sent and waiting are, octet for octet and in order, those that waited at the start and those built and stored since; every packet built was stored or refused |
| PacketRuns.RefusedOnlyWhenFull | src/tm/store.c:27-29 | a step refuses a packet if and only if it builds more than there is room for, and leaves the store full |
| CounterRuns.RunNumbered | src/pus/s1.c:33-93 | over every run the packets of each service carry its APID and one number after the other, and its counter is as far on as they are many: a number that ground misses is a packet refused by a full store |
| CounterRuns.ReportCounts | src/pus/s3.c:71-89 | a housekeeping report uses as many numbers as it builds packets if and only if its values fit a packet, or not even the buffer |
| CounterRuns.NumberWithoutPacket | src/pus/s3.c:71-89 | a boot-time set whose report moves the counter and builds nothing |
| ModeRuns.StepMode | src/pus/s5.c:33-57 | what a step makes of mode and SAFE counter, told from its packets: a mode function of TC(8,1) what it is for; a TM(5,4) of a trigger event that was stored SAFE, counted unless it was SAFE; anything else nothing, a trigger event without room included |
| ModeRuns.RunMode | src/pus/s5.c:33-57 | in every state of every run mode and SAFE counter are what the mode functions and stored trigger reports so far make of those of the start |
| ModeRuns.SafeByTrigger | src/pus/s5.c:33-57 | while no mode function is called, the spacecraft is in SAFE by one entry more if a trigger report was stored, and in the mode it was in if none was |
| HkRuns.ReportsFollow | src/pus/s3.c:111-392 | between any two steps of any run, with TC(3,x) at any time: a set is as the last telecommand for it left it, counted down by the ticks since, and the TM(3,25) under its id since then are those it alone would send |
| EventRuns.EventsConserved | src/pus/s19.c:132-185 | over every run from boot: the ledger's events are the matched ones of the run's service 5 reports, in order; those dispatched are the ones whose actions were fed, in order; each is dispatched, skipped, discarded, dropped or queued, exactly once |
| EventRuns.DispatchedAreCalls | src/pus/s19.c:164-185 | what a sensor frame dispatches are the calls its batch makes: event by event, its action |
| EventRuns.EventsLogged | src/pus/s5.c:12-66 | the events raised by some steps are the service 5 packets built in them, in order |
| ExecutiveService.Obc.FindHandler | src/tc/dispatcher.c:109-127 | the loop with its running reason is the lookup |
| ExecutiveService.Obc.FeedFrame | src/tc/dispatcher.c:68-129 | parse, gate, lookup and handler on the service objects are the feed on values |
| ExecutiveService.Obc.RunDue | src/pus/s11.c:165-201 | the release loop, searching anew each time, is the release of the list fixed on entry |
| ExecutiveService.Obc.RunQueued | src/pus/s19.c:164-185 | the batch loop on the service objects is the batch on values |
| ExecutiveService.Obc.UplinkFrame | sim/main.c:599-615 | an uplinked frame is fed, and what it had built leaves |
| ExecutiveService.Obc.SensorTick | sim/main.c:616-743 | S11, S19, control step, S12, S3, drain, in this order; all of the tick's packets leave |
| ExecutiveService.Obc.ValidIsSound | sim/main.c:545-566 | the services' own invariants are the invariant of the executive |
| SimTarget.RoutesAreWell | sim/main.c:384-440 | every route of the simulation leads to a handler of the service it names |
| SimTarget.OnlyFourInSafe | sim/main.c:381-440 | outside NOMINAL a TC is gated if and only if it is none of TC(17,1), TC(8,1), TC(9,128), TC(20,3), and then only its rejection is reported |
| ModeSteps.ModeRun | src/task/mode.c:57-116 | in every interleaving: entries into NOMINAL within requests, a pending SAFE request served that tick, STANDBY bounded, events the stutter-free end-of-tick modes |
| ModeSteps.ChangesDiffer | src/task/mode.c:107-116 | consecutive mode events differ, and the last one names the mode of the last tick |
| ModeSteps.RunNominalFromSafe | src/task/mode.c:71-82 | NOMINAL is entered only from SAFE, by the mode task |
| ModeSteps.StandbyStay | src/task/mode.c:84-92 | in every interleaving at most 299 ticks, 300 only at the wrap of the counter |
| ModeSteps.StayExact | src/task/mode.c:84-92 | how long an undisturbed stay lasts, exactly, by the counter before it |
| ModeSteps.LongStayExact | src/task/mode.c:84-92 | it lasts 300 ticks if and only if the counter before it is 2^32 - 1 |
| ModeSteps.LongStay | src/task/mode.c:84-92 | a run from the start of the Mode Manager with a stay of 300 ticks |
| ModeSteps.WholeTick | src/task/mode.c:62-116 | undisturbed accesses add up to one transition of the whole state |
| ModeSteps.TickServes | src/task/mode.c:62-116 | what a tick makes of the requests and the mode it finds: one request served, SAFE before STANDBY before NOMINAL, the others kept or forgotten as the code does; NOMINAL from SAFE only; STANDBY to SAFE at 300; one event per change |
| ModeManager.ModeManager.Tick | src/task/mode.c:62-116 | one pass of the mode task is that transition, and reports a change of mode once |
| ModeManager.ModeManager.RequestSafe | src/task/mode.c:147-151 | two writes: the flag, then the lower request dropped |
| ModeManager.ModeManager.RequestNominal | src/task/mode.c:153-156 | one write |
| ModeManager.ModeManager.RequestStandby | src/task/mode.c:158-162 | two writes: the flag, then the lower request dropped |
| ModeManager.ModeManager.ServeRequests | src/task/mode.c:71-82 | one request per tick, SAFE before STANDBY before NOMINAL |
| Obt.AdvanceExact | src/time/obt.c:7-20 | a step below 65536 ms moves the clock by exactly that time modulo the period |
| Obt.NoDrift | src/time/obt.c:7-20 | however a span is cut into steps, the clock ends in the identical state |
| Obt.LongStep | src/time/obt.c:7-20 | a longer step acts as its remainder modulo 65536 ms |
| Obt.BoundIsExact | include/obsw/time/obt.h:28-37 | the clock moves by the time given if and only if the step is below 65536 ms |
| Obt.Clock.AdvanceBy | src/time/obt.c:7-20 | the fields after one step, with the 32-bit intermediates |
| Obt.Clock.Set | src/time/obt.c:22-31 | coarse and fine as given, remainder zero |
| Srdb.BitsOfType | srdb/obsw_srdb/model.py:31-39 | every parameter that passes validation is as wide as its type, 8, 16 or 32 bits |
| Xtce.BuildTypes | srdb/obsw_srdb/codegen.py:338-358 | the loop writes each type once, for the first parameter that needs it, behind the header's types |
| Xtce.BuildParams | srdb/obsw_srdb/codegen.py:427-456 | every parameter is declared under its upper-cased name, taken or not, behind the header's |
| Xtce.TypeOfParameter | srdb/obsw_srdb/codegen.py:81-90 | the document gives a parameter's type one width: its own, or for a named type that of the first parameter that has one under the same upper-cased name |
| Xtce.ReadsDeclared | srdb/obsw_srdb/codegen.py:117-120 | what a reference may read, from the parameters alone: the widths of all parameters and header fields of that name |
| HkLayout.BuildContainer | srdb/obsw_srdb/codegen.py:535-543 | the loop writes references to upper-cased names at the bits behind their predecessors |
| HkLayout.LayoutsAgree | srdb/obsw_srdb/codegen.py:229-238 | header and XTCE describe the same packet, however a reader resolves a name declared more than once, if and only if the parameters meet a condition on names and widths |
| HkLayout.DuplicateNamesDisagree | srdb/obsw_srdb/loader.py:124-146 | a loadable database of two equal names where they do not |
| HkLayout.NamesInTwoCasesDisagree | srdb/obsw_srdb/composition.py:100-107 | a composable one of two names that differ in case: 8 bits read of 32 sent |
| HkLayout.HeaderNameDisagrees | srdb/obsw_srdb/codegen.py:427-447 | a composable one whose only name is a header field's |
| HkLayout.UniqueNamesAgree | srdb/obsw_srdb/codegen.py:338-456 | names unique up to case and none of a header field are enough, for every set |
| HkLayout.SizesBind | srdb/obsw_srdb/codegen.py:229-238 | for every loadable set binding accepts the generated sizes, and leaves the set laid out as the header says |
| HkLayout.DecodedAsWritten | srdb/obsw_srdb/codegen.py:525-543 | decoding TM(3,25) as the XTCE says, with any width its declarations give, returns service, subservice, set id and what the on-board variables held, and the length is what DATA_LEN says |
| Whitelist.SafeTcWhitelist | srdb/obsw_srdb/model.py:320-326 | exactly the safe_allowed pairs, each once |
| Whitelist.GateIsDatabase | src/fdir/fsm.c:48-68 | with that whitelist the gate is the database |

## Left out

- Hardware, console, FreeRTOS scheduling, UART framing, platform `main` files: I/O.
- Attitude control (`bdot`, `adcs`, quaternions): floating-point control laws. Their writes to the parameter
  table and to housekeeping variables are inputs of a tick.
- Integer-to-float conversion in service 12: a function parameter. Floats are compared as bit patterns.
- Text handling of the database (YAML, CSV, XML, pydantic): only names, widths, offsets, sizes and the whitelist;
  not signs, calibrations and alarms of the XTCE types.
- `str.upper`: a function parameter of which only that it leaves no lower-case ASCII letter is used; ASCII in the
  counterexamples.
- Null arguments: every pointer the code is handed is an object here.
- The watchdog: the main loop kicks it and never counts it down, so its expiry event is not part of a run.
- `obsw_tc_frame_strerror` and `obsw_s3_report`: a table of strings, and a call of the modelled `EmitReport`.
- Route remapping for OrbitFabric at start-up: the routing table is a parameter; laws that need it ask for
  routes whose handlers belong to the service they name.
- FSM entry and exit hooks: in the repository they only count and print.
- The SAFE entry counter under concurrent entries: `ModeSteps` has the mode, not the counter.
- Memory regions that overlap the software's own tables: memory of service 6 is separate.
- Whitelists of more than 255 pairs, whose 8-bit length field would wrap: the whitelist is a sequence.
- The order of octets within one `memcpy` of the TM store: ascending in `TmStoreSteps`.
- Report timestamps: no code of the repository sets them, so they are constant header fields.
- Parse: space packet parsing is a function of the octets; the C struct it fills is its result.
- Several producers of the TM store at once: the source does not claim it.
- TmFrame.UnusedSpaceIsOnePacket: idle space of one to six octets keeps the buffer's old content, as the code does.
- PusTm.Build: data over 65518 octets would wrap the 16-bit lengths; every caller in the model stays far below.
