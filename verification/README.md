# Model of the sbndaq-artdaq data path

Dafny models of the code that moves detector data from a board to an artdaq fragment, with proofs of
what that code keeps over every input, run and thread interleaving.

| file | component |
|---|---|
| `bits.dfy`, `sequences.dfy` | bit strings of numbers, and facts about sequences |
| `bit_image.dfy`, `parameter_layout.dfy`, `feb_configuration.dfy`, `feb_text.dfy` | the CRT front-end board's 1144-bit configuration register: its reversed bit order, its parameter table, the conversions, the printer and the parser |
| `pool_buffer.dfy`, `pool_memory.dfy` | the block pool: queues and gauges, geometry, and the memory behind it |
| `event_counter.dfy`, `time_recovery.dfy`, `v1730_protocol.dfy`, `v1730_readout.dfy` | the V1730 board reader: the wrapping event counter, absolute times, the two threads, and the reader's own loops |
| `bottom_crt.dfy` | bottom CRT time reconstruction with missed sync pulses |
| `febdrv.dfy`, `crt_data.dfy`, `crt_buffer.dfy` | CRT hits: decoding, numbering with lost hits, splitting into fragments, delivery |
| `zmq_grouping.dfy`, `zmq_buffer.dfy` | CRT data over ZeroMQ: sorting by board, filtering, and a board's ring between the two threads |
| `phys_crate.dfy` | TPC crate: tiles in a circular word buffer |
| `gate_filter.dfy`, `fragment_watcher.dfy` | the gate filter and the fragment watcher |

How the code is represented. Objects whose methods change their fields are classes, and each of their
methods is tied to a function of the old state; the properties are proved about those functions. Two
threads are a state machine whose actions are the critical sections, so that a list of actions is an
interleaving and a theorem about all lists is one about all interleavings. Numbers are unbounded except
where the source's width matters: the 64-bit timestamps, 32-bit sequence ids and event numbers, the
24-bit event counter, 32-bit ticks and time tags, 16-bit and 8-bit counters and `size_t` sizes are
written with their wrap-around. Bytes, counters, poll times and readings are arbitrary inputs.

Where the code does not do what its comments or its other half promise, the model follows the code and
says exactly when the promise holds:

- An accepted pool request whose block size plus red zone wraps around `size_t` gets blocks smaller than
  asked for (`PoolBuffers.BlockFitsUnlessWrapped`, `PoolBuffers.WrappedBlockSizeIsAccepted`).
- Sequence ids are the true event numbers exactly when every advance stays in its 24-bit epoch or enters
  the next one by at most 1,677,722 (`EventCounter.SequenceIdsAreTrue`).
- Events keep their timestamps exactly when each is stamped under a counter that no event in flight has; of
  two events 2^24 triggers apart in flight together, the first is sent with the second's timestamp and the
  second with a made-up one (`V1730Protocol.ReadoutIsRight`, `V1730Protocol.SharedCounterMisdates`).
- A time tag is resolved by at most one second, and without the shift multiplied in 32 bits: an event gets
  its time exactly when its tag stands for a time within 1.5 s of the poll's nanoseconds, which a board that
  is not reset every second can miss (`TimeRecovery.EventTimeIsRecovered`, `TimeRecovery.LongTagIsLate`).
- A printed register can be parsed again exactly when no separator and comment begin with bits; the blank
  separator fails on the comment of bit 1107 (`FebText.ReloadPrinted`, `FebText.BlankSeparatorFails`).
- Sync pulses are counted right exactly when readings of one period are at most 5 ms out of order and below
  the 68.7 s at which the 32-bit counter starts again by itself, none comes after one of a later period,
  every reset shows as a fall by more than 5 ms, and a reset after missed pulses follows a reading of the
  last 6.8 s (`BottomCrt.SyncsAreCounted`, `BottomCrt.DisorderCountsPulse`,
  `BottomCrt.CounterRangeCountsPulses`). A second run goes on from the first one's counts and start
  (`BottomCrt.RestartGoesOn`, `BottomCrt.UnnoticedPulsesAreLost`).
- All bottom CRT modules count their pulses from their own first packet but share the start of the run: a
  module first read after a later pulse than the run's first packet is 7 s early per pulse for the whole
  run, and the first event of boards 1 to 4 does not get the 14 ns correction of the later ones
  (`BottomCrt.TimestampsAreTrue`, `BottomCrt.LateModuleIsEarly`).
- A payload that is not made of whole hits is only logged, and its last hit is decoded from bytes that
  were not received (`FebDriver.OnlyReceivedBytes`, `FebDriver.BufferSuffices`).
- Lost hits reported with a hit are charged in full exactly when the report fits the 8-bit carry; the rate
  used for the next estimates is that of the hits read exactly when they were fewer than 65536 or nothing
  was lost (`CrtData.ReportsAreChargedOnce`, `CrtData.RateIsRight`, `CrtData.HitCountWraps`).
- A group of ZeroMQ events larger than its board's ring waits for room for ever; so do both threads of a TPC
  crate when the tiles of one fragment do not fit the buffer together (`ZmqBuffer.RoomComesIfItFits`,
  `PhysCrate.RoomComesIfItFits`, `PhysCrate.FragmentFits`).
- A fragment is delivered exactly once if and only if the ring never overwrites; otherwise the fragment
  counted as lost may have been delivered and another erased unseen (`CrtBuffer.DeliveredExactlyOnce`,
  `CrtBuffer.OverwriteSkipsFragment`).
- Events right before the trailer that bear its address are lost when there is a board of that address, and
  the first fragment of a ZeroMQ run reports 2^32 - 1 omitted events when none was omitted
  (`ZmqGrouping.EveryEventIsSorted`, `ZmqGrouping.TailIsLost`, `ZmqGrouping.FirstOmissionWraps`).
- With a tolerance larger than the start of the poll before, the ZeroMQ filter's lower bound wraps around and
  nothing is sent; short of that, an event is in sync exactly within the widened poll times
  (`ZmqGrouping.InRangeIsSent`, `ZmqGrouping.WrappedRangeSendsNothing`).
- The tiles of a fragment are all found at their own places exactly when at most one of them is of odd size;
  with a second one the next header is read one word off and, unless what stands there happens to make up
  for it, the fragment is not its boards' tiles (`PhysCrate.TilesAreFound`,
  `PhysCrate.OddTilesAreMisframed`, `PhysCrate.WrongHeaderCanAddUp`).
- Excluded trigger numbers are compared after truncation to 32 bits: the filter works as its settings read
  exactly when each that is cut to a number below 20 is cut to a listed one, or nothing could pass anyway
  (`GateFilter.FilterIsAsListed`).

## Model

| member | source | states |
|---|---|---|
| BitImage.SetBit | sbndaq-artdaq/Generators/Common/BernCRTFEBConfiguration.cc:398-412 | writing a bit in the doubly reversed image changes that register bit and no other: of the byte counted from the end, only the binary digit counted from the top; past the end it changes nothing |
| BitImage.GetBit | sbndaq-artdaq/Generators/Common/BernCRTFEBConfiguration.cc:366-378 | reads the register bit, which is that digit of that byte, or -1 past the end |
| BitImage.RegisterIsBytesReversed | sbndaq-artdaq/Generators/Common/BernCRTFEBConfiguration.cc:366-412 | the register is the binary digits of the image's bytes, the last byte first and each most significant bit first |
| BitImage.PlacesDiffer | sbndaq-artdaq/Generators/Common/BernCRTFEBConfiguration.cc:407-408 | no two register bits share a place in the image |
| BitImage.ImageExtensional | sbndaq-artdaq/Generators/Common/BernCRTFEBConfiguration.cc:375-377 | no image bit is outside the register: equal registers are equal images |
| ParameterLayout.TableTilesRegister | sbndaq-artdaq/Generators/Common/BernCRTFEBConfiguration.cc:131-243 | every bit 0..1143 belongs to exactly one named parameter: no gap, no overlap |
| ParameterLayout.TableStaysInRegister | sbndaq-artdaq/Generators/Common/BernCRTFEBConfiguration.cc:131-243 | no parameter reaches past the register |
| ParameterLayout.MaxValueFillsWidth | sbndaq-artdaq/Generators/Common/BernCRTFEBConfiguration.cc:204-243 | each maximum is 2^width - 1 of the parameter's bits |
| FebConfiguration.DecodeEncode | sbndaq-artdaq/Generators/Common/BernCRTFEBConfiguration.cc:299-325 | settings survive the register exactly when every number is within its maximum |
| FebConfiguration.AcceptedSurvives | sbndaq-artdaq/Generators/Common/BernCRTFEBConfiguration.cc:246-297 | a named configuration is in range exactly when every one of its settings survives the register |
| FebConfiguration.EncodeDecode | sbndaq-artdaq/Generators/Common/BernCRTFEBConfiguration.cc:299-325 | every 143-byte register content survives the named parameters |
| FebConfiguration.NumberThroughRegister | sbndaq-artdaq/Generators/Common/BernCRTFEBConfiguration.cc:387-428 | a number comes back modulo one more than its maximum |
| FebConfiguration.DecodedSettingsAreInRange | sbndaq-artdaq/Generators/Common/BernCRTFEBConfiguration.cc:313-325 | parameters read from any image are in range |
| FebConfiguration.SwitchInRegister | sbndaq-artdaq/Generators/Common/BernCRTFEBConfiguration.cc:131-202 | which switches are stored inverted, by their register bits |
| FebConfiguration.BernCRTFEBConfiguration.SetBits | sbndaq-artdaq/Generators/Common/BernCRTFEBConfiguration.cc:421-428 | replaces exactly the field's bits by the number, most significant first |
| FebConfiguration.BernCRTFEBConfiguration.GetBits | sbndaq-artdaq/Generators/Common/BernCRTFEBConfiguration.cc:387-396 | the number the field's bits spell |
| FebConfiguration.BernCRTFEBConfiguration.HumanToBitstream | sbndaq-artdaq/Generators/Common/BernCRTFEBConfiguration.cc:299-311 | whatever the image held and in whatever order the maps are walked, it becomes the encoding of the parameters |
| FebConfiguration.BernCRTFEBConfiguration.BitstreamToHuman | sbndaq-artdaq/Generators/Common/BernCRTFEBConfiguration.cc:313-325 | every parameter takes the value the image spells, the layout staying as it is |
| FebConfiguration.BernCRTFEBConfiguration.ReadHumanReadableParameters | sbndaq-artdaq/Generators/Common/BernCRTFEBConfiguration.cc:246-297 | takes over exactly the configurations with every name there and every number within its maximum, and writes an image that gives them back; it throws only when a name is missing, refuses only what is out of range, and then writes no image |
| FebText.ASCIIToBitStream | sbndaq-artdaq/Generators/Common/BernCRTFEBConfiguration.cc:327-364 | succeeds exactly when the bits before the first foreign character of each line number nBits, and then stores them; on failure leaves all zeros |
| FebText.BitsToASCII | sbndaq-artdaq/Generators/Common/BernCRTFEBConfiguration.cc:430-444 | the digits of the bits of a range, nothing for an empty range, or a dash past the end |
| FebText.GetBitStreamString | sbndaq-artdaq/Generators/Common/BernCRTFEBConfiguration.cc:507-607 | prints the whole register line by line |
| FebText.NextLine | sbndaq-artdaq/Generators/Common/BernCRTFEBConfiguration.cc:507-607 | printed lines follow one another without gap up to the last bit |
| FebText.ReloadPrinted | sbndaq-artdaq/Generators/Common/BernCRTFEBConfiguration.cc:327-364 | printed text parses exactly when no line's separator and comment begin with bits, and the image parsed from it is the printed one |
| FebText.DefaultSeparatorReloads | sbndaq-artdaq/Generators/Common/BernCRTFEBConfiguration.cc:507-607 | with the default separator every image is read back, whatever the comments |
| FebText.BlankSeparatorFails | sbndaq-artdaq/Generators/Common/BernCRTFEBConfiguration.cc:507-607 | with a blank separator a comment that begins with a bit makes the text too long |
| PoolBuffers.TakeFreeMovesBlock | sbndaq-artdaq/Generators/Common/PoolBuffer.hh:154-165 | taking a free block removes that block and no other from the pool |
| PoolBuffers.TakeActiveMovesBlock | sbndaq-artdaq/Generators/Common/PoolBuffer.hh:167-175 | the oldest queued block leaves the pool, and no other |
| PoolBuffers.ReturnMovesBlock | sbndaq-artdaq/Generators/Common/PoolBuffer.hh:177-189 | a block given back to either queue is the only one added |
| PoolBuffers.LowWaterMarkIsMinimum | sbndaq-artdaq/Generators/Common/PoolBuffer.hh:154-165 | over any history the gauges are the minimum free count and the number of drains |
| PoolBuffers.AcceptedGeometry | sbndaq-artdaq/Generators/Common/PoolBuffer.hh:313-340 | an accepted pool is exactly its 64-byte-multiple blocks, at least one, within the requested size |
| PoolBuffers.BlockFitsUnlessWrapped | sbndaq-artdaq/Generators/Common/PoolBuffer.hh:327-335 | usable bytes and red zone fit in a block exactly when their sum does not wrap |
| PoolBuffers.WrappedBlockSizeIsAccepted | sbndaq-artdaq/Generators/Common/PoolBuffer.hh:327-335 | such a wrapped request is accepted |
| PoolBuffers.SlicesDisjoint | sbndaq-artdaq/Generators/Common/PoolBuffer.hh:344-351 | blocks are disjoint and inside the pool |
| PoolMemory.PatchIsLocal | sbndaq-artdaq/Generators/Common/PoolBuffer.hh:262-264 | writing into a block changes nothing behind the bytes written and no other block |
| PoolMemory.PoolBuffer.Allocate | sbndaq-artdaq/Generators/Common/PoolBuffer.hh:313-355 | which requests are refused and how, changing nothing; on success the block size and red zones are as asked for, the pool is divided into whole blocks, all blocks are free, red zones in place |
| PoolMemory.PoolBuffer.TakeFreeBlock | sbndaq-artdaq/Generators/Common/PoolBuffer.hh:154-165 | hands out a block nobody else has, queued data untouched |
| PoolMemory.PoolBuffer.TakeActiveBlock | sbndaq-artdaq/Generators/Common/PoolBuffer.hh:167-175 | hands out the oldest queued data |
| PoolMemory.PoolBuffer.ReturnFreeBlock | sbndaq-artdaq/Generators/Common/PoolBuffer.hh:177-183 | clears the block's size, queued data untouched |
| PoolMemory.PoolBuffer.ReturnActiveBlock | sbndaq-artdaq/Generators/Common/PoolBuffer.hh:185-189 | the block's data goes behind all queued data |
| PoolMemory.PoolBuffer.Fill | sbndaq-artdaq/Generators/Common/PoolBuffer.hh:262-265 | filling a held block disturbs no other block and no red zone |
| PoolMemory.PoolBuffer.VerifyRedzone | sbndaq-artdaq/Generators/Common/PoolBuffer.hh:37-46 | passes exactly when the block's last bytes are the red-zone pattern |
| PoolMemory.PoolBuffer.Write | sbndaq-artdaq/Generators/Common/PoolBuffer.hh:241-272 | takes just the top free block, queues the bytes behind everything queued and counts them, or reports too large or full and changes nothing |
| PoolMemory.PoolBuffer.Read | sbndaq-artdaq/Generators/Common/PoolBuffer.hh:274-311 | delivers a prefix of the oldest data written, dequeues it, counts it and puts just its block, emptied, on the free stack, or reports too large or empty and changes no queue; no block ever leaves the pool |
| EventCounter.SequenceIdsAreTrue | sbndaq-artdaq/Generators/Common/CAENV1730Readout_generator.cc:1328-1343 | over a whole run sequence ids are the true event numbers exactly when every advance is followed |
| EventCounter.StepIsRight | sbndaq-artdaq/Generators/Common/CAENV1730Readout_generator.cc:1335-1343 | one unwrapping step is right exactly for a followed advance |
| EventCounter.ShortAdvancesAreFollowed | sbndaq-artdaq/Generators/Common/CAENV1730Readout_generator.cc:1335-1339 | advances of at most 1,677,722 are always followed |
| EventCounter.FirstAdvanceThatCanFail | sbndaq-artdaq/Generators/Common/CAENV1730Readout_generator.cc:1335-1339 | an advance of 1,677,723 into the next epoch is not followed and falls back to id 0 |
| EventCounter.GapIsAdvance | sbndaq-artdaq/Generators/Common/CAENV1730Readout_generator.cc:1209-1212 | the masked gap is the true advance modulo 2^24 |
| EventCounter.GapsTelescope | sbndaq-artdaq/Generators/Common/CAENV1730Readout_generator.cc:1209-1229 | gaps add up to the true number of triggers exactly when no advance reaches 2^24 |
| TimeRecovery.FormsAgree | sbndaq-artdaq/Generators/Common/BernCRTZMQ_GeneratorBase.cc:401-409 | the branch-free and the branching form give the same time |
| TimeRecovery.NearestSecondBounds | sbndaq-artdaq/Generators/Common/BernCRTData_generator.cc:171-176 | the time keeps the reading's residue and is within half a second of the mean exactly for readings near a second |
| TimeRecovery.RecoveredTimes | sbndaq-artdaq/Generators/Common/BernCRTData_generator.cc:171-176 | exactly which true times are recovered from their nanoseconds |
| TimeRecovery.PpsAdjustedIsModulo | sbndaq-artdaq/Generators/Common/BernCRTData_generator.cc:165-169 | the cable delay is added modulo one second, also when negative |
| TimeRecovery.PpsSumFits | sbndaq-artdaq/Generators/Common/BernCRTData_generator.cc:165-169 | a decoded reading plus a cable delay of up to a second stays in signed 32-bit arithmetic |
| TimeRecovery.HitTimeIsRecovered | sbndaq-artdaq/Generators/Common/BernCRTData_generator.cc:160-177 | a hit inside a poll window shorter than 1 s - 2 ns gets its true time |
| TimeRecovery.WiderWindowCanFail | sbndaq-artdaq/Generators/Common/BernCRTData_generator.cc:171-176 | with a window of 1 s - 2 ns it can fail |
| TimeRecovery.EventTimeIsRecovered | sbndaq-artdaq/Generators/Common/CAENV1730Readout_generator.cc:1148-1184 | in both time-tag modes, for every 32-bit tag, a V1730 event gets its true time up to the configured offset exactly when its tag stands for a time within 1.5 s of the mean poll time's nanoseconds, as every time below a second is |
| TimeRecovery.LongTagIsLate | sbndaq-artdaq/Generators/Common/CAENV1730Readout_generator.cc:1158-1168 | an event with a tag of two seconds, polled around a whole second, is stamped a second late |
| TimeRecovery.ShiftIsTruncated | sbndaq-artdaq/Generators/Common/CAENV1730Readout_generator.cc:1171-1178 | with the shift, a tag is eight nanoseconds a tick less two nanoseconds for each sample after the trigger, truncated towards zero |
| TimeRecovery.PollEndIsLate | sbndaq-artdaq/Generators/Common/CAENV1730Readout_generator.cc:1180-1184 | stamped with the end of the poll, an event is late by at most the window, and on time only at its end |
| V1730Protocol.ReadoutIsRight | sbndaq-artdaq/Generators/Common/CAENV1730Readout_generator.cc:1028-1391 | over every interleaving, no event in flight ever loses its timestamp exactly when every stamp has a counter not in flight; then every fragment has its own event's timestamp, look-ups never fail, and the map holds just the events in flight, at most blockCount + 1 |
| V1730Protocol.NothingIsLost | sbndaq-artdaq/Generators/Common/CAENV1730Readout_generator.cc:1028-1391 | over every interleaving of any events: no block is lost or duplicated, fragments are the stamped events in order, the rest are in flight, and ids are those of unwrapping |
| V1730Protocol.FragmentsAreNumbered | sbndaq-artdaq/Generators/Common/CAENV1730Readout_generator.cc:1328-1346 | over every interleaving, fragments bear their true numbers exactly when every advance between them is followed |
| V1730Protocol.StepOwnsBlocks | sbndaq-artdaq/Generators/Common/PoolBuffer.hh:154-189 | every step keeps the free stack, the active queue and the held blocks together equal to all blocks |
| V1730Protocol.PassesGiveBlocksBack | sbndaq-artdaq/Generators/Common/CAENV1730Readout_generator.cc:1028-1238 | over every interleaving, with nothing held the pool has all its blocks |
| V1730Protocol.StampServes | sbndaq-artdaq/Generators/Common/CAENV1730Readout_generator.cc:1187-1190 | inserting a timestamp leaves every event in flight served exactly when none has the same counter |
| V1730Protocol.ServesMeans | sbndaq-artdaq/Generators/Common/CAENV1730Readout_generator.cc:1348-1391 | fetching in order gives every event in flight its own timestamp exactly when the counters differ and the map has each one's |
| V1730Protocol.SharedCounterMisdates | sbndaq-artdaq/Generators/Common/CAENV1730Readout_generator.cc:1187-1391 | a run of two events 2^24 triggers apart: the first is sent with the second's timestamp, the second with a made-up one |
| V1730Protocol.SmallAdvancesAreFresh | sbndaq-artdaq/Generators/Common/CAENV1730Readout_generator.cc:1187-1232 | over every interleaving, a pool small enough for the trigger advances makes every stamp fresh |
| V1730Protocol.FlightIsBounded | sbndaq-artdaq/Generators/Common/CAENV1730Readout_generator.cc:1187-1232 | at most blockCount + 1 events are in flight |
| V1730Protocol.LookUpSucceeds | sbndaq-artdaq/Generators/Common/CAENV1730Readout_generator.cc:1348-1391 | as long as stamps are fresh the first look-up finds the timestamp, so the retries and the made-up one are unreachable |
| V1730Readout.V1730Readout.ReadWindowDataBlocks | sbndaq-artdaq/Generators/Common/CAENV1730Readout_generator.cc:962-1248 | queues the good reads up to the first bad one, publishes their times, counts their gaps, gives every block back unless it throws, and tells a failed read, which stops, from the normal end of a pass, which goes on |
| V1730Readout.V1730Readout.ReadBlock | sbndaq-artdaq/Generators/Common/CAENV1730Readout_generator.cc:1028-1238 | one turn of the loop: the block taken is queued, returned or, on an exception, missing; whether the pass goes on, ends, stops or throws follows from the read |
| V1730Readout.TriggersOfEvents | sbndaq-artdaq/Generators/Common/CAENV1730Readout_generator.cc:1209-1229 | the triggers counted in a pass are the true ones exactly when no advance reaches 2^24 |
| V1730Readout.V1730Readout.NextSequenceId | sbndaq-artdaq/Generators/Common/CAENV1730Readout_generator.cc:1335-1346 | the id follows from the unwrapper's next state |
| V1730Readout.V1730Readout.NumberFragments | sbndaq-artdaq/Generators/Common/CAENV1730Readout_generator.cc:1307-1346 | a run of fragments gets the ids the unwrapping lemmas speak about |
| V1730Readout.V1730Readout.TakeTimestamp | sbndaq-artdaq/Generators/Common/CAENV1730Readout_generator.cc:1348-1391 | a timestamp found is returned and used up, otherwise nothing changes |
| V1730Readout.V1730Readout.BufferCrashEvent | sbndaq-artdaq/Generators/Common/CAENV1730Readout_generator.cc:1781-1791 | the crash buffer always holds the latest sixteen events |
| BottomCrt.SyncsAreCounted | sbndaq-artdaq/Generators/ICARUS/CRTFragGen_generator.cc:206-302 | for a continuously read module the syncs since its first reading are counted right after every reading exactly when every reading is counted: at most 5 ms late, below the 68.7 s of the 32-bit counter, resets seen and missed pulses noticed; then each reading stays within its grace-extended period |
| BottomCrt.StepStaysInStep | sbndaq-artdaq/Generators/ICARUS/CRTFragGen_generator.cc:206-302 | one reading, as the 32-bit counter shows it, keeps the count right exactly when it is counted, missed pulses and late readings included |
| BottomCrt.DisorderCountsPulse | sbndaq-artdaq/Generators/ICARUS/CRTFragGen_generator.cc:256-302 | a reading 6 ms late counts as a pulse |
| BottomCrt.CounterRangeCountsPulses | sbndaq-artdaq/Generators/ICARUS/CRTFragGen_generator.cc:206-302 | a module read every 6.9 s that receives no pulse has nine counted after 69 s |
| BottomCrt.UnnoticedPulsesAreLost | sbndaq-artdaq/Generators/ICARUS/CRTFragGen_generator.cc:256-302 | a reset adds one pulse and those noticed before it; the count is behind by the others |
| BottomCrt.ModulesAreIndependent | sbndaq-artdaq/Generators/ICARUS/CRTFragGen_generator.cc:247-318 | however modules' packets interleave, each module is tracked as if alone |
| BottomCrt.TimestampsAreTrue | sbndaq-artdaq/Generators/ICARUS/CRTFragGen_generator.cc:216-318 | over every interleaving, for a module that reports continuously and whose own readings are counted, whatever the others do, every timestamp is the true time less 7 s for each pulse between the run's first packet and the module's, plus the wiring correction missing from a first event; so, the run's first reading being in the counter's range, it is true exactly when both are nothing |
| BottomCrt.LateModuleIsEarly | sbndaq-artdaq/Generators/ICARUS/CRTFragGen_generator.cc:216-249 | two packets 0.2 s apart, a pulse between them, are stamped 6.8 s apart the wrong way |
| BottomCrt.RunStartIsFixed | sbndaq-artdaq/Generators/ICARUS/CRTFragGen_generator.cc:216-219 | the first complete packet fixes the run start for good |
| BottomCrt.UsableIsLongest | sbndaq-artdaq/Generators/ICARUS/CRTFragGen_generator.cc:110-139 | one call takes the longest run of complete packets, at most 64 |
| BottomCrt.FragGen.BuildFragment | sbndaq-artdaq/Generators/ICARUS/CRTFragGen_generator.cc:165-340 | advances one module and no other, and makes the fragment the state machine names |
| BottomCrt.FragGen.GetNext | sbndaq-artdaq/Generators/ICARUS/CRTFragGen_generator.cc:90-163 | stops exactly when told to; otherwise the fragments of the usable packets, when it throws, and the extra event count of a call that made any |
| BottomCrt.FragGen.Start | sbndaq-artdaq/Generators/ICARUS/CRTFragGen_generator.cc:343-352 | adds slots for modules and keeps those of an earlier run |
| BottomCrt.RestartGoesOn | sbndaq-artdaq/Generators/ICARUS/CRTFragGen_generator.cc:343-352 | the fragments of a second run are those of both runs' packets as one run |
| FebDriver.UngrayGray | sbndaq-artdaq/Generators/Common/febdrv.cc:482-500 | decoding inverts the Gray code, for numbers of any width |
| FebDriver.GrayUngray | sbndaq-artdaq/Generators/Common/febdrv.cc:482-500 | encoding inverts decoding |
| FebDriver.GrayIsXor | sbndaq-artdaq/Generators/Common/febdrv.cc:482-500 | the code is n xor n/2, bit by bit |
| FebDriver.OneBitChanges | sbndaq-artdaq/Generators/Common/febdrv.cc:482-500 | consecutive numbers differ in exactly one code bit |
| FebDriver.GrayToBin | sbndaq-artdaq/Generators/Common/febdrv.cc:482-500 | the three bit loops decode every 32-bit word |
| FebDriver.HitBits | sbndaq-artdaq/Generators/Common/febdrv.cc:502-559 | which bit of which byte every bit of a decoded hit comes from: numbers least significant byte first, times in Gray code above two plain bits, with the flags on top |
| FebDriver.ProcessSingleHit | sbndaq-artdaq/Generators/Common/febdrv.cc:502-559 | decodes the hit at the index and moves the index past exactly its bytes |
| FebDriver.DecodeEncode | sbndaq-artdaq/Generators/Common/febdrv.cc:502-559 | every measurement a board can send is recovered, times being 5 ns later |
| FebDriver.PayloadIsDecoded | sbndaq-artdaq/Generators/Common/BernCRTData_generator.cc:221-237 | so is every payload of them, hit by hit |
| FebDriver.DecodedTimesAreBounded | sbndaq-artdaq/Generators/Common/febdrv.cc:519-545 | decoded times are at most 2^30 + 4, whatever the bytes |
| FebDriver.ReadHits | sbndaq-artdaq/Generators/Common/BernCRTData_generator.cc:221-237 | the loop appends the reference decodings of consecutive whole hits, reading each byte once |
| FebDriver.OnlyReceivedBytes | sbndaq-artdaq/Generators/Common/BernCRTData_generator.cc:229-236 | only received bytes are decoded exactly when the payload is made of whole hits |
| FebDriver.BufferSuffices | sbndaq-artdaq/Generators/Common/BernCRTData_generator.cc:229-236 | up to which payload size the loop stays inside the packet |
| FebDriver.SizeCheck | sbndaq-artdaq/Generators/Common/febdrv.cc:584-587 | the check accepts exactly packets made of whole hits |
| CrtData.NumberingIsSeamless | sbndaq-artdaq/Generators/Common/BernCRTData_generator.cc:251-263 | over all polls: numbers grow by one plus the lost hits, each report is charged once to the next hit even across polls, and the last accepted time is the previous hit's |
| CrtData.LossesOfHits | sbndaq-artdaq/Generators/Common/BernCRTData_generator.cc:255-260 | the loss used for a hit is the estimate at the rate of the hit's own poll, the whole hits in the dead time at that rate, and the 8-bit report of that very hit |
| CrtData.HitsInPollsAddUp | sbndaq-artdaq/Generators/Common/BernCRTData_generator.cc:245-315 | hits_in_poll counts hits read and lost, and adds up over polls to the last hit number |
| CrtData.ReportsAreChargedOnce | sbndaq-artdaq/Generators/Common/BernCRTData_generator.cc:255-260 | everything reported before the last hit is charged exactly when no such report exceeds 255 |
| CrtData.RateIsEstimate | sbndaq-artdaq/Generators/Common/BernCRTData_generator.cc:243-243 | the rate of 32 and 16-bit counts is at most the hits detected per hit read, it is those exactly when the sum fits 32 bits, and one exactly when nothing was lost |
| CrtData.RateIsRight | sbndaq-artdaq/Generators/Common/BernCRTData_generator.cc:311-312 | the next rate is that of the hits read exactly for fewer than 65536 hits or no loss; the counts kept are the true ones exactly below 65536 hits and 2^32 losses |
| CrtData.HitCountWraps | sbndaq-artdaq/Generators/Common/BernCRTData_generator.cc:311-312 | after a poll of 65536 hits the rate is one plus a thousand for every hit lost in it |
| CrtData.FEB.NumberHits | sbndaq-artdaq/Generators/Common/BernCRTData_generator.cc:251-263 | the loop numbers the hits as the functions do and adds up the carries it charges |
| CrtData.FEB.ProcessPoll | sbndaq-artdaq/Generators/Common/BernCRTData_generator.cc:243-340 | a poll moves the board to its next state, counts its hits and splits them; its fragments hold these very hits in order, each with the time whose nanoseconds are its reading plus cable delay, if the poll window, shorter than 1 s - 2 ns, has one |
| CrtData.SplitHits | sbndaq-artdaq/Generators/Common/BernCRTData_generator.cc:320-340 | fragments are nonempty maximal runs of one window that concatenate to the hits, with right counts and times |
| CrtData.SplitIsUnique | sbndaq-artdaq/Generators/Common/BernCRTData_generator.cc:320-340 | there is only one such split |
| CrtData.HitsAreNearTheirFragment | sbndaq-artdaq/Generators/Common/BernCRTData_generator.cc:329-329 | every hit is within half a period of its fragment's time |
| CrtBuffer.DeliveredExactlyOnce | sbndaq-artdaq/Generators/Common/BernCRT_GeneratorBase.cc:188-268 | over every interleaving pushed fragments are conserved, and those not discarded are delivered once in order exactly when none was overwritten |
| CrtBuffer.SequenceIdsAreConsecutive | sbndaq-artdaq/Generators/Common/BernCRT_GeneratorBase.cc:206-258 | ids are consecutive over all boards, and nothing is sent while discarding |
| CrtBuffer.ConsumerIsNeverStuck | sbndaq-artdaq/Generators/Common/BernCRT_GeneratorBase.cc:188-287 | the ring never holds fewer fragments than seen at the start of a fill |
| CrtBuffer.DiscardEnds | sbndaq-artdaq/Generators/Common/BernCRT_GeneratorBase.cc:195-204 | over every interleaving, fragments are discarded exactly until a fill begins with the delay over |
| CrtBuffer.NothingMoreIsDiscarded | sbndaq-artdaq/Generators/Common/BernCRT_GeneratorBase.cc:195-204 | once discarding has ended it stays off and no step discards a fragment |
| CrtBuffer.PushAllDrops | sbndaq-artdaq/Generators/Common/BernCRTData_generator.cc:318-340 | a poll overwrites exactly what does not fit |
| CrtBuffer.PushAllKeepsLatest | sbndaq-artdaq/Generators/Common/BernCRTData_generator.cc:318-340 | and leaves the latest fragments in the ring, in order |
| CrtBuffer.OverwriteSkipsFragment | sbndaq-artdaq/Generators/Common/BernCRT_GeneratorBase.cc:188-287 | a run in which an overwrite during a fill loses another fragment than the one counted |
| CrtBuffer.CrtGenerator.FillFragment | sbndaq-artdaq/Generators/Common/BernCRT_GeneratorBase.cc:183-277 | alone, it takes exactly the consumer's steps of a fill |
| CrtBuffer.CrtGenerator.PushFragments | sbndaq-artdaq/Generators/Common/BernCRTData_generator.cc:318-340 | the pushes of a poll are one producer step |
| ZmqGrouping.EveryEventIsSorted | sbndaq-artdaq/Generators/Common/BernCRTZMQ_GeneratorBase.cc:311-358 | every event but the trailer reaches its own board's buffer in order, exactly when the one right before the trailer does not bear its address or no board does |
| ZmqGrouping.TailIsLost | sbndaq-artdaq/Generators/Common/BernCRTZMQ_GeneratorBase.cc:311-358 | a packet whose one event bears the trailer's address leaves that board's buffer empty |
| ZmqGrouping.RouteKeepsNumbers | sbndaq-artdaq/Generators/Common/BernCRTZMQ_GeneratorBase.cc:188-205 | whatever the packets, a board's events are numbered without gaps |
| ZmqGrouping.SentTimestampsIncrease | sbndaq-artdaq/Generators/Common/BernCRTZMQ_GeneratorBase.cc:425-445 | timestamps sent by a board strictly increase and each names the one before |
| ZmqGrouping.SentAreRecords | sbndaq-artdaq/Generators/Common/BernCRTZMQ_GeneratorBase.cc:411-435 | an event is sent exactly when it is in sync and later than everything in sync before it |
| ZmqGrouping.InRangeIsSent | sbndaq-artdaq/Generators/Common/BernCRTZMQ_GeneratorBase.cc:389-455 | while the widened poll times stay within 64 bits, the next event is sent exactly when it is within them and later than the last one sent, as far as each is asked for, with its own time and the last one's |
| ZmqGrouping.WrappedRangeSendsNothing | sbndaq-artdaq/Generators/Common/BernCRTZMQ_GeneratorBase.cc:411-424 | with a tolerance larger than the start of the poll before, the lower end wraps and no event is sent |
| ZmqGrouping.SentAreInRange | sbndaq-artdaq/Generators/Common/BernCRTZMQ_GeneratorBase.cc:389-455 | every event sent bears its own time, and if asked for lies in the widened poll times it was stored with |
| ZmqGrouping.UnfilteredIsAllSent | sbndaq-artdaq/Generators/Common/BernCRTZMQ_GeneratorBase.cc:411-455 | with both options off every event is sent, in order |
| ZmqGrouping.CallsJoin | sbndaq-artdaq/Generators/Common/BernCRTZMQ_GeneratorBase.cc:371-470 | it makes no difference in how many calls the events are sent |
| ZmqGrouping.OmissionsAreCounted | sbndaq-artdaq/Generators/Common/BernCRTZMQ_GeneratorBase.cc:441-445 | reported omissions are the true ones modulo 2^32, except one too few in a run's first fragment |
| ZmqGrouping.FirstOmissionWraps | sbndaq-artdaq/Generators/Common/BernCRTZMQ_GeneratorBase.cc:441-445 | a first event that follows no omission reports 2^32 - 1 |
| ZmqGrouping.TimestampIsHitTimestamp | sbndaq-artdaq/Generators/Common/BernCRTZMQ_GeneratorBase.cc:389-409 | events are timed as in the other CRT generator |
| ZmqGrouping.ZmqGenerator.GetData | sbndaq-artdaq/Generators/Common/BernCRTZMQ_GeneratorBase.cc:225-366 | which packets are refused and why, without touching any buffer; others are sorted, what they add to the buffers bearing their own poll times and those of the packet before |
| ZmqGrouping.AcceptedPackets | sbndaq-artdaq/Generators/Common/BernCRTZMQ_GeneratorBase.cc:237-309 | sorted are exactly packets of as many whole events as the trailer counts, with the trailer's control fields and version |
| ZmqGrouping.ZmqGenerator.Sort | sbndaq-artdaq/Generators/Common/BernCRTZMQ_GeneratorBase.cc:311-358 | the loop with its running group does what the sorting lemmas speak about |
| ZmqGrouping.ZmqGenerator.InsertIntoFebBuffer | sbndaq-artdaq/Generators/Common/BernCRTZMQ_GeneratorBase.cc:163-208 | appends a group with consecutive event numbers to its board only |
| ZmqGrouping.ZmqGenerator.FillFragment | sbndaq-artdaq/Generators/Common/BernCRTZMQ_GeneratorBase.cc:371-473 | sends the accepted events with consecutive ids, each with its own time and in range if asked for, all of them with both options off, empties the board's buffer and remembers the last |
| ZmqBuffer.EventsAreJudgedOnce | sbndaq-artdaq/Generators/Common/BernCRTZMQ_GeneratorBase.cc:163-473 | over every interleaving the ring never overflows, events are numbered as stored, those seen are judged once and in order, as by one pass of the filter, sent ones in range if asked for, and the rest are in the ring |
| ZmqBuffer.NobodyIsStuck | sbndaq-artdaq/Generators/Common/BernCRTZMQ_GeneratorBase.cc:163-473 | the sending thread has exactly one thing to do in every state, and an insertion that has seen room overwrites nothing |
| ZmqBuffer.RoomComesIfItFits | sbndaq-artdaq/Generators/Common/BernCRTZMQ_GeneratorBase.cc:171-175 | in every reachable state, the sending thread makes room for a waiting group exactly when the group is no larger than the ring |
| PhysCrate.FramingIsRight | sbndaq-artdaq/Generators/ICARUS/PhysCrate_GeneratorBase.cc:143-272 | over every interleaving, as long as no fragment is to hold two tiles of odd size, the buffer starts at a tile and fits its capacity, every fragment is the next tile of every board, and words inserted are words sent plus words buffered |
| PhysCrate.LookingIsHarmless | sbndaq-artdaq/Generators/ICARUS/PhysCrate_GeneratorBase.cc:143-212 | early returns change no data, and with all boards' tiles present none happens |
| PhysCrate.RoomComesIfItFits | sbndaq-artdaq/Generators/Common/CircularBuffer.hh:82-83 | in every reachable state, the consumer makes room for a waiting tile exactly when it fits together with the tiles of its fragment already there |
| PhysCrate.FragmentFits | sbndaq-artdaq/Generators/Common/CircularBuffer.hh:82-83 | so no tile of a fragment waits for ever exactly when the fragment's tiles fit the buffer together |
| PhysCrate.ScanOfTiles | sbndaq-artdaq/Generators/ICARUS/PhysCrate_GeneratorBase.cc:166-212 | a scan finds the tiles of all boards exactly when they are there |
| PhysCrate.TilesAreFound | sbndaq-artdaq/Generators/ICARUS/PhysCrate_GeneratorBase.cc:166-212 | the scan finds every tile at its own place exactly when at most one is of odd size |
| PhysCrate.ScanIsSent | sbndaq-artdaq/Generators/ICARUS/PhysCrate_GeneratorBase.cc:166-212 | a scan sends exactly when a header with its data is found at every place, and what the last place says |
| PhysCrate.OddTilesAreMisframed | sbndaq-artdaq/Generators/ICARUS/PhysCrate_GeneratorBase.cc:166-212 | when the boards before the last have at most one tile of odd size, a scan sends the boards' tiles exactly when all have at most one, else a word more |
| PhysCrate.WrongHeaderCanAddUp | sbndaq-artdaq/Generators/ICARUS/PhysCrate_GeneratorBase.cc:166-212 | three tiles, two of odd size, that are sent right although a header was read one word off |
| PhysCrate.PhysCrateGenerator.GetNext | sbndaq-artdaq/Generators/ICARUS/PhysCrate_GeneratorBase.cc:110-349 | what is sent, kept, counted and numbered in each outcome of a scan; a fragment whose boards disagree is taken out but ends the run |
| PhysCrate.PhysCrateGenerator.GetData | sbndaq-artdaq/Generators/ICARUS/PhysCrateData_generator.cc:408-444 | inserts every tile but bare headers, in order, and counts its bytes |
| PhysCrate.NetworkOrder | sbndaq-artdaq/Generators/ICARUS/PhysCrateData_generator.cc:412-412 | a tile's size is read from its four bytes most significant first |
| PhysCrate.WholeTilesAreInserted | sbndaq-artdaq/Generators/ICARUS/PhysCrateData_generator.cc:408-444 | what is inserted of tiles as long as their size is whole tiles, as the framing needs |
| PhysCrate.PhysCrateGenerator.CheckBoards | sbndaq-artdaq/Generators/ICARUS/PhysCrate_GeneratorBase.cc:290-329 | consistent exactly when all boards agree on the event number, which then gives the sequence id, one higher from a run's event 0 on |
| PhysCrate.CircularBuffer.Insert | sbndaq-artdaq/Generators/Common/CircularBuffer.hh:76-94 | appends within the capacity |
| PhysCrate.CircularBuffer.EraseBegin | sbndaq-artdaq/Generators/Common/CircularBuffer.hh:97-110 | drops the oldest words |
| GateFilter.ScanMask | sbndaq-artdaq/ArtModules/SBND/SBNDGateFilter_module.cc:96-101 | the lowest-set-bit loop ends and lists the set bits below 20 in order |
| GateFilter.ClearsLowestBit | sbndaq-artdaq/ArtModules/SBND/SBNDGateFilter_module.cc:98-98 | m & (m - 1) clears the lowest set bit and no other |
| GateFilter.SetBitsAre | sbndaq-artdaq/ArtModules/SBND/SBNDGateFilter_module.cc:96-101 | the list holds exactly the set bits below the limit, ascending |
| GateFilter.GetAllHlts | sbndaq-artdaq/ArtModules/SBND/SBNDGateFilter_module.cc:71-83 | the triggers of all high-level trigger words of a container, in order |
| GateFilter.FilterIsMaskFormula | sbndaq-artdaq/ArtModules/SBND/SBNDGateFilter_module.cc:71-166 | an event passes exactly when, in the or of its masks, no bit below 20 is excluded and some is wanted |
| GateFilter.ApplyGateFilter | sbndaq-artdaq/ArtModules/SBND/SBNDGateFilter_module.cc:112-166 | the decision: some trigger wanted and none excluded |
| GateFilter.ExclusionsAreTruncated | sbndaq-artdaq/ArtModules/SBND/SBNDGateFilter_module.cc:139-143 | just the listed triggers are excluded exactly when every exclusion cut to a number below 20 is cut to a listed one |
| GateFilter.FilterIsAsListed | sbndaq-artdaq/ArtModules/SBND/SBNDGateFilter_module.cc:112-166 | all events are filtered as the settings read exactly when truncation is harmless or nothing can pass anyway |
| GateFilter.HltMaskBits | sbndaq-artdaq/ArtModules/SBND/SBNDGateFilter_module.cc:94-94 | the mask keeps the bits of a trigger word below 61 |
| GateFilter.Filter | sbndaq-artdaq/ArtModules/SBND/SBNDGateFilter_module.cc:171-208 | only the first container decides, and an event without one fails |
| FragmentWatcher.MissingCountsAbsences | sbndaq-artdaq/ArtModules/ICARUS/IcarusFragmentWatcher_module.cc:190-216 | an id is counted missing exactly in the events without it after the first one with it |
| FragmentWatcher.ExpectedIsUnion | sbndaq-artdaq/ArtModules/ICARUS/IcarusFragmentWatcher_module.cc:190-200 | the expected ids are those of all events so far |
| FragmentWatcher.PresentIsExpectedLessMissing | sbndaq-artdaq/ArtModules/ICARUS/IcarusFragmentWatcher_module.cc:255-256 | expected size minus missing count is the number of distinct ids in the event |
| FragmentWatcher.EmptyInstances | sbndaq-artdaq/ArtModules/ICARUS/IcarusFragmentWatcher_module.cc:223-225 | fragments count as empty exactly when their instance's name has Empty in it somewhere |
| FragmentWatcher.EmptyFragmentsAreCounted | sbndaq-artdaq/ArtModules/ICARUS/IcarusFragmentWatcher_module.cc:218-245 | an event's empty fragments are all those of such instances |
| FragmentWatcher.EmptyWithIdAreCounted | sbndaq-artdaq/ArtModules/ICARUS/IcarusFragmentWatcher_module.cc:218-245 | and an id's count of them is that of those with the id |
| FragmentWatcher.IcarusFragmentWatcher.Analyze | sbndaq-artdaq/ArtModules/ICARUS/IcarusFragmentWatcher_module.cc:182-256 | after every event the expected set and both count maps state the whole history |

## Left out

- Sockets, ioctl, CAEN, VME, ZeroMQ and redis calls, register configuration, sleeps, threads' creation and real clocks: bytes, counters and times are inputs.
- Logging, metrics, FHiCL reading, debug dumps, the human-readable printer of the configuration, and the probe register.
- The overlays of sbndaq-artdaq-core, artdaq fragments and boost::circular_buffer are not part of this model: payloads are opaque, rings are bounded sequences, and the field widths of the CRT hit record other than those named above are unbounded.
- Raw pointers and the linearization of the circular buffer: a sequence of words. Torn reads of a ring slot that is being overwritten.
- Floating-point rounding: the hit-rate ratio, fragment times and the 0.2 s grace are exact.
- Condition-variable waits and waits for room: a wait is the second attempt after it, or the requirement that there is room.
- PoolBuffer deallocation, its debug output, and which of a new pool's bytes are left unset.
- How the V1730 consumer makes up a timestamp it does not find, and its metrics: the made-up one is arbitrary.
- The watcher's counters by subsystem, its percentages and its per-mode metrics.
- The trigger-string generators, the dump and analyzer modules, and headers that only declare.
- FebText.GetBitStreamString: the line layout is a table instead of the source's written-out lines, and the comments are arbitrary text.
- PhysCrate.FramingIsRight: tiles hold more than their header and are as long as their packSize says, an odd last byte being dropped, which the source's code does not check.
- PhysCrate.PhysCrateGenerator.GetData: the wait for room between tiles; there is room for all of them at once. The state machine of PhysCrate.FramingIsRight has the wait.
- PhysCrate.CircularBuffer.Insert: the wait for room in a full buffer.
- FebDriver.ReadHits: asks for a payload that fits the packet buffer, which the source does not check; FebDriver.BufferSuffices says which do.
- CrtData.FEB.ProcessPoll: the run-long hit number is unbounded, and the calls of the hit loop over packets are one list of hits.
- BottomCrt.FragGen.BuildFragment: the metrics, the warnings about lagging data and the sanity check that is commented out; module numbers are those of the configured modules.
- ZmqGrouping.ZmqGenerator.GetData: the clock deviation kept with the events, and the calls that read the packet.
- ZmqGrouping.ZmqGenerator.InsertIntoFebBuffer: the wait for room and the ring's capacity, which ZmqBuffer.EventsAreJudgedOnce has.
- V1730Readout.V1730Readout.ReadWindowDataBlocks: the interrupt wait and its timeouts; poll times and timestamps are inputs.
- BottomCrt.SyncsAreCounted: modules that are not read for a sync period, which the source excludes, and modules first read more than 7.2 s after a pulse.
- FebConfiguration.BernCRTFEBConfiguration.ReadHumanReadableParameters: a value that is not a 16-bit number is refused as too large, where the file's reader throws.
- BottomCrt.RestartGoesOn: the event counter is artdaq's, and whether a start resets it is not part of this model.
