# A verified model of the KELO drive data viewer

The viewer shows the process data of EtherCAT slaves.  The data come either from a
live master, which exchanges them with the bus in one thread and hands them out in
another, or from a packet sniffer, which cuts them out of captured frames with the
help of a configuration file that a separate generator writes.  This project models
those parts in Dafny and proves what the program relies on:

* **Codec and layout** (`PackedCodec`, `SlaveData`, `ImageLayout`): packed
  little-endian structs, the structs of the three slave types, and the process image
  they tile.
* **Sniffer** (`Slaves`, `Sniffer`): which frames are decoded, what a capture leaves in
  the slaves, what the working counter message means.
* **Offset calculator and configuration** (`PdoMapping`, `SyncManagers`, `SlaveDescription`, `Discovery`,
  `ShippedConfigurations`):
  the walk over a slave's object dictionary, the sync manager workaround, and what
  generator, sniffer and master find on the same bus.
* **Live master** (`Acquisition`, `Snapshots`, `Iterations`, `Shutdown`, `Recovery`, `Master`): the two threads and
  their controller as a transition system over all interleavings and any number of
  sessions; `Master.MasterShowsWhatTheSnifferShows` joins it with everything above.
* **Sessions** (`Session`, `WindowClose`, `TuiStart`): bounded start-up, the buttons and the
  closing of the graphical interface, the terminal interface from its arguments on.
* **Publishing** (`Decimal`, `Publishing`, `ZmqHandles`, `PublisherLife`): JSON keys and native handles.

The wire, state checks, SDO uploads, the outcome of `try_lock`, file loading and the
library calls that may fail are parameters or open choices.  Floats are 32-bit words.
Of SOEM the model uses: the LRW command is 12, the datagram header `ec_comt` is 12 packed
bytes, `EC_MAXSM` is 8, and the dictionary objects are 0x1C00 and 0x1C10, the former a list of
one-byte types (section 5.6 of ETG.1000.6); the datagram is that of section 5.4 of ETG.1000.4.

`{:induction false}` stands on lemmas whose induction is written out and on those about
recursive functions where the automatic hypotheses would only slow the proof down.

## Findings

Where the program meets a promise only under a condition, the model states the condition and
gives an input that misses it.

* The outer loop of `si_PDOassign` has a 16-bit counter and never ends for a count of 65535
  (`CounterPassesCount`).
* With several sync managers per direction the start offset is the slave's pointer exactly
  when fewer than eight bits come before the last one that starts a PDO (`OffsetIsPointer`).
  Two output sync managers of 16 bits give an offset two bytes behind the pointer
  (`SecondSmMovesOffset`).  Sniffer and master agree on all images exactly when this does not
  happen to a drive or battery (`SourcesAgreeIff`).
* The type workaround is exact unless a slave maps its own type object 0x1C00 beyond two
  entries (`WorkaroundPreservesMapping`; failing slave: `SelfMappingIsMappedDifferently`).
* A generated configuration can be read back exactly when no EEPROM word of a listed slave
  reaches 2^31 (`ConfigReadableIff`; failing slave: `LargeEepromIsUnreadable`).
* From 21846 slaves on the working counter message is always printed, because 3n no longer
  fits 16 bits (`SilentIffAllServed`; failing frames: `WrappedCounterIsPrinted`, `ManyDrives`).
* JSON entries are lost exactly when two slaves share name and number (`JsonLosesNoSlave`;
  failing list: `TwinsShareAnEntry`).
* The terminal program binds its ZMQ port before it checks its arguments for completeness, so
  with a port that cannot be bound an incomplete command line ends in an exception and not in
  the usage text (`TuiStart.Run`; failing command line: `PortComesBeforeUsage`).
* README and usage text document `--enable_zmq`; the code accepts `--publish_zmq` and rejects
  the documented word (`DocumentedOptionRejected`).  The model follows the code.
* The window's base class destroys the source, and there the callback that the source's threads
  use is pure virtual.  Closing the window while threads run therefore ends well exactly when no
  callback is still to come and, for a sniffer, the capture ends by itself, because its destructor
  does not stop it (`Session.Gui.Close`).  A callback is still to come exactly when an accepted
  frame is (`SnifferCallbacks`; failing file: `OneFrameIsEnough`), or, for the master, when one is
  made before the flag is cleared or the publisher is then before or in one (`MasterCallbacks`;
  failing runs from every state: `ClosingCanMeetACallback`).
* A message whose `rebuild` fails stays closed and is closed again later: natively closed
  twice exactly when some rebuild failed (`ReleasedExactlyOnce`; failing program:
  `FailedRebuildIsClosedAgain`).

## Model

| member | source | states |
|---|---|---|
| PackedCodec.UnpackPack | src/kelo_drive_slave.cpp:157-161 | for any field widths, reading back a struct from its own bytes gives every value that fits its field |
| PackedCodec.PackUnpack | src/kelo_drive_slave.cpp:157-161 | for any field widths, no byte of a copied window is lost by reading it as a struct |
| PackedCodec.UnpackAt | include/KeloDriveAPI.h:159-169 | field k is the little-endian number at the sum of the widths before it |
| PackedCodec.LowByteFirst | src/kelo_drive_slave.cpp:157-161 | a four-byte word has its lowest byte first |
| SlaveData.DriveSizes | include/KeloDriveAPI.h:65-169 | the drive structs take 36 (RX) and 172 (TX) bytes |
| SlaveData.BatterySizes | include/RobileMasterBattery.h:48-76 | the battery structs take 12 and 68 bytes |
| SlaveData.BmsSizes | include/KeloEcPd.h:2-41 | the power distribution structs take 20 and 112 bytes |
| SlaveData.DriveRxOffsets | include/KeloDriveAPI.h:65-169 | byte offset of every field of the drive's RX struct; `DriveStatusOffsets`, `DriveMotorOffsets` and `DriveImuOffsets` say the same of the parts of its TX struct |
| SlaveData.DriveTxGroups | include/KeloDriveAPI.h:65-169 | status, two motors and IMU stand at bytes 0, 20, 68 and 116 of the drive's TX struct |
| SlaveData.BatteryTxGroups | include/RobileMasterBattery.h:48-76 | supply and battery stand at bytes 0 and 38 of the battery's TX struct |
| SlaveData.BmsTxGroups | include/KeloEcPd.h:2-41 | board and two batteries stand at bytes 0, 60 and 86 of the power distribution's TX struct |
| SlaveData.DriveTimestamps | src/kelo_drive_slave.cpp:11-112 | the four time stamps of a drive are its eight-byte fields |
| SlaveData.TablesMatchStructs | src/kelo_drive_slave.cpp:11-112 | every slave type has one variable name per struct field, RX and TX |
| SlaveData.RendersInTableOrder | src/kelo_drive_slave.cpp:218-281 | for every slave type, row k of both tables shows variable k beside the number that the image holds at field k's packed offset in the slave's window |
| SlaveData.TooltipShowsLowBytes | src/gui.cpp:418-430 | the word whose bits a tooltip explains, printed, parsed and cast to 16 bits, is the low two bytes of the field |
| SlaveData.TooltipFieldsHaveTwoBytes | src/robile_battery_slave.cpp:207-210 | the variables that have tooltips are two-byte fields |
| SlaveData.SameContentsIffSameBytes | src/kelo_bms_slave.cpp:127-131 | two copies leave equal structs exactly when both windows hold equal bytes |
| Slaves.EthercatSlave.CopyData | src/robile_battery_slave.cpp:102-106 | the structs afterwards are those whose packed bytes are the two sources' first bytes |
| ImageLayout.EveryByteIsOwned | config/freddy.json:2-53 | for any list of slaves, RX structs then TX structs at prefix sums cover the whole image |
| ImageLayout.OwnersAreUnique | config/freddy.json:2-53 | no byte belongs to two slaves or to both windows of one |
| ImageLayout.Isolation | src/packet_sniffer.cpp:151-158 | two images give all slaves but one the same contents exactly when they differ only in that slave's windows |
| ImageLayout.DecodeCompose | src/packet_sniffer.cpp:151-158 | any contents of all slaves are carried by an image that decodes to them |
| ImageLayout.ComposeDecode | src/packet_sniffer.cpp:151-158 | composing what an image decodes to gives that image back, byte for byte |
| ShippedConfigurations.FreddyIsRead | config/freddy.json:2-53 | from its names and offsets the file is read as four drives and a power distribution board, with the windows of 36/172, 12/68 and 20/112 bytes that tile the image without gaps |
| ShippedConfigurations.RopodIsRead | config/ropod.json:2-53 | from its names and offsets the file is read as five drives, with the windows of 36/172, 12/68 and 20/112 bytes that tile the image without gaps |
| ShippedConfigurations.Robile4wIsRead | config/robile_4w_platform.json:2-53 | from its names and offsets the file is read as a battery and four drives, with the windows of 36/172, 12/68 and 20/112 bytes that tile the image without gaps |
| ShippedConfigurations.Robile2wIsRead | config/robile_2w_platform.json:2-33 | from its names and offsets the file is read as a battery and two drives, with the windows of 36/172, 12/68 and 20/112 bytes that tile the image without gaps |
| Sniffer.HeaderFields | src/packet_sniffer.cpp:123-132 | command and masked length are fields 1 and 5 of the packed 12-byte header after the Ethernet header |
| Sniffer.FrameParts | src/packet_sniffer.cpp:116-147 | a returning frame built from header fields, image and counter is accepted exactly for LRW and yields the same length, image and counter |
| Sniffer.AcceptedIff | src/packet_sniffer.cpp:116-130 | a frame built with any source and command is accepted exactly for source 03:01:01:01:01:01 and command 12 |
| Sniffer.OtherSourcesChangeNothing | src/packet_sniffer.cpp:118-121 | a frame from any other source, however short, is read no further and changes nothing |
| Sniffer.OtherCommandsChangeNothing | src/packet_sniffer.cpp:126-130 | nor does a frame with another command |
| Sniffer.PacketSniffer.CopySlaves | src/packet_sniffer.cpp:151-158 | the copy loop leaves every slave with the decoding of its own two windows |
| Sniffer.PacketSniffer.PacketCallback | src/packet_sniffer.cpp:109-169 | a rejected frame changes nothing; an accepted one is decoded, handed out once, published if enabled, and a wrong counter is only printed |
| Sniffer.PacketSniffer.Sniff | src/packet_sniffer.cpp:170-173 | a whole capture has the effect of its frames in order, and messages repeat the lists handed out |
| Sniffer.CaptureOutcome | src/packet_sniffer.cpp:109-169 | after any capture the slaves hold the last accepted frame's decoding, initial if none, and the callbacks are exactly the accepted frames' decodings |
| Sniffer.CounterDoesNotMatter | src/packet_sniffer.cpp:132-143 | frames that agree up to the end of the datagram are accepted and decoded alike whatever their counters |
| Sniffer.RejectedFramesChangeNothing | src/packet_sniffer.cpp:116-130 | cutting a rejected frame out of a capture anywhere changes no contents, callback or message |
| Sniffer.SilentIffAllServed | src/packet_sniffer.cpp:134-143 | with 1 per read and 2 per write, no message means that every slave did both and 3n fits 16 bits, and conversely |
| Sniffer.WrappedCounterIsPrinted | src/packet_sniffer.cpp:134-143 | for any image and any windows in it, 21846 slaves that all read and wrote wrap the counter to 2: the frame is readable and accepted, and the message is printed |
| Sniffer.ManyDrives | src/packet_sniffer.cpp:134-143 | such a frame and slave list exist: 21846 drives at one window of a 208-byte image |
| PdoMapping.PlacePdo | src/generate_config_file.cpp:54-92 | one PDO's entries get consecutive bit positions; the first PDO's first entry sets the start offset |
| PdoMapping.SiPdoAssign | src/generate_config_file.cpp:25-98 | the result is the sum of all mapped lengths, every entry is placed after the lengths before it, and the start offset is written exactly when the first PDO exists and is not empty |
| SlaveDescription.WalkReadsPdos | src/generate_config_file.cpp:36-98 | for any described PDOs, fewer than 256 with fewer than 256 entries each, the walk maps the concatenation of their entries, the lengths add up, and a start offset is written exactly if the first PDO has an entry |
| SlaveDescription.SubindexWraps | src/generate_config_file.cpp:50-50 | a subindex is passed on modulo 256 |
| SlaveDescription.UnreadableIsAbsent | src/generate_config_file.cpp:39-41 | a count or type that cannot be read counts as none |
| PdoMapping.CounterPassesCount | src/generate_config_file.cpp:46-46 | the 16-bit loop counter passes the count exactly for counts below 65535 |
| PdoMapping.CounterWraps | src/generate_config_file.cpp:46-46 | the counter is the number of iterations and one, modulo 65536 |
| SyncManagers.SiMapSdo | src/generate_config_file.cpp:100-161 | offsets and return value over all sync managers with the corrected types, and every entry of a direction is placed after the lengths of all entries before it, across sync managers |
| SlaveDescription.MapDescribedSlave | src/generate_config_file.cpp:100-161 | for any described slave, outputs are what its sync managers of type 3 carry and inputs those of type 4, bit for bit, from number 2 to 8, with the workaround; both start offsets and the return value |
| SlaveDescription.ThreePdosAreMapped | src/generate_config_file.cpp:46-92 | three PDOs of 16, 32 and 8 bits are mapped once each, to 56 bits |
| SyncManagers.OffsetIsPointer | src/generate_config_file.cpp:124-154 | the offset stays unset if no sync manager starts a PDO, is set by the last one that does, and equals the slave's pointer exactly when fewer than 8 bits precede it |
| SyncManagers.SecondSmMovesOffset | src/generate_config_file.cpp:139-152 | a slave with two 16-bit output sync managers gets an offset two bytes behind its pointer |
| SyncManagers.TotalsFit | src/generate_config_file.cpp:144-151 | bit totals stay below 2^31 for up to 4717 PDOs per sync manager |
| SyncManagers.RaisedSlaveDoesNotTrigger | src/generate_config_file.cpp:131-137 | the slave with all types raised by one does not trigger the workaround and has the same corrected types |
| SyncManagers.WorkaroundPreservesMapping | src/generate_config_file.cpp:116-160 | the slave is mapped like the same slave with its one-byte types raised exactly when it does not map its type object beyond two entries |
| SyncManagers.WorkaroundOnAnySlave | src/generate_config_file.cpp:116-160 | the same for slaves whose type object gives anything on four-byte reads, against all raised slaves |
| SyncManagers.UnmappedTypesDoNotMatter | src/generate_config_file.cpp:124-154 | a slave that does not map its type object also gets the same entries in the same order as any raised slave |
| SyncManagers.SelfMappingIsMappedDifferently | src/generate_config_file.cpp:131-137 | a slave that maps its type object and whose totals the workaround changes |
| Discovery.GetInfo | src/generate_config_file.cpp:163-214 | the generator writes one entry per listed bus slave, numbered by position, with its computed offsets |
| Discovery.SnifferGetSlaves | src/packet_sniffer.cpp:59-96 | one typed slave per entry in order; an error without a configuration; an exception exactly when a number exceeds an int |
| Discovery.MasterGetSlaves | src/ethercat_master.cpp:37-97 | an error string and no slaves for each failing answer, otherwise the drives and batteries of the bus |
| Discovery.ListedIffSupported | src/ethercat_data_source.cpp:50-65 | the generator lists exactly the names that have a type, the master builds all of them but the power distribution boards |
| ShippedConfigurations.NamesHaveTypes | src/ethercat_data_source.cpp:50-65 | the type of each of the four names |
| Discovery.ConfigReadsBack | src/generate_config_file.cpp:178-199 | the generated list is read back as the same ordered list, every slave typed, numbers strictly increasing |
| Discovery.ConfigReadableIff | src/packet_sniffer.cpp:84-92 | the generated list is readable exactly when all listed slaves' EEPROM words are below 2^31 |
| Discovery.LargeEepromIsUnreadable | src/packet_sniffer.cpp:84-92 | a listed drive with an EEPROM word of 2^31 is written and cannot be read |
| Discovery.DiscoveryAgrees | src/ethercat_master.cpp:52-81 | the master's list is the sniffer's list without the power distribution boards |
| Discovery.AsIntKeepsTheBits | src/ethercat_master.cpp:60-80 | an EEPROM word stored in an int keeps its 32 bits and is the same number exactly below 2^31 |
| TwoSources.LookUpFindsOwnPointers | src/ethercat_master.cpp:184-191 | the numbers given at discovery lead every slave that the master built back to its own pointers |
| TwoSources.FindsPointerIff | src/generate_config_file.cpp:124-154 | the offset is the pointer exactly when fewer than eight bits precede the last starting sync manager, or none starts and the unset offset happens to be right |
| TwoSources.SingleSmOffset | src/generate_config_file.cpp:139-152 | with one sync manager per direction and a non-empty first PDO the offset is the slave's pointer |
| TwoSources.SimpleBusIsFound | src/generate_config_file.cpp:139-152 | on a bus whose drives and batteries have one such sync manager per direction all pointers are found |
| TwoSources.TwoSourcesAgree | src/packet_sniffer.cpp:147-158 | for every image and every bus whose pointers are found, the sniffer's slaves after a frame that carries the image hold what the master's slaves, looked up by number, hold after copying it |
| TwoSources.SourcesAgreeIff | src/ethercat_master.cpp:180-192 | the two sources agree on all images exactly when the generator finds both pointers of every drive and battery |
| TwoSources.PlacementIsDetermined | src/ethercat_master.cpp:186-190 | two placements of a slave decode every image alike exactly when both offsets are equal |
| Acquisition.InvRun | src/ethercat_master.cpp:99-216 | in every reachable state the mutex has the owner that the thread positions say, and positions, flag and close counts fit the controller |
| Snapshots.PublishedSnapshots | src/ethercat_master.cpp:180-214 | every list handed out is the decoding of one receive cycle, the newest completely copied one; cycles never decrease; callback and message of an iteration agree |
| Snapshots.LockedCopiesAreWhole | src/ethercat_master.cpp:203-212 | while the publisher holds the mutex all slaves show one cycle although they are copied one by one |
| Iterations.LogFollowsDecisions | src/ethercat_master.cpp:194-216 | in every run the log is what the publishing decisions so far demand: per iteration one list to the UI, then a message if and only if publishing was enabled |
| Iterations.ScheduleCounts | src/ethercat_master.cpp:203-212 | a complete iteration has exactly one list for the UI and exactly one message if and only if it publishes |
| Shutdown.WriterNeverBlocked | src/ethercat_master.cpp:180-192 | a live writer has an enabled step in every state, whatever the publisher does |
| Shutdown.SomeStepEnabled | src/ethercat_master.cpp:146-154 | after the flag is cleared some step is enabled until both threads are joined |
| Shutdown.EveryStepCounts | src/ethercat_master.cpp:146-216 | after the flag is cleared every step of any thread lowers a measure, which is 0 when stop returns |
| Shutdown.ShutdownIsShort | src/ethercat_master.cpp:146-216 | a shutdown takes at most 3n+16 steps, with at most one more exchange, callback and message; when it is over there was exactly the exchange the writer was about to make and exactly the callback the publisher was before or in |
| Shutdown.ClosedAfterStop | src/ethercat_master.cpp:177-215 | after stop each thread has closed once per session, the mutex is free and only a new start is enabled |
| Shutdown.QuietBetweenSessions | src/ethercat_master.cpp:99-154 | over any stretch from the end of a session to the creation of the next writer nothing is copied or published |
| Shutdown.StartExchanges | src/ethercat_master.cpp:111-127 | a start makes 2 to 202 exchanges before the first thread is created; one that fails makes none or 202 |
| Recovery.BackToIdle | src/ethercat_master.cpp:99-154 | from every reachable state, failed starts included, the master can get back to where it may be started |
| Recovery.DataCanAlwaysBeShown | src/ethercat_master.cpp:99-216 | from every reachable state the run can go on so that any next image is received and its decoding is handed to the UI and then sent as a message of the same iteration |
| Master.EthercatMaster.CopyData | src/ethercat_master.cpp:180-192 | with the mutex every slave gets the decoding at its pointers, without it every slave keeps its contents |
| Master.CopyOnBothSides | src/ethercat_master.cpp:180-192 | slave objects made by the two discoveries hold the same contents after the two copy loops, the power distribution boards aside |
| Master.MasterShowsWhatTheSnifferShows | src/ethercat_master.cpp:156-216 | in any interleaving, every list after the first copy pass is what a sniffer with the generated configuration shows for a frame carrying that cycle's image |
| Session.DataSource.Start | src/ethercat_master.cpp:99-144 | both threads or none are spawned, exactly when the final state is operational; an error string means none; the number of exchanges |
| Session.DataSource.ReachOperational | src/ethercat_master.cpp:115-122 | the retry loop stops with the first operational answer or after 201 passes |
| Session.StartIsBounded | src/ethercat_master.cpp:115-122 | at most 201 passes; operational at the end exactly when one of the first 201 answers is, the last one included |
| Session.DataSource.Stop | src/ethercat_master.cpp:146-154 | no thread handle is joinable afterwards |
| Session.DataSource.Destroy | src/ethercat_master.cpp:26-34 | a source is destroyed without a joinable handle, or its destructor waits for a capture that does not end |
| Session.Gui.HandleDiscover | src/gui.cpp:123-276 | a fresh source of the chosen kind, ready to start, exactly when it can be created and finds slaves, otherwise none |
| Session.Gui.HandleStart | src/gui.cpp:99-121 | start is only called without joinable handles; the started or ready view that follows from the answers of the bus, with threads and exchanges; Stop ends the threads |
| Session.Gui.Run | src/gui.cpp:99-138 | buttons, source and thread handles follow the three-state view over any click sequence, and an enabled Start button always has a discovered source |
| Session.LastDiscoverDecides | src/gui.cpp:123-276 | after any session there is a source exactly when the last Discover that was not disabled succeeded, and of the kind chosen there |
| Session.StopUndoesStart | src/gui.cpp:99-121 | Start and Stop lead back to the ready source of the same kind, after at most 202 exchanges |
| Session.Gui.Close | include/ui.h:17-33 | with threads running, a callback to come is a pure virtual call, otherwise closing waits for a capture that does not end, otherwise it returns and no handle is joinable |
| WindowClose.MasterCallbacks | src/ethercat_master.cpp:26-34 | the callbacks during the master's destruction are those made before the flag is cleared and one more exactly if the publisher is then before or in one |
| WindowClose.ClosingCanMeetACallback | src/ethercat_master.cpp:194-216 | from every reachable state the master can get to where every way to close meets a callback, and there is one |
| WindowClose.SnifferCallbacks | src/packet_sniffer.cpp:116-160 | a callback follows exactly when an accepted frame is still to come, for ending and endless captures |
| WindowClose.OneFrameIsEnough | src/packet_sniffer.cpp:160-160 | one accepted frame left in a file is a callback into the destroyed window |
| WindowClose.CloseDuringCapture | src/packet_sniffer.cpp:49-52 | closing during a capture ends well exactly when it ends by itself and no accepted frame is left |
| WindowClose.CloseDuringCycle | src/ethercat_master.cpp:26-34 | closing while the master runs ends well exactly when no callback is made before the flag is cleared and the publisher is then neither before nor in one |
| TuiStart.ParseArguments | src/tui_main.cpp:54-136 | the argument loop computes the recursive reading of the command line |
| TuiStart.LastOccurrenceWins | src/tui_main.cpp:54-136 | in an accepted command line an option has the value of its last occurrence, wherever that stands |
| TuiStart.AppendedOption | src/tui_main.cpp:54-136 | an appended option decides its own value, or the rejection of an unknown source, and leaves all others |
| TuiStart.AcceptedWords | src/tui_main.cpp:54-136 | what each of the seven words does, and that other sources are rejected |
| TuiStart.MissingValueRejected | src/tui_main.cpp:58-64 | a word that takes a value is rejected at the end |
| TuiStart.NothingSaid | src/tui_main.cpp:45-53 | the defaults |
| TuiStart.CompleteCommandLines | src/tui_main.cpp:139-183 | which options each source needs |
| TuiStart.DocumentedOptionRejected | src/tui_main.cpp:126-134 | after any accepted arguments the documented `--enable_zmq` ends with the usage text, whatever follows, and `--publish_zmq` is the option meant |
| TuiStart.CreateSource | src/tui.cpp:137-204 | an exception exactly for a configuration that is reached and not JSON; otherwise a source exists unless an error is flagged, of the kind the name says |
| TuiStart.Run | src/tui_main.cpp:45-207 | for every argument vector: usage text, exception, error and use of the source, each with its exact condition; the used source exists and is the one named |
| TuiStart.PortComesBeforeUsage | src/tui_main.cpp:137-144 | a port alone is accepted and incomplete, so that whether it can be bound decides between usage text and exception |
| Decimal.ReadBack | src/gui.cpp:418-430 | parsing the decimal text of any value gives the value back |
| Decimal.DigitsAreDecimal | src/ethercat_data_source.cpp:44-44 | the text is decimal, highest digit first |
| Publishing.KeyIsInjective | src/ethercat_data_source.cpp:44-44 | name, space and number determine name and number, even for names with spaces |
| Publishing.KeyIsNameAndNumber | src/ethercat_data_source.cpp:44-44 | the key is the name, a space and a decimal that reads back as the number |
| Publishing.KeyIsNotTimestamp | src/ethercat_data_source.cpp:39-44 | no slave's key is the time stamp's key |
| Publishing.ConvertToJson | src/ethercat_data_source.cpp:33-48 | the loop builds the object of the time stamp and all slaves |
| Publishing.JsonLosesNoSlave | src/ethercat_data_source.cpp:33-48 | there are n+1 entries exactly when no two slaves share name and number, and then each key holds its own slave's data |
| Publishing.TwinsShareAnEntry | src/ethercat_data_source.cpp:44-44 | of two slaves of one name and number only the second is published |
| ZmqHandles.Wrappers.Execute | include/zmq.hpp:2174-2211 | the handles, releases and failures after construction, also of null sockets, move, swap, close, rebuild and destruction |
| ZmqHandles.CloseReleases | include/zmq.hpp:2196-2205 | after close the object is null, its handle and no other was released, all else is unchanged |
| ZmqHandles.MoveAssignPasses | include/zmq.hpp:2180-2186 | messages change places; a socket or context releases its own handle and takes the other's, which is left null; moved onto itself it is closed |
| ZmqHandles.MoveConstructPasses | include/zmq.hpp:2174-2179 | the new object holds the handle, the old one none or a new message |
| ZmqHandles.SwapExchanges | include/zmq.hpp:2207-2211 | both handles change places, nothing is released |
| ZmqHandles.RebuildRenews | include/zmq.hpp:512-529 | the old handle is released and a fresh one held, or none if that fails |
| ZmqHandles.DestroyReleases | include/zmq.hpp:505-510 | the object is gone and its handle released |
| ZmqHandles.EveryOperationKeeps | include/zmq.hpp:817-873 | every operation keeps: each acquired handle has one owner or was released once |
| ZmqHandles.Wrappers.Take | include/zmq.hpp:493-497 | a moved-to object gets the handle, the moved-from one none or, for a message, a new one |
| ZmqHandles.Wrappers.Run | include/zmq.hpp:492-510 | any program has the effect of its permitted operations in order |
| ZmqHandles.ReleasedExactlyOnce | include/zmq.hpp:505-510 | in any program, once all objects are destroyed there were as many releases as acquired handles, each released exactly once, and a closed message was closed again exactly when a rebuild had failed |
| ZmqHandles.FailedRebuildIsClosedAgain | include/zmq.hpp:521-529 | construction, a failing rebuild and destruction close one message twice |
| PublisherLife.ZmqPublisher.Live | src/zmq_publisher.cpp:12-22 | the exact library calls of each of the four lives, also when bind throws: the socket is closed before its context and nothing stays open |
| PublisherLife.ContextFirstIsStuck | src/zmq_publisher.cpp:17-22 | terminating the context before the socket is closed would block for ever |

## Left out

- Snapshots.PublishedSnapshots: says what the callback and the message read until they return; the graphical interface queues shared pointers, and what it shows later depends on Qt's event loop.
- Acquisition.Apply: the threads are steps on values, one per statement that touches shared data; `ec_close` is a counted event, and no order between the two closes and bus traffic is claimed because the code has none.
- SyncManagers.SiMapSdo: integers are unbounded in the model; `TotalsFit` says when the program's 32-bit totals agree with it.
- PdoMapping.SiPdoAssign: requires a count below 65535, since the program does not return otherwise; the unused object entry read and the commented-out printing are not modelled.
- Discovery.SnifferGetSlaves: requires supported names, because the program dereferences an unset pointer for any other.
- Discovery.ConfigReadsBack: JSON text is not modelled, only the list of entries it carries.
- SlaveData.RendersInTableOrder: rows carry words in struct order, which is the order in which the getters push the members; the text of floats, units and the names of the bits are not modelled.
- Publishing.JsonLosesNoSlave: the value of a slave is its type and contents, not the nested JSON text.
- ZmqHandles.Wrappers.Execute: explicit message `move` and `copy`, socket options, polling, monitors and proxies are not modelled.
- Session.Gui.Run: an exception, as for a configuration that is not JSON, ends the program and is not modelled here; Qt widgets, group boxes, lists and message boxes are not modelled; a disabled button delivers no click.
- TuiStart.Run: drawing and the key loop are not modelled.
- The command line of the graphical program checks completeness only at `--start` and is not modelled.
- The contents of SOEM, libtins, jsoncpp and libzmq are not part of this model.
