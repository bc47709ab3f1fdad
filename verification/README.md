# CANopen bench verification

This project models the host side of a CANopen slave test bench in Dafny and proves what its processes promise. The
bench saves configuration of a remote node, changes it, exercises it and has to put it back, while any remote call may
stay undecided; it watches NMT, EMCY, SYNC and SRDO traffic from callbacks that run concurrently; it drives test
firmware through request records; and it relies on checksums and modular clock arithmetic.

Each source file is one or two modules. Objects with mutable state are classes; the event loop, the remote node, the
firmware and the clock are nondeterministic environments whose methods may do anything their contracts allow. Each
environment records what was done to it or asked of it in ghost fields that only its own methods write, and contracts
are stated over these records.

- `RemoteNode` is the adversarial node: an object dictionary, the downloads that may still land, and the history of
  everything the host did. `SyncPdo`, `TimeProcess`, `PdoProcess` and `SdoBlock` are the processes that reconfigure
  it.
- `SyncTiming`, `NmtMaster`, `NmtState`, `EmcyCache`, `Snapshot` and `TimeDiagnostic` are the concurrent observers.
  Every mutex section is one method, and every gap between two sections may hold any number of callbacks.
- `SrdoPairs` and `SrdoRequest` are the SRDO wire pairing and the busy retry.
- `SdoClient`, `Storage`, `Gfc`, `EmcyConsumer` and `Fixture` are the handshakes, cleanups and ownership rules.
- `Bits`, `Gf2`, `Crc`, `SrdoProfile`, `Payloads` and `TimeArith` are the arithmetic.

`dafny verify dfyconfig.toml` checks everything.

## What is assumed about the environment

- A transfer that ends in SUCCESS has been applied; one that ends in FAILED or SDO_TIMEOUT was decided when it ended,
  either way; one that ends in WAIT_TIMEOUT may be applied, once, at any later step.
- After Reset Communication or Reset Node the node may hold any configuration. A Boot that answers a reset for which
  the Boot wait was prepared ends every earlier transaction.
- After a cancelled block download the server may go on changing the object, whether or not the client saw the end of
  the transfer, until the node has confirmed Stopped and then Pre-operational, or has booted.
- A download refused with NO_WRITE changed nothing. Between the transfers of a run the node keeps the objects the
  model calls its configuration; diagnostic objects change at will.
- The firmware behind 0x2301, 0x2303 and 0x2306 publishes a result together with, or before, its sequence number or
  counter. The firmware behind 0x2300 counts a TIME frame when it arrives and applies it later. The GFC cleanup relies
  on SDO transfers being applied in the order of submission. The firmware behind 0x2305 rejects raw accesses beyond
  the region. Only the diagnostic commands, the save and the restore-defaults command write the EEPROM region, and a
  Boot ends what was unconfirmed.
- Other faults of the host push EMCY errors and never clear them. Lely rejects EMCY code zero and keeps 0x1003:00
  equal to the stack depth, up to the number of its entries.

## Findings

- `SdoBlock.Process`: an unconfirmed STOP in the stopped-node case leaves `channel_known` and `node_stopped` as they
  were, so the cleanup addresses a node that may be stopped. That happens exactly if that STOP was sent and never
  confirmed, as `SdoBlock.UnconfirmedStopThenTransfer` shows; the STOP of the client-abort case has no such gap.
- `Gfc.DisabledAfterFailure`: after a failed settling the log says that GFC is left disabled. If it was the disabling
  download that failed, this is certain exactly if the producer was disabled before and no enabling download was still
  on its way.
- `Storage.ExactlyThisCommand`: the request record is reused without a check that the target is idle. Success means
  that exactly this command was executed if and only if no command was pending; `Storage.MatchWithoutProof` has a
  pending write that is executed at the address of the new command, and a completion sequence that matches before
  anything was executed.
- `SdoClient.NewRequest` and `SdoClient.OnlyThisRequest`: likewise, success means that the request was accepted if and
  only if its sequence was not active before, and that nothing else was if and only if no request was pending.
- `TimeDiagnostic.CoherentIff`: the guard of the TIME diagnostic publishes one instant if and only if no counted frame
  is still waiting to be applied; `TimeDiagnostic.BeginningOfYesterday` is a mixed reading around midnight.
- `Storage.FirstPayloadByte`: the layout check accepts an empty payload, for which the core mode reads one byte past
  its captured baseline. On a target found calm `Storage.CoreMode` then never succeeds.
- `EmcyConsumer.Host.PushLocal` names the pushes that grow the stack unnoticed.
- `SrdoProfile.WideChangeUnnoticed`: a change of three bytes of a COB-ID can leave the profile checksum as it was.

## Model

| member | source | states |
|---|---|---|
| RemoteNode.Slave.ReadNum | include/canopen_sdo.h:89-163 | on success an upload returns the node's value; while it waits only in-flight downloads can land |
| RemoteNode.Slave.WriteTo | include/canopen_sdo.h:184-252 | a download is applied on success, undecided but finished on failure or SDO timeout, and stays in flight after a lost completion |
| RemoteNode.Slave.AbortedWrite | src/sdo_block_process.cpp:272-324 | a cancelled block download leaves the object with any octets, still changing until the barrier, and in flight if its end was not seen |
| RemoteNode.Slave.IssueAndConfirm | src/sdo_block_process.cpp:232-269 | a confirmed Stopped followed by a confirmed Pre-operational ends every aborted transfer |
| RemoteNode.Slave.WaitForBoot | src/sync_pdo_process.cpp:282-296 | a Boot answering an armed reset leaves nothing in flight |
| RemoteNode.ReopenedAfterLoss | src/sync_pdo_process.cpp:258-313 | a channel that is known again after a lost transfer has a reset, a later Boot and a still later confirmed Pre-operational state behind it |
| RemoteNode.NeverAgain | src/pdo_process.cpp:680-761 | a run of a process without reset transfers nothing after a lost transfer |
| SyncPdo.RecoverWithReset | src/sync_pdo_process.cpp:258-313 | success means a reset, its Boot, a confirmed Pre-operational and a read-back equal to all saved fields; failure means the same was tried and the history shows where it failed; a run that needed it is never flawless |
| SyncPdo.VerifyRestored | src/sync_pdo_process.cpp:199-240 | accepted only if the six TPDO1 fields and 0x1005 equal the saved values, and rejected only if one differs or a read failed |
| SyncPdo.RestoreConfiguration | src/sync_pdo_process.cpp:520-549 | writing the saved values back undoes everything the process changed |
| SyncPdo.Release | src/sync_pdo_process.cpp:1291-1303 | with no failure the local SYNC period is the original again, after the callbacks that could still zero it are gone |
| SyncPdo.StartAgain | src/sync_pdo_process.cpp:1256-1274 | one START exactly if the node needs it and TPDO1 was never touched or its restoration is verified; a touched node that is not verified is sent nothing |
| SyncPdo.SyncPdoProcess | src/sync_pdo_process.cpp:950-1309 | result 0 exactly if the node was suitable and nothing failed, and then it was started in the synchronous configuration and node and local period are as they were; a verified restoration is real, and a touched node that is not verified has been through a recovery that visibly failed, with nothing after it; the transfer and START discipline holds whatever happens |
| SyncPdo.DisciplinedEverywhere | src/sync_pdo_process.cpp:994-1244 | the discipline kept along a run is the statement about each single event of its history |
| SyncPdo.NoTransferAfterLoss | src/sync_pdo_process.cpp:994-1244 | between a lost transfer and the next one lie Reset Communication, a Boot after it and a confirmed Pre-operational state after that |
| SyncPdo.TypeWrittenWhileDisabled | src/sync_pdo_process.cpp:471-549 | the transmission type is only ever written directly after the node has accepted a disabled COB-ID |
| SyncPdo.StartsOnlyKnownConfigurations | src/sync_pdo_process.cpp:1173-1244 | the node is never started with a download in flight, and only as it was found, but for the one START right after the successful read-back of the test |
| SyncPdo.OnlyRestoredAfterwards | src/sync_pdo_process.cpp:1173-1274 | after the first START of a run, a Boot, or any transfer that failed, every START finds TPDO1 as it was |
| SyncPdo.FlawlessEverywhere | src/sync_pdo_process.cpp:1232-1309 | a run that reports success contains no lost transfer and no recovery |
| SyncTiming.Observation.OnSync | src/sync_pdo_process.cpp:622-658 | the first seven SYNC times are kept in order, all are counted, and from the fifth on the producer is stopped or the run has failed |
| SyncTiming.Observation.OnTpdo | src/sync_pdo_process.cpp:590-620 | only frames of eight bytes are counted and kept; any other marks the run as failed |
| SyncTiming.Observation.ValidateTiming | src/sync_pdo_process.cpp:797-852 | the pairwise comparison accepts exactly the observations with one TPDO1 in each of five SYNC intervals |
| TimeProcess.ReadDiagnostic | src/time_process.cpp:135-224 | at most fifteen uploads; fails only with a failed transfer, three torn passes, or a time beyond the day |
| TimeProcess.WriteAndVerify | src/time_process.cpp:512-549 | success means 0x1012 holds the written value, and nothing else of the configuration changed |
| TimeProcess.RecoverWithReset | src/time_process.cpp:602-638 | success means the saved value is back with nothing in flight; failure means resets, write and read-backs were tried in this order and the history shows where they failed |
| TimeProcess.RestoreNormally | src/time_process.cpp:879-906 | verified only with nothing in flight and 0x1012 equal to the saved value, after the second reset if a first one was needed |
| TimeProcess.Process | src/time_process.cpp:675-950 | result 0 exactly if the node was fit and no event, answer or verdict of the bench was negative; then consumption was switched off and on again and 0x1012 is as it was, and so is everything on a node that consumed TIME before; if 0x1012 was touched and is not verified, the history ends with a recovery that visibly failed |
| TimeProcess.NoTransferBeforeBoot | src/time_process.cpp:551-638 | after a lost transfer nothing is transferred before a reset and a Boot that answers it |
| TimeProcess.StartsOnlyRestored | src/time_process.cpp:929-938 | the node is started only with nothing in flight and 0x1012 as it was |
| PdoProcess.Receiver.OnRpdo | src/pdo_process.cpp:129-200 | each TPDO1 of eight bytes is the latest and counts once; the first five are kept; anything else marks the run as failed |
| PdoProcess.VerifyConsistency | src/pdo_process.cpp:393-494 | success means an undisturbed attempt: a frame was captured, the mapped values read, both objects uploaded, no further frame came in between, and frame, mapping and node carry the same two values; failure leaves evidence in the history or the log |
| PdoProcess.ValidateSamples | src/pdo_process.cpp:259-311 | accepts exactly samples whose neighbours are a period apart within the tolerance |
| PdoProcess.Probe | src/pdo_process.cpp:705-738 | success means the probe, which differs from the saved value, was sent and read back, which proves that the unconfirmed PDO has landed |
| PdoProcess.RestoreValue | src/pdo_process.cpp:584-632 | the saved value is the last thing sent; success means it is back and nothing else changed, an SDO timeout being settled by the read-back |
| PdoProcess.Cleanup | src/pdo_process.cpp:740-761 | whatever the probe came to, the saved value is sent last, by PDO if SDO was lost |
| PdoProcess.Process | src/pdo_process.cpp:634-771 | result 0 exactly if no event failed and nothing observed was negative: the wait, the periods, the comparison, the read-backs; then, after five valid frames, the comparison was made, the probe sent and read back, the saved value written and read back, and the configuration is as it was; whatever the result, once the value was saved it is the last thing sent; after a lost transfer SDO is never used again |
| SdoBlock.PutAndVerify | src/sdo_block_process.cpp:124-153 | success means both transfers succeeded and the node holds the payload, after an earlier failure too |
| SdoBlock.TimeoutRecovery | src/sdo_block_process.cpp:191-230 | one transfer to the stopped node, which has to time out; an unconfirmed STOP leaves both flags unchanged |
| SdoBlock.SynchronizeServer | src/sdo_block_process.cpp:241-269 | success leaves nothing of the aborted transfer on the server; an unconfirmed STOP makes the channel unknown |
| SdoBlock.ClientAbort | src/sdo_block_process.cpp:272-337 | a node in doubt is never left with a known channel |
| SdoBlock.Cleanup | src/sdo_block_process.cpp:414-441 | the run ends with the saved octets sent back, unless Pre-operational was refused twice or SDO is no longer allowed; verified cleanup leaves them on the node, and after an otherwise expected run the node as it was |
| SdoBlock.Process | src/sdo_block_process.cpp:444-538 | result 0 exactly if the payload could be saved and every event was the expected one, and then every deliberate failure was provoked, the payload of every case, the hundred stress iterations included, went there and came back, and the node is as it was; whatever the result the saved octets are sent back while that is allowed; no transfer follows a lost one; at most one goes to a stopped node; one goes to a node in doubt exactly if the first STOP stayed unconfirmed |
| SdoBlock.UnconfirmedStopThenTransfer | src/sdo_block_process.cpp:194-200 | from any history before the first STOP: if it stays unconfirmed, the transfer after it goes to a node in doubt on a channel taken as known |
| NmtMaster.RingPush | src/nmt_master_process.cpp:111-132 | storing behind the last queued command appends to the queue, across the end of the ring |
| NmtMaster.RingPop | src/nmt_master_process.cpp:245-269 | taking the head leaves the rest of the queue in order |
| NmtMaster.Observer.Callback | src/nmt_master_process.cpp:111-132 | what was consumed and what is queued stays a prefix of what was published; the seventeenth waiting command latches overflow and disturbs nothing |
| NmtMaster.Observer.Take | src/nmt_master_process.cpp:245-269 | a wait returns the next published command exactly if there is one and none was ever dropped |
| NmtMaster.Spoiled | src/nmt_master_process.cpp:310-334 | a late, different or overflowing command makes the whole arrival sequence unacceptable, whatever follows |
| NmtMaster.PunctualAccepted | src/nmt_master_process.cpp:499-554 | the expected list, each command while it is awaited and silence afterwards, is acceptable |
| NmtMaster.FinalWindow | src/nmt_master_process.cpp:429-469 | success exactly if nothing more was published, and then the heartbeat is still configured |
| NmtMaster.Process | src/nmt_master_process.cpp:499-554 | for every interleaving, result 0 exactly if local accesses succeed and the published commands are the 14 or 9 expected ones, each in time |
| NmtState.Observer.Callback | src/canopen_nmt.cpp:49-65 | generation and state of the node follow its history; other nodes and invalid IDs change nothing; generations only grow |
| NmtState.Observer.IssueAndWait | src/canopen_nmt.cpp:113-195 | an addressable node's 0x1F82 is read and, with the callback registered, the command submitted; success exactly if it was accepted and either 0x1F82 showed the expected state before and after it, or the node was heard after it and said the expected state last; the second read happens exactly if the first one showed that state |
| NmtState.FreshIndication | src/canopen_nmt.cpp:166-174 | a grown generation is an indication published after the baseline, and the latest one of the node |
| EmcyCache.Cache.Callback | src/canopen_emcy.cpp:39-77 | the cache is the newest 32 events of a history numbered from one |
| EmcyCache.Cache.WaitFor | src/canopen_emcy.cpp:113-128 | the event returned is the first match kept, and of the whole history while nothing after the snapshot is evicted |
| EmcyCache.Cache.GetAfter | src/canopen_emcy.cpp:130-141 | complete exactly if no event of the node after the snapshot was evicted, which 32 events cannot cause |
| EmcyCache.SelectIsSuffix | src/canopen_emcy.cpp:130-141 | filtering by sequence number is cutting the history at the snapshot |
| Snapshot.Diagnostic.ReadOnce | src/emcy_consumer_process.cpp:211-264 | an accepted attempt with fewer than 2^32 publications saw none, and is the record on display; an undisturbed attempt is accepted |
| Snapshot.Diagnostic.ReadStable | src/emcy_consumer_process.cpp:211-264 | the same after any number of retries |
| Snapshot.Diagnostic.WaitForNext | src/emcy_consumer_process.cpp:269-301 | success means the counter is one beyond the baseline, modulo 2^32 |
| Snapshot.Diagnostic.ExpectOne | src/emcy_consumer_process.cpp:499-562 | acceptance means exactly one publication since the baseline, and that it is the expected record |
| Snapshot.Residue | src/emcy_consumer_process.cpp:269-301 | below 2^32 publications a counter one beyond the baseline means exactly one publication |
| Snapshot.GuardIff | src/emcy_consumer_process.cpp:250-255 | the guard passes exactly if the publications during the attempt are a multiple of 2^32 |
| SrdoPairs.Wire.WaitForAnyTx | src/srdo_process.cpp:227-252 | other identifiers are skipped; each TX frame is delivered once and in order |
| SrdoPairs.Synchronizer.Accept | src/srdo_process.cpp:344-377 | the frames read are an optional leading inverted one, the returned pairs and an optional open normal one, in this order |
| SrdoPairs.Synchronizer.NextPair | src/srdo_process.cpp:295-385 | a success adds exactly the returned pair, whose members were read one after the other; a failure loses no frame but a last one that is out of order |
| SrdoPairs.SplitUnique | src/srdo_process.cpp:288-385 | a frame stream splits into leading frame, pairs and open frame in one way only |
| SrdoPairs.SameFramesSamePairs | src/srdo_process.cpp:295-385 | the pairs depend on the frames alone, not on deadlines or RX keepalive |
| SrdoPairs.Decoded | src/srdo_process.cpp:904-910 | decoding inverts the encoding of the transmitted value |
| SrdoPairs.ComplementBytes | src/srdo_process.cpp:912-937 | the bytes of the complement are the complements of the bytes |
| SrdoPairs.ValidateWirePair | src/srdo_process.cpp:912-937 | accepts exactly a value and its complement in normal and inverted frame, in temporal order |
| SrdoRequest.SynchronizePhase | src/srdo_process.cpp:959-1001 | reads up to the pending inverted frame, with at most one normal frame before it |
| SrdoRequest.RequestWithRetry | src/srdo_process.cpp:1003-1039 | consecutive requests modulo 2^32, all but the last busy; sequence and result belong to the last; busy is reported only after four retries |
| Crc.AppendByte | src/srdo_process.cpp:768-777 | the bit loop continues the checksum by one byte |
| Crc.Checksum | src/storage_process.cpp:156-168 | both copies of the loop compute the same fold |
| Crc.FoldConcat | src/srdo_process.cpp:768-777 | checksums compose over concatenation |
| Crc.ChecksumIsRemainder | src/srdo_process.cpp:768-777 | the checksum is the only remainder of message times x^16 modulo x^16+x^12+x^5+1 over GF(2) |
| Crc.CollisionIff | src/srdo_process.cpp:768-777 | two messages share a checksum exactly if the generator divides their difference |
| Crc.BurstDetected | src/srdo_process.cpp:768-777 | an error burst of at most sixteen bits is always noticed, wherever it starts |
| Crc.TwoBytesDetected | src/srdo_process.cpp:768-777 | byte strings differing only within two adjacent bytes never share a checksum |
| Crc.ThreeBytesCollide | src/srdo_process.cpp:768-777 | within three adjacent bytes they can, in any context |
| Gf2.RemainderUnique | src/srdo_process.cpp:768-777 | two residues below degree 16 that agree modulo the generator are equal |
| SrdoProfile.AppendU32Le | src/srdo_process.cpp:785-790 | the shift loop appends the four bytes, lowest first |
| SrdoProfile.Checksum | src/srdo_process.cpp:792-806 | the checksum is that of the serialised profile |
| SrdoProfile.SerialiseInjective | src/srdo_process.cpp:792-806 | two profiles serialise alike exactly if all covered fields agree; the transmission type is not covered |
| SrdoProfile.WindowChangesChecksum | src/srdo_process.cpp:792-806 | profiles of equal mapping count that differ only within two adjacent bytes never share a checksum |
| SrdoProfile.TimingChangesChecksum | src/srdo_process.cpp:792-806 | a change of direction, SCT or SRVT alone is always noticed |
| SrdoProfile.WideChangeUnnoticed | src/srdo_process.cpp:792-806 | a change of three bytes of the normal COB-ID need not be |
| SdoClient.Mcu.SubmitRequest | src/sdo_client_process.cpp:210-231 | from any state of the MCU: the sequence commits complete fields, or it is not written |
| SdoClient.Mcu.ReadStatus | src/sdo_client_process.cpp:234-261 | a snapshot under the awaited sequence is the published result, unless that sequence was active or complete before it was committed |
| SdoClient.Mcu.WaitActivePending | src/sdo_client_process.cpp:285-308 | success means active and not completed when last seen, and accepted exactly as written unless its sequence was active before |
| SdoClient.Mcu.RunTransaction | src/sdo_client_process.cpp:311-330 | from any state, success is a run of the handshake that leaves the MCU idle; if the sequence was neither active nor complete before, exactly these fields were accepted and completed last, with the returned result; with nothing pending before, nothing else was accepted, on failure too |
| SdoClient.Progress | src/sdo_client_process.cpp:197-231 | whatever the MCU does during the downloads, it accepts the new sequence only with the complete request |
| SdoClient.NewRequest | src/sdo_client_process.cpp:311-330 | every success means that the request was accepted if and only if its sequence was not active before |
| SdoClient.OnlyThisRequest | src/sdo_client_process.cpp:311-330 | every success means that nothing else was accepted if and only if no request was pending before |
| SdoClient.SuccessWithoutProof | src/sdo_client_process.cpp:311-330 | two busy MCUs: one match without any acceptance, and one that accepts the old request as well |
| SdoClient.WrittenAll | src/sdo_client_process.cpp:210-224 | seven single field writes make up the whole request |
| Bits.NextSequence | src/sdo_client_process.cpp:197-207 | the next sequence differs from the last and is never zero, also at the wrap |
| Storage.FirstPayloadByte | src/storage_process.cpp:271-294 | a valid layout lies inside the EEPROM; its first payload byte is inside the region exactly if the payload is not empty, which is not checked |
| Storage.RunCommand | src/storage_process.cpp:187-237 | success is a run of the handshake; unless the sequence matched too early the target is idle again and this command was executed last, successfully; on a calm target it was the only one |
| Storage.Handshake | src/storage_process.cpp:187-237 | what a matching poll means for every target: this command alone, a pending one with some fields replaced before it, or nothing executed |
| Storage.ExactlyThisCommand | src/storage_process.cpp:187-237 | every matching poll means exactly this command if and only if nothing was pending |
| Storage.HalfWritten | src/storage_process.cpp:199-206 | a pending command may be executed with any prefix of its fields replaced |
| Storage.MatchWithoutProof | src/storage_process.cpp:187-237 | concrete targets for both failures |
| Storage.Unpack | src/storage_process.cpp:307-309 | the bytes of a word land lowest first, and nowhere else |
| Storage.Pack | src/storage_process.cpp:322-325 | the inverse |
| Storage.ReadRawRegion | src/storage_process.cpp:297-314 | success returns exactly the bytes of the region, for every length |
| Storage.RestoreRawRegion | src/storage_process.cpp:317-334 | success means the region is the baseline and nothing outside has changed |
| Storage.CaptureBaseline | src/storage_process.cpp:337-364 | success on an idle target captures the region and changes nothing |
| Storage.CleanupBaseline | src/storage_process.cpp:518-532 | success on an idle target ends with the region equal to the baseline |
| Storage.CoreMode | src/storage_process.cpp:535-586 | result 0 from a target found calm leaves its whole EEPROM as it was and means the whole script was played: capture, flip and restore, two saves and Boots, the region rewritten and read back; it never happens for an empty payload |
| Storage.RestoreMode | src/storage_process.cpp:589-617 | result 0 from a target found calm leaves its whole EEPROM as it was and means it was captured, saved, reset to defaults, booted, rewritten, read back and booted |
| Storage.CorruptionMode | src/storage_process.cpp:626-667 | result 0 from a target found calm leaves its whole EEPROM as it was and means signature and payload were each corrupted and detected after a Boot, with the region rewritten after each |
| Storage.PowerCycleMode | src/storage_process.cpp:688-717 | result 0 from a target found calm leaves its whole EEPROM as it was and means it was saved, power-cycled twice and rewritten twice |
| Storage.PowerInterruptionMode | src/storage_process.cpp:720-782 | result 0 from a target found calm leaves its whole EEPROM as it was and means a second save was sent, did not succeed, and was followed by a Boot and the rewriting of the region |
| EmcyConsumer.Host.PushLocal | include/canopen_master.h:50-99 | `stack_updated` holds exactly if the stack grew, except for a failed push onto a non-empty stack that is as deep as 0x1003 or, without 0x1003, topped by the same code |
| EmcyConsumer.GuardIff | src/emcy_consumer_process.cpp:446-461 | with exact claims the depth comparison passes exactly if no error of others is present, or if 0x1003 is filled by own errors |
| EmcyConsumer.Runtime.Emit | src/emcy_consumer_process.cpp:411-441 | the claim never exceeds the errors owned, and stays exact after a successful push and after any push while 0x1003 shows the whole stack |
| EmcyConsumer.Runtime.Clear | src/emcy_consumer_process.cpp:446-494 | with room in 0x1003 the stack is cleared only if the check found no error of others; unhindered, the test's own errors are gone afterwards |
| EmcyConsumer.CombinedOfTest | src/emcy_consumer_process.cpp:473-481 | the register check never refuses a stack of the test's own errors |
| EmcyConsumer.Runtime.ValidateAndCleanUp | src/emcy_consumer_process.cpp:661-742 | the claims are exact throughout while 0x1003 shows the whole stack; result 0 means the whole script was played; result 0, or an unhindered run, leaves no own error behind |
| EmcyConsumer.Process | src/emcy_consumer_process.cpp:661-749 | result 0 means three pairs of errors were pushed, seen, cleared and seen to recover, the last across a reset; it leaves no own error behind and no more errors than others pushed, so an empty stack if they pushed none; unhindered the stack is empty whatever the result; with room for three errors in 0x1003 no error of others that was there at a check is ever cleared; nothing is done to a stack that was not empty |
| Gfc.Mcu.TriggerProducer | src/gfc_process.cpp:476-534 | success means exactly this request was served with this result, with at most one frame |
| Gfc.Mcu.Settle | src/gfc_process.cpp:832-885 | from any state, one disabling download; if it succeeded, no frame has gone out since and the producer stays disabled, settled or not; success means moreover nothing queued and no request pending |
| Gfc.Mcu.Cleanup | src/gfc_process.cpp:912-938 | 0x1300 is enabled again only while disabled with no request pending or queued, so after a successful disabling download no frame of the test goes out; without settling the producer stays disabled if that download succeeded or it was disabled before |
| Gfc.DisabledAfterFailure | src/gfc_process.cpp:912-919 | after a failed disabling download the producer is certainly disabled exactly if it was disabled before, queued downloads included |
| Gfc.Mcu.WriteValid | src/gfc_process.cpp:268-283 | a failed download leaves a state reachable from its submission; a successful one sets 0x1300 with nothing queued before it |
| Fixture.HostSdoServer.Create | src/host_sdo_server_fixture.cpp:29-88 | one new object with one sub-object, or nothing, whichever call fails |
| Fixture.HostSdoServer.Install | src/host_sdo_server_fixture.cpp:90-124 | all three objects or an unchanged dictionary and object population; objects of others are never replaced |
| Fixture.HostSdoServer.UninstallLocked | src/host_sdo_server_fixture.cpp:126-141 | from any stage of an installation, the library is back to what it was without the fixture |
| Fixture.Session | src/host_sdo_server_fixture.cpp:24-147 | after any sequence of installations and removals and the destructor, every object and sub-object is gone and the dictionary is as it was |
| Payloads.MakePayload | src/sdo_block_process.cpp:70-77 | the payload is the pattern of its seed |
| Payloads.PatternInjective | src/sdo_block_process.cpp:61-77 | from four bytes on, a payload determines its seed |
| Payloads.ShortPatternsCollide | src/sdo_block_process.cpp:61-77 | below four bytes it does not |
| Payloads.StressPayloadsDiffer | src/sdo_block_process.cpp:393-411 | no two of the hundred stress iterations transfer the same payload |
| Payloads.Checksum | src/sdo_client_process.cpp:170-178 | the loop computes the FNV-1a fold |
| Payloads.StepBijective | src/sdo_block_process.cpp:80-88 | for each byte the step is a bijection on 32-bit states |
| Payloads.StepSeparatesBytes | src/sdo_block_process.cpp:80-88 | for each state the step distinguishes all bytes |
| Payloads.OneByteChangesChecksum | src/sdo_block_process.cpp:80-88 | payloads of equal length that differ in exactly one byte never share a checksum |
| Payloads.ValidatePayload | src/sdo_block_process.cpp:99-121 | accepts exactly equal payloads |
| TimeArith.PositionBijective | src/time_process.cpp:87-91 | timestamps within a day correspond one to one to the positions of the cycle |
| TimeArith.DeltaUnique | src/time_process.cpp:96-99 | the delta is the unique step within the cycle between two positions |
| TimeArith.DeltaAdditive | src/time_process.cpp:96-99 | deltas add up modulo the cycle |
| TimeArith.VerdictShiftInvariant | src/time_process.cpp:468-507 | the progression verdict is the same wherever in the cycle it is taken, across midnight and the day wrap |
| TimeArith.SteadyClockAccepted | src/time_process.cpp:468-507 | a clock within 120 ms of the host's is accepted for any span below a cycle |
| TimeDiagnostic.Diagnostic.ReadTimeDiagnostic | src/time_process.cpp:135-224 | what is published comes from the last five of at most fifteen uploads, which pass the guard, and is the clock at the millisecond upload if no frame was pending and no counter wrapped |
| TimeDiagnostic.OneInstant | src/time_process.cpp:142-208 | an accepted attempt without a pending frame shows one instant, also across midnight and the day wrap |
| TimeDiagnostic.MixedByPendingFrame | src/time_process.cpp:135-224 | from every clock with a pending frame an accepted attempt can mix two days |
| TimeDiagnostic.CoherentIff | src/time_process.cpp:135-224 | every accepted attempt shows one instant if and only if no frame is pending when it begins |
| TimeDiagnostic.BeginningOfYesterday | src/time_process.cpp:341-346 | a concrete accepted reading that none of the five uploads shows |

## Left out

- Real time: deadlines, sleeps and rounding are nondeterministic choices; no bound in milliseconds is proved except
  the tolerance arithmetic of `TimeArith` and the interval comparison of `SyncTiming`.
- Lely and CANopenNode themselves, SocketCAN, logging, `src/main.cpp` and signal handling: represented by environment
  contracts only.
- `src/emcy_process.cpp`, `src/nmt_heartbeat.cpp`, `src/sdo_process.cpp`, `src/shutdown_process.cpp`,
  `src/canopen_process.cpp`: straight-line scripts or easier copies of modelled patterns.
- The fixed SRDO and GFC case lists and the wire fixtures' `drain`: scenarios that depend on firmware that is not part
  of this model. `ScopedRxPairWorker` and `ScopedTxSilenceObserver` are thread wrappers around one flag.
- What the processes observe besides the modelled state (frames accepted for transmission, startup snapshots, DUT
  timing, the host clock) is a nondeterministic verdict that an environment method draws and records in `flawed`.
- SyncPdo.SyncPdoProcess: does not state that a successful run sent a minimum of traffic; the observation windows are
  verdicts, and only `SyncTiming` looks inside one of them.
- Storage.CoreMode: for an empty payload the byte read past the baseline is any byte; what else undefined behaviour
  may do is not modelled. As for the other modes, only result 0 is characterised, since any target command may fail.
- Storage.RunCommand: a failed download lands at once or never; a failed command is not characterised.
- EmcyConsumer.Process: whether the MCU shows the right record is a nondeterministic verdict here and proved in
  `Snapshot`; errors of others that arrive between check and clear are lost, as in the source.
- NmtState.Observer.IssueAndWait: no correlation between a command and the indication it causes; a callback delayed
  past the command satisfies it, which docs/design.md:302 accepts. Generations and EMCY sequences are unbounded here,
  64-bit in the source.
- SdoClient.Mcu.RunTransaction: a failed download lands at once or never.
- TimeDiagnostic.Diagnostic.ReadTimeDiagnostic: the host time taken with the milliseconds is not modelled, and
  `TimeProcess.ReadDiagnostic` takes the guard as a verdict.
- Fixture.HostSdoServer.Create: the initial values and the read and write accessors are not modelled.
- SrdoPairs.Synchronizer.NextPair: after an ordering fault, which ends every use in the source, nothing is promised
  about the frames read.
- SrdoProfile.Serialise: models the fields the checksum covers, and therefore not the transmission type.
