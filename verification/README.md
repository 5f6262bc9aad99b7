# Models of the ldd3 storage drivers

Dafny models of the parts of the ldd3 repository whose correctness is decided by code rather than by
hardware, with proofs of what those parts promise. `dafny verify dfyconfig.toml` checks everything.

| file | models |
|---|---|
| `Basics.dfy` | bytes, options and small facts of arithmetic and sets |
| `MptChain.dfy` | the scatter/gather chain builder of the MPT target driver and the readers of its chains |
| `MptSense.dfy` | the cached-sense protocol of that driver |
| `Scatter.dfy` | scattered buffers and their flat contents |
| `FcpRead.dfy` | sending read data with resume after failures, and the status that follows (fcst) |
| `FcpWrite.dfy` | receiving write frames at any offset into a scattered buffer (fcst) |
| `FcpCommand.dfy` | the command state machine: who reports data arrival to SCST (fcst) |
| `FcpSession.dfy` | the hashed, reference-counted session table (fcst) |
| `FcpLookup.dfy` | its lookup without the lock, node by node beside all other steps (fcst) |
| `MvsRegSets.dfy`, `MvsSlots.dfy`, `MvsTxRing.dfy`, `MvsRelease.dfy`, `MvsDriver.dfy` | SATA register sets, tags, slots, lists and the delivery ring of the Marvell SAS driver: sets, specification steps, ring, the walk of a release, and the driver's own tables in place |
| `MvsRxRing.dfy` | the completion ring of that driver |
| `MvsCompletion.dfy` | tables, completion ring and hardware together: from submission to report |
| `ScullStore.dfy` | the quantum-set store of scull0 |
| `ScullPipe.dfy` | the circular buffer of access/scullb.c |

How the models are built. State that the C code changes in place is a class whose methods follow the
code; each method is proved against a function on values, and the properties of whole runs are lemmas
about those functions. Regions under one lock are one step; allocation results, send results, the
addresses the allocator returns and hardware indices are inputs. Pointers are numbers into an explicit
memory where linking matters (sessions, scull).

What the proofs found, where the code falls short of what one would expect:

- The bytes of the MPT chain area suffice for every list of up to 64 elements if a chain segment has at
  least 3 slots on a 64-bit kernel and at least 8 on a 32-bit one, where an MPT_SGE is smaller; with the
  smallest request frame that is also necessary (`MptChain.ChainAreaThreshold`).
- `ft_send_read_data` reports success too early when the data buffer is shorter than the response and
  holds a whole number of frames (`FcpRead.FtCmd.RespondShort`).
- A write frame received twice, or overlapping another, is counted twice, so a command can be reported
  complete with bytes missing (`FcpWrite.CountedIsCompleteIffNoOverlap`, `FcpCommand.SuccessExactly`).
- A transfer-ready whose send fails after the command has left NEED_DATA puts it back to NEW, so SCST can
  be told twice, unless nothing was reported and no response will restore NEW
  (`FcpCommand.ToldAtMostOnce`, `FcpCommand.HarmExactly`).
- The walk of `ft_tgt_release` reads the successor of a session that may just have been freed: it is not
  inside a read-side critical section, and no reference held by others is sure to protect it
  (`FcpSession.CanBeFreedExactly`, `FcpSession.AlwaysInDanger`, `FcpSession.FtTport.TgtRelease`).
- An external bus reset during a locally served REQUEST SENSE makes the driver hand its made-up command
  to SCST (`MptSense.LocalCommandFinish`).
- A mirror of the completion producer index that is older than what was handled makes the driver handle
  old descriptors again (`MvsRxRing.NewExactlyWhenFresh`).
- The completion ring has 1024 positions, and the chips 6485, 9180 and 9480 have 1024 or 2048 tags: a full
  lap of completions is then invisible to the driver. It needs fewer tags than positions
  (`MvsCompletion.MissesExactlyWhenFull`).
- Releasing tasks whose delivery entries were not fetched can overwrite such entries
  (`MvsTxRing.ReleaseOverwrites`), and the walk of a release loses its place when its saved successor is
  completed while the lock is dropped (`MvsDriver.Mvs.DoReleaseTask`, `MvsRelease.WalkIsLost`).
- A device whose last request to end is not an ATA one keeps its SATA register set, until an ATA request
  of it ends or it is removed (`MvsSlots.LastAtaFreesSet`).
- `have_space` in scullb returns the bytes pending, not the space its name says; a write that starts
  with the reader at the start of the buffer and runs to its end loses a buffer full
  (`ScullPipe.RunConserves`).
- scull0 tests the result of `vmalloc` with IS_ERR, which does not catch NULL, so a failed allocation is
  not reported (`ScullStore.Scull.Write`).

Where documentation and code disagree the models follow the code: the `have_space` name above, and the
comment at scst-trunk/mpt/mpt_scst.c:1446-1448, which does not mention the bus reset case.

## Model

| member | source | states |
|---|---|---|
| MptChain.BuildSgl | scst-trunk/mpt/mpt_scst.c:1206-1288 | Building in place leaves exactly the segmented layout in the request frame and chain area, touches nothing beyond it, and sets ChainOffset so that both walks of the result, the driver's by slots and the IOC's by byte addresses, byte lengths and word offsets, give back the original list; for an empty list, and only then, the final flags land in front of the SGL and nothing else changes |
| MptChain.MakeRoom | scst-trunk/mpt/mpt_scst.c:1208-1271 | When the current segment is full, and only then, a new segment is opened and the loop invariant (finished segments final, current one holding its share) survives |
| MptChain.ChainFrame | scst-trunk/mpt/mpt_scst.c:1210-1238 | The last frame element is replaced by a chain element at the area's address, its predecessor is flagged, and the displaced SGE becomes chain slot 0 |
| MptChain.ChainAgain | scst-trunk/mpt/mpt_scst.c:1241-1270 | Closing a full chain segment fixes the pending chain element's length and next offset, and the displaced SGE opens the next segment at the slot the new chain element points to |
| MptChain.Finish | scst-trunk/mpt/mpt_scst.c:1277-1288 | Fixing the last chain element and flagging the last data element turns the loop state into the final layout |
| MptChain.WalkAreaGivesList | scst-trunk/mpt/mpt_scst.c:4955-4981 | The driver's walk of a chain area recovers the list laid out there, whatever follows it in memory |
| MptChain.WalkSegmentGivesList | scst-trunk/mpt/mpt_scst.c:1243-1281 | A reader in bytes recovers the list from the three fields of the chain elements alone: a segment starts at byte Address, is Length bytes long, and its chain element is the one that starts 4 * NextChainOffset bytes into it |
| MptChain.BuiltRequestWalks | scst-trunk/mpt/mpt_scst.c:4955-4981 | Both readers, starting at the request frame, the IOC at the byte ChainOffset names, recover exactly the original SGEs in order for every non-empty list and every ta >= 2, nc >= 2 |
| MptChain.BuiltRequestWellFlagged | scst-trunk/mpt/mpt_scst.c:1222-1288 | LAST_ELEMENT is on the last data element of each segment and nowhere else; END_OF_LIST is on the final element of the whole request and nowhere else |
| MptChain.AreaWellFlagged | scst-trunk/mpt/mpt_scst.c:1241-1288 | The same for a chain area of any number of segments |
| MptChain.AreaLength | scst-trunk/mpt/mpt_scst.c:1241-1275 | A chain area takes one slot per SGE plus one per chain element |
| MptChain.ChainsBounds | scst-trunk/mpt/mpt_scst.c:1241-1270 | r SGEs need the ceiling of (r - nc) / (nc - 1) chain elements |
| MptChain.ChainSlotsFit | scst-trunk/mpt/mpt_scst.h:131-147 | The elements of at most 64 SGEs fit the bytes of the chain area, for every frame size, when a segment has at least 3 slots on a 64-bit kernel and at least 8 on a 32-bit one |
| MptChain.ChainAreaThreshold | scst-trunk/mpt/mpt_scst.h:131-147 | With a two-element frame the 12-byte elements of every list fit the bytes of chain_sge if and only if nc >= 3 where an MPT_SGE takes 16 bytes (64-bit kernel), and if and only if nc >= 8 where it takes 12 |
| FcpRead.FtCmd.SkipSent | scst-trunk/fcst/ft_io.c:71-92 | Finds the chunk and position of byte off, and fails exactly when the buffer ends at or before it |
| FcpRead.FtCmd.SendReadData | scst-trunk/fcst/ft_io.c:31-199 | The frames sent are the next ones of the canonical cut and read_data_len is their end; SUCCESS iff everything was sent or the buffer had ended where the call began; the frames sent are those before the first that cannot be allocated or sent, and within the loop limit that frame decides: FATAL_ERROR iff its send failed for another reason than memory, QUEUE_FULL otherwise; at most 10000 iterations and at most chunks left plus frames left; BUG_ON exactly when max_lso_payload is 0, there is something to send and memory for it |
| FcpRead.FtCmd.SendFrames | scst-trunk/fcst/ft_io.c:107-198 | The same for the sending loop from any resume position |
| FcpRead.FtCmd.Fill | scst-trunk/fcst/ft_io.c:114-174 | One turn up to the send: it stops without a buffer only where the cut ends, without a frame iff none could be allocated, and otherwise adds bytes to the frame and lowers the work left |
| FcpRead.AllGoesOut | scst-trunk/fcst/ft_io.c:107-198 | A call in which every frame can be allocated and sent, within the loop limit, leaves no whole frame unsent, and succeeds if the buffer covers the response |
| FcpRead.CutIsMaximal | scst-trunk/fcst/ft_io.c:126-145 | The cut ends at the end of the response or where the buffer has no further whole frame |
| FcpRead.FtCmd.Copy | scst-trunk/fcst/ft_io.c:138-171 | A copy advances by the largest amount both chunk and frame allow, appends exactly those bytes, lowers the loop measure, and trips a BUG_ON iff the frame length is zero |
| FcpRead.FtCmd.SendResponse | scst-trunk/fcst/ft_cmd.c:286-412 | Status goes out only after the data phase of a command that reads succeeded and the status' own allocation and send did; an aborted command sends nothing and succeeds; FATAL_ERROR iff no status is to be sent, the data phase was fatal, or the status' send failed for another reason than memory; QUEUE_FULL iff the data phase or the status lacked memory |
| FcpRead.FtCmd.RespondShort | scst-trunk/fcst/ft_cmd.c:332-405 | A response and its retry with nothing failing and the work within the loop limit, on a buffer shorter than the response: the status is sent, after less data than the response, if and only if the buffer is a whole number of frames |
| FcpRead.FrameCountIsCeiling | scst-trunk/fcst/ft_io.c:126-127 | The number of frames is the ceiling of bytes over max_lso_payload |
| FcpRead.FrameAt | scst-trunk/fcst/ft_io.c:126-180 | Frame i of the cut starts at i * lso, carries the response bytes of its range, is full unless last, and has END_SEQ iff it reaches the response length |
| FcpRead.FrameFilled | scst-trunk/fcst/ft_io.c:173-194 | A filled frame is the next one of the canonical cut |
| FcpRead.RunSendsPrefix | scst-trunk/fcst/ft_io.c:55-198 | Over any sequence of calls with any failures the frames sent are a prefix of the canonical cut, and read_data_len is where the rest begins |
| FcpRead.RunDeliversInOrder | scst-trunk/fcst/ft_io.c:55-198 | Over any such run the payloads concatenate to bytes [0, read_data_len) at matching offsets, and END_SEQ is only on the frame reaching the response length |
| FcpRead.StatusAfterAllData | scst-trunk/fcst/ft_cmd.c:332-405 | If the buffer covers the response, a sent status implies the whole response was sent before it |
| FcpRead.ShortBufferStatus | scst-trunk/fcst/ft_io.c:71-92 | For a buffer shorter than the response, among all runs that the contract of SendReadData admits, one that sends the status exists if and only if the buffer is a whole number of frames |
| FcpWrite.WriteCmd.RecvWriteData | scst-trunk/fcst/ft_io.c:204-292 | Through the scatter list every byte of the reachable buffer that the frame has a byte for, below bufflen, becomes that byte and no other byte changes; unreachable memory stays; write_data_len grows by the number of those bytes, modulo 2^32; completion is seen iff the frame was not dropped and the count equals bufflen |
| FcpWrite.ReceivedLands | scst-trunk/fcst/ft_io.c:229-276 | The flat write of the clipped payload writes exactly those bytes, and their number is what is counted |
| FcpWrite.CompleteIffAllCarried | scst-trunk/fcst/ft_io.c:229-292 | Frames that lie inside the buffer and carry the initiator's data from where they say, in any order and overlapping or not, leave that data in the buffer if and only if every byte is in one of them |
| FcpWrite.PartitionDelivers | scst-trunk/fcst/ft_io.c:229-292 | Frames that divide the data among them, in any order, leave the initiator's data in the buffer and count to exactly bufflen |
| FcpWrite.WriteCmd.CopyLoop | scst-trunk/fcst/ft_io.c:243-276 | The copy loop stores as many payload bytes as the reachable buffer has room for after rel_off |
| FcpWrite.WriteCmd.Seek | scst-trunk/fcst/ft_io.c:244-266 | Skipping chunks and the rest of rel_off arrives at the flat position of the next byte, or proves that position is past the end |
| FcpWrite.WriteCmd.CopyChunk | scst-trunk/fcst/ft_io.c:268-275 | Copying into one chunk extends the flat write and the count by the bytes copied |
| FcpWrite.WriteChunk | scst-trunk/fcst/ft_io.c:268-275 | A write inside one scatter chunk is a write at the chunk's start offset in the flat buffer |
| FcpWrite.ByteAfter | scst-trunk/fcst/ft_io.c:233-292 | After any frames cut from the initiator's data, in any order, a byte is the initiator's if some frame covered it and the old one otherwise |
| FcpWrite.CountVersusCovered | scst-trunk/fcst/ft_io.c:275-284 | write_data_len never falls short of the bytes covered, and equals them iff no two frames overlap |
| FcpWrite.CompleteExactlyWhenCounted | scst-trunk/fcst/ft_io.c:275-292 | For non-overlapping frames in any order, write_data_len equals bufflen iff the buffer holds the initiator's data whatever it held before |
| FcpWrite.CountedIsCompleteIffNoOverlap | scst-trunk/fcst/ft_io.c:275-292 | Once the u32 write_data_len equals bufflen, no two frames overlap if and only if the data is complete and the counter has not wrapped around |
| FcpWrite.StaysComplete | scst-trunk/fcst/ft_io.c:233-292 | Frames that arrive after the data is complete leave it complete |
| FcpWrite.DuplicateFrameMiscounts | scst-trunk/fcst/ft_io.c:275-292 | A repeated frame makes the count reach bufflen with a byte missing |
| FcpCommand.FtCmd.SetCmdState | scst-trunk/fcst/ft_cmd.c:175-188 | Sets the state unless it is DONE and returns the previous one |
| FcpCommand.FtCmd.TestAndSetCmdState | scst-trunk/fcst/ft_cmd.c:195-211 | Succeeds iff the state was the expected one, and only then changes it |
| FcpCommand.FtCmd.AbortCmd | scst-trunk/fcst/ft_cmd.c:213-250 | Abort in NEED_DATA moves to DATA_IN and reports a fatal error; no other state reports |
| FcpCommand.FtCmd.AllDataArrived | scst-trunk/fcst/ft_io.c:284-292 | The last data frame reports success iff the command still waited for data |
| FcpCommand.NextKeepsInv | scst-trunk/fcst/ft_cmd.c:175-250 | Each step keeps: reports plus unanswered NEED_DATA states never exceed the entries into NEED_DATA; each success report was made after a count that matched bufflen |
| FcpCommand.NextReports | scst-trunk/fcst/ft_cmd.c:213-250 | A step calls scst_rx_data at most once, only when it takes the command from NEED_DATA to DATA_IN, and DONE is never left |
| FcpCommand.RunKeepsInv | scst-trunk/fcst/ft_cmd.c:175-504 | The invariant holds in every state of every interleaving |
| FcpCommand.RxBounded | scst-trunk/fcst/ft_cmd.c:465-504 | In every interleaving scst_rx_data is called at most as often as NEED_DATA was entered, and each report of success was made after as many frames as, counted modulo 2^32, come to bufflen |
| FcpCommand.SuccessMeansComplete | scst-trunk/fcst/ft_io.c:275-292 | In every interleaving, given any success report, frames cut from the initiator's data that do not overlap have delivered all of it |
| FcpCommand.SuccessExactly | scst-trunk/fcst/ft_io.c:275-292 | Given any success report, the frames whose count led to that report do not overlap if and only if they delivered all the data without the counter wrapping around |
| FcpCommand.DoneForever | scst-trunk/fcst/ft_cmd.c:175-188 | From DONE on the state and the reports never change |
| FcpCommand.ToldAtMostOnce | scst-trunk/fcst/ft_cmd.c:465-504 | Over every run with no management step and responses one at a time and never in NEED_DATA, in which every transfer-ready that fails does so in NEED_DATA or NEW, or with nothing reported and no response under way that may restore NEW, SCST is told at most once |
| FcpCommand.HarmExactly | scst-trunk/fcst/ft_cmd.c:494-503 | That condition is exact: after any such run one more failed transfer-ready, and no other, can be followed by steps after which SCST has been told twice if and only if it breaks the condition |
| FcpCommand.ToldExactlyOnce | scst-trunk/fcst/ft_cmd.c:286-308 | Over every such run without failed transfer-ready the command waits for data at most once and is reported exactly once when it stops waiting |
| FcpCommand.AnsweredTwice | scst-trunk/fcst/ft_cmd.c:494-503 | A failure that breaks it does come: transfer-ready, abort, failed send, transfer-ready, abort make two reports for one command |
| FcpCommand.CountedIsReported | scst-trunk/fcst/ft_io.c:284-292 | In every run, once the frames copied count to bufflen while the command waits for data, the comparison finds it so and success is reported |
| FcpCommand.PlainState | scst-trunk/fcst/ft_cmd.c:175-250 | In every run without failed sends and management steps the state is read off the steps: CMD_RSP_SENT iff a response began, else DATA_IN iff an abort or the last data came after the transfer-ready, else NEED_DATA iff there was one, else NEW |
| FcpCommand.FailureRestores | scst-trunk/fcst/ft_cmd.c:404-405 | In every run without management steps the command is never DONE nor in a management state, a failed response puts it back to the state in which that response began, and a failed transfer-ready to NEW |
| FcpCommand.ManagementState | scst-trunk/fcst/ft_cmd.c:581-622 | A management function never reports data, is in MGMT until its response, then in MGMT_RSP_SENT, and DONE exactly when an abort comes after the response |
| FcpSession.NextKeepsInv | scst-trunk/fcst/ft_sess.c:180-610 | Every step, with release as a walk of many steps, keeps: count = table reference + references held; gone reported once and only at zero; no lookup sees freed memory; a disabled port that is not being released has an empty table |
| FcpSession.LoginKeepsInv | scst-trunk/fcst/ft_sess.c:404-416 | The invariant survives login |
| FcpSession.LogoutKeepsInv | scst-trunk/fcst/ft_sess.c:489-514 | The invariant survives logout |
| FcpSession.PutKeepsInv | scst-trunk/fcst/ft_sess.c:471-487 | The invariant survives dropping a reference |
| FcpSession.GetKeepsInv | scst-trunk/fcst/ft_sess.c:203-206 | The invariant survives kref_get_unless_zero after a find |
| FcpSession.ReclaimKeepsInv | scst-trunk/fcst/ft_sess.c:464-480 | The invariant survives freeing after the grace period |
| FcpSession.CloseKeepsInv | scst-trunk/fcst/ft_sess.c:330-341 | The invariant survives closing one session of a release |
| FcpSession.RunKeepsInv | scst-trunk/fcst/ft_sess.c:180-610 | The invariant holds in every state of every interleaving of locked steps, lock-free lookups and puts |
| FcpSession.CountsStayPositive | scst-trunk/fcst/ft_sess.c:180-216 | In every reachable state a session in the table or referenced has a positive count and was not unregistered, nothing is unregistered twice, no lookup sees freed memory, and a disabled port that is not being released has no sessions |
| FcpSession.TableFromHistory | scst-trunk/fcst/ft_sess.c:222-323 | In every run the table has a session under a port id if and only if a login of that id entered it while the port was enabled and the id was free, and no logout or close of that id came since |
| FcpSession.CanBeFreedExactly | scst-trunk/fcst/ft_sess.c:563-587 | In every run and at any moment between the close of a session by the walk of a release and the read of its successor, the session's memory can be freed, and the walk then reads freed memory, if and only if nobody holds a reference to the session and no lookup has found it |
| FcpSession.AlwaysInDanger | scst-trunk/fcst/ft_sess.c:563-587 | From every such moment of every run, whatever references and lookups there are, only lookups finishing, references being dropped and the grace period lead to the walk reading freed memory |
| FcpSession.FreedOnlyAfterLastPut | scst-trunk/fcst/ft_sess.c:563-587 | In every run, if the walk comes to read freed memory, nobody holds a reference or has found the session, and SCST was told it is gone |
| FcpSession.ReleaseReadsFreed | scst-trunk/fcst/ft_sess.c:563-587 | It happens to a session with the table reference only: enable, one login, release, close, end of the grace period |
| FcpSession.ReleaseReadsFreedLater | scst-trunk/fcst/ft_sess.c:563-587 | It happens to a session closed with two references: the other one is dropped between the close and the read |
| FcpSession.UnlinkHolds | scst-trunk/fcst/ft_sess.c:288-297 | Taking a node out of its bucket leaves well-linked buckets that hold exactly the remaining sessions, each in the bucket of its port id |
| FcpSession.LinkHolds | scst-trunk/fcst/ft_sess.c:275-276 | Adding a node at the head of its bucket leaves well-linked buckets that hold exactly one session more |
| FcpSession.FtTport.Find | scst-trunk/fcst/ft_sess.c:180-216 | Walking one bucket finds the session of a port id iff the map has one |
| FcpSession.FtTport.KrefGetUnlessZero | scst-trunk/fcst/ft_sess.c:203-206 | A reference is taken iff the count is positive; nothing else in memory changes |
| FcpSession.FtTport.SessCreate | scst-trunk/fcst/ft_sess.c:222-285 | Refuses when disabled or without frame size, updates an existing session's parameters, otherwise enters a new session with count 1, or fails without effect; no other session's parameters or count change |
| FcpSession.FtTport.HlistDel | scst-trunk/fcst/ft_sess.c:292-292 | hlist_del_rcu makes the neighbours skip the node and keeps the node's own successor |
| FcpSession.FtTport.Unhash | scst-trunk/fcst/ft_sess.c:288-297 | Removes exactly that session from the map and leaves its count and successor |
| FcpSession.FtTport.SessDelete | scst-trunk/fcst/ft_sess.c:303-323 | Removes the session of the port id if there is one and hands over the table's reference |
| FcpSession.FtTport.SessClose | scst-trunk/fcst/ft_sess.c:330-341 | A hashed session is removed and its table reference dropped; any other is left alone |
| FcpSession.FtTport.SessPut | scst-trunk/fcst/ft_sess.c:482-487 | Drops one reference; the last one unregisters the session |
| FcpSession.FtTport.Grace | scst-trunk/fcst/ft_sess.c:463-480 | A grace period frees a closed session iff it has no references, and leaves the table as it is |
| FcpSession.FtTport.CloseBucket | scst-trunk/fcst/ft_sess.c:577-583 | Closing the sessions of a bucket while walking it removes every one of them, unless it goes astray: if and only if a grace period ends right after the close of a session whose table reference was its last |
| FcpSession.FtTport.CloseAndAdvance | scst-trunk/fcst/ft_sess.c:330-341 | One turn: the session leaves map and list, its reference is dropped, and the successor read is the next session of the list unless the session was freed |
| FcpSession.FtTport.TgtRelease | scst-trunk/fcst/ft_sess.c:563-587 | All buckets end empty, sess_count is 0, the port is disabled and every table reference is dropped once; the walk goes astray if and only if a grace period ends between dropping some session's last reference and reading its successor |
| FcpSession.FtTport.TgtEnable | scst-trunk/fcst/ft_sess.c:589-611 | Enabling sets the flag, or fails without effect when there is no port yet; disabling releases |
| FcpLookup.ThenSafe | scst-trunk/fcst/ft_sess.c:180-216 | A lookup that walks its bucket node by node without the lock stays safe through every step of others: each session it can still come to is in memory, leads to another such session or to the end, and has a port id only if it is in the table under it |
| FcpLookup.NeverReadsFreed | scst-trunk/fcst/ft_sess.c:180-216 | Whatever sessions are entered, taken out, counted and freed meanwhile, the lookup is never at a freed session |
| FcpLookup.FoundIsHashed | scst-trunk/fcst/ft_sess.c:180-216 | What it finds is the session the table has under that port id at that moment |
| FcpLookup.StaysIsFound | scst-trunk/fcst/ft_sess.c:180-216 | If one session has the port id from beginning to end, the lookup finds no other and does not miss it, and compares at most as many sessions as its bucket held when it began |
| FcpLookup.MissWasTrue | scst-trunk/fcst/ft_sess.c:180-216 | A lookup that comes to the end of the list without a match: at some moment since it began no session had the port id |
| FcpLookup.UnlinkLeads | scst-trunk/fcst/ft_sess.c:288-297 | Taking out any other session leaves a way from the place of the lookup to a session, no longer than before |
| MptSense.Priv.PendingSense | scst-trunk/mpt/mpt_scst.c:1456-1562 | A REQUEST SENSE in HANDLE_RQ is answered from that initiator's cache, any other arrival clears it; other initiators are untouched |
| MptSense.Priv.SendTargetStatus | scst-trunk/mpt/mpt_scst.c:3059-3086 | Status with sense caches the sense and records the attempt |
| MptSense.Priv.Reply | scst-trunk/mpt/mpt_scst.c:796-835 | The reply moves the attempt on (not sent leads to HANDLE_RQ) and finishes the command towards SCST or locally |
| MptSense.Priv.ExtBusReset | scst-trunk/mpt/mpt_scst.c:2487-2500 | A bus reset makes every initiator idle |
| MptSense.HistoryExplains | scst-trunk/mpt/mpt_scst.c:1395-1455 | After any possible history the cell says exactly what the history says |
| MptSense.ServedExactlyWhenUnsent | scst-trunk/mpt/mpt_scst.c:1456-1562 | A REQUEST SENSE is served from the cache if and only if the last two events are a status with sense and its report as not sent, and the allocation succeeds |
| MptSense.ServedSenseIsThatCommands | scst-trunk/mpt/mpt_scst.c:1514-1527 | What is served is that command's sense data as far as it goes, cut to the requested length, the buffer and the length the sense data gives of itself |
| MptSense.AnswerIs | scst-trunk/mpt/mpt_scst.c:1514-1527 | After any history and for sense data of any length, the whole answer: each byte is that of the last status whose sense data reaches so far, and the length is the least of the requested length, the buffer and the length byte so found plus 8 |
| MptSense.ServedAtMostOnce | scst-trunk/mpt/mpt_scst.c:796-835 | Between two served requests another status with sense was sent |
| MptSense.LocalCommandFinish | scst-trunk/mpt/mpt_scst.c:819-834 | A made-up command is freed locally, except that it goes to SCST if and only if a bus reset was the last event |
| MptSense.ResetHandsOverLocal | scst-trunk/mpt/mpt_scst.c:2487-2500 | A possible history that ends that way, for every sense data |
| MptSense.ScstCommandFinish | scst-trunk/mpt/mpt_scst.c:799-834 | A command of SCST always goes back to SCST |
| MvsRxRing.Actions | scst-trunk/mvsas_tgt/mv_sas.c:2298-2321 | A descriptor completes its slot at most once, and does iff it is done or in error without attention |
| MvsRxRing.RxRing.Handle | scst-trunk/mvsas_tgt/mv_sas.c:2298-2321 | The branches of the loop body perform exactly those actions |
| MvsRxRing.RxRing.IntRx | scst-trunk/mvsas_tgt/mv_sas.c:2251-2327 | For all indices it may read: rx_cons ends at the mirror, or at the register when the mirror has no news, after handling exactly the ring positions up to it in order; it terminates with the distance left modulo the ring as measure |
| MvsRxRing.EachOnceInOrder | scst-trunk/mvsas_tgt/mv_sas.c:2261-2322 | Over every sequence of interrupts whose mirror is not older than what was handled and whose hardware is less than a lap ahead, every descriptor is handled exactly once and in order and rx_cons says how many |
| MvsRxRing.RxRing.Service | scst-trunk/mvsas_tgt/mv_sas.c:2251-2327 | The same of the method that handles them, called for each interrupt on the ring as written at that moment |
| MvsCompletion.DescActs | scst-trunk/mvsas_tgt/mv_sas.c:2298-2321 | What one descriptor does to the tables, by cases: done, or in error without attention, completes the slot; a slot reset without attention or error clears the tag and nothing else |
| MvsCompletion.AfterKeepsGood | scst-trunk/mvsas_tgt/mv_sas.c:926-2322 | With fewer tags than ring positions, every step of submission, removal, hardware and interrupt handling keeps: the busy slots are those the hardware has and those whose descriptor is not handled, each in one place, each descriptor completing the task it answers |
| MvsCompletion.EachReportIsOwed | scst-trunk/mvsas_tgt/mv_sas.c:1861-1998 | In every run each turn of the interrupt's loop takes the next descriptor and frees the slot of the task it answers, with task_done iff the task was not aborted |
| MvsCompletion.ReportedExactlyOnce | scst-trunk/mvsas_tgt/mv_sas.c:926-2322 | In every state of every run the tasks reported, or freed as aborted, are those of the descriptors handled, one for one; once everything is answered and handled that is every task queued, and none is in flight |
| MvsCompletion.AllReported | scst-trunk/mvsas_tgt/mv_sas.c:1861-1998 | If moreover no task was aborted, task_done has been called exactly once for each task queued |
| MvsCompletion.NoneDropped | scst-trunk/mvsas_tgt/mv_sas.c:1881-1899 | Without aborted tasks nothing is freed without task_done |
| MvsCompletion.CatchesUpWithAll | scst-trunk/mvsas_tgt/mv_sas.c:2251-2322 | From any state of any run, one interrupt whose mirror is up to date lets the driver handle everything written |
| MvsCompletion.FetchedIs | scst-trunk/mvsas_tgt/mv_sas.c:2278-2279 | Within a lap the next position of the ring holds the next descriptor, also when the hardware writes on meanwhile |
| MvsCompletion.SmallRingSuffices | scst-trunk/mvsas_tgt/mv_sas.c:2261-2276 | With fewer tags than ring positions no interrupt with an up-to-date mirror ends with new descriptors unhandled |
| MvsCompletion.FullLapIsMissed | scst-trunk/mvsas_tgt/mv_init.c:30-36 | For every number of tags from 1024 on there is a run in which such an interrupt sees nothing new while 1024 answered tasks are unhandled |
| MvsCompletion.MissesExactlyWhenFull | scst-trunk/mvsas_tgt/mv_init.c:30-36 | Such an interrupt exists if and only if there are at least as many tags as ring positions |
| MvsRxRing.NewExactlyWhenFresh | scst-trunk/mvsas_tgt/mv_sas.c:2261-2275 | With a mirror less than a lap late, an interrupt handles exactly the new descriptors and keeps its place if and only if the mirror is not older than what has been handled |
| MvsRxRing.LateMirrorHandlesAgain | scst-trunk/mvsas_tgt/mv_sas.c:2261-2279 | Five handled and the mirror still at three: the interrupt comes round to descriptors 0, 1 and 2 again |
| MvsRxRing.IndexStep | scst-trunk/mvsas_tgt/mv_sas.c:2278-2279 | Incrementing the index is handling one more descriptor, including from the 0xfff start |
| MvsRxRing.LapIsInvisible | scst-trunk/mvsas_tgt/mv_sas.c:2274-2275 | After the first lap the driver sees no news if and only if there is none or the hardware is exactly one lap ahead |
| MvsRegSets.SwitchOnly | scst-trunk/mvsas_tgt/mv_64xx.c:498-552 | Switching one set leaves all other sets and the control bits alone |
| MvsRegSets.Chip.AssignRegSet | scst-trunk/mvsas_tgt/mv_64xx.c:523-552 | Sets the lowest clear enabling bit, bit 16 + i of PCS for sets below 16 and bit i of CTL for the others, and clears only that set's pending interrupt; keeps a mapped set; fails iff all bits of the srs_sz sets are set |
| MvsRegSets.Chip.FreeRegSet | scst-trunk/mvsas_tgt/mv_64xx.c:498-521 | Clears exactly the enabling bit of the given set and its pending interrupt, and unmaps it |
| MvsRegSets.SetsAreBits | scst-trunk/mvsas_tgt/mv_64xx.c:505-511 | Which bit of which register belongs to a set |
| MvsRegSets.ReleaseFrees | scst-trunk/mvsas_tgt/mv_sas.c:266-278 | An idle device with a set is unmapped and that set, and no other, is disabled; any other device keeps what it has |
| MvsRegSets.AssignFailsIff | scst-trunk/mvsas_tgt/mv_64xx.c:527-551 | Assignment fails if and only if the device is unmapped and all srs_sz sets are enabled |
| MvsRegSets.AssignKeeps | scst-trunk/mvsas_tgt/mv_sas.c:280-286 | Assignment keeps mapped sets distinct and enabled and disturbs no other device |
| MvsRegSets.ReleaseKeeps | scst-trunk/mvsas_tgt/mv_sas.c:266-278 | Release keeps them distinct and enabled; a device with requests running keeps its set |
| MvsSlots.ClaimKeepsInv | scst-trunk/mvsas_tgt/mv_sas.c:1018-1030 | Taking a free tag and slot for a task keeps tags, slots, lists, back pointers and counts in step |
| MvsSlots.SubmitKeepsInv | scst-trunk/mvsas_tgt/mv_sas.c:926-1053 | One submission keeps the invariant, and changes nothing unless it queues the task |
| MvsSlots.QueuedExactly | scst-trunk/mvsas_tgt/mv_sas.c:926-1053 | A task is queued if and only if its device is there, its port attached, some slot is free, and it is ATA with a set of its own or one not enabled, or not ATA and mapped and prepared; it is passed over if and only if the device is there, the port not attached and the task not ATA |
| MvsSlots.QueuedTakesSet | scst-trunk/mvsas_tgt/mv_sas.c:624-628 | An ATA task of a device without a set takes the lowest one not enabled; no other device or set changes |
| MvsSlots.FreedKeepsInv | scst-trunk/mvsas_tgt/mv_sas.c:1068-1099 | Freeing a slot and counting its device down keeps the invariant, with the task accounted for once |
| MvsSlots.CompleteKeepsInv | scst-trunk/mvsas_tgt/mv_sas.c:1861-1998 | Completing any slot, busy or not, aborted or not, keeps the invariant |
| MvsSlots.LastAtaFreesSet | scst-trunk/mvsas_tgt/mv_sas.c:1981-1985 | A completion takes the set from the device if and only if it was the last request and an ATA one; exactly that set is then disabled |
| MvsSlots.RemoveKeepsInv | scst-trunk/mvsas_tgt/mv_sas.c:1419-1437 | Removing an idle device keeps the invariant |
| MvsSlots.RemovedIs | scst-trunk/mvsas_tgt/mv_sas.c:1419-1437 | and gives back its register set, touching no other device, set, slot or list |
| MvsSlots.EnabledExactlyWhenHeld | scst-trunk/mvsas_tgt/mv_sas.c:266-286 | In every state of every run that starts with all register sets disabled, a set is enabled if and only if some device has it |
| MvsSlots.RefusedOnlyWhileHeld | scst-trunk/mvsas_tgt/mv_64xx.c:523-552 | In every such run an ATA task that could otherwise be queued is refused if and only if its device has no set and every set is held by a device |
| MvsSlots.RunKeepsInv | scst-trunk/mvsas_tgt/mv_sas.c:926-1998 | The invariant holds in every reachable state |
| MvsSlots.AllInStep | scst-trunk/mvsas_tgt/mv_sas.c:926-2026 | In every reachable state a tag is set iff its slot holds a task, slots and tasks point at each other, port lists hold exactly the busy slots once each, running_req counts them, and each queued task is finished at most once |
| MvsSlots.RegisterSetsHeld | scst-trunk/mvsas_tgt/mv_sas.c:624-628 | In every reachable state mapped devices have distinct enabled sets, and a device with an ATA task in a slot is mapped |
| MvsSlots.SetKeptWhileBusy | scst-trunk/mvsas_tgt/mv_sas.c:1981-1985 | A step that leaves such a device with requests running leaves it the same set |
| MvsTxRing.OverwritesIffFull | scst-trunk/mvsas_tgt/mv_sas.c:1030-1030 | A submission would overwrite an entry not yet fetched if and only if a full ring is unfetched |
| MvsTxRing.RoomForOne | scst-trunk/mvsas_tgt/mv_sas.c:66-78 | While a tag is free, fewer entries are unfetched than there are tags, so the next one overwrites nothing |
| MvsTxRing.PushKeepsInv | scst-trunk/mvsas_tgt/mv_sas.c:980-1030 | Queueing keeps: unfetched entries sit in a window behind tx_prod and carry distinct allocated tags |
| MvsTxRing.NeverOverwritten | scst-trunk/mvsas_tgt/mv_sas.c:980-1050 | In every run that completes a slot only after its entry was fetched, no submission overwrites an unfetched entry |
| MvsTxRing.RunKeepsPlaced | scst-trunk/mvsas_tgt/mv_sas.c:1030-1030 | In every run, without any condition, tx_prod is the number of entries written modulo the ring |
| MvsTxRing.OverwritesExactlyWhenFull | scst-trunk/mvsas_tgt/mv_sas.c:980-1050 | In every run a submission would overwrite an unfetched entry if and only if a full ring of entries is unfetched |
| MvsTxRing.ReleaseOverwrites | scst-trunk/mvsas_tgt/mv_sas.c:2000-2026 | Without that condition it happens for every ring size: releasing tasks that were not fetched frees their tags early |
| MvsTxRing.ReleasesUnfetched | scst-trunk/mvsas_tgt/mv_sas.c:2000-2026 | Any number of entries can be left unfetched that way |
| MvsDriver.BatchAdvances | scst-trunk/mvsas_tgt/mv_sas.c:1028-1050 | A batch that queues p tasks advances tx_prod by p modulo the ring |
| MvsDriver.BatchRuns | scst-trunk/mvsas_tgt/mv_sas.c:926-1053 | A batch tries its tasks in order, each on the state the one before left, up to the end or the first that stops it, and counts those that were queued |
| MvsDriver.DoorbellIsLastEntry | scst-trunk/mvsas_tgt/mv_sas.c:1047-1050 | The doorbell value is the ring position of the last entry written |
| MvsDriver.Mvs.TagAlloc | scst-trunk/mvsas_tgt/mv_sas.c:66-78 | Allocates the lowest clear tag, or fails iff all are set |
| MvsDriver.Mvs.Enqueue | scst-trunk/mvsas_tgt/mv_sas.c:1018-1030 | Updates ring entry, slot, list, back pointer, count and tx_prod as the specification step does |
| MvsDriver.Mvs.ExecOne | scst-trunk/mvsas_tgt/mv_sas.c:926-1037 | One turn of the loop, with each of its exits, is one specification submission |
| MvsDriver.Mvs.TaskExec | scst-trunk/mvsas_tgt/mv_sas.c:926-1053 | A batch of distinct tasks not in flight equals its specification, keeps the invariant, and rings the doorbell iff something was queued |
| MvsDriver.Mvs.SlotTaskFree | scst-trunk/mvsas_tgt/mv_sas.c:1068-1099 | List, back pointer, slot and tag are freed together |
| MvsDriver.Mvs.SlotComplete | scst-trunk/mvsas_tgt/mv_sas.c:1861-1998 | Completion equals its specification, and task_done is called iff the slot was busy and not aborted |
| MvsDriver.Mvs.RxDesc | scst-trunk/mvsas_tgt/mv_sas.c:2298-2321 | The branches for one descriptor, on the driver's own tables, have exactly the effect of its actions in order: the slot is completed at most once, and a slot reset frees the tag alone |
| MvsDriver.Mvs.DoReleaseTask | scst-trunk/mvsas_tgt/mv_sas.c:2000-2026 | With each successor saved before its slot is completed and others completing slots while the lock is dropped: the walk loses its place if and only if, as computed from the list, the slots and the aborted tasks at the call, it comes to a turn that reports a task while others complete its saved successor; otherwise every slot of the port (and device) is freed; undisturbed, exactly those are, and each of their tasks is reported once unless aborted |
| MvsRelease.SuccIsNext | scst-trunk/mvsas_tgt/mv_sas.c:2013-2013 | In what is left of the list the entry after a slot is the next one of the original list still in use |
| MvsRelease.OthersKeepOrder | scst-trunk/mvsas_tgt/mv_sas.c:1990-1995 | Whatever others complete while the lock is dropped, what is left of the list keeps its order and only those slots go |
| MvsRelease.TurnDone | scst-trunk/mvsas_tgt/mv_sas.c:2013-2025 | A turn leaves every targeted slot before the next entry free, drops the lock as the state at the call says, and takes from the rest of the list exactly what others completed |
| MvsRelease.LosesUnfolds | scst-trunk/mvsas_tgt/mv_sas.c:2013-2025 | At any turn, with what others have completed so far, the walk is lost if and only if its next entry in use goes in this turn or it is lost from that entry on |
| MvsRelease.NotLost | scst-trunk/mvsas_tgt/mv_sas.c:2013-2025 | A walk is never lost to completions of slots that are not on its list |
| MvsRelease.LostAtOnce | scst-trunk/mvsas_tgt/mv_sas.c:2013-2025 | Every walk whose second entry is completed while the task of the first is reported is lost |
| MvsRelease.WalkIsLost | scst-trunk/mvsas_tgt/mv_sas.c:2013-2025 | That happens: a run that queues two tasks on one port, and a release during which the second is completed |
| MvsRelease.TurnReleases | scst-trunk/mvsas_tgt/mv_sas.c:2013-2025 | Undisturbed, a turn completes exactly its slot if targeted and the next entry follows |
| MvsRelease.ReleasedSlots | scst-trunk/mvsas_tgt/mv_sas.c:2000-2026 | What an undisturbed release has done, in terms of the slots alone: those of the port and device are free, all others as before, and task_done was called once for each task in them that was not aborted |
| ScullPipe.SpaceIsPositive | access/scullb.c:119-124 | have_space gives the number of bytes pending (bufsize - 1 when empty), so a writer waits if and only if the buffer has one byte |
| ScullPipe.WriteCountBounds | access/scullb.c:150-154 | A write stays inside the buffer and behind the reader, and reaches the end with the reader at the start only if it loses |
| ScullPipe.ReadTakesFront | access/scullb.c:101-111 | A read takes exactly the front of what is pending, also across the wrap |
| ScullPipe.ReadTakesMost | access/scullb.c:98-111 | A read takes all it asked for, or everything up to the writer, or everything up to the end of the buffer, and wraps there |
| ScullPipe.WriteAppends | access/scullb.c:150-162 | A write appends exactly its bytes, unless it is the losing one, which leaves nothing pending |
| ScullPipe.WriteStoresMost | access/scullb.c:150-162 | A write stores the least of its bytes, what have_space says, and what there is to the end of the buffer or to one short of the reader, and wraps at the end |
| ScullPipe.NextKeepsInv | access/scullb.c:80-169 | A turn of a reader or writer keeps the byte accounting |
| ScullPipe.RunKeepsInv | access/scullb.c:80-169 | The accounting holds after every turn of every run |
| ScullPipe.RunConserves | access/scullb.c:80-169 | Over every run the pointers stay inside the buffer, each losing write loses exactly one buffer full, and bytes read then pending equal bytes written if and only if no losing write happened |
| ScullPipe.LossHappens | access/scullb.c:150-162 | For every buffer of two bytes or more: from the empty device, filling all but one byte and writing one byte more loses everything |
| ScullPipe.Scullb.Read | access/scullb.c:88-111 | A reader waits iff nothing is pending, else takes as much of the front as one copy can |
| ScullPipe.Scullb.Write | access/scullb.c:136-162 | A writer stores the front of its data at the write position as the specification says, or waits iff have_space is zero |
| ScullStore.Split | scull0/scull.c:167-170 | For all positive scull_qset and scull_quantum pos is below scull_qset and offset below scull_quantum, so the bound checks on pos never fire |
| ScullStore.SplitJoin | scull0/scull.c:167-170 | For all positive sizes, index, pos and offset determine the file offset |
| ScullStore.JoinSplit | scull0/scull.c:167-170 | For all positive sizes, every such triple is the split of exactly one offset |
| ScullStore.SameQuantum | scull0/scull.c:167-170 | Two offsets share index and pos if and only if they are in the same quantum of the flat file |
| ScullStore.AppendKeepsFormed | scull0/scull.c:41-51 | Linking a zeroed node at the end keeps the list well formed |
| ScullStore.AppendKeepsBytes | scull0/scull.c:41-51 | and changes neither contents nor other memory |
| ScullStore.AddTableKeepsFormed | scull0/scull.c:224-233 | Giving a node a table keeps the structure well formed |
| ScullStore.AddTableKeepsBytes | scull0/scull.c:224-233 | and changes neither contents nor other memory |
| ScullStore.AddQuantumKeepsFormed | scull0/scull.c:236-245 | Giving a table a quantum keeps the structure well formed |
| ScullStore.AddQuantumIsEmptyWrite | scull0/scull.c:236-245 | and makes exactly that quantum readable, as zeroes |
| ScullStore.PutBytesKeepsFormed | scull0/scull.c:248-254 | Copying into a quantum keeps the structure well formed |
| ScullStore.PutBytesIsWrite | scull0/scull.c:248-254 | and writes exactly the addressed bytes of the flat store |
| ScullStore.RepeatedWrites | scull0/scull.c:204-257 | Repeating short writes until done terminates and equals one flat write of all the data |
| ScullStore.RepeatedReads | scull0/scull.c:167-193 | Repeating short reads returns exactly the bytes asked for when all are present, and nothing otherwise |
| ScullStore.ShareIsMost | scull0/scull.c:185-185 | One call moves the whole request or everything up to the end of the quantum |
| ScullStore.WritesReadBack | scull0/scull.c:152-258 | What repeated writes stored, repeated reads return, and every other byte is unchanged (zero where a quantum came into being) |
| ScullStore.ContentsGranular | scull0/scull.c:179-183 | A quantum is present as a whole or not at all |
| ScullStore.Scull.Follow | scull0/scull.c:34-56 | Returns the node of the index, extending the list only as far as needed, without changing contents or other memory; a failed vmalloc is never reported: the call faults if and only if an allocation it needs fails |
| ScullStore.Scull.Read | scull0/scull.c:152-194 | Interrupted in the semaphore it changes nothing; otherwise it returns the rest of the quantum up to len, nothing iff the quantum is missing, -EAGAIN iff the copy fails, or faults iff a list node it needs cannot be allocated; contents and other memory stay, *off advances by the bytes read |
| ScullStore.Scull.NeedTable | scull0/scull.c:224-233 | The node has a table afterwards unless the one allocation it may need fails; contents are the same |
| ScullStore.Scull.NeedQuantum | scull0/scull.c:236-245 | The quantum exists afterwards, zeroed if new, unless its allocation fails |
| ScullStore.Scull.Write | scull0/scull.c:196-258 | Stores what fits in the quantum exactly as a flat write of those bytes, leaves other memory alone, *off advances by them; interrupted in the semaphore it changes nothing; a copy that fails leaves *off, and the device as a flat write of what landed; it faults, with contents unchanged, if and only if one of the allocations it needs fails |
| ScullStore.WriteOver | scull0/scull.c:248-257 | A write repeated after a failed copy leaves no trace of what landed |
| ScullStore.Scull.Trim | scull0/scull.c:59-88 | Interrupted in the semaphore it frees nothing; otherwise it frees every node, table and quantum of the device exactly once and nothing else, and afterwards there is nothing to read |
| ScullStore.Scull.TrimNode | scull0/scull.c:67-84 | One node: its quanta, its table and itself |
| ScullStore.Scull.TrimTable | scull0/scull.c:69-80 | One table: each of its quanta once, then the table |

## Left out

- MptChain.BuildSgl: the transfer direction flag, the packing of length and flags into one word and the trace output are not modelled, and END_OF_BUFFER is one flag with END_OF_LIST because the code sets them together; the IOC's walk assumes that the SGL begins at a multiple of four bytes in the request.
- MptChain.BuiltRequestWalks: the driver's walk is continued to the end of the list; the loop in the driver stops at an offset that is always 0, and the adjustment after it is unfinished.
- FcpRead.FtCmd.SendReadData: the disabled page-fragment path (use_sg is always false) and releasing buffers are not modelled; response lengths stay below 2^32.
- FcpRead.FtCmd.SendResponse: the contents of the response frame (residuals, sense, flags) are not modelled.
- FcpWrite.WriteCmd.RecvWriteData: the frame header is given as its decoded fields; releasing buffers is not modelled.
- FcpRead.ShortBufferStatus: its runs are those the contract of SendReadData admits; that the code performs one is FcpRead.FtCmd.RespondShort, for work within the loop limit.
- FcpCommand.RxBounded: a frame is copied and counted in one step, although the code copies without a lock.
- FcpSession.FtTport.SessCreate: the service parameter checks before the enabled test and the session's payload sizes are not modelled.
- FcpSession.FtTport.Find: this method walks its bucket in one step, as under the lock; the walk without the lock is in FcpLookup, where the RCU grace period is the rule that a session is freed only after every lookup that began while it was in the table.
- FcpLookup.ThenSafe: taking a session out of its list and clearing its port id are one step, and memory accesses are seen in program order.
- FcpSession.FtTport.TgtRelease: of the other callers only the grace period acts inside this method's walk; their puts and lookups in between are in the runs of FcpSession.NextKeepsInv. After the walk has gone astray nothing is promised but well-formed lists.
- FcpSession.Hash: the multiplier is that of the kernel's hash_32, which is not part of the repository.
- FcpSession.FtTport.TgtEnable: the service-parameter word is not modelled, and callers are taken to hold ft_lport_lock as the comments ask.
- MptSense.HistoryExplains: assumes one outstanding command per initiator and replies that are success or status-not-sent; other error recovery depends on firmware.
- MvsRxRing.RxRing.IntRx: the target-mode branches compiled under SUPPORT_TARGET are not modelled; completions are recorded as actions, and their effect is in MvsCompletion.
- MvsCompletion.ReportedExactlyOnce: slots are freed by their descriptors only, not by a release or abort while the hardware still has them; the hardware answers each slot it was given at most once, with a descriptor that completes it (no slot reset, no descriptor for attention alone).
- MvsSlots.AllInStep: slot-reset descriptors, which clear a tag without freeing its slot, are excluded, and so is the task_done of tasks that are refused before they are queued.
- MvsDriver.Mvs.DoReleaseTask: while the lock is dropped others may complete slots but not queue new tasks on the list; what the code does after losing its place is not modelled.
- MvsDriver.Mvs.ExecOne: frame preparation, DMA mapping and the early return for a device without a port are not modelled.
- MvsRxRing.Actions: the same target-mode branches.
- MvsRxRing.RxRing.Handle: the same target-mode branches.
- ScullPipe.Scullb.Write: a waiting caller is a turn without effect; wake-ups, signals, O_NONBLOCK and the asynchronous notification are not modelled.
- ScullStore.Scull.Read: what a failed copy leaves in user memory is not modelled; the file offset must give a list index below the largest int, because the loop of scull_follow counts up to the index in an int.
- ScullStore.Scull.Write: the same bound on the file offset; what a failed copy leaves in the quantum is an input.
- qla2x00t, the 94xx register sets, phy and hotplug handling, SPI access: field filling or hardware access.
- nonblock/scullb.c, access/scullb-onlyone_access.c, rw_block, interrupt: copies or variants of the same ring.
- alloc, time, chrdev, makefile, block: demonstrations with a single loop or none.
- Seeking, ioctl, module setup and debug output of all drivers: no state beyond single assignments.
