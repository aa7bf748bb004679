# Models of a C++ server library, with proofs

Eight parts of a C++ server library are modelled here in Dafny, and the properties they are there for are proved.
Values are datatypes and sequences; what the source updates in place is a class or an array, and its loops are loops.
A method that changes state is proved against a function of the old state, and the theorems are lemmas about that
function.

- **DES and triple DES** (`DesWords`, `DesCipher`, `DesKeySchedule`, `DesEcb`, `DesContext`, `DesTables`,
  `DesStandard`). Words are bit vectors. Only `DesStandard` depends on the contents of the S-boxes: it proves that the
  code, which has its tables permuted and rotated for speed, is the cipher of FIPS PUB 46-3. The other theorems hold
  for any S-boxes: inversion for any number of rounds, complementation, self-inverse keys, the EDE composition, and
  padded ECB as a bijection onto the accepted ciphertexts.
- **The garbage collector** (`GcGraph`, `GcPaths`, `GcExact`, `GcClear`, `GcSweep`, `GcWalks`, `GcCollect`, `GcList`).
  Three recursive walks mark only the path they are on. `GcGraph` says what they compute on a graph of numbered nodes,
  in terms of simple paths and cycles; `GcPaths` counts simple paths, and `GcExact` uses them to say when the decision
  to collect is the right one. `GcClear` has the recursive destruction that follows it, as the smallest set closed under
  losing the last reference, and `GcSweep` any number of checks in a row. `GcWalks` and `GcCollect` have the same as
  methods that mutate status, flag, counters, cursor and members of a heap of nodes; `GcList` has the circular work list
  with its moving cursor.
- **The durable queue** (`EqueueCodec`, `EqueueLog`, `EqueueRuns`, `EqueueHistory`, `EqueueCheckpoint`, `EqueueImp`).
  Log files are byte sequences. The state machine has a step in which the process dies, the last file is cut at any
  byte, and the queue is loaded again. `EqueueHistory` compares what a restart brings back with the calls that were
  made. `EqueueImp` is the class with its loops.
- **MD5** (`Md5Transform`, `Md5Stream`). The unrolled transform against the indexed definition, and the streaming
  context against the padded message, for any way of splitting the message.
- **The priority task queue** (`TaskQueue`, `TaskCalls`). The calls of any number of threads are interleaved steps
  between which others run; a step between locking and unlocking is one access to the shared state. `TaskCalls` keeps
  the calls behind the steps, so that the order of delivery is stated by the priorities they asked for.
- **The bytecode loop** (`Interp`, `InterpLaws`, `InterpStack`). Operations on registers, locals, operand stack,
  integers and counter with the laws between them, the trap to slot 0 and the handlers, and the two programs of the
  repository's own test file.
- **The non-blocking send queue** (`SendQueue`, `SendConnection`) and **the ring buffer** (`LoopBuf`). What the socket
  and the network thread answer is read from scripts, so the theorems hold for every pattern of partial writes.
- **Base64** (`Base64`). Encoder and decoder as loops over buffers against section 4 of RFC 4648.

`LittleEndian`, `Octets`, `Arithmetic` and `Wrappers` hold what several of them share. `dafny verify dfyconfig.toml`
checks everything.

Where the code and its own comments disagree the models follow the code. The comment in `del_task` of the task queue
promises that a queued task can always be taken; `TaskQueue.DelTakes` says when that is so, and
`TaskQueue.QueuedButNotFound` is a run in which it is not. The comment above `MD5Final` calls the appended count
most-significant-byte-first; the code and RFC 1321 have it the other way round. The comment in the summing program
shows a loop that tests first; the bytecode tests last, which a count below 1 does not notice in the sum.

Other places in which the code does something a caller might not expect, each with the exact condition: the collector
counts arrivals and not references. It takes a loop that is held from elsewhere only if several simple paths lead to a
node that refers back (`GcGraph.PathsAreNotReferences`, `GcExact.SoundIff`, `GcExact.GarbageIff`); and even with unique
returns it leaves a loop that nobody holds if a node on it other than the checked one has a second reference
(`GcExact.LoopsLeftOver`, `GcExact.UniqueCollects`, `GcExact.RightIff`). Destroying what was collected leaves no
reference to a destroyed node under the same condition (`GcClear.ClearSafeIff`, `GcSweep.SweepKeepsLive`), but it does
not mark the nodes that lose references for a check, so loops among them stay (`GcSweep.UnmarkedStay`). A handler that
names an exception is never found for it (`Interp.OnlyRangesFromZero`, `Interp.NamedHandlerMissed`); a restart after
`dump` loses the tasks in the front task's file (`EqueueCheckpoint.DumpKeepsLaterFiles`); replay counts the content of
deleted tasks (`EqueueCheckpoint.SizeExactIff`); an empty message stops a send queue (`SendQueue.EmptyMessageStops`);
`resize` keeps the old capacity (`LoopBuf.Buffer.Resize`); a handled exception still makes `process` return
RET_ATHROW (`Interp.FailureIsReported`).

## Model

| member | source | states |
|---|---|---|
| DesWords.PermutationsInverse | be/be_des.cpp:211-248 | The masked-swap initial and final permutations undo each other, in both orders, on every pair of halves. |
| DesStandard.ReadBits | be/be_des.cpp:269-277 | The bit numbering of FIPS PUB 46-3 on bytes: bit 8 i + j of the block that is read, counted from 1 at the left, is bit j of byte i, counted from its highest one. |
| DesStandard.WriteBits | be/be_des.cpp:269-277 | And bit j of byte i that is written is bit 8 i + j of the block. |
| DesWords.BlockBytes | be/be_des.cpp:269-277 | Reading a block and writing it are inverse in both directions. |
| DesCipher.RoundsUndone | be/be_des.cpp:254-264 | The Feistel argument: any number of rounds with any S-boxes is undone by the same rounds on crossed halves with the subkey pairs in reverse order. |
| DesCipher.DecryptInvertsEncrypt | be/be_des.cpp:385-432 | A block function with the pairwise reversed schedule inverts the one with the schedule itself, both ways, for DES and triple DES, for any S-boxes. |
| DesCipher.CryptBlockFlip | be/be_des.cpp:211-277 | Complementing the block and the used bits 0x3f3f3f3f of every subkey word complements the result, through both permutations and all rounds. |
| DesKeySchedule.KeyScheduleFlip | be/be_des.cpp:301-376 | Complementing the key flips exactly the bits 0x3f3f3f3f of every one of the 32 subkey words. |
| DesKeySchedule.Complementation | be/be_des.cpp:301-432 | The complementation property: encrypting the complement of a block under the complement of a key gives the complement of the ciphertext, for every key and block. |
| DesKeySchedule.ConstantHalvesSelfInverse | be/be_des.cpp:301-432 | A key whose two halves after permuted choice 1 are all zeros or all ones has sixteen equal subkey pairs, and encrypting twice under it is the identity. |
| DesStandard.CodeIsStandard | be/be_des.cpp:28-432 | The whole cipher, with its rearranged tables and masked swaps, equals DES as FIPS PUB 46-3 defines it from the tables IP, E, P, S1 to S8, PC-1 and PC-2, for every key and block; the standard takes its 64 bits from the bytes of key and block by its own numbering. |
| DesEcb.TripleIsThreeSingles | be/be_des.cpp:509-550 | One triple-DES block is three single-DES blocks after each other: the inner permutations cancel. |
| DesEcb.EncryptDecryptEncrypt | be/be_des.cpp:476-550 | Triple DES is encrypt with K3 after decrypt with K2 after encrypt with K1 (section 3 of NIST SP 800-67). |
| DesEcb.EqualKeysGiveSingleDes | be/be_des.cpp:476-550 | Three equal keys give single DES. |
| DesEcb.TripleComplementation | be/be_des.cpp:476-550 | The complementation property for triple DES with three keys. |
| DesEcb.CryptBlocksInverse | be/be_des.cpp:611-615 | The block loops of encryption and decryption are inverse on every string of whole blocks. |
| DesEcb.PadNumbers | be/be_des.cpp:605-622 | Padding keeps the message, adds one to eight bytes that complete a block, and every one of them holds their number. |
| DesEcb.UnpadExact | be/be_des.cpp:644-656 | The padding check accepts exactly the strings padded as in section 6.3 of RFC 5652 with block size 8, and returns what was padded. |
| DesEcb.EncryptDecryptExact | be/be_des.cpp:596-658 | A ciphertext decrypts to a message if and only if the message encrypts to it: padded ECB is a bijection from all messages onto the accepted ciphertexts, for DES and triple DES. |
| DesContext.ScheduleInto | be/be_des.cpp:301-376 | The loop that writes subkeys through a moving pointer writes the schedule of the key into its 32 words and nothing else. |
| DesContext.Context.SetKey | be/be_des.cpp:385-401 | Fills both subkey arrays: the schedule, and the schedule with its pairs in reverse order. |
| DesContext.Context.SetTwoKeys | be/be_des.cpp:441-467 | Fills all 192 subkey words as the three-key setup does with the third key equal to the first. |
| DesContext.Context.SetThreeKeys | be/be_des.cpp:476-501 | Fills all 192 subkey words: the EDE schedule of the three keys, and its pairwise reverse. |
| DesContext.DesRound | be/be_des.cpp:254-264 | The round macro, which folds eight table entries into the other half one after the other, computes the round function. |
| DesContext.CryptInto | be/be_des.cpp:409-550 | The block functions on registers, without swaps between rounds, compute the block function of DesCipher in place or between buffers and touch eight bytes only. |
| DesContext.EncryptBuffer | be/be_des.cpp:596-624 | Writes the padded encryption of the message and its length, also when input and output are the same buffer, and nothing behind it. |
| DesContext.DecryptBuffer | be/be_des.cpp:626-658 | Rejects lengths that are not a positive multiple of 8 without writing, reports bad padding, and otherwise writes exactly the message. |
| GcGraph.WalkExact | zvm/zvm_gc.cpp:99-127 | From any node and any path in progress, find_loop returns whether a simple route off the path closes a loop at the node looked for, and flags exactly the nodes on such routes. |
| GcGraph.FindLoopDetectsCycles | zvm/zvm_gc.cpp:99-127 | find_loop started on a node returns true exactly if the node lies on a directed cycle. |
| GcGraph.FindLoopFlagsSimpleCycles | zvm/zvm_gc.cpp:99-127 | After a reset it flags exactly the nodes that lie on a simple cycle through the start node. |
| GcGraph.CountedIffFlagged | zvm/zvm_gc.cpp:119-122 | After reset and find_loop a node has a positive loop count exactly if it is flagged. |
| GcGraph.ReachesStep | zvm/zvm_gc.cpp:164-179 | What reset reaches from a node off a path is the node and what it reaches from the successors off the longer path. |
| GcGraph.LiveIffFlaggedOutside | zvm/zvm_gc.cpp:129-162 | After reset and find_loop, check_live finds the start node live exactly if some flagged node has fewer loop arrivals than references. |
| GcGraph.CollectsExact | zvm/zvm_gc.h:84-103 | try_collect decides to collect exactly if no reference is left, or the node lies on a cycle and no node on a simple cycle through it has more references than loop arrivals. |
| GcGraph.WalkLocal | zvm/zvm_gc.cpp:99-127 | find_loop neither reads nor changes the marks of nodes outside a set closed under references that holds its start: on it the results agree for any two sets of marks that agree on it. |
| GcGraph.SingleReferencesExact | zvm/zvm_gc.h:84-103 | When no node holds more than one reference a cycle is collected if and only if no node on it has a reference besides the one from the cycle. |
| GcGraph.PathsAreNotReferences | zvm/zvm_gc.cpp:119-122 | Too many arrivals: a four-node graph in which two paths lead back to a node makes try_collect take a node that is still referred to from outside. |
| GcExact.OwnCount | zvm/zvm_gc.cpp:99-127 | find_loop counts every reference to the start node from nodes it can reach at least once, and each exactly once if and only if at most one simple path leads to every node that refers back. |
| GcExact.OtherCount | zvm/zvm_gc.cpp:99-127 | With such unique returns every other node on a simple cycle is counted exactly once, however many references it has. |
| GcExact.UniqueCollects | zvm/zvm_gc.h:84-103 | With unique returns the decision for all reference counts: a loop is collected if and only if the start node has no more references than reachable nodes hold and no other node on a simple cycle has more than one. |
| GcExact.SoundIff | zvm/zvm_gc.h:84-103 | For every graph: whatever the reference counts, no node on a simple cycle of a collected start node has a reference from elsewhere, if and only if returns are unique. |
| GcExact.RightIff | zvm/zvm_gc.h:84-103 | For every graph: collecting is equivalent to lying on a cycle that nobody holds from elsewhere, whatever the reference counts, if and only if returns are unique and every other node on a simple cycle has one reference from a reachable node. |
| GcExact.CollectedIsGarbage | zvm/zvm_gc.h:84-103 | With unique returns, and with counts that include all references inside the graph, no node from which a collected node can be reached has a reference from outside. |
| GcExact.GarbageIff | zvm/zvm_gc.h:84-103 | Where the node is collected for some such counts, everything collected is garbage for all such counts if and only if returns are unique. |
| GcExact.LoopsLeftOver | zvm/zvm_gc.cpp:119-122 | Too few arrivals: a three-node loop held by nobody, with unique returns, that is not collected when node 0 is checked, since an arrival before a node is flagged is not counted. |
| GcWalks.NextReference | zvm/zvm_class.cpp:372-386 | The loop over the member slots stops at the next object member at or after the cursor, and only at the end if there is none. |
| GcWalks.Node.GetReferObj | zvm/zvm_class.cpp:355-386 | Successive calls enumerate the object members in order; nothing but the cursor changes. |
| GcWalks.FindLoop | zvm/zvm_gc.cpp:99-127 | On every finite heap, cyclic or not, the recursion ends, restores every status, keeps members, reference counts and the cursors of running calls, and returns and marks what GcGraph says. |
| GcWalks.CheckLive | zvm/zvm_gc.cpp:129-162 | Ends, restores every status, changes no mark, and returns whether a chain of flagged nodes off the current path reaches a node with fewer arrivals than references, although it stops at the first one found. |
| GcWalks.Reset | zvm/zvm_gc.cpp:164-179 | Puts status, flag and count back on exactly the nodes reachable without passing a node that is being reset; a forced start node counts as not being reset. No other node changes. |
| GcWalks.Decide | zvm/zvm_gc.h:84-103 | Up to clear: in a heap with any stale flags and counters outside what the node reaches, the decision is that of GcGraph.Collects, guarded by the need-check mark; marks of other nodes stay, and every status is clear afterwards. |
| GcClear.DestroyedLeast | zvm/zvm_class.cpp:388-418 | In whatever order the references are dropped, clear destroys the smallest set of nodes that holds the cleared one and everybody who loses references to the set and has none left, and the counts fall by exactly the references the destroyed nodes held. |
| GcClear.OthersUnheld | zvm/zvm_obj.h:154-164 | With counts that include all references inside the graph, a node destroyed on the way had all its references from destroyed nodes; only the cleared node itself may have others. |
| GcClear.SafeMeans | zvm/zvm_class.cpp:388-418 | All references to the destroyed nodes came from destroyed nodes if and only if no surviving node refers to a destroyed one and none of them is held from outside. |
| GcClear.LiveKept | zvm/zvm_class.cpp:388-418 | Then nothing that can be reached from a node held from outside is destroyed. |
| GcClear.CycleDestroyed | zvm/zvm_gc.h:84-103 | With unique returns all nodes on simple cycles through a collected node are destroyed with it. |
| GcClear.CollectedSafe | zvm/zvm_gc.h:84-103 | With unique returns clearing a collected node, whether a loop or without references, leaves no reference to a destroyed node. |
| GcClear.ClearSafeIff | zvm/zvm_gc.h:84-103 | Where the node is collected as a loop for some such counts, clearing it is safe for all counts it is collected for if and only if returns are unique. |
| GcCollect.Clear | zvm/zvm_class.cpp:388-418 | The recursion ends, also when a reference leads back to a node whose clear is running; it destroys every node of the set and of GcClear.Clearing once, empties their object members only, leaves the counts that function gives, and touches no need-check mark. |
| GcCollect.TryCollect | zvm/zvm_gc.h:84-103 | The decision and the clear that follows it: which nodes are destroyed, which members are emptied, and by how much every count falls; without a decision to collect nothing changes. |
| GcCollect.CheckOneNode | zvm/zvm_gc.cpp:76-86 | Takes the next node from the list, checks it, and deletes from the list what its clear destroys: the step of GcSweep.CheckOne on graph, counts, list and destroyed nodes. |
| GcCollect.Sweep | zvm/zvm_gc.cpp:201-211 | The loop over the work list: graph, counts, list and the number returned are those of GcSweep.Checks, for any count and for a full round, as long as no reference leads to a destroyed node. |
| GcSweep.DeletedUnlists | zvm/zvm_gc.cpp:43-59 | Deleting the destroyed nodes from the work list gives the list without them, in whatever order the destructors run. |
| GcSweep.SweepHonest | zvm/zvm_gc.cpp:201-211 | In any number of checks counts keep including all references inside the graph, every node keeps the references it has from outside, and need-check marks stay. |
| GcSweep.CollectedAreDestroyed | zvm/zvm_gc.cpp:201-211 | No node is destroyed twice, and the number returned is at most the number of nodes destroyed. |
| GcSweep.SweepSafe | zvm/zvm_gc.cpp:201-211 | With honest counts and unique returns no check of any sweep meets a reference to a destroyed node. |
| GcSweep.SweepKeepsLive | zvm/zvm_gc.cpp:201-211 | And everything that can be reached from a node held from outside survives every sweep with all its members. |
| GcSweep.UnmarkedStay | zvm/zvm_obj.h:154-164 | clear drops references without setting the need-check mark: nodes that hold each other and carry no mark are never destroyed, whatever is collected around them. |
| GcSweep.PairCountedOnce | zvm/zvm_gc.cpp:201-211 | Two nodes that hold each other are both destroyed by the first check, and a full round returns 1. |
| GcList.PendingIsReturned | zvm/zvm_gc.cpp:30-72 | In every run of adds, deletes and gets the entry at place k of the ones still to come in this round is returned by one of the next k + 1 gets unless it is deleted: adds do not delay it. |
| GcList.RoundVisitsAll | zvm/zvm_gc.cpp:201-211 | size() gets in a row return every entry exactly once. |
| GcList.AddedIsNext | zvm/zvm_gc.cpp:30-42 | After an add the coming gets return the pending entries and then the new one, before any entry comes a second time in the round. |
| GcList.DeletedIsGone | zvm/zvm_gc.cpp:43-59 | A deleted entry is not returned in any further run that does not add it again. |
| GcList.EntList.Add | zvm/zvm_gc.cpp:30-42 | The ring stays a circular doubly linked list; the node is visited last in this round. |
| GcList.EntList.Del | zvm/zvm_gc.cpp:43-59 | The ring stays linked, the cursor stays on a live node or the head, the node is unlinked, and the order of all other visits is unchanged. |
| GcList.EntList.Get | zvm/zvm_gc.cpp:60-72 | Returns the first entry still to come, skipping the head, or null on the empty list. |
| GcList.EntList.TryCollect | zvm/zvm_gc.cpp:201-211 | As long as no check collects, the sweep loop checks as many entries as asked for in cyclic order, and with a negative count every entry exactly once. After deletions it still makes as many checks as there were entries, and can check one twice; GcCollect.Sweep covers that. |
| EqueueCodec.DecodeEncode | equeue/equeue_imp.cpp:12-89 | An operation written to a buffer is read back unchanged, whatever bytes follow it. |
| EqueueCodec.EncodeDecode | equeue/equeue_imp.cpp:12-89 | Whatever decodes is the encoding of the result followed by the bytes left over. |
| EqueueCodec.Layout | equeue/equeue_imp.cpp:52-89 | Byte by byte: command, operation id, file id, task id and length lie one behind the other in 4, 8, 4, 8 and 4 bytes of two's complement, least significant byte first, and then the content. |
| EqueueCodec.FrameLayout | equeue/equeue_imp.cpp:287-321 | A record is the length of its encoding in four bytes, least significant first, and the encoding. |
| EqueueCodec.ReadExact | equeue/equeue_imp.cpp:175-198 | In a file of any content a record is read if and only if its length is positive and not behind the end of the file, and that many bytes begin with the encoding of the operation. |
| EqueueCodec.LoadOpFromBuf | equeue/equeue_imp.cpp:12-49 | The field-by-field reader with its length checks computes the decoder, on every buffer. |
| EqueueCodec.SaveOpToBuf | equeue/equeue_imp.cpp:52-89 | The field-by-field writer fills the front of the buffer with the encoding and returns what is left, or -1 if the space is too short, and writes nothing behind the space. |
| EqueueCodec.ParseCut | equeue/equeue_imp.cpp:164-221 | A log file cut off at any byte yields exactly the records that survived whole. |
| EqueueCodec.WholeIsLargest | equeue/equeue_imp.cpp:175-198 | Those are the largest number of records that fit in the bytes left. |
| EqueueLog.ReplayApplies | equeue/equeue_imp.cpp:133-162 | Loading the files of a directory after a checkpoint is applying the records the checkpoint selects, in log order. |
| EqueueLog.ApplyExact | equeue/equeue_imp.cpp:199-216 | Replay rebuilds exactly the tasks with an add record and no later delete record, in log order, counts them, and leaves both id counters at or above every id seen. |
| EqueueRuns.CheckOpenKeeps | equeue/equeue_imp.cpp:261-283 | Afterwards a file shorter than the block size is open: the old one, or a new one with the next, unused id; the log keeps its records. |
| EqueueRuns.AddBackLogs | equeue/equeue_imp.cpp:231-257 | Unless the queue is full, one add record with the content goes to the log under the next operation id and the next task id, which no record has, into the open file or one with a new id, and the same task joins the queue with the semaphore, the count and the size. |
| EqueueRuns.AddBackRefuses | equeue/equeue_imp.cpp:231-237 | A task is refused, and then nothing changes, if and only if the size or the count has reached its limit. |
| EqueueRuns.DelLogs | equeue/equeue_imp.cpp:328-367 | The log gains one delete record that names the task id it was called with; of the live tasks exactly those with this id go, and the tasks in memory do not change. |
| EqueueRuns.GetFrontKeeps | equeue/equeue_imp.cpp:396-409 | Hands out the front task and subtracts its content; the log does not change, and the asserted front task exists whenever the semaphore is up. |
| EqueueRuns.CrashRecovers | equeue/equeue_imp.cpp:133-221 | After a crash that cuts the last file at any byte the restarted queue holds exactly the tasks whose add record survived whole and whose delete record did not, in log order, with count and semaphore equal to their number and all ids at or below the counters. |
| EqueueRuns.StepKeeps | equeue/equeue_imp.cpp:231-409 | Every call and every crash keeps the invariant of log, counters, memory and semaphore. |
| EqueueRuns.RunsRecover | equeue/equeue_imp.cpp:133-409 | Crash recovery after every run of add_back, get_front, del and crashes with restarts, from an empty directory on. |
| EqueueHistory.RestartRecoversAsked | equeue/equeue_imp.cpp:133-409 | After every run, crashes included, a restart brings back in order exactly the tasks some add_back accepted and no later del named, with their contents, as far as the records survive; without a loss that is all of them. |
| EqueueHistory.RunReflects | equeue/equeue_imp.cpp:231-409 | In every run the log reflects the calls one for one: an add record for every accepted add_back, a delete record for every del, with their arguments and in order; a crash cuts both at the same place. |
| EqueueHistory.RemainingMember | equeue/equeue_imp.cpp:328-367 | What remains of the calls made are the adds that no removal of the same id follows. |
| EqueueCheckpoint.LiveOfSelected | equeue/equeue_imp.cpp:154-160 | For every log with ordered ids, the live tasks of the records a checkpoint selects are the live tasks it selects: replaying a suffix never brings a deleted task back. |
| EqueueCheckpoint.CheckpointRecovers | equeue/equeue_imp.cpp:133-221 | Restarting any queue from any checkpoint (file, operation) recovers the live tasks whose record is in a later file and has at least that operation id. |
| EqueueCheckpoint.DumpKeepsLaterFiles | equeue/equeue_imp.cpp:411-442 | The mark is the file and the operation of the front task; a restart after dump recovers a live task if and only if its file is later than that file, and the front task itself is lost. |
| EqueueCheckpoint.DumpLosesNextFile | equeue/equeue_imp.cpp:420-427 | After a dump of the empty queue the next task gets just the file id and the operation id in the mark, so it is not recovered. |
| EqueueCheckpoint.SizeExactIff | equeue/equeue_imp.cpp:369-394 | The size computed by replay, which is that of all adds, is that of the live tasks if and only if every deleted task was empty. |
| EqueueCheckpoint.RestartSize | equeue/equeue_imp.cpp:231-237 | After a restart the queue is full exactly if everything ever added reaches the size limit or the live tasks reach the count limit. |
| EqueueImp.EqImp.LoadFromBinLogFiles | equeue/equeue_imp.cpp:133-162 | The loop over the files leaves memory and file id as the state machine says. |
| EqueueImp.EqImp.LoadOneBinLogFile | equeue/equeue_imp.cpp:164-221 | The record loop, with its three ways to stop and the skipping of old operations, replays exactly the records of the file. |
| EqueueImp.EqImp.DelTask | equeue/equeue_imp.cpp:378-394 | Erases the first task with the id, if any, and says whether there was one. |
| EqueueImp.EqImp.CheckIfOpenNewFile | equeue/equeue_imp.cpp:261-283 | Keeps the open file below the block size, else opens the next one. |
| EqueueImp.EqImp.SaveToFile | equeue/equeue_imp.cpp:287-321 | Appends one framed record to the open file. |
| EqueueImp.EqImp.AddBack | equeue/equeue_imp.cpp:231-257 | The whole new state and the return value, full queue included. |
| EqueueImp.EqImp.Del | equeue/equeue_imp.cpp:328-367 | The whole new state, which is that of EqueueRuns.DelLogs, with the uninitialised file id of the record as a parameter; on success the result is not 0 but the 36 bytes the encoding leaves of its buffer. |
| EqueueImp.EqImp.GetFront | equeue/equeue_imp.cpp:396-409 | The whole new state; returns the front task. |
| Md5Transform.MixRewritten | be/be_md5.cpp:48-52 | The rewritten macros F1 and F2 equal the functions F and G of RFC 1321 on all words; F3 and F4 are H and I. |
| Md5Transform.RotateIsCircular | be/be_md5.cpp:55-56 | The two shifts of the macro are the circular shift of RFC 1321, stated as x times 2^s modulo 2^32 plus x divided by 2^(32 - s), for every amount the steps use. |
| Md5Transform.FourSteps | be/be_md5.cpp:55-90 | Four macro steps on registers that stay in place are four steps of the standard, in which the registers move on. |
| Md5Transform.Transform | be/be_md5.cpp:78-159 | The unrolled transform equals the 64 indexed steps of section 3.4 of RFC 1321 on every state and block; the steps of the standard share neither rotation nor addition with the macro. |
| Md5Stream.BlockWords | be/be_md5.cpp:181-207 | A word of a block is the number whose bytes, least significant first, are the four bytes at its place. |
| Md5Stream.InitialBytes | be/be_md5.cpp:62-67 | The initial registers are those of section 3.3 of RFC 1321, byte by byte as they are printed there. |
| Md5Stream.OutputBytes | be/be_md5.cpp:250-252 | The digest is A, B, C and D, each with its least significant byte first (section 3.5 of RFC 1321). |
| Md5Stream.PadLayout | be/be_md5.cpp:214-250 | Sections 3.1 and 3.2 of RFC 1321 byte by byte: behind the message 128, then zeros up to the last eight bytes of the block, and these are the length in bits, least significant byte first. |
| Md5Stream.Extend | be/be_md5.cpp:181-207 | Bytes that do not complete a block wait in the tail; bytes that do are hashed together with it. |
| Md5Stream.CountersAdvance | be/be_md5.cpp:172-175 | The two counter words, with the carry between them, hold the length in bits modulo 2^64 and keep doing so for every length added. |
| Md5Stream.CounterBytes | be/be_md5.cpp:247-248 | The two words in order are the 64-bit count, low-order byte first (section 3.2 of RFC 1321). |
| Md5Stream.PadWhole | be/be_md5.cpp:214-250 | The padding completes the last block, so hashing the padded message leaves nothing out. |
| Md5Stream.PadInjective | be/be_md5.cpp:214-250 | Below 2^61 bytes different messages have different paddings. |
| Md5Stream.Context.Update | be/be_md5.cpp:165-208 | A context that was fed m has been fed m followed by the data afterwards, wherever the block boundaries lie. |
| Md5Stream.Context.Final | be/be_md5.cpp:214-254 | The digest is that of sections 3.1 to 3.5 of RFC 1321 for everything fed; of the state only as many bytes as a pointer has are cleared. |
| Md5Stream.DigestOfChunks | be/be_md5.cpp:271-283 | However a file is split into reads, the digest is that of the whole file. |
| TaskQueue.TaskLists.PushBack | ep/ep_thread_pool.cpp:44-46 | Appends the task to the list of its priority and counts it; TaskCalls.RunsFit says that it waits nowhere else. |
| TaskQueue.TaskLists.GetTaskByPriority | ep/ep_thread_pool.cpp:131-143 | Takes the front of one list, if there is one. |
| TaskQueue.TaskLists.PopTask | ep/ep_thread_pool.cpp:69-74 | The loop over the priorities takes the front of the lowest-numbered list that is not empty. |
| TaskQueue.TaskLists.EraseTask | ep/ep_thread_pool.cpp:97-107 | Erases the first occurrence of the task in its list, or reports that there is none. |
| TaskQueue.StepKeeps | ep/ep_thread_pool.cpp:24-199 | Every step any thread can take keeps: semaphore plus tokens held or owed equals size equals the entries in the lists, one holder of the mutex, lists in order of age, and every accepted task queued, handed out or deleted. |
| TaskQueue.RunsFromInitial | ep/ep_thread_pool.cpp:24-199 | Every interleaving of any number of adders, getters, try-getters, deleters and stops in which each step is merely possible is a legal run, and the invariant holds after it. |
| TaskQueue.GetterGetsOldest | ep/ep_thread_pool.cpp:58-80 | A getter that holds a token gets a task, namely the oldest one of the lowest-numbered list that is not empty. |
| TaskCalls.RunsFit | ep/ep_thread_pool.cpp:24-199 | In every interleaving every queued entry waits in the list of the priority its add_task was given, every accepted entry is the task of its add_task, exactly the adds that report success are accepted, once each, and every call returns an answer of its kind: invalid exactly for a priority of 32 and more, refused only after a stop. |
| TaskCalls.GetterGetsFirst | ep/ep_thread_pool.cpp:58-80 | A getter that holds a token gets a task; no queued task was added with a lower priority number, and none with the same number was added before it. |
| TaskCalls.DeleterFindsFirst | ep/ep_thread_pool.cpp:97-107 | With the lock in hand del_task deletes a task if and only if one that was added with this task and this priority is queued, namely the one added first; otherwise nothing changes. |
| TaskQueue.TryTakes | ep/ep_thread_pool.cpp:168-172 | try_get_task gives up at once exactly if the semaphore is 0, and takes a token otherwise. |
| TaskQueue.EachOnce | ep/ep_thread_pool.cpp:24-118 | Each accepted task is exactly one of queued, handed out and deleted, once. |
| TaskQueue.DeliveredOnce | ep/ep_thread_pool.cpp:58-186 | Every get that returns a task returns an accepted one, and no two return the same. |
| TaskQueue.ReportsMatch | ep/ep_thread_pool.cpp:24-199 | Once all calls have returned, as many adds have reported success as tasks were accepted, as many gets have returned a task as were handed out, and as many deletes have reported success as tasks were deleted. |
| TaskQueue.NothingAfterStop | ep/ep_thread_pool.cpp:188-199 | Once the stop flag is set nothing is accepted in any further run. |
| TaskQueue.DelTakes | ep/ep_thread_pool.cpp:86-92 | del_task gives up at once exactly if the semaphore is 0, and while no thread holds or owes a token this is when the queue is empty. |
| TaskQueue.QueuedButNotFound | ep/ep_thread_pool.cpp:86-92 | Otherwise the comment in the code does not hold: a run in which a task is in its list and del_task does not find it. |
| SendQueue.DoSendConserves | efnfw/ef_connection.cpp:232-269 | Whatever the socket answers, sent bytes followed by pending bytes stay the same, sent bytes stay sent, and the queue size moves with the pending bytes modulo 2^32. |
| SendQueue.StreamKept | efnfw/ef_connection.cpp:115-269 | In every run of send_message and handle_write the bytes sent followed by the bytes pending are all messages in order. |
| SendQueue.InterestExact | efnfw/ef_connection.cpp:246-268 | After a successful return write interest is on exactly if bytes are pending, if and only if it was so before or the network thread is there and agrees; read interest is as before; -2 is returned exactly if the connection is closing and all is sent. |
| SendQueue.SendOutAnswers | efnfw/ef_connection.cpp:207-229 | Interruptions are tried again. Of the first other answer of the socket, would-block gives 0 and failure -1; accepting bytes gives their number, and accepting none, or sending nothing, gives -1. |
| SendQueue.ReturnExact | efnfw/ef_connection.cpp:232-269 | With nothing left do_send returns 0, or -2 when closing; otherwise the answer that ended the work decides, -1 for a failure and 0 else. |
| SendQueue.EmptyMessageStops | efnfw/ef_connection.cpp:207-244 | An empty message at the front leaves the queue only while the socket would block; otherwise do_send returns -1 and sends nothing, again and again. |
| SendConnection.Connection.SendAll | efnfw/ef_connection.cpp:207-229 | The retry loop around send. |
| SendConnection.Connection.SetNotify | efnfw/ef_connection.cpp:135-148 | The interest changes only if there is a thread and it agrees; the result is -2 without a thread and else what the thread answers. |
| SendConnection.Connection.DoSend | efnfw/ef_connection.cpp:232-269 | The loop over the message list leaves the whole state and the return value that the function of SendQueue has. |
| SendConnection.Connection.SendMessage | efnfw/ef_connection.cpp:197-203 | Queues the message, counts it and sends. |
| LoopBuf.FirstInFirstOut | common/base/ef_loop_buf.cpp:20-93 | In every run of writes, reads, peeks, clears and resizes that do not go below the capacity, what was there and what is added comes out in this order or is still there. |
| LoopBuf.Buffer.Read | common/base/ef_loop_buf.cpp:34-53 | Returns the front of the contents, as many bytes as asked for and available, and removes them, across the end of the buffer and with the start at its very end. |
| LoopBuf.Buffer.Write | common/base/ef_loop_buf.cpp:55-69 | Appends as many bytes as fit and returns their number; nothing is written outside the buffer. |
| LoopBuf.Buffer.Peek | common/base/ef_loop_buf.cpp:71-85 | Returns the front of the contents and leaves them. |
| LoopBuf.Buffer.Clear | common/base/ef_loop_buf.cpp:87-93 | Returns the size and empties the buffer. |
| LoopBuf.Buffer.Resize | common/base/ef_loop_buf.cpp:20-32 | Keeps the contents and the capacity: the buffer is in order afterwards if and only if the new size is at least the capacity, and then nothing is lost. |
| Interp.ResultExact | zvm/zvm_function.cpp:24-63 | Whatever program terminates, process returns SUCCESS or RET_ATHROW, RET_ATHROW exactly if an exception is recorded in the end, and leaves no locals. |
| Interp.FailureIsReported | zvm/zvm_function.cpp:24-63 | If any operation of a run fails, from the start of process on, the run ends with an exception recorded and process returns RET_ATHROW, whether a handler takes the exception or not. |
| Interp.OnlyRangesFromZero | zvm/zvm_excp_handler.cpp:6-23 | Handlers compare their range with the counter of the catch operation, which is 0, and their type with one that is empty for every recorded exception (zvm/zvm_obj.h:34, zvm/zvm_exception.h:22): a handler is found if and only if its range starts at 0 and its type is empty, or NULL for an exception that was given back. |
| Interp.NamedHandlerMissed | zvm/zvm_exception.h:22-24 | A handler for DIV_ZERO whose range holds slot 0 is not found for a division by zero. |
| Interp.Truncates | zvm/zvm_op_proc.h:201-213 | Quotient and remainder of the model are those of C: smaller than the divisor, with the sign of the dividend. |
| Interp.SumProgramSums | zvm/zvm_op_test.cpp:149-224 | The summing bytecode ends with SUCCESS for every count, the sum of the numbers below it in eax and no locals; a count below 1 gives 0. |
| Interp.SumInRange | zvm/zvm_op_test.cpp:138-146 | The sum is n(n-1)/2, and is not wrapped while it is in range. |
| Interp.LoopProgramThrows | zvm/zvm_op_test.cpp:91-136 | The self-jumping bytecode terminates with RET_ATHROW and no locals for every frame capacity, since every lap leaves less room. |
| InterpStack.Frame.Push | zvm/zvm_frame.h:67-76 | Appends a local, or reports OVER_FLOW when the frame is full and changes nothing. |
| InterpStack.Frame.Pop | zvm/zvm_frame.h:78-84 | Takes the last local. |
| InterpStack.Stack.HandlerExcp | zvm/zvm_function.cpp:77-85 | The loop over the handlers stops at the first that matches, by the type name obj::type gives and the counter. |
| InterpStack.Stack.OpProcess | zvm/zvm_op_proc.h:35-438 | Every modelled operation leaves the registers, locals, counter, exception and status of the function of Interp, whose laws InterpLaws has. |
| InterpLaws.SubUndoesAdd | zvm/zvm_op_proc.h:189-195 | IADD and ISUB with the same ebx undo each other, in both orders and whatever overflows. |
| InterpLaws.ExactInRange | zvm/zvm_op_proc.h:189-233 | Sum, difference, product, negation and increment are those of the integers wherever these are in range, and only eax changes. |
| InterpLaws.NegAndInc | zvm/zvm_op_proc.h:189-233 | INEG is ISUB from 0, IINC is IADD of 1, and ISUB is IADD of what INEG gives. |
| InterpLaws.MulSteps | zvm/zvm_op_proc.h:197-199 | IMUT by 0 gives 0, and by one more it adds the multiplicand once more, overflow included. |
| InterpLaws.DivAndRem | zvm/zvm_op_proc.h:201-213 | The dividend is the divisor times what IDIV leaves plus what IREM leaves, and the remainder is smaller than the divisor with the sign of the dividend; a divisor of 0 fails and changes nothing. Only the least number by -1 wraps. |
| InterpLaws.ThroughStack | zvm/zvm_op_proc.h:43-161 | While the operand stack has room, a push from a register, of a constant or of a local followed by a pop into a register is the direct operation. |
| InterpLaws.Registers | zvm/zvm_op_proc.h:123-137 | The four registers are apart: a constant goes into the one named and into no other. |
| InterpLaws.MoveConstant | zvm/zvm_op_proc.h:43-89 | A move takes the value of its source: after a constant it is that constant, and onto itself it changes nothing. |
| InterpLaws.PopEmpty | zvm/zvm_op_proc.h:103-117 | Popping the empty operand stack gives 0 and leaves it empty. |
| InterpLaws.StoreLoad | zvm/zvm_op_proc.h:143-187 | What is stored in a local is loaded from it and from no other. |
| InterpLaws.PushLoad | zvm/zvm_op_proc.h:286-311 | What is pushed onto the locals is the last of them while the frame has room. |
| InterpLaws.DeMorgan | zvm/zvm_op_proc.h:235-245 | NOT, AND and OR satisfy the laws of De Morgan. |
| InterpLaws.Logic | zvm/zvm_op_proc.h:235-245 | They give 0 or 1 by whether their operands are 0. |
| InterpLaws.Conditions | zvm/zvm_op_proc.h:334-371 | Of JE, JSM and JLG exactly one jumps; JNE, JLGE and JSME jump exactly when JE, JSM and JLG do not; exchanging the operands exchanges JSM and JLG; JE jumps exactly if ISUB gives 0; who does not jump changes nothing. |
| InterpLaws.SmallerOrders | zvm/zvm_op_proc.h:334-371 | JSM jumps for a number and what IINC makes of it; where JSM jumps, JSME still does after IINC. |
| InterpLaws.ReturnEnds | zvm/zvm_op_proc.h:395-401 | A return leaves the loop with SUCCESS. |
| InterpLaws.Catches | zvm/zvm_op_proc.h:319-332 | The catch operation at slot 0 records the status if nothing is recorded, gives control to the first handler that is found, at its address, and otherwise leaves the loop. |
| InterpLaws.Leaves | zvm/zvm_op_proc.h:35-438 | Every operation leaves alone the registers, operand stack, locals, counter and exception it is not for. |
| InterpLaws.Fails | zvm/zvm_op_proc.h:35-438 | An operation fails exactly for a divisor of 0, a full operand stack or a full frame, and then changes nothing. |
| InterpStack.Stack.Process | zvm/zvm_function.cpp:24-63 | The loop, the popping of the locals and the final status, for every program that terminates. |
| Base64.TablesInverse | elog/base64.cpp:6-66 | The two tables are inverse to each other. |
| Base64.Alphabet | elog/base64.cpp:6 | The table of the encoder is the alphabet of table 1 of RFC 4648. |
| Base64.OutsideAlphabet | elog/base64.cpp:49-66 | The table of the decoder marks exactly the characters outside that alphabet. |
| Base64.EncodeLength | elog/base64.cpp:16-21 | Four characters for every three bytes begun: 4 * ceil(n / 3). |
| Base64.Base64Encode | elog/base64.cpp:8-47 | The encoder fills its result with the encoding of section 4 of RFC 4648, padding included. |
| Base64.Base64Decode | elog/base64.cpp:68-105 | The decoder returns the bytes before the first broken group, or all of them without the padding; it writes inside its result only, for every input. |
| Base64.DecodeStops | elog/base64.cpp:68-105 | Behind whole groups decoding stops at the first group with a character that counts and is neither in the alphabet nor padding, and gives what came before it, whatever follows. |
| Base64.WholeGroupsOnly | elog/base64.cpp:68-105 | Characters behind the last whole group do not matter. |
| Base64.RoundTrip | elog/base64.cpp:8-105 | Decoding undoes encoding for every byte string. |

## Left out

- DesContext.EncryptBuffer: the null-pointer checks and negative lengths are not modelled; array parameters are never null and lengths are natural numbers.
- DesContext.Context.SetKey: the self-test flag, which is set only after a failed self-test, and the return codes are not modelled.
- The weak-key table and its binary search, the wrappers that check key lengths, and the clearing of the call stack: nothing is claimed about which keys are listed.
- GcWalks.Decide: is the decision only; `GcCollect.TryCollect` has the clear that follows it.
- GcCollect.Clear: asks for reference counts that include every reference inside the graph, as `reference` and `recycle` keep them; classes with a parent are not modelled, and a destroyed node is one that has left the list and holds nothing, not freed memory.
- GcCollect.Sweep: is specified as long as no reference leads to a destroyed node, since the source would follow it into freed memory; `GcSweep.SweepSafe` says when that is so. What other threads do between two checks is not modelled.
- GcWalks.Node.GetReferObj: classes with a parent are not modelled; in that branch the loop stops at the first member whatever its kind.
- GcWalks.FindLoop: object locks and the 32-bit width of the loop counter are not modelled; counters are unbounded.
- Which nodes are left over when returns are not unique: `GcGraph.CollectsExact` gives the decision in terms of the loop counters, and `GcExact` says what they count for unique returns.
- GcList.EntList.TryCollect: the checks themselves do not change the list here; a sweep in which they do is `GcCollect.Sweep`, and a deletion in a sweep is a `Del` step, which `GcList.PendingIsReturned` covers.
- EqueueCodec.LoadOpFromBuf: reads into an operation whose content is still empty, as all callers do.
- EqueueCodec.SaveOpToBuf: contents of 2 GiB and more, whose length does not fit an int, are excluded.
- EqueueCodec.ParseCut: a negative record length, at which the source throws and which no written log holds, ends the file here; failing opens and reads are not modelled.
- EqueueImp.EqImp.AddBack: failing opens and writes, two writers at once (operation ids are taken outside the lock) and counters at the end of their range are not modelled.
- EqueueImp.EqImp.GetFront: is called when the semaphore lets the caller through; the waiting itself is the step of EqueueLog that changes nothing.
- Directory listing, modification times and file names of the queue: files are taken in order of creation, and a checkpoint is given as its two numbers.
- Md5Stream.Context.Update: the byte swapping for machines that store words most significant byte first is not modelled.
- Md5Stream.DigestOfChunks: opening and reading the file is not modelled; the reads are given as chunks.
- TaskQueue.StepKeeps: the 32-bit widths of the counters, the upper limit of the semaphore and a null task pointer are not modelled.
- TaskQueue.TaskLists.PopTask: tasks are numbers, so a null task pointer, which add_task accepts, cannot be expressed; the loop of the source drops it and goes on to pop a second entry from a later list for the same token.
- The rest of the thread pool: `clear`, which never releases the mutex, thread creation and joins, pausing, and `thread_pool::stop`.
- SendQueue.StreamKept: safe_close, timers and reads are not modelled, and a script of answers is finite, so an endless row of interruptions does not occur; messages are shorter than 2 GiB.
- The effect of a change of interest in epoll: what the network thread answers to it is taken from a script.
- LoopBuf.FirstInFirstOut: a resize below the capacity, after which the buffer is not in order, is not a step of a run; `LoopBuf.Buffer.Resize` says so.
- LoopBuf.Buffer.Read: negative lengths, which the source passes on to memmove, are excluded, and the target has room for what is returned and is not the ring itself.
- The capacity reported after `resize` and with it a `handle_read` that loses nothing: the code never updates the capacity.
- InterpStack.Stack.OpProcess: shifts, bitwise complement, monitor, array, object and class operations, calls, throwing an object, and conversions of objects to numbers are not modelled; signed overflow, which C++ leaves undefined, wraps.
- InterpStack.Stack.Process: asks for a program that terminates without a failed assertion; the object pool never runs out, and the null objects of PUSH_NULL have no address.
- InterpStack.Frame.Pop: the empty frame, for which the source returns 0, does not occur in the loop that pops.
- Base64.Base64Encode: lengths whose multiple by four does not fit an int are not excluded; the model has no integer width.
- The hash map of be/be_hash_map.h, sockets, timers, logging, configuration, database and protocol-buffer code, allocators, atomics and main programs.
