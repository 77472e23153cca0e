# A verified model of the key-value server

The server keeps string pairs in a hash table of 26 chains.  Job files hold batches of
commands on it; worker threads run them.  Clients register through a named pipe, a queue
hands the registrations to eight managers, and each manager lets its client subscribe to
keys.  Every overwrite and deletion of a key is written to its subscribers.

The model follows the program file by file.

| module | what it holds |
|---|---|
| `CStrings` | size constants, C strings, bounded printing |
| `LinkedList` | the two linked lists (subscribers and keys), which hold the same code |
| `Table`, `HashTables` | the store as values and as the map it stands for; the store on the heap, refined to it |
| `Operations`, `Rendering`, `Listing` | WRITE, READ, DELETE; SHOW and the backup child; all that is printed, read back |
| `Batches`, `RealTime` | threads, the read-write lock, forked children: every interleaving; calls, returns and progress |
| `Sessions`, `ManagerSessions` | the two subscription indexes under every interleaving; a manager's code on the heap |
| `Notifications`, `Deliveries` | what each descriptor is told over whole histories; the history of an interleaved run |
| `Server` | threads and sessions together over one table |
| `RegistrationQueues`, `Handoff` | the linked queue; its producer and consumers under every interleaving |
| `JobPool` | the job workers under every interleaving |
| `Parser`, `StreamParser`, `Resync`, `LostLines`, `Grammar`, `CommandWords` | the parser as functions, as code on a stream, its recovery after errors, what errors cost, its language |
| `Decimal`, `Jobs`, `JobMeaning`, `RoundTrip` | numbers as text; run_job; what a job file does; READ's answer as WRITE's argument |
| `Transfer`, `Registration` | read_all and write_all over any schedule; registration frames |
| `Sums` | sums over threads |

Code that changes state is written as methods over classes and arrays and proved against
functions; the theorems are about the functions.  Threads are state machines whose steps
are the statements that touch shared state; theorems quantify over every sequence of steps.

## Where the code slips

Followed in their evident intent:

- A new key node starts with an empty subscriber list (`src/server/kvs.c:63-67` leaves `head` unset).
- Appending works on an empty list, deleting compares instead of assigning, and a removed
  first node changes the caller's head (`src/server/subscriber_linked_list.c:31`, `:42`, `:50`;
  `src/server/keys_linked_list.c:20`, `:39`).
- Keys have a bucket: they start with a letter or a digit (`src/server/kvs.c:22`, `:36`).
- Subscribing and unsubscribing are single steps on the store although they take no lock
  (`src/server/operations.c:140-153`).
- A session ends at disconnect, and the next one starts with an empty key list (`src/server/main.c:359`, `:477`).
- `enqueue` gets its arguments in the order of its parameters (`src/server/main.c:575`).
- Client and server use one frame size, 122 bytes (`src/client/api.c:53`, `src/server/main.c:544`).
- SIGUSR1 empties every subscriber list (`src/server/main.c:85-89`).
- `read_string` fails on an over-long string without writing past its buffer (`src/server/parser.c:49`).
- At the end of its input `read_uint` takes the digits it has (`src/server/parser.c:64-67` leaves them without a terminator).

Followed as written, with what that costs proved:

- A malformed command loses more than its own line when the parser has read past the
  newline before it gives up, and a pair, cleaned up after twice, always loses the next line
  unless there is none: `LostLines.LinesLost` says exactly when, `LostLines.NextCommandIsLost`,
  `LostLines.ShowIsLost` and `LostLines.ReadLosesNextCommand` give commands that are lost.
  The next one still starts at a line (`Resync.NextJobEndsLine`).
- SIGUSR1 closes the pipes of sessions whose managers go on.  Two-index agreement then needs
  each step to be fair: `Sessions.RunExactly` says exactly which runs keep it throughout,
  `Sessions.StaleSessionStrays` and `Sessions.ReusedNumberStrays` give two that do not.
- At an end of file `read_all` returns 0, which the registration thread does not tell from a
  frame: `Registration.RegisterAll` says exactly when the queue gets what was sent,
  `Registration.RegisterTwice` runs the failing input.
- READ's answer is cut at 39 bytes an item: `RoundTrip.ReadIsAWriteArgument` says exactly when it can be written back.
- A job whose file cannot be opened is lost: `JobPool.EachJobOnce` says exactly when every job runs.
- A path of 40 bytes loses its terminator in the queue: `Registration.PathsSurvive` says exactly when it comes through.
- Once set, the interrupt flag of `read_all` stops every later call: `Registration.SignalEndsRegistration`
  says what that costs, `Registration.FlagExactly` when it happens.
- An error in the middle of a frame loses registrations: `Registration.LostExactly`.

## Model

| member | source | states |
|---|---|---|
| `LinkedList.SearchListNode` | proj_so24-25-p2-grupo68/proj_SO24-25-p2/src/server/subscriber_linked_list.c:17-26 | 1 exactly when the descriptor is in the list, -1 otherwise |
| `LinkedList.AppendListNode` | proj_so24-25-p2-grupo68/proj_SO24-25-p2/src/server/subscriber_linked_list.c:29-35 | from any list, the empty one included: the items are the old ones followed by the new one, the chain stays acyclic, and only one node is new |
| `LinkedList.UnlinkAt` | proj_so24-25-p2-grupo68/proj_SO24-25-p2/src/server/subscriber_linked_list.c:49-53 | bypassing a first or an inner node leaves a list of exactly the other nodes |
| `LinkedList.DeleteListNode` | proj_so24-25-p2-grupo68/proj_SO24-25-p2/src/server/keys_linked_list.c:27-45 | the items lose their first occurrence of the item and nothing else; a removed first node moves the head |
| `LinkedList.RemoveFirstCounts` | proj_so24-25-p2-grupo68/proj_SO24-25-p2/src/server/subscriber_linked_list.c:38-56 | a deletion takes away one occurrence of that item if there is one, and none of any other |
| `LinkedList.RemoveFirstAt` | proj_so24-25-p2-grupo68/proj_SO24-25-p2/src/server/subscriber_linked_list.c:38-56 | unlinking the node where the search stopped is removal of the first occurrence |
| `Table.KeysWithABucket` | proj_so24-25-p2-grupo68/proj_SO24-25-p2/src/server/kvs.c:15-23 | exactly the keys that start with a letter or a digit have a bucket; two keys share one exactly when their first characters are the same letter in either case, the same digit, or a letter and the digit of its rank |
| `Table.BucketIsRank` | proj_so24-25-p2-grupo68/proj_SO24-25-p2/src/server/kvs.c:15-23 | a letter's bucket is its place in the alphabet in either case, a digit's its value |
| `Table.ContentsLookup` | proj_so24-25-p2-grupo68/proj_SO24-25-p2/src/server/kvs.c:112-129 | in a well-formed table, a chain search for a key finds exactly its binding in the plain map |
| `Table.PutIsUpdate` | proj_so24-25-p2-grupo68/proj_SO24-25-p2/src/server/kvs.c:35-69 | write_pair on the chains is map update: other keys, their values and their subscribers stay, an overwritten key keeps its subscribers, a new key has none; it notifies exactly the subscribers the map gives |
| `Table.RemoveIsRemoval` | proj_so24-25-p2-grupo68/proj_SO24-25-p2/src/server/kvs.c:131-172 | delete_pair on the chains is map removal, wherever in the chain the record is, even if letters and digits share the bucket; it notifies exactly the subscribers the map gives |
| `Table.AddSubIsUpdate` | proj_so24-25-p2-grupo68/proj_SO24-25-p2/src/server/kvs.c:71-89 | write_subscription appends one entry to a present key's list, and does nothing for an absent key |
| `Table.RemoveSubIsUpdate` | proj_so24-25-p2-grupo68/proj_SO24-25-p2/src/server/kvs.c:92-108 | delete_subscription removes one entry of the descriptor from the key's list and changes nothing else |
| `Table.ClearSubsIsUpdate` | proj_so24-25-p2-grupo68/proj_SO24-25-p2/src/server/main.c:80-93 | SIGUSR1 empties every subscriber list and keeps every value |
| `Table.SetIsUpdate` | proj_so24-25-p2-grupo68/proj_SO24-25-p2/src/server/kvs.c:42-57 | changing the record of a present key changes that one binding of the map |
| `Table.DropKeepsOthers` | proj_so24-25-p2-grupo68/proj_SO24-25-p2/src/server/kvs.c:154-160 | unlinking a record leaves every other search of the chain with the same answer |
| `Table.WalkIsComplete` | proj_so24-25-p2-grupo68/proj_SO24-25-p2/src/server/operations.c:127-135 | the walk over buckets and chains meets each binding of the map, each exactly once |
| `Table.NewKeyComesFirst` | proj_so24-25-p2-grupo68/proj_SO24-25-p2/src/server/kvs.c:63-67 | a new key comes first in its bucket of the walk, and nothing else moves |
| `Table.OverwriteStays` | proj_so24-25-p2-grupo68/proj_SO24-25-p2/src/server/kvs.c:43-46 | an overwritten key stays where it is in the walk |
| `Table.DeleteClosesUp` | proj_so24-25-p2-grupo68/proj_SO24-25-p2/src/server/kvs.c:154-160 | a deleted key leaves its place in the walk, and the others close up |
| `HashTables.FindNode` | proj_so24-25-p2-grupo68/proj_SO24-25-p2/src/server/kvs.c:115-126 | the walk ends at the node of the key, with the node before it, or at the end |
| `HashTables.NotifyAll` | proj_so24-25-p2-grupo68/proj_SO24-25-p2/src/server/kvs.c:50-56 | one message per subscriber entry, in list order |
| `HashTables.WriteInChain` | proj_so24-25-p2-grupo68/proj_SO24-25-p2/src/server/kvs.c:38-68 | one bucket on the heap: the chain carries the new records, acyclic and without sharing, and the messages are those of the overwritten key's subscribers |
| `HashTables.DeleteInChain` | proj_so24-25-p2-grupo68/proj_SO24-25-p2/src/server/kvs.c:134-171 | one bucket on the heap: the key's subscribers are told, then its node, first or inner, is unlinked |
| `HashTables.Unlink` | proj_so24-25-p2-grupo68/proj_SO24-25-p2/src/server/kvs.c:154-160 | the chain without the node still is a chain of the other records |
| `HashTables.HashTable.ReadPair` | proj_so24-25-p2-grupo68/proj_SO24-25-p2/src/server/kvs.c:112-129 | the heap lookup is the lookup in the table |
| `HashTables.HashTable.WritePair` | proj_so24-25-p2-grupo68/proj_SO24-25-p2/src/server/kvs.c:35-69 | the heap update is `Put` on the table: chains stay disjoint, keys distinct, each node in the bucket of its hash |
| `HashTables.HashTable.DeletePair` | proj_so24-25-p2-grupo68/proj_SO24-25-p2/src/server/kvs.c:131-172 | the heap deletion is `Remove` on the table; 1 exactly for a missing key |
| `HashTables.HashTable.WriteSubscription` | proj_so24-25-p2-grupo68/proj_SO24-25-p2/src/server/kvs.c:71-89 | the heap subscription is `AddSub` on the table; 1 exactly for a present key |
| `HashTables.HashTable.DeleteSubscription` | proj_so24-25-p2-grupo68/proj_SO24-25-p2/src/server/kvs.c:92-108 | the heap unsubscription is `RemoveSub` on the table; 1 exactly for a present key |
| `HashTables.HashTable.ClearSubscriptions` | proj_so24-25-p2-grupo68/proj_SO24-25-p2/src/server/main.c:80-93 | clearing every list on the heap is `ClearSubs` on the table |
| `Operations.PutAllContents` | proj_so24-25-p2-grupo68/proj_SO24-25-p2/src/server/operations.c:52-60 | a whole WRITE on the chains is the sequence of map updates and sends their messages |
| `Operations.WriteBatchMeaning` | proj_so24-25-p2-grupo68/proj_SO24-25-p2/src/server/operations.c:52-60 | a WRITE binds each of its keys to the last value it gives it, leaves other keys alone, and nobody loses a subscription |
| `Operations.RemoveAllMeaning` | proj_so24-25-p2-grupo68/proj_SO24-25-p2/src/server/operations.c:98-109 | a whole DELETE leaves the old map minus every listed key |
| `Operations.FailedAreMissing` | proj_so24-25-p2-grupo68/proj_SO24-25-p2/src/server/operations.c:100-107 | delete_pair fails at exactly the positions whose key was absent before the batch or occurs earlier in it |
| `Operations.HasAfterRemovals` | proj_so24-25-p2-grupo68/proj_SO24-25-p2/src/server/operations.c:100-107 | after n deletions a key is there exactly if it was before and is not among the first n |
| `Operations.KvsWrite` | proj_so24-25-p2-grupo68/proj_SO24-25-p2/src/server/operations.c:45-62 | the loop over the heap does the whole batch |
| `Operations.KvsRead` | proj_so24-25-p2-grupo68/proj_SO24-25-p2/src/server/operations.c:64-88 | prints one item per key, cut to 39 bytes, in brackets |
| `Operations.KvsDelete` | proj_so24-25-p2-grupo68/proj_SO24-25-p2/src/server/operations.c:90-116 | final map is the old one minus all listed keys; the report lists, in order, exactly the missing positions, each item cut to 39 bytes, with brackets exactly when there is one |
| `Operations.PrintMissing` | proj_so24-25-p2-grupo68/proj_SO24-25-p2/src/server/operations.c:101-108 | the bracket opens once, before the first missing key |
| `Rendering.StrnMemcpy` | proj_so24-25-p2-grupo68/proj_SO24-25-p2/src/server/io.c:40-45 | copies the C string or its first n bytes, whichever is shorter, and leaves the rest of the buffer as it was |
| `Rendering.ClipExtend` | proj_so24-25-p2-grupo68/proj_SO24-25-p2/src/server/operations.c:171-182 | a bounded copy into the remaining room continues the clipped text, and the room is never negative |
| `Rendering.Stage` | proj_so24-25-p2-grupo68/proj_SO24-25-p2/src/server/operations.c:174-181 | each staged copy stays inside the 40-byte buffer and leaves the clip of the text so far |
| `Rendering.RenderRecord` | proj_so24-25-p2-grupo68/proj_SO24-25-p2/src/server/operations.c:170-183 | the staged rendering equals what show's snprintf prints, the first 39 bytes of the line |
| `Rendering.KvsShow` | proj_so24-25-p2-grupo68/proj_SO24-25-p2/src/server/operations.c:118-138 | prints one line per record in walk order |
| `Rendering.KvsBackup` | proj_so24-25-p2-grupo68/proj_SO24-25-p2/src/server/operations.c:163-186 | the child's file is byte for byte what SHOW prints for the table it was forked with |
| `Listing.CutLineNamesKey` | proj_so24-25-p2-grupo68/proj_SO24-25-p2/src/server/operations.c:130-131 | a line of SHOW names its key first, even if it is cut after it |
| `Listing.LineRead` | proj_so24-25-p2-grupo68/proj_SO24-25-p2/src/server/operations.c:130-131 | a whole line reads back to its key and value |
| `Listing.LineOnly` | proj_so24-25-p2-grupo68/proj_SO24-25-p2/src/server/operations.c:130-131 | and whatever reads back so is such a line |
| `Listing.ShowReadsBack` | proj_so24-25-p2-grupo68/proj_SO24-25-p2/src/server/operations.c:127-135 | the text of SHOW and of a backup reads back to the stored pairs in walk order if and only if no line is cut |
| `Listing.ShowTellsTheMap` | proj_so24-25-p2-grupo68/proj_SO24-25-p2/src/server/operations.c:127-135 | those pairs are exactly the bindings of the map, each once |
| `Listing.AnswerReadsBack` | proj_so24-25-p2-grupo68/proj_SO24-25-p2/src/server/operations.c:72-84 | READ's answer for any keys reads back to their values, or KVSERROR for those not there, if and only if no item is cut |
| `Listing.ReportReadsBack` | proj_so24-25-p2-grupo68/proj_SO24-25-p2/src/server/operations.c:98-112 | DELETE's report is empty when nothing is missing, and otherwise reads back to the missing keys if and only if no item is cut |
| `Listing.NotificationReadsBack` | proj_so24-25-p2-grupo68/proj_SO24-25-p2/src/server/kvs.c:49 | a notification reads back to the key and its new value, or to the key and DELETED (144) |
| `Listing.AnswersReadBack` | proj_so24-25-p2-grupo68/proj_SO24-25-p2/src/server/operations.c:64-192 | every command's answer reads back to what it should tell of the table |
| `Listing.EveryAnswerReadsBack` | proj_so24-25-p2-grupo68/proj_SO24-25-p2/src/server/operations.c:64-192 | in every interleaving, what a finished command printed reads back to what held at its point between the batches |
| `Batches.StepFollows` | proj_so24-25-p2-grupo68/proj_SO24-25-p2/src/server/operations.c:52-60 | an iteration on the shared table, whatever subscriptions changed meanwhile, does what the command alone would do next |
| `Batches.OutputIsAnswer` | proj_so24-25-p2-grupo68/proj_SO24-25-p2/src/server/operations.c:70-86 | what the loop collected is the answer of the whole command on one table |
| `Batches.OthersUndisturbed` | proj_so24-25-p2-grupo68/proj_SO24-25-p2/src/server/operations.c:52-60 | while a second thread is inside its loop, no iteration changes the table |
| `Batches.IterateKeeps` | proj_so24-25-p2-grupo68/proj_SO24-25-p2/src/server/operations.c:70-86 | the invariant holds after any iteration of any thread |
| `Batches.LoopEnds` | proj_so24-25-p2-grupo68/proj_SO24-25-p2/src/server/operations.c:112-115 | a released lock leaves the table of a whole number of batches |
| `Batches.ForksAreWhole` | proj_so24-25-p2-grupo68/proj_SO24-25-p2/src/server/operations.c:160-162 | the fork copies the table of a whole number of batches |
| `Batches.ChildText` | proj_so24-25-p2-grupo68/proj_SO24-25-p2/src/server/operations.c:163-186 | a backup child prints SHOW's text of its copy, however late |
| `Batches.ActionKeeps` | proj_so24-25-p2-grupo68/proj_SO24-25-p2/src/server/operations.c:52-60 | every step of every thread, child and session keeps the invariant |
| `Batches.RunKeeps` | proj_so24-25-p2-grupo68/proj_SO24-25-p2/src/server/operations.c:45-192 | the invariant holds in every reachable state |
| `Batches.BatchesAreAtomic` | proj_so24-25-p2-grupo68/proj_SO24-25-p2/src/server/operations.c:45-192 | in every interleaving: each finished READ, SHOW, DELETE or BACKUP printed its answer on the table left by a whole number of update batches, between its call and its return; the finished updates are those batches in order; and the idle table is what they leave |
| `RealTime.ThreadsAreStamped` | proj_so24-25-p2-grupo68/proj_SO24-25-p2/src/server/operations.c:52 | a command is stamped with the update batches over at its call in the run |
| `RealTime.EffectLiesBetween` | proj_so24-25-p2-grupo68/proj_SO24-25-p2/src/server/operations.c:45-192 | every finished command took effect between its call and its return in the run, a backup between its call and the end of its child |
| `RealTime.SomebodyGoesOn` | proj_so24-25-p2-grupo68/proj_SO24-25-p2/src/server/operations.c:52-61 | while a thread has called or a child runs, somebody can take a step |
| `Sessions.ListKeeps` | proj_so24-25-p2-grupo68/proj_SO24-25-p2/src/server/main.c:478-480 | listing or unlisting a key, and leaving, keep the agreement |
| `Sessions.AddKeeps` | proj_so24-25-p2-grupo68/proj_SO24-25-p2/src/server/main.c:482 | adding the entry after listing the key keeps it |
| `Sessions.RemoveKeeps` | proj_so24-25-p2-grupo68/proj_SO24-25-p2/src/server/main.c:456-459 | unsubscribing and one turn of the disconnect loop keep it |
| `Sessions.StoreKeeps` | proj_so24-25-p2-grupo68/proj_SO24-25-p2/src/server/kvs.c:141-152 | WRITE and DELETE keep it, delete-then-rewrite included |
| `Sessions.OpenKeeps` | proj_so24-25-p2-grupo68/proj_SO24-25-p2/src/server/main.c:412-436 | a new session with a fresh or reused descriptor number starts in agreement |
| `Sessions.CloseKeeps` | proj_so24-25-p2-grupo68/proj_SO24-25-p2/src/server/main.c:474-476 | closing the descriptor keeps it |
| `Sessions.ListIsListings` | proj_so24-25-p2-grupo68/proj_SO24-25-p2/src/server/main.c:478-496 | a session that is not leaving has each key on its list as often as its requests alone say |
| `Sessions.LengthIsListLength` | proj_so24-25-p2-grupo68/proj_SO24-25-p2/src/server/main.c:456-459 | its list is as long as its requests say, less a key for each turn of its disconnect loop |
| `Sessions.SessionsGoOn` | proj_so24-25-p2-grupo68/proj_SO24-25-p2/src/server/main.c:451-510 | a session can always take its next step, to the end of its disconnect loop |
| `Sessions.SlotIsFree` | proj_so24-25-p2-grupo68/proj_SO24-25-p2/src/server/main.c:474-477 | after its close the manager can open the next session, on the same descriptor number too |
| `Sessions.SignalCloses` | proj_so24-25-p2-grupo68/proj_SO24-25-p2/src/server/main.c:69-93 | SIGUSR1 empties every list, leaves the sessions unaware, and closes exactly the descriptors that a session not leaving carries |
| `Sessions.SignalKeeps` | proj_so24-25-p2-grupo68/proj_SO24-25-p2/src/server/main.c:69-94 | SIGUSR1 keeps it |
| `Sessions.DisconnectLeavesNoEntry` | proj_so24-25-p2-grupo68/proj_SO24-25-p2/src/server/main.c:456-460 | after the disconnect loop no key lists the descriptor |
| `Sessions.RunKeeps` | proj_so24-25-p2-grupo68/proj_SO24-25-p2/src/server/main.c:452-510 | the whole invariant in every state a fair run reaches |
| `Sessions.IndexesAgree` | proj_so24-25-p2-grupo68/proj_SO24-25-p2/src/server/main.c:452-510 | in every state of such a run a key lists an open session's descriptor at most as often as the session accounts for; a message goes only to an open descriptor, whose present owner has the key on its list or is just removing it |
| `Sessions.NoSignalIsFair` | proj_so24-25-p2-grupo68/proj_SO24-25-p2/src/server/main.c:436-512 | without SIGUSR1 every step of every run is fair, so the agreement holds in all of them |
| `Sessions.OpenMeansNoStray` | proj_so24-25-p2-grupo68/proj_SO24-25-p2/src/server/kvs.c:50-56 | only open descriptors are listed exactly when no write or delete can send to a closed one |
| `Sessions.StepExactly` | proj_so24-25-p2-grupo68/proj_SO24-25-p2/src/server/main.c:452-510 | from a state in agreement, a step leads to one in agreement if and only if it is fair: an entry is added under an absent key, for a descriptor that is the session's own, or for one whose present owner still accounts for one more; and a descriptor that is another session's is closed only if nobody lists it |
| `Sessions.RunExactly` | proj_so24-25-p2-grupo68/proj_SO24-25-p2/src/server/main.c:69-94 | two-index agreement holds all through a run, whatever signals it contains, if and only if every step of the run is fair |
| `Sessions.StaleSessionStrays` | proj_so24-25-p2-grupo68/proj_SO24-25-p2/src/server/main.c:69-78 | with SIGUSR1 between the two halves of a subscribe, the entry is added for a closed descriptor, and the next write sends to it |
| `Sessions.ReusedNumberStrays` | proj_so24-25-p2-grupo68/proj_SO24-25-p2/src/server/main.c:69-78 | with a new session on the same number in between, every listed descriptor is open, the indexes disagree, and the next write goes to a client that never subscribed |
| `ManagerSessions.DrainedContents` | proj_so24-25-p2-grupo68/proj_SO24-25-p2/src/server/main.c:456-459 | the disconnect loop over the chains is the loop over the map |
| `ManagerSessions.DisconnectIsComplete` | proj_so24-25-p2-grupo68/proj_SO24-25-p2/src/server/main.c:456-459 | if no key lists the descriptor more often than the session lists the key, the loop leaves the descriptor nowhere and every other entry in place |
| `ManagerSessions.SubscribeSteps` | proj_so24-25-p2-grupo68/proj_SO24-25-p2/src/server/main.c:478-492 | the two interleaved steps of a subscribe leave the list and the chains that the code on the heap leaves |
| `ManagerSessions.UnsubscribeSteps` | proj_so24-25-p2-grupo68/proj_SO24-25-p2/src/server/main.c:494-510 | and those of an unsubscribe |
| `ManagerSessions.DisconnectSteps` | proj_so24-25-p2-grupo68/proj_SO24-25-p2/src/server/main.c:452-477 | and the turns of the disconnect loop |
| `ManagerSessions.ManagerSession.Subscribe` | proj_so24-25-p2-grupo68/proj_SO24-25-p2/src/server/main.c:478-492 | the key joins the session's heap list and the descriptor the key's |
| `ManagerSessions.ManagerSession.Unsubscribe` | proj_so24-25-p2-grupo68/proj_SO24-25-p2/src/server/main.c:494-510 | one occurrence goes from each side |
| `ManagerSessions.ManagerSession.Disconnect` | proj_so24-25-p2-grupo68/proj_SO24-25-p2/src/server/main.c:452-477 | every listed key is unsubscribed once and the next session starts with an empty list |
| `Notifications.TextsOfNotify` | proj_so24-25-p2-grupo68/proj_SO24-25-p2/src/server/kvs.c:50-56 | a round of notification writes as many copies to a descriptor as it has entries |
| `Notifications.StoreCounts` | proj_so24-25-p2-grupo68/proj_SO24-25-p2/src/server/kvs.c:71-108 | after any history, a key's list holds exactly the live subscriptions |
| `Notifications.ToldExactly` | proj_so24-25-p2-grupo68/proj_SO24-25-p2/src/server/kvs.c:42-68 | after any history every descriptor has been told exactly what the history alone says: once per live subscription for each overwrite and each delete of a present key, nothing for the write that creates a key, in order |
| `Notifications.SilentAfterDelete` | proj_so24-25-p2-grupo68/proj_SO24-25-p2/src/server/kvs.c:139-165 | after a delete the descriptor has no live subscription to the key until it subscribes anew, even if the key comes back |
| `Notifications.WriteEvents` | proj_so24-25-p2-grupo68/proj_SO24-25-p2/src/server/operations.c:54-58 | a WRITE batch is its pairs as single write events |
| `Notifications.DeleteEvents` | proj_so24-25-p2-grupo68/proj_SO24-25-p2/src/server/operations.c:99-109 | a DELETE batch is its keys as single delete events |
| `Notifications.BatchesAreEvents` | proj_so24-25-p2-grupo68/proj_SO24-25-p2/src/server/operations.c:45-116 | commands on the chains continue the history: same store, same log |
| `Deliveries.StepIsEvent` | proj_so24-25-p2-grupo68/proj_SO24-25-p2/src/server/kvs.c:42-68 | each step of the interleaved threads and sessions is one event for the store, or none, and sends what the event sends |
| `Deliveries.RunIsHistory` | proj_so24-25-p2-grupo68/proj_SO24-25-p2/src/server/operations.c:45-116 | after any run the shared chains, subscribers included, hold the store of the run's history, and what was sent is its log |
| `Deliveries.EveryoneIsToldExactly` | proj_so24-25-p2-grupo68/proj_SO24-25-p2/src/server/kvs.c:42-68 | in every interleaving, subscriptions made in the middle of a batch included, each descriptor has been told exactly what the run's history says |
| `Deliveries.TextsFit` | proj_so24-25-p2-grupo68/proj_SO24-25-p2/src/server/kvs.c:48-49 | in every interleaving of parsed commands each notification of a write and its terminator fit 90 bytes, and each of a delete (143-144) 52 |
| `Server.ThreadKeeps` | proj_so24-25-p2-grupo68/proj_SO24-25-p2/src/server/kvs.c:35-69 | a thread's step on the chains is a write or delete of one key for the sessions, with the same messages, or nothing |
| `Server.ClientKeeps` | proj_so24-25-p2-grupo68/proj_SO24-25-p2/src/server/main.c:452-510 | a session's step on its map is the step on the chains |
| `Server.SessionsAreNotHeldUp` | proj_so24-25-p2-grupo68/proj_SO24-25-p2/src/server/main.c:452-510 | the table never holds up a session: its keys have buckets |
| `Server.RunIsBoth` | proj_so24-25-p2-grupo68/proj_SO24-25-p2/src/server/main.c:327-345 | a run of threads and sessions together is a run of each, and the chains stand for the sessions' store |
| `Server.MessagesFindTheirClient` | proj_so24-25-p2-grupo68/proj_SO24-25-p2/src/server/kvs.c:50-56 | in every fair run, wherever the threads stand in their batches, a message goes to an open descriptor whose present owner has the key on its list or is just removing it |
| `Server.NoSignalNoStray` | proj_so24-25-p2-grupo68/proj_SO24-25-p2/src/server/kvs.c:50-56 | without SIGUSR1 that is every run |
| `Handoff.ProducerKeeps` | proj_so24-25-p2-grupo68/proj_SO24-25-p2/src/server/main.c:573-577 | every statement of the registration thread keeps the token counts, exclusion and order |
| `Handoff.ManagerTokens` | proj_so24-25-p2-grupo68/proj_SO24-25-p2/src/server/main.c:383-387 | every statement of a manager keeps the token counts, and its pop finds a non-empty queue |
| `Handoff.ManagerKeeps` | proj_so24-25-p2-grupo68/proj_SO24-25-p2/src/server/main.c:383-391 | every statement of a manager keeps the whole invariant |
| `Handoff.RunKeeps` | proj_so24-25-p2-grupo68/proj_SO24-25-p2/src/server/main.c:612-613 | in every reachable state empty + full + tokens held = 8, and the queue length is full + unannounced + promised |
| `Handoff.HandoffIsExact` | proj_so24-25-p2-grupo68/proj_SO24-25-p2/src/server/main.c:383-391 | in every reachable state the queue holds at most 8, at most one thread is at it, no manager pops NULL, and the accepted registrations are the popped, the queued and the one in hand, in order |
| `Handoff.PoppedAreServed` | proj_so24-25-p2-grupo68/proj_SO24-25-p2/src/server/main.c:383-389 | in every reachable state each registration has been popped as often as managers have it, from their pop to the end of the session, or have had a session of it that ended |
| `Handoff.ServedExactly` | proj_so24-25-p2-grupo68/proj_SO24-25-p2/src/server/main.c:573-577 | so each has been accepted as often as it is in the producer's hand, queued, with a manager or served to the end |
| `Handoff.ProtocolStepsDecrease` | proj_so24-25-p2-grupo68/proj_SO24-25-p2/src/server/main.c:383-387 | every step of the threads themselves decreases a measure |
| `Handoff.PendingIsNotStuck` | proj_so24-25-p2-grupo68/proj_SO24-25-p2/src/server/main.c:573-577 | while a registration is queued and a manager waits, some step is enabled |
| `Handoff.EnvironmentAddsFive` | proj_so24-25-p2-grupo68/proj_SO24-25-p2/src/server/main.c:573-577 | a new client or the end of a session adds five to it |
| `Handoff.PendingStays` | proj_so24-25-p2-grupo68/proj_SO24-25-p2/src/server/main.c:573-577 | until a pop that stays so, whatever clients do |
| `Handoff.PopComes` | proj_so24-25-p2-grupo68/proj_SO24-25-p2/src/server/main.c:383-391 | from such a state, while clients come and sessions end, the threads cannot stop before a pop, and without one take at most as many steps as the measure and five for each step of the environment |
| `RegistrationQueues.Queue.constructor` | proj_so24-25-p2-grupo68/proj_SO24-25-p2/src/server/queue.c:4-9 | an empty queue |
| `RegistrationQueues.Queue.IsEmpty` | proj_so24-25-p2-grupo68/proj_SO24-25-p2/src/server/queue.c:11-13 | true exactly when nothing is queued |
| `RegistrationQueues.Queue.Enqueue` | proj_so24-25-p2-grupo68/proj_SO24-25-p2/src/server/queue.c:15-32 | the sequence of triples grows by the new one at its end, on an emptied queue as on any other |
| `RegistrationQueues.Queue.Pop` | proj_so24-25-p2-grupo68/proj_SO24-25-p2/src/server/queue.c:34-54 | NULL exactly when empty; otherwise the first triple goes and is returned, and the emptied queue has no tail |
| `RegistrationQueues.FieldSurvives` | proj_so24-25-p2-grupo68/proj_SO24-25-p2/src/server/queue.c:18-22 | a path reads back from its 40-byte field, terminated, exactly if it has at most 39 bytes |
| `RegistrationQueues.CopiedTwice` | proj_so24-25-p2-grupo68/proj_SO24-25-p2/src/server/queue.c:40-44 | the second strncpy, out of the node, changes nothing |
| `JobPool.JobNames` | proj_so24-25-p2-grupo68/proj_SO24-25-p2/src/server/main.c:104-123 | entry_files accepts exactly the names base.job that fit; both paths are those of the base and fit 256 bytes |
| `JobPool.OutputsDistinct` | proj_so24-25-p2-grupo68/proj_SO24-25-p2/src/server/main.c:115-120 | distinct jobs get distinct output paths, and none is a job's input |
| `JobPool.PlacesKeep` | proj_so24-25-p2-grupo68/proj_SO24-25-p2/src/server/main.c:261-305 | every step keeps each eligible entry the cursor has passed in exactly one place |
| `JobPool.ControlKeeps` | proj_so24-25-p2-grupo68/proj_SO24-25-p2/src/server/main.c:254-310 | only the mutex holder reads the directory |
| `JobPool.RunKeeps` | proj_so24-25-p2-grupo68/proj_SO24-25-p2/src/server/main.c:254-310 | both in every reachable state, for any number of workers |
| `JobPool.HandedOutOnce` | proj_so24-25-p2-grupo68/proj_SO24-25-p2/src/server/main.c:254-312 | no entry is ever in two hands, and a worker that saw the end saw every job handed out |
| `JobPool.EachJobOnce` | proj_so24-25-p2-grupo68/proj_SO24-25-p2/src/server/main.c:327-345 | once all workers are joined, each job ran exactly once if and only if no open failed |
| `JobPool.RunsAreBounded` | proj_so24-25-p2-grupo68/proj_SO24-25-p2/src/server/main.c:254-312 | no run takes more than ten steps for each entry and five for each worker |
| `JobPool.SomebodyGoesOn` | proj_so24-25-p2-grupo68/proj_SO24-25-p2/src/server/main.c:254-312 | and none stops before every worker is through |
| `Parser.ReadStringAt` | proj_so24-25-p2-grupo68/proj_SO24-25-p2/src/server/parser.c:16-52 | after i ordinary bytes the next byte, the end of input or the bound decides the result |
| `Parser.PairLoopAt` | proj_so24-25-p2-grupo68/proj_SO24-25-p2/src/server/parser.c:219-236 | after n turns with more to come, the next turn or the bound decides the loop |
| `StreamParser.SkipLine` | proj_so24-25-p2-grupo68/proj_SO24-25-p2/src/server/parser.c:92-96 | the descriptor stands just past the next newline, or at the end |
| `StreamParser.ReadStringInto` | proj_so24-25-p2-grupo68/proj_SO24-25-p2/src/server/parser.c:16-52 | code, buffer, terminator and position are those of `ReadString`; nothing is written past the buffer |
| `StreamParser.ParsePairInto` | proj_so24-25-p2-grupo68/proj_SO24-25-p2/src/server/parser.c:189-201 | as `ParsePair`, with its cleanup |
| `StreamParser.PairLoopInto` | proj_so24-25-p2-grupo68/proj_SO24-25-p2/src/server/parser.c:216-236 | the loop fills the arrays with the pairs `PairLoop` finds |
| `StreamParser.ParseWriteInto` | proj_so24-25-p2-grupo68/proj_SO24-25-p2/src/server/parser.c:203-249 | count, array contents and position are those of `ParseWrite`; 0 for a malformed command |
| `StreamParser.KeyLoopInto` | proj_so24-25-p2-grupo68/proj_SO24-25-p2/src/server/parser.c:259-273 | the loop fills the array with the keys `KeyLoop` finds |
| `StreamParser.ParseReadDeleteInto` | proj_so24-25-p2-grupo68/proj_SO24-25-p2/src/server/parser.c:251-286 | count, array contents and position are those of `ParseReadDelete` |
| `StreamParser.ReadUIntInto` | proj_so24-25-p2-grupo68/proj_SO24-25-p2/src/server/parser.c:59-88 | value, following byte and position are those of `ReadUInt`; values above UINT_MAX are refused |
| `StreamParser.ParseWaitInto` | proj_so24-25-p2-grupo68/proj_SO24-25-p2/src/server/parser.c:288-314 | code, delay and position are those of `ParseWait` |
| `StreamParser.WaitOrWrite` | proj_so24-25-p2-grupo68/proj_SO24-25-p2/src/server/parser.c:105-114 | WAIT and WRITE are told apart, one byte more being read for the longer word |
| `StreamParser.GetNextInto` | proj_so24-25-p2-grupo68/proj_SO24-25-p2/src/server/parser.c:98-182 | command and position are those of `GetNext` |
| `Resync.CleanupEndsLine` | proj_so24-25-p2-grupo68/proj_SO24-25-p2/src/server/parser.c:92-96 | cleanup stops just past a newline or at the end, and moves |
| `Resync.ParseWriteEndsLine` | proj_so24-25-p2-grupo68/proj_SO24-25-p2/src/server/parser.c:203-249 | on any argument parse_write stops past a line end or at the end of input, double cleanup included |
| `Resync.ParseReadDeleteEndsLine` | proj_so24-25-p2-grupo68/proj_SO24-25-p2/src/server/parser.c:251-286 | so does parse_read_delete |
| `Resync.ParseWaitEndsLine` | proj_so24-25-p2-grupo68/proj_SO24-25-p2/src/server/parser.c:288-314 | so does parse_wait |
| `Resync.GetNextForward` | proj_so24-25-p2-grupo68/proj_SO24-25-p2/src/server/parser.c:98-182 | get_next consumes a byte unless at the end, and a command without argument ends its line |
| `Resync.NextJobEndsLine` | proj_so24-25-p2-grupo68/proj_SO24-25-p2/src/server/main.c:127-228 | on any input an iteration of run_job reports EOC exactly at the end of the input, and otherwise consumes at least one byte and stops just past a line end or at the end |
| `LostLines.FaultIs` | proj_so24-25-p2-grupo68/proj_SO24-25-p2/src/server/parser.c:98-314 | after any malformed command the input goes on from the cleanup at the byte where the parser gave it up, or from a second cleanup if that was inside a pair |
| `LostLines.LinesLost` | proj_so24-25-p2-grupo68/proj_SO24-25-p2/src/server/parser.c:92-96 | a malformed command costs its own line and no more if and only if that is the last line, or the parser gives it up before it has read the newline and not inside a pair; a pair given up within its line costs exactly the next line as well |
| `LostLines.SpaceBreaksPair` | proj_so24-25-p2-grupo68/proj_SO24-25-p2/src/server/parser.c:189-201 | a space where a key should go on skips the pair's line and the next |
| `LostLines.NextCommandIsLost` | proj_so24-25-p2-grupo68/proj_SO24-25-p2/src/server/parser.c:220-223 | so whatever command follows such a WRITE is not executed |
| `LostLines.ShowIsLost` | proj_so24-25-p2-grupo68/proj_SO24-25-p2/src/server/parser.c:220-223 | a concrete file whose SHOW is not executed |
| `LostLines.ReadLosesNextCommand` | proj_so24-25-p2-grupo68/proj_SO24-25-p2/src/server/parser.c:116-120 | READ without its space loses the next line too: its newline is read as part of the word |
| `CommandWords.CleanupExactly` | proj_so24-25-p2-grupo68/proj_SO24-25-p2/src/server/parser.c:92-96 | cleanup skips exactly the rest of the line |
| `CommandWords.EmptyExactly` | proj_so24-25-p2-grupo68/proj_SO24-25-p2/src/server/parser.c:171-176 | run_job takes for an empty command exactly an empty line and a comment |
| `CommandWords.CommentLine` | proj_so24-25-p2-grupo68/proj_SO24-25-p2/src/server/parser.c:171-173 | a comment is skipped to its end and does nothing |
| `CommandWords.ShowExactly` | proj_so24-25-p2-grupo68/proj_SO24-25-p2/src/server/parser.c:132-143 | SHOW is exactly the word and a newline, or the word at the end of the input |
| `CommandWords.BackupExactly` | proj_so24-25-p2-grupo68/proj_SO24-25-p2/src/server/parser.c:145-156 | so is BACKUP |
| `CommandWords.HelpExactly` | proj_so24-25-p2-grupo68/proj_SO24-25-p2/src/server/parser.c:158-169 | so is HELP |
| `CommandWords.WaitExactly` | proj_so24-25-p2-grupo68/proj_SO24-25-p2/src/server/parser.c:288-314 | WAIT is exactly its word, digits of at most UINT_MAX, and the end of the input, a newline, a NUL, or a space and the rest of the line |
| `CommandWords.WriteExactly` | proj_so24-25-p2-grupo68/proj_SO24-25-p2/src/server/parser.c:105-114 | WRITE is exactly its word and the printed argument of 1 to 255 plain pairs with a line end |
| `CommandWords.ReadExactly` | proj_so24-25-p2-grupo68/proj_SO24-25-p2/src/server/parser.c:116-122 | READ is exactly its word and the printed argument of 1 to 255 plain keys with a line end |
| `CommandWords.DeleteExactly` | proj_so24-25-p2-grupo68/proj_SO24-25-p2/src/server/parser.c:124-130 | so is DELETE |
| `Grammar.FieldRead` | proj_so24-25-p2-grupo68/proj_SO24-25-p2/src/server/parser.c:22-51 | a plain string and its terminator are read back |
| `Grammar.FieldOnly` | proj_so24-25-p2-grupo68/proj_SO24-25-p2/src/server/parser.c:22-51 | whatever read_string accepts is a plain string and its terminator |
| `Grammar.PairsRead` | proj_so24-25-p2-grupo68/proj_SO24-25-p2/src/server/parser.c:216-236 | a printed list of plain pairs is read back |
| `Grammar.PairsOnly` | proj_so24-25-p2-grupo68/proj_SO24-25-p2/src/server/parser.c:216-236 | whatever the loop accepts is a printed list of plain pairs |
| `Grammar.WriteRead` | proj_so24-25-p2-grupo68/proj_SO24-25-p2/src/server/parser.c:203-249 | a printed WRITE argument is parsed to its pairs, just past its line end |
| `Grammar.WriteOnly` | proj_so24-25-p2-grupo68/proj_SO24-25-p2/src/server/parser.c:203-249 | whatever parse_write accepts is a printed WRITE argument of 1 to 255 plain pairs |
| `Grammar.WriteGrammar` | proj_so24-25-p2-grupo68/proj_SO24-25-p2/src/server/parser.c:203-249 | parse_write returns these pairs and this rest if and only if the input is their printed argument, a newline or NUL, and the rest, with 1 to 255 pairs of strings of at most 39 bytes without space, comma, ) or ] |
| `Grammar.KeysGrammar` | proj_so24-25-p2-grupo68/proj_SO24-25-p2/src/server/parser.c:251-286 | the same, both ways, for READ and DELETE |
| `Decimal.TextIsCanonical` | proj_so24-25-p2-grupo68/proj_SO24-25-p2/src/server/io.c:27-33 | the printed number has no leading zero and is the number's decimal |
| `Decimal.CanonicalIsText` | proj_so24-25-p2-grupo68/proj_SO24-25-p2/src/server/io.c:27-33 | every canonical decimal is the printed form of its number |
| `Decimal.ReadBack` | proj_so24-25-p2-grupo68/proj_SO24-25-p2/src/server/parser.c:59-88 | read_uint on the digits and a non-digit returns every number up to UINT_MAX, and refuses every greater one |
| `Decimal.IntFitsBuffer` | proj_so24-25-p2-grupo68/proj_SO24-25-p2/src/server/io.c:24-29 | an int has at most 10 digits |
| `Decimal.WriteUInt` | proj_so24-25-p2-grupo68/proj_SO24-25-p2/src/server/io.c:23-38 | the backward loop stays in its 16 bytes and writes the canonical decimal |
| `Jobs.JobRead1` | proj_so24-25-p2-grupo68/proj_SO24-25-p2/src/server/main.c:133-228 | a printed command is read back as itself, and nothing after it is touched |
| `Jobs.JobFileRoundTrip` | proj_so24-25-p2-grupo68/proj_SO24-25-p2/src/server/main.c:125-230 | run_job finds in a printed job file exactly the printed commands |
| `Jobs.ParsedPairsAreClean` | proj_so24-25-p2-grupo68/proj_SO24-25-p2/src/server/parser.c:225-226 | whatever WRITE stores could be parsed again |
| `Jobs.CleanPutAll` | proj_so24-25-p2-grupo68/proj_SO24-25-p2/src/server/operations.c:54-58 | a batch of such pairs keeps every stored string parseable |
| `Jobs.CleanRemoveAll` | proj_so24-25-p2-grupo68/proj_SO24-25-p2/src/server/operations.c:99-109 | and so does a DELETE |
| `Jobs.NextJobInto` | proj_so24-25-p2-grupo68/proj_SO24-25-p2/src/server/main.c:133-186 | the parsing half of an iteration, on the descriptor and the arrays |
| `Jobs.ExecuteJob` | proj_so24-25-p2-grupo68/proj_SO24-25-p2/src/server/main.c:141-203 | the executing half, on the heap table |
| `Jobs.RunJob` | proj_so24-25-p2-grupo68/proj_SO24-25-p2/src/server/main.c:125-230 | run_job ends on every input, has then executed exactly the input's commands in order, and has stored only strings that could be parsed again |
| `JobMeaning.OneMoreJob` | proj_so24-25-p2-grupo68/proj_SO24-25-p2/src/server/main.c:133-228 | one more job changes table, output and backups as its batch command says, and not at all if it is none |
| `JobMeaning.FileIsItsCommands` | proj_so24-25-p2-grupo68/proj_SO24-25-p2/src/server/main.c:125-230 | a job file leaves the table, the answers and the backups of its commands, whole and in order |
| `JobMeaning.FileIsItsEvents` | proj_so24-25-p2-grupo68/proj_SO24-25-p2/src/server/main.c:125-230 | a job file leaves the store of its single writes and deletes and has sent their log |
| `RoundTrip.AnswerItems` | proj_so24-25-p2-grupo68/proj_SO24-25-p2/src/server/operations.c:73-83 | READ's items are the printed pairs when all fit, and shorter otherwise |
| `RoundTrip.StoredArePlain` | proj_so24-25-p2-grupo68/proj_SO24-25-p2/src/server/parser.c:225-226 | present keys and their values are plain |
| `RoundTrip.ReadIsAWriteArgument` | proj_so24-25-p2-grupo68/proj_SO24-25-p2/src/server/operations.c:72-84 | for 1 to 255 present keys, parse_write on READ's text returns those keys with their stored values if and only if every key and value together have at most 36 bytes |
| `RoundTrip.WritingBackChangesNothing` | proj_so24-25-p2-grupo68/proj_SO24-25-p2/src/server/kvs.c:42-57 | writing present keys with their stored values leaves the table as it is |
| `RoundTrip.ReadThenWrite` | proj_so24-25-p2-grupo68/proj_SO24-25-p2/src/server/operations.c:64-88 | "WRITE " before the printed answer is a command that leaves the very same table |
| `RoundTrip.StoredStaysClean` | proj_so24-25-p2-grupo68/proj_SO24-25-p2/src/server/operations.c:45-116 | in every interleaving of threads whose commands were parsed, every stored string could be parsed again |
| `RoundTrip.EveryAnswerIsAWriteArgument` | proj_so24-25-p2-grupo68/proj_SO24-25-p2/src/server/operations.c:64-88 | in every interleaving, what a finished READ of 1 to 255 present keys printed is parsed to those keys with the values they had, if and only if every key and value together have at most 36 bytes |
| `Transfer.WriteAll` | proj_so24-25-p2-grupo68/proj_SO24-25-p2/src/common/io.c:59-75 | for every schedule: 1 exactly when it lets the whole buffer out before a failure, and then the buffer went out once and in order; otherwise a strict prefix did |
| `Transfer.ReadAll` | proj_so24-25-p2-grupo68/proj_SO24-25-p2/src/common/io.c:13-41 | for every schedule: code, bytes taken, events used and flag are those of the reading; the bytes taken are the next ones and are at the front of the buffer, the rest of which is untouched; a flag already set stops the call |
| `Transfer.ReadsMeaning` | proj_so24-25-p2-grupo68/proj_SO24-25-p2/src/common/io.c:18-40 | 1 exactly when all the bytes were taken, 0 only once the pipe is empty and the bytes are too few, -1 otherwise |
| `Transfer.BrokenExactly` | proj_so24-25-p2-grupo68/proj_SO24-25-p2/src/common/io.c:23-35 | -1 exactly when the last event used was an error, or a signal before the first byte of a call that watches for them |
| `Transfer.MarkedExactly` | proj_so24-25-p2-grupo68/proj_SO24-25-p2/src/common/io.c:24-30 | the flag is set exactly when a signal came during a call that watches for them |
| `Transfer.ShortReads` | proj_so24-25-p2-grupo68/proj_SO24-25-p2/src/common/io.c:18-40 | short reads alone never fail: 1 if the bytes are there, else 0 after all there were |
| `Transfer.Transmit` | proj_so24-25-p2-grupo68/proj_SO24-25-p2/src/common/io.c:13-75 | one side after the other, a message sent whole and received whole is unchanged, however both sides were cut up |
| `Transfer.ExchangeIsExact` | proj_so24-25-p2-grupo68/proj_SO24-25-p2/src/common/io.c:13-75 | with the calls of both sides in any order: what is read is always a prefix of the message, a reader that completes has read it all and left nothing, it meets an end of file only if the writer failed, and without errors and signals neither side gives up |
| `Transfer.ExchangeGoesOn` | proj_so24-25-p2-grupo68/proj_SO24-25-p2/src/common/io.c:13-75 | while a side is not through some call is possible, and each that moves bytes leaves fewer to move |
| `Registration.FrameRoundTrip` | proj_so24-25-p2-grupo68/proj_SO24-25-p2/src/client/api.c:51-53 | a frame decodes to the triple it was built from |
| `Registration.FrameLayout` | proj_so24-25-p2-grupo68/proj_SO24-25-p2/src/client/api.c:51 | on the wire: the operation, then request, response and notification paths in fields of 40 bytes filled with spaces, and a terminator |
| `Registration.FramesRoundTrip` | proj_so24-25-p2-grupo68/proj_SO24-25-p2/src/server/main.c:544-571 | frames sent one after the other decode to the same triples in order |
| `Registration.CopyField` | proj_so24-25-p2-grupo68/proj_SO24-25-p2/src/server/main.c:553-558 | the loop over a field yields its path |
| `Registration.PathsSurvive` | proj_so24-25-p2-grupo68/proj_SO24-25-p2/src/server/queue.c:18-22 | from client to manager the paths come through terminated if and only if each has at most 39 bytes, and then unchanged |
| `Registration.EnqueuedIsSent` | proj_so24-25-p2-grupo68/proj_SO24-25-p2/src/server/main.c:543-582 | over any turns, what is enqueued is what was sent if and only if no end of file finds a connect request in the buffer |
| `Registration.AtLeastSent` | proj_so24-25-p2-grupo68/proj_SO24-25-p2/src/server/main.c:543-582 | otherwise it receives more |
| `Registration.RegisteredTwice` | proj_so24-25-p2-grupo68/proj_SO24-25-p2/src/server/main.c:543-551 | a frame and then an end of file enqueue the client twice |
| `Registration.DecodeTurn` | proj_so24-25-p2-grupo68/proj_SO24-25-p2/src/server/main.c:550-578 | a connect request is taken apart and enqueued, anything else is ignored |
| `Registration.ReadTurn` | proj_so24-25-p2-grupo68/proj_SO24-25-p2/src/server/main.c:544-548 | a frame, an end of file or an error exactly as read_all ends on the pipe, with the bytes it took at the front of the buffer, and the pipe, the schedule and the flag it leaves |
| `Registration.RegisterTurn` | proj_so24-25-p2-grupo68/proj_SO24-25-p2/src/server/main.c:544-581 | one turn over any schedule: pipe, schedule, flag, buffer and queue afterwards are those of `TurnTo` |
| `Registration.StageIsEnqueued` | proj_so24-25-p2-grupo68/proj_SO24-25-p2/src/server/main.c:543-582 | after any number of turns, whatever clients wrote and the system did before each, the queue has gained what the turns enqueue |
| `Registration.RegisterAll` | proj_so24-25-p2-grupo68/proj_SO24-25-p2/src/server/main.c:543-582 | the thread over any number of turns on the heap: the queue gains exactly the registrations sent if and only if no end of file finds a connect request in the buffer |
| `Registration.NothingIsLost` | proj_so24-25-p2-grupo68/proj_SO24-25-p2/src/server/main.c:543-571 | short reads and signals alone lose nothing: the registrations got turn by turn and those still in the pipe are the ones clients wrote, in order, each once |
| `Registration.BreaksFrameIs` | proj_so24-25-p2-grupo68/proj_SO24-25-p2/src/server/main.c:544-548 | a turn that fails keeps part of a frame exactly when an error came after its first byte |
| `Registration.LostExactly` | proj_so24-25-p2-grupo68/proj_SO24-25-p2/src/server/main.c:543-571 | whatever the system does, that conservation holds if and only if no turn failed after some bytes of a frame |
| `Registration.FlagExactly` | proj_so24-25-p2-grupo68/proj_SO24-25-p2/src/server/main.c:529-548 | after any run the interrupt flag is set exactly when a signal reached one of its calls |
| `Registration.SignalEndsRegistration` | proj_so24-25-p2-grupo68/proj_SO24-25-p2/src/common/io.c:13-16 | once a signal has reached a call, no later turn gets a frame or enqueues anything, and what is in the pipe and what clients still write stays there |
| `Registration.RegisterTwice` | proj_so24-25-p2-grupo68/proj_SO24-25-p2/src/server/main.c:543-577 | on a pipe that holds one connect request, with any short reads, two turns enqueue it twice |

## Left out

- Registration.RegisterTurn: does not model the semaphores and the mutex around its enqueue; Handoff has them, over the queue as a sequence.
- StreamParser.ReadUIntInto: does not model the 16-byte buffer; the digits are collected in a text of any length.
- Operations.KvsWrite: does not model the lock, which Batches has over the store as values, nor the return code 0, which run_job compares with the number of pairs and reports on standard error.
- Batches.BatchesAreAtomic: compares tables without their subscribers, because subscriptions take no lock and fall inside batches; Deliveries.RunIsHistory has the subscribers and the messages.
- StreamParser.ParseWaitInto: does not model the branch that reads a thread id; its only caller passes none.
- Decimal.WriteUInt: does not model short writes; the digits go out at once.
- Jobs.RunJob: does not model other threads running between its commands; Batches has them.
- Opening, closing and deleting pipes and files, signal masks, `perror`, messages on standard error.
- The client program and its parser; the only client code modelled is the registration frame.
- Replies on the response pipe, whose codes and header comments disagree.
- The bound on live backup children: the slot is claimed before the fork, outside its lock, so it does not hold in every interleaving.
- File names of backups, waiting, the help text, argument checking.
- One table per source file through the `static` variable in a header: one table is assumed.
- Failure of malloc and fork; `free`: freed nodes are merely unreachable.
- Checks for a table that was never created, and `free_table`, `delete_list` and `destroy_queue`, which only release memory.
- Errors other than end of file when reading a job file, and short writes in `write_str`.
- The directory entry that `run_job` uses after the mutex is released, and its return value 1, which no branch produces.
- Which waiting thread a lock or semaphore lets in: any may be.
