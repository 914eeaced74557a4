# Verification of the 6.5840 labs: checker, key-value server, Raft election, MapReduce

This project models four parts of the repository and proves what they are for.

**The linearizability checker (`porcupine`).** `checkSingle` is modelled on the heap as it is written: nodes
whose pointers `lift` and `unlift` rewrite, a bitset of 64-bit words changed in place, a cache of bitset clones
bucketed by hash, a stack and an array of longest partial linearizations (`Checker.dfy`). It is proved against a
search on values (`Search.dfy`), which in turn is proved against the definition of linearizability
(`Linearizability.dfy`): some ordering of all operations respects real time and every `Step` from `Init`
accepts. Around it stand the bitset (`Bitset.dfy`), the cache (`Cache.dfy`), the linked list on values
(`Links.dfy`), the entries that operations and events become (`Entries.dfy`, `Events.dfy`), the key-value model
with the law it states and its partition by key (`Kv.dfy`, `KvLaw.dfy`, `Locality.dfy`), the collector of `checkParallel` as a step system
(`Parallel.dfy`), the whole check (`CheckOperations.dfy`) and the replay for display (`Visualization.dfy`).

**The key-value server (`kvsrv`).** The handlers are a class with fields updated in place (`KvServer.dfy`). Any
number of clerks with their two retry loops, the server and a network that drops a request, loses a reply or
delivers it form a step system (`KvSystem.dfy`). Every complete run is linearizable, so a check of its history
never answers `Illegal` (`KvGuarantee.dfy`).

**Raft leader election (`raft`).** One peer is a class (`RaftPeer.dfy`); a cluster is a step system over
elections, votes, counted votes, heartbeats and their answers, in any order (`RaftElection.dfy`).

**MapReduce (`mr`).** The coordinator is a class over its two task tables (`Coordinator.dfy`); bucketing, sorting
and grouping are methods proved against functions (`MapReduce.dfy`); the coordinator, workers that may stall or
crash at any point, and the files they share form a step system (`MrSystem.dfy`, `MrOutput.dfy`), whose
specification is `mrsequential.go` (`MrResult.dfy`, `MrProgress.dfy`). Facts about sets and sequences are in `Collections.dfy`.

## What is assumed

- A history has one call followed by one return for each id, which is what `makeEntries` produces from operations
  with `Call <= Return`; `Events.EventsWellFormed` says exactly when event histories have it.
- `Step` is a function, and states that `Equal` identifies have the same futures (`EqualIsBisimulation`). A search may
  be killed at any poll: the kill flag read at each turn is a parameter. The flag, once set, is not cleared.
- A library sort leaves any rearrangement in which no neighbours are out of order, stable or not. Maps are iterated
  in any order.
- `nrand` gives every modification an id of its own. The server is not deleted, client ends stay enabled during an
  operation, and a clerk has one operation at a time, so a call that returned false has no handler still pending.
- Raft peers do not restart. Election safety is for runs in which no vote makes its candidate leader without a majority;
  runs in which a granted vote is delivered to the election that asked for it, or to a peer that is no longer a
  candidate, are among them. The code does not check this; what can happen otherwise is `RaftElection.StaleVoteElectsTwice`.
- In `mr`, a file is a sequence of pairs, a rename is atomic, `ihash` is any non-negative hash, `mapf` is deterministic up
  to the order of what it emits, `NReduce` is positive and the clock does not go back. Times are whole nanoseconds, compared exactly.

## Where the code is not what it might seem

- `checkParallel` never ends on a history without partitions unless a timeout is given, although the empty history is
  linearizable (`Parallel.StuckIff`, `CheckOperations.EmptyHistoryNeverEnds`).
- A `Put` that is sent again is answered with the value it wrote, not with the value before it; the two are the same exactly
  if it wrote the value that was there (`KvSystem.RepliesAgreeIff`). `KvModel` does not look at the answer of a `Put`.
- Votes are counted without comparing terms, so a late vote can elect a second leader in one term
  (`RaftElection.AnyWrongLeaderIff` says exactly when a leader lacks a majority).
- A reduce worker empties `mr-out-X` before it renames its result to it, so a worker that stalled can empty the output of a
  finished job (`MrOutput.DoneJobCanLoseOutput`); `MrResult.DoneJobIsSequential` says exactly when the
  output is right all the same.
- A Raft peer without others never becomes leader (`RaftElection.SolePeerNeverLeads`).
- Comments in `coordinator.go` speak of 10 seconds; the code waits for 40, and so does the model.

## Model

| member | source | states |
|---|---|---|
| `Checker.CheckSingle` | 6.5840/src/porcupine/checker.go:179-253 | Always terminates, and stops at the first look that finds the kill flag set. True only if the recorded order is a linearization of all operations; false only if there is none or the last look found the flag set. Whatever is recorded is a partial linearization containing its operation; after any false answer, killed or not, it is the first of the longest stacks with that operation that were given up so far, and nil exactly if none was or `computePartial` was not asked for; if not killed it is one of maximum length |
| `Checker.RunSearch` | 6.5840/src/porcupine/checker.go:190-243 | The loop on the heap, whatever the kill polls: it ends with a linearization on the stack, or stuck at a return with an empty stack, or killed, in a state the search on values reaches and with the same partials recorded |
| `Checker.Turn` | 6.5840/src/porcupine/checker.go:190-243 | One turn of the loop on pointers, words and buckets is one turn of the search on values, and it comes closer to the end |
| `Checker.TurnAtCall` | 6.5840/src/porcupine/checker.go:194-213 | At a call, the heap does what the search does: push if the model accepts and the pair is new, else go on |
| `Checker.TurnAtReturn` | 6.5840/src/porcupine/checker.go:214-242 | At a return with a non-empty stack, the heap records, pops, unmarks and puts back as the search does |
| `Checker.Consider` | 6.5840/src/porcupine/checker.go:195-200 | The call at the cursor is taken exactly if `Step` accepts it and no equal pair of set and state was cached |
| `Checker.Linearize` | 6.5840/src/porcupine/checker.go:198-207 | Cache, stack, bitset and list after linearizing agree with the pushed search state |
| `Checker.Backtrack` | 6.5840/src/porcupine/checker.go:235-241 | Stack, bitset and list after backtracking agree with the popped search state |
| `Checker.InsertBefore` | 6.5840/src/porcupine/checker.go:70-81 | All four pointers around the new node, for each case of a missing mark or missing predecessor |
| `Checker.MakeLinkedEntries` | 6.5840/src/porcupine/checker.go:121-138 | The list holds every entry in order, doubly linked, and each call points to the node of its own return |
| `Checker.Length` | 6.5840/src/porcupine/checker.go:83-90 | The number of nodes of a list |
| `Checker.Lift` | 6.5840/src/porcupine/checker.go:159-167 | The pointers after lifting a call and its return are those of the list on values with both taken out |
| `Checker.Unlift` | 6.5840/src/porcupine/checker.go:169-177 | The pointers after unlifting are those of the list on values with both put back |
| `Checker.RecordLongest` | 6.5840/src/porcupine/checker.go:219-234 | Exactly the operations on the stack without a recorded partial at least as long get the whole stack |
| `Checker.RecordAll` | 6.5840/src/porcupine/checker.go:244-251 | Every operation gets the complete stack |
| `Checker.SetUp` | 6.5840/src/porcupine/checker.go:180-189 | The variables before the loop agree with the first state of the search |
| `Links.UnliftUndoesLift` | 6.5840/src/porcupine/checker.go:159-177 | Unlift restores every pointer that lift changed, also when call and return are neighbours |
| `Links.RemoveLinked` | 6.5840/src/porcupine/checker.go:160-166 | Taking a node out leaves the remaining nodes doubly linked in order |
| `Links.LiftedIsLinked` | 6.5840/src/porcupine/checker.go:159-167 | Lifting a call and its return leaves exactly the other nodes doubly linked in order |
| `Links.WalkVisitsLive` | 6.5840/src/porcupine/checker.go:190-212 | Following next pointers visits exactly the nodes that are in, in increasing order |
| `Search.ListIsWhatIsLeft` | 6.5840/src/porcupine/checker.go:190-243 | At every turn the list from the head is the original entries without the linearized operations, in order |
| `Search.TurnKeepsInv` | 6.5840/src/porcupine/checker.go:190-243 | Every turn keeps the invariant and decreases (pairs not yet cached, stack height, entries after the cursor) |
| `Search.CursorEnabled` | 6.5840/src/porcupine/checker.go:194-197 | A call at the cursor may come next in real time |
| `Search.ReturnExhausts` | 6.5840/src/porcupine/checker.go:214-217 | At a return, every operation that may come next has been tried |
| `Search.CacheHitTried` | 6.5840/src/porcupine/checker.go:200-210 | A cache hit is always a pair whose futures have been fully explored, never one still on the stack |
| `Search.TopResolved` | 6.5840/src/porcupine/checker.go:214-242 | Before backtracking, all continuations of the top of the stack have failed and been accounted for |
| `Search.PushShrinksUnseen` | 6.5840/src/porcupine/checker.go:200-207 | Every push uses up one of finitely many pairs of set and state |
| `Search.LoopHead` | 6.5840/src/porcupine/checker.go:190-194 | When the list is empty the stack is a linearization; until then the cursor is never nil |
| `Search.ExhaustedIsIllegal` | 6.5840/src/porcupine/checker.go:214-217 | Backing out of an empty stack means that no linearization exists and that nothing longer than recorded exists |
| `Search.StuckIsIllegal` | 6.5840/src/porcupine/checker.go:214-217 | The same for every state that any number of turns leads to |
| `Search.AbandonedAreRecorded` | 6.5840/src/porcupine/checker.go:218-234 | After any number of turns, what is recorded for each operation is the first of the longest abandoned stacks with it, nil exactly if there is none |
| `Search.TurnsAreDeterministic` | 6.5840/src/porcupine/checker.go:190-243 | A number of turns leads to one state only and abandons the same stacks |
| `Linearizability.PartialIff` | 6.5840/src/porcupine/model.go:27-48 | A sequence is a partial linearization exactly if each operation in turn was free to come next and was accepted |
| `Linearizability.CompleteIff` | 6.5840/src/porcupine/model.go:27-48 | A linearization is exactly a partial linearization of all operations |
| `Bitset.NewBitset` | 6.5840/src/porcupine/bitset.go:10-17 | A new bitset is empty and has the least number of words with room for every position asked for |
| `Bitset.Clone` | 6.5840/src/porcupine/bitset.go:19-23 | A clone has the same words in a new array, so later changes do not alias |
| `Bitset.Set` | 6.5840/src/porcupine/bitset.go:29-33 | Adds one position to the set and changes no other |
| `Bitset.Clear` | 6.5840/src/porcupine/bitset.go:35-39 | Removes one position from the set and changes no other |
| `Bitset.Get` | 6.5840/src/porcupine/bitset.go:41-44 | Membership of a position |
| `Bitset.PopCnt` | 6.5840/src/porcupine/bitset.go:46-52 | The number of positions held |
| `Bitset.PopCountIsSize` | 6.5840/src/porcupine/bitset.go:46-52 | The bit count is the size of the set |
| `Bitset.Hash` | 6.5840/src/porcupine/bitset.go:54-60 | Bit j of the hash is the parity of bit j of the number of positions and of the bits j of all words |
| `Bitset.Equals` | 6.5840/src/porcupine/bitset.go:62-72 | True exactly if the lengths agree and the sets are equal |
| `Bitset.MembersInjective` | 6.5840/src/porcupine/bitset.go:54-72 | Equal sets of one length have equal words, so they hash alike |
| `Cache.CacheContains` | 6.5840/src/porcupine/checker.go:145-152 | True exactly if an equal pair of set and state was inserted before, in whatever bucket |
| `Cache.InsertRefines` | 6.5840/src/porcupine/checker.go:198-202 | Appending to the bucket of the hash adds exactly the one pair |
| `Cache.SameBucket` | 6.5840/src/porcupine/checker.go:145-152 | An inserted pair with the same set lies in the bucket that is searched |
| `Entries.RawEntries` | 6.5840/src/porcupine/checker.go:48-57 | One call and one return entry per operation, numbered in order |
| `Entries.SortByTime` | 6.5840/src/porcupine/checker.go:39-58 | A sort by `Less`: a rearrangement with no neighbours out of order |
| `Entries.MakeEntries` | 6.5840/src/porcupine/checker.go:48-60 | The entries are some sort by `Less` of one call and one return per operation |
| `Entries.SortingWellFormed` | 6.5840/src/porcupine/checker.go:39-60 | Any sort by `Less` keeps one call before one return for each operation |
| `Entries.SortingKeepsRealTime` | 6.5840/src/porcupine/checker.go:39-60 | In any sort by `Less`, the return of x comes before the call of y if and only if x.Return < y.Call, so ties are concurrent; question, answer, client and both times of each operation are kept |
| `Entries.EntriesFaithful` | 6.5840/src/porcupine/checker.go:39-60 | The sorted entries are linearizable if and only if the operations are |
| `Events.Renumber` | 6.5840/src/porcupine/checker.go:92-106 | Every event keeps all but its id, which becomes the number of ids that appeared before it first did |
| `Events.NumbersDiffer` | 6.5840/src/porcupine/checker.go:92-106 | Different ids get different numbers, in the order in which they first appear, all below the number of ids |
| `Events.NumbersDense` | 6.5840/src/porcupine/checker.go:92-106 | Every number below the number of ids is used |
| `Events.ConvertEntries` | 6.5840/src/porcupine/checker.go:108-119 | Entry k is event k, with its position as time |
| `Events.EventsWellFormed` | 6.5840/src/porcupine/checker.go:92-119 | Renumbered and converted, events are a history the checker can search if and only if each id is called once and returns once later; events belong together as before, and each keeps its kind, value and client, with its position as time |
| `Kv.Partition` | 6.5840/src/models/kv.go:18-34 | Each part is non-empty and holds all operations on its key in history order; the keys of the parts are exactly the keys of the history, increasing and each once |
| `Kv.GroupByKey` | 6.5840/src/models/kv.go:19-23 | The map holds, for every key that occurs, all operations on it in order |
| `Kv.SortedKeys` | 6.5840/src/models/kv.go:24-28 | The keys of the map in strictly increasing order, whatever order they are met in |
| `Strings.StrLeIsLexicographic` | 6.5840/src/models/kv.go:28-28 | The order of keys: a prefix comes first, else the smaller character where two keys first differ |
| `KvLaw.ValueAfterPut` | 6.5840/src/models/kv.go:40-57 | After a Put of v and any writes without another Put, the value is v followed by the values of the appends among them, in order |
| `KvLaw.ValueWithoutPut` | 6.5840/src/models/kv.go:35-57 | Without any Put the value is the values of the appends, in order |
| `KvLaw.KvModelLaw` | 6.5840/src/models/kv.go:35-57 | The one-key model accepts an order if and only if the answer of each Get, and of each append that returns a value, is the value of the last Put before it followed by everything appended since, by appends of either kind |
| `KvLaw.StoreLaw` | 6.5840/src/models/kv.go:35-57 | The same of the store, key by key; and after the order every key has that value |
| `KvLaw.LinearizableIff` | 6.5840/src/models/kv.go:18-57 | A history is linearizable if and only if it has a real-time order with every answer right in that sense |
| `Locality.PartitionIsSound` | 6.5840/src/porcupine/model.go:28-31 | A history is linearizable against the store if and only if, for each key, its operations on that key are against the one-key model |
| `Locality.PartsDecideHistory` | 6.5840/src/models/kv.go:18-34 | A history is linearizable against the store if and only if every list that `Partition` returns is against the one-key model |
| `Locality.PartsLinearizable` | 6.5840/src/models/kv.go:18-57 | Projecting a linearization onto a key gives one of that part |
| `Locality.WholeLinearizable` | 6.5840/src/models/kv.go:18-57 | Linearizations of all parts merge, by points in time, into one of the whole |
| `Locality.LegalByKey` | 6.5840/src/models/kv.go:40-57 | The store accepts an order exactly if every key's value accepts its part of the order |
| `Locality.PointsFit` | 6.5840/src/models/kv.go:18-57 | Every operation of a linearization has a point between its call and its return, increasing along the order |
| `Parallel.VerdictIsRight` | 6.5840/src/porcupine/checker.go:274-353 | In every interleaving of results and timeout, Ok only if all partitions are linearizable, Illegal only if one is not, Unknown only after a timeout; exact without a timeout |
| `Parallel.VerdictIff` | 6.5840/src/porcupine/checker.go:291-351 | The verdict is Illegal if and only if a search that ended with false was received before the loop was left, Unknown if and only if there was a timeout and no such result, Ok if neither; with computeInfo every search has been waited for, and the kill flag is set if and only if there was a timeout, or a failure without computeInfo |
| `Parallel.AnswerIsAllowed` | 6.5840/src/porcupine/checker.go:190-193 | The kill flag is never cleared, so what a search answers after its last look at the flag is allowed whenever it ends |
| `Parallel.StuckIff` | 6.5840/src/porcupine/checker.go:291-310 | The collector can wait forever exactly if there are no partitions and no timeout |
| `Parallel.StepDrops` | 6.5840/src/porcupine/checker.go:280-318 | Every step of searches and collector brings the end closer |
| `Parallel.RunIsBounded` | 6.5840/src/porcupine/checker.go:280-318 | The length of a run is bounded by the number of partitions |
| `CheckOperations.PartsDecide` | 6.5840/src/porcupine/checker.go:365-373 | Searching the sorted entries of every part decides the whole history |
| `CheckOperations.SearchParts` | 6.5840/src/porcupine/checker.go:365-373 | Partition, entries and `checkSingle` on every part, each with its own looks at the kill flag: all answers true means that the history is linearizable, one false answer that was not killed that it is not, and each answer is one that the collector's rule for an ending search allows |
| `CheckOperations.CheckIsRight` | 6.5840/src/porcupine/checker.go:365-373 | Whenever searches with such answers and the collector finish, in any interleaving, the verdict never misjudges the history, decides it without a timeout, is Illegal if and only if a failure was received, and Unknown if and only if there was a timeout and none was |
| `CheckOperations.EmptyHistoryNeverEnds` | 6.5840/src/porcupine/checker.go:291-310 | The empty history is linearizable, but its check ends exactly if a timeout was given |
| `Visualization.ReadHistory` | 6.5840/src/porcupine/visualization.go:38-53 | The client, times, description and values for an id are those of its call and its return |
| `Visualization.ShownAreOperations` | 6.5840/src/porcupine/visualization.go:38-53 | For entries made from operations, what is shown is the client, call, return and description of each operation |
| `Visualization.Replay` | 6.5840/src/porcupine/visualization.go:62-77 | Replaying a partial linearization never meets a refused step, hence never the panic, and shows the states it leads through |
| `Visualization.UpdateLargest` | 6.5840/src/porcupine/visualization.go:72-75 | An id moves to the new partial exactly if that is strictly longer |
| `Visualization.ComputePartition` | 6.5840/src/porcupine/visualization.go:36-85 | For what checkSingle recorded, killed or not: the partials are put longest first, every one is replayed without panic, and `Largest` has exactly the ids that appear and points to the first longest partial with each |
| `KvServer.KVServer.constructor` | 6.5840/src/kvsrv/server.go:100-111 | Store and memo start empty |
| `KvServer.KVServer.GetHandler` | 6.5840/src/kvsrv/server.go:27-38 | Answers the key's value, or the empty string, and changes nothing |
| `KvServer.KVServer.CheckIfNeedChange` | 6.5840/src/kvsrv/server.go:43-53 | A modification is needed exactly if it is no acknowledgement and not in the memo; an acknowledgement only clears its memo |
| `KvServer.KVServer.Put` | 6.5840/src/kvsrv/server.go:55-73 | New store, new memo and answer, for a first request, a repeated one and an acknowledgement, each written out |
| `KvServer.KVServer.Append` | 6.5840/src/kvsrv/server.go:75-98 | New store, new memo and answer, for a first request, a repeated one and an acknowledgement, each written out |
| `KvSystem.RunsAreLinearizable` | 6.5840/src/kvsrv/client.go:39-118 | Every complete run of any number of clerks over the lossy network is linearizable, in the order in which operations took effect between their calls and returns |
| `KvSystem.RunsAreLinearizableSoFar` | 6.5840/src/kvsrv/client.go:39-118 | After every run, complete or not, the order in which operations took effect is a partial linearization of the history so far that contains every answered operation |
| `KvSystem.TimesAreSteps` | 6.5840/src/kvsrv/client.go:39-118 | In every run an operation is called at the step that invokes it, takes effect at a step that executes its request, and is answered at the step that delivers its last reply |
| `KvSystem.RunsCanComplete` | 6.5840/src/kvsrv/client.go:48-117 | From wherever a run has got to, all its operations can return |
| `KvSystem.AnyOutcome` | 6.5840/src/labrpc/labrpc.go:218-291 | In every run a request under way may be dropped or executed, and a reply lost or delivered |
| `KvSystem.ExactlyOnce` | 6.5840/src/kvsrv/client.go:66-118 | In every run a modification is applied at most once, exactly once by its return, an Append returns the value just before, the memo holds only ids of unfinished operations, and the store is what the logged effects, one for each operation, make of the empty store, a modification being logged exactly if it was applied |
| `KvSystem.RepliesAgreeIff` | 6.5840/src/kvsrv/server.go:55-98 | In every run the first reply to a modification is the value before it, every later reply to an Append is the same, every later one to a Put the value written; so the replies all agree if and only if there was at most one, it was an Append, or the Put wrote what was there |
| `KvSystem.RunKeepsReplies` | 6.5840/src/kvsrv/server.go:43-98 | In every run the memo of a modification survives while its clerk asks for it, whatever other clerks do |
| `KvSystem.RetriedPutMayDiffer` | 6.5840/src/kvsrv/server.go:55-73 | A run in which a Put loses its first reply and is answered differently the second time |
| `KvSystem.StepKeepsInv` | 6.5840/src/labrpc/labrpc.go:218-291 | Every outcome of the network and every step of a clerk keeps the invariant of the system |
| `KvSystem.RunKeepsInv` | 6.5840/src/kvsrv/client.go:39-118 | The invariant holds in every state of every run |
| `KvSystem.MoveRead` | 6.5840/src/kvsrv/client.go:48-53 | A Get that is executed again may be taken to happen at its last execution |
| `KvGuarantee.KeysAreLinearizable` | 6.5840/src/models/kv.go:18-57 | The operations of a complete run on any one key are linearizable against `KvModel` |
| `KvGuarantee.AnswersAreExact` | 6.5840/src/kvsrv/client.go:39-118 | In every run each answered Get and Append was answered with the last Put that took effect on its key before it, followed by everything appended since, and took effect between its call and its return |
| `KvGuarantee.StoreIsTheLog` | 6.5840/src/kvsrv/server.go:55-98 | In every run the store holds that value for every key |
| `KvGuarantee.CheckedRunsPass` | 6.5840/src/porcupine/checker.go:365-373 | A finished check of a complete run never answers Illegal, and answers Ok without a timeout |
| `KvGuarantee.SearchRun` | 6.5840/src/porcupine/checker.go:365-373 | Partitioning, sorting and searching the history of a complete run gives no false answer except by a kill |
| `RaftPeer.Raft.constructor` | 6.5840/src/raft/raft.go:435-455 | A new peer is a follower in term 0 that has voted for nobody |
| `RaftPeer.Raft.RequestVote` | 6.5840/src/raft/raft.go:174-208 | The vote is granted if and only if the term is higher, whatever the role, or equal and the last vote went to nobody or to this candidate; a higher term makes a follower of that term; the term before is in the reply |
| `RaftPeer.Raft.OpenElection` | 6.5840/src/raft/raft.go:309-324 | A candidate in the next term with one vote, its own |
| `RaftPeer.Raft.VoteReceived` | 6.5840/src/raft/raft.go:339-346 | One more vote; becomes leader if and only if it was a candidate and has more than half, and the term of the vote is not looked at |
| `RaftPeer.Raft.GetHeartbeat` | 6.5840/src/raft/raft.go:408-424 | Succeeds if and only if the term is not lower, and then makes a follower in that term; the vote is left alone |
| `RaftPeer.Raft.HeartbeatAnswered` | 6.5840/src/raft/raft.go:385-391 | A higher term in the answer makes a follower, without taking over the term |
| `RaftElection.ElectionSafety` | 6.5840/src/raft/raft.go:309-352 | In every run in which no vote makes its candidate leader without a majority of its term, two peers that are leader of one term, each at any moment of the run, are the same |
| `RaftElection.OrderlyElectionSafety` | 6.5840/src/raft/raft.go:309-352 | The same of every run in which votes reach the election that asked for them |
| `RaftElection.AnyWrongLeaderIff` | 6.5840/src/raft/raft.go:339-346 | After every run, whatever votes were counted, a vote makes a candidate leader without a majority of its term if and only if it fills the count and would not without the votes of other elections that the candidate has counted |
| `RaftElection.FirstWrongLeaderIff` | 6.5840/src/raft/raft.go:339-346 | After any run in which votes reach the election that asked for them, counting one more vote makes a leader without a majority of its term if and only if the peer is a candidate of another term than the vote's and the vote fills the count |
| `RaftElection.OneElectedPerTerm` | 6.5840/src/raft/raft.go:309-352 | In every run in which no vote makes a leader without a majority, at most one peer is on record as elected in a term, and every leader is on record |
| `RaftElection.OneLeader` | 6.5840/src/raft/raft.go:342-345 | Two elected in one term are the same peer, since their majorities share a voter |
| `RaftElection.MajoritiesMeet` | 6.5840/src/raft/raft.go:342-342 | Two sets of more than half of the peers share a member |
| `RaftElection.ElectedGrows` | 6.5840/src/raft/raft.go:309-352 | Whoever was leader at any moment of a run is on record at its end |
| `RaftElection.StaleVoteElectsTwice` | 6.5840/src/raft/raft.go:339-346 | A reachable state of three peers, after one vote was counted in a later election, with two leaders in one term |
| `RaftElection.TermsNeverDecrease` | 6.5840/src/raft/raft.go:174-208 | In every run the term of a peer never decreases |
| `RaftElection.VotesAreSingle` | 6.5840/src/raft/raft.go:174-208 | In every run all votes of a peer in one term, its own included, go to one candidate, though heartbeats raise the term without clearing the vote |
| `RaftElection.VoteGrantedIff` | 6.5840/src/raft/raft.go:174-208 | After every run a request is granted if and only if its term is higher than the voter's, or equal and the voter's last vote went to nobody or to this candidate; a higher term makes the voter a follower |
| `RaftElection.CanBeElected` | 6.5840/src/raft/raft.go:309-352 | From every state of two or more peers, whatever is under way, any peer can still become leader |
| `RaftElection.SolePeerNeverLeads` | 6.5840/src/raft/raft.go:327-348 | A cluster of one never has a leader, since votes are only counted when an answer arrives |
| `RaftElection.LeaderIsFollowed` | 6.5840/src/raft/raft.go:365-424 | After every run a leader can still send a heartbeat, and a peer not in a higher term that hears it follows in its term |
| `Coordinator.CoordinatorServer.constructor` | 6.5840/src/mr/coordinator.go:197-218 | Both task tables are ready, in separate arrays |
| `Coordinator.CoordinatorServer.Scan` | 6.5840/src/mr/coordinator.go:81-109 | The first task that may be handed out, and if there is none, whether a task is still running |
| `Coordinator.CoordinatorServer.AssignMission` | 6.5840/src/mr/coordinator.go:73-145 | Map tasks until all are found done, then reduce tasks: the first task never handed out, or running for more than 40 seconds, and no other, is handed out and stamped; if there is none the worker waits, and the phase is finished if and only if all its tasks are done |
| `Coordinator.CoordinatorServer.HandleMapFinish` | 6.5840/src/mr/coordinator.go:47-57 | A map task becomes done exactly if the report has the stamp of its latest assignment |
| `Coordinator.CoordinatorServer.HandleReduceFinish` | 6.5840/src/mr/coordinator.go:60-70 | A reduce task becomes done exactly if the report has the stamp of its latest assignment |
| `Coordinator.CoordinatorServer.JobDone` | 6.5840/src/mr/coordinator.go:163-176 | True exactly if both flags are set |
| `MrSystem.StepKeepsSched` | 6.5840/src/mr/coordinator.go:47-145 | Every step of coordinator and workers keeps the schedule: flags, stamps and the spacing of attempts |
| `MrOutput.ScheduleIsSafe` | 6.5840/src/mr/coordinator.go:73-176 | In every reachable state no reduce task was handed out before all map tasks were done, a job reported done has all tasks done, and assignments of a task are over 40 seconds apart |
| `MrOutput.DoneForever` | 6.5840/src/mr/coordinator.go:47-145 | In every run a task that is done stays done |
| `MrOutput.StaleReportsIgnored` | 6.5840/src/mr/coordinator.go:47-70 | In every reachable state the report of an attempt whose task was handed out again changes nothing |
| `MrOutput.FinishedMapHasFiles` | 6.5840/src/mr/worker.go:154-222 | In every reachable state a finished map task m has each file mr-m-r, holding as a multiset exactly the pairs of its input with `ihash(key) % NReduce == r` |
| `MrOutput.RenameKeepsData` | 6.5840/src/mr/worker.go:214-222 | A rename by any attempt, stale or not, replaces a file by one with the same pairs and takes none away |
| `MrOutput.RunKeepsInv` | 6.5840/src/mr/worker.go:65-222 | What files, attempts and tables say of each other holds in every state of every run |
| `MrOutput.ReadsNeverFail` | 6.5840/src/mr/worker.go:71-75 | A reduce worker finds every file it opens |
| `MrOutput.RenamedIsOutput` | 6.5840/src/mr/worker.go:65-132 | What any attempt renames to mr-out-r is made of the whole bucket r |
| `MrOutput.OutputIsAllOrNothing` | 6.5840/src/mr/worker.go:92-132 | In every reachable state mr-out-r is missing, empty, or the whole output of its task |
| `MrOutput.EmptyOutput` | 6.5840/src/mr/worker.go:112-129 | An empty file is the right output exactly if the bucket is empty |
| `MrOutput.DoneJobCanLoseOutput` | 6.5840/src/mr/worker.go:94-132 | A reachable state in which the job is done and the output of a non-empty bucket is empty |
| `MrResult.OutputIff` | 6.5840/src/mr/worker.go:92-132 | After every run mr-out-r is the output of its task if and only if its bucket is empty or a rename was the last thing done to it |
| `MrResult.OutputsAreSequentialIff` | 6.5840/src/main/mrsequential.go:38-84 | After every run, finished or not, the output files together are the lines of the sequential program, up to order, if and only if that holds of every task |
| `MrResult.DoneJobIsSequential` | 6.5840/src/main/mrsequential.go:38-84 | When the job is done, they are if and only if no worker that opened the output of a non-empty bucket was the last to touch it |
| `MrResult.NoneMissing` | 6.5840/src/mr/worker.go:94-132 | If all the sequential lines are there, no output of a non-empty bucket is empty |
| `MrProgress.JobCanSucceed` | 6.5840/src/mr/worker.go:39-151 | Every run can go on, whoever has crashed or stalled, until the job is done and the output files together are the lines of the sequential program |
| `MapReduce.GroupReduce` | 6.5840/src/mr/worker.go:113-129 | The nested loops give one line for each run of equal keys, made of the values of the run |
| `MapReduce.FindRunEnd` | 6.5840/src/mr/worker.go:115-118 | Where the run of pairs with the key at i ends |
| `MapReduce.GroupingReduces` | 6.5840/src/main/mrsequential.go:68-84 | On sorted pairs that is one line for each key, keys increasing, made of all the key's values |
| `MapReduce.CollectValues` | 6.5840/src/mr/worker.go:119-122 | The values of a stretch of pairs, in order |
| `MapReduce.Bucketize` | 6.5840/src/mr/worker.go:203-212 | File r gets each pair as often as it was emitted if `ihash(key) % NReduce == r`, and no other |
| `MapReduce.FilesMakeBucket` | 6.5840/src/mr/worker.go:71-88 | Reading file r of every map task gives bucket r of all the pairs, as a multiset |
| `MapReduce.BucketHasAllValues` | 6.5840/src/mr/worker.go:203-212 | A key has all its values in the one bucket it hashes to and none in any other |
| `MapReduce.LineIsSequential` | 6.5840/src/mr/worker.go:113-129 | The lines of a reduce task are exactly the sequential lines of the keys of its bucket |
| `MapReduce.DistributedIsSequential` | 6.5840/src/main/mrsequential.go:59-84 | For a `reducef` that does not depend on the order of values, the outputs together are the sequential lines up to order, each in the file `ihash(key) % NReduce` only |

## Left out

- `labrpc` and `labgob`: only the three outcomes of a call are kept; channels, delays, reflection and encoding are not modelled.
- `kvraft`, `shardctrler`, `shardkv`: their handlers are empty; the shard clerks would only add easy members.
- Raft log replication, persistence, snapshots and `Start`: not implemented in the repository.
- Raft heartbeat authority and step-down by the answer to a heartbeat: the code does not guarantee them; both are steps of the model but no theorem is about them.
- `Clerk.Get` and `Clerk.PutAppend` are steps of a system and not methods with loops, because their retry loops need not end; it is stated only that they can.
- Time: election timeouts, sleeps and the passing of 40 seconds are left to the order of steps and stamps; nothing is said to happen eventually, only that it can (`KvSystem.RunsCanComplete`, `RaftElection.CanBeElected`, `MrProgress.JobCanSucceed`).
- `checkParallel`: that equal pointers are reported once in `partialLinearizations` is not modelled; `Visualization.ComputePartition` takes any list of recorded partials. Its searches appear by the rule `Truthful`, which `Checker.CheckSingle` ensures of its answers.
- `PartitionEvent` and `checkEvents`: the entries of events are modelled, a partition of events is not.
- `DescribeState`, the HTML and the JavaScript of the visualization; a state stands for its description, and `DescribeOperation` is a parameter.
- `sort.Sort`, `sort.Slice` and `sort.Strings` are relations (any result in order), not algorithms; `Kv.SortedKeys`, `Entries.SortByTime` and `Visualization.SortByLength` sort by insertion.
- Machine words: the words of a bitset are sequences of 64 booleans, not machine integers; only the operations the bitset uses are defined on them.
- `MakeCoordinator`: globbing, server start-up and file names; files are counted, and a worker that cannot open, create or rename a file ends, as after `log.Fatal`.
- `MapReduce.DistributedIsSequential`: says nothing of a `reducef` that depends on the order of its values, because `sort.Sort` is not stable and the two programs may then differ.
- The plugins in `mrapps`, the launchers in `main` other than `mrsequential.go`, the test harnesses and `config.go` files.
