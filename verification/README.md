# Verified model of the event-correlation core of ossec-analysisd

`ossec-analysisd` receives log messages, decodes them, matches them against a tree of rules and remembers
matched events, so that rules with a frequency can fire on repeated evidence. This project models that core
in Dafny, together with the stores, statistics and key registry around it, and proves what it is meant to
guarantee. `dafny verify dfyconfig.toml` checks everything. Nothing was executed.

Code that changes things in place is modelled by classes and methods over the heap, and each method is proved
against a mathematical function or predicate of the state; what the system promises is then proved about
those functions, for all inputs, runs and interleavings.

| file | module | part of the system |
|---|---|---|
| `history.dfy` | `History` | what a frequency search finds and what an insertion evicts, as mathematics |
| `historyruns.dfy` | `HistoryRuns` | one list of past events over time: arrivals, evictions, frees, marks, searches |
| `markraces.dfy` | `MarkRaces` | the mark of an event that is on lists with different mutexes |
| `events.dfy` | `Events` | events, rules with their alert context, the doubly linked shared lists |
| `sharedlists.dfy` | `SharedLists` | all shared lists with their back-pointers; registering and freeing an event |
| `eventlist.dfy` | `EventLists` | the history of a shard: insertion, eviction, destruction |
| `fieldtests.dfy` | `FieldTests` | which events of a walk a search counts, option by option of the rule |
| `searches.dfy`, `searchresults.dfy` | `Searches`, `SearchResults` | the three searches over the heap, refined to `History`; what they leave, in the fields of events and rule |
| `listruns.dfy` | `ListRuns` | the lists in memory as the pasts of `HistoryRuns`; which lists hold an event twice |
| `rulemarks.dfy`, `rulelists.dfy` | `RuleMarks`, `RuleLists` | which rules feed which group list, and how often; the group lists this gives the events of a rule |
| `pipeline.dfy`, `inputclose.dfy` | `Pipeline`, `InputClose` | the threaded pipeline as a transition system, its shutdown |
| `pipelineorders.dfy` | `PipelineOrders` | which item a step moves: the order of queues and histories, the way of an item |
| `pipelinetrips.dfy` | `PipelineTrips` | what each thread can do with one item, and the whole way of a message |
| `pipelineruns.dfy`, `shutdowns.dfy` | `PipelineRuns`, `Shutdowns` | runs of the pipeline that its invariants do not show; when shutdown can be completed |
| `locks.dfy` | `Locks` | the mutexes and deadlock freedom |
| `recordfile.dfy`, `recordstore.dfy`, `ignorefields.dfy`, `ignorestore.dfy` | `RecordFile`, `RecordStores`, `IgnoreFields`, `IgnoreStores` | the ignore list and its file; the fields that make a record |
| `fts.dfy`, `chunkfile.dfy`, `ftsfile.dfy` | `FirstTimeSeen`, `ChunkFile`, `FtsFile` | first-time-seen events, their file as text, and that file under concurrency |
| `ruletree.dfy`, `ruleplaces.dfy`, `rulenodes.dfy`, `rulelevels.dfy` | `RuleTrees`, `RulePlaces`, `RuleNodes`, `RuleLevels` | the rule tree, grown while it is walked; where a rule is put; coded levels |
| `rulewinners.dfy`, `hourlyreport.dfy` | `RuleWinners`, `HourlyReports` | which rule an event is given; recursive matching in memory and the hourly report |
| `accumulator.dfy`, `hourlystats.dfy` | `Accumulators`, `HourlyStats` | the accumulator; learned hourly averages |
| `keyfile.dfy`, `base64.dfy` | `KeyFiles`, `Base64` | the agent key file and its codec (section 4 of RFC 4648) |

## Where the code is weaker than it looks

Each of these is a theorem about the code as it is, with the exact condition under which the expected
property does hold.

- A firing leaves a mark that hides older evidence from rules of its level. The mark is lost exactly in two ways: the
  event that carries it is freed while it is the only mark in front of an older event that stays, or it is the only one
  and is lowered from outside. Then, and only then, evidence can be counted again (`StepKeepsBarrier`,
  `OtherRunsReachThePast`). The first happens on sid lists shared by several shards (`LostBarrierReusesEvidence`).
- The second happens because an event is on its shard's history and on shared lists at once, whose mutexes differ, and its
  mark is one field. Two searches that both found the mark low may write it in either order, so a level-5 search of a
  history can overwrite the mark a level-10 search of a sid list has just set (`TwoListsLowerTheMark`), and the level-10
  rule counts the event again with nothing in between (`LoweredMarkReusesEvidence`). With several match threads marks go
  down in some run exactly when a rule that searches a history and another rule that searches a shared list have
  different levels (`ApartByKind`, `MarkNeverLowered`).
- A rule that hangs at several nodes is told once for each to feed a group list, so its events are on that list several
  times, and a group search counts one event as often. Its events are on every group list at most once exactly when every
  watching rule that accepts its group met it at one node (`OnceByTree`, `SeveralPlacesRepeat`, `GroupListsHoldOnce`);
  sid lists and shard histories never repeat an event (`SidListsHoldOnce`, `EventList.Add`). One event registered `n`
  times on a group list fires a rule of frequency `n` - 1 alone (`OneEventFires`); "frequency + 1 different events" holds
  exactly without repetition (`CountedDiffer`, `SomethingCountedTwice`).
- The three searches test different fields. A rule gets the same answer from all of them, over events of one category,
  exactly when its regex accepts every log and it has, with extra information, no port and location tests, without it no
  user, URL and country tests (`AllThreeAgree`, `OtherRulesDisagree`).
- An event survives its own insertion exactly when the list was empty, not full, or held at least ten events; the
  configured minimum capacity makes this always true (`InsertedSurvives`, `InsertedIsHead`).
- `shard_dropped` is incremented before `dropped`. It is at most `dropped` exactly when no more decoders stand between
  the two increments than drops were counted elsewhere (`ShardDropsAreDrops`), and from any start a run in which only one
  push fails, on a full shard queue, makes it lead (`ShardDropsMayLead`).
- Shutdown need not complete. A decoder waits without bound to hand a copy to the firewall writers, which stop as soon as
  shutdown is requested, and their queue is closed only after the decoders are joined. Some order of steps completes it
  exactly when the copies that decoders hold have room in that queue, counting one place for each writer that still waits
  for input; else none does (`ShutdownCompletes`). From any start a run without a failed push leads there
  (`ShutdownMayHang`); in the daemon the join then times out.
- What one rule adds to the ignore list another need not find, though it checks the same fields: data and system name are
  looked up if the checking rule itself ignores them. It finds what the other adds, of every event, exactly when it
  checks the fields the other ignores, and ignores data and system name exactly where the other does (`AddedIsFound`);
  `RecordsOfOneEvent` says when the records of one event are equal.
- The ignore file agrees with the list in memory if it reads back as the list, its last line is ended, and its lines are
  counted right. Over any run of one-line records it does exactly when it ended with a line end at the start or has been
  rewritten, at the start or since (`RunsAreDurable`). One step is exact for any record: a record with a line end inside
  breaks the agreement, a rewrite or the loss of the oldest records can repair it (`AddToIgnore`, `MirrorsAfter`).
- The first-time-seen file keeps every remembered key if it was closed when it was loaded and no key has a line end inside.
  If its last line is open, the next key is appended to that line: the record of the open line leaves, and the two are
  read as one line, so the key is there only if the cut leaves just it (`NoKeyIsLost`, `OpenFileLosesKeys`). Rewriting
  the file heals it (`RewriteHeals`).
- The accumulator's 300-second interval never triggers a cleanup; only every 200th lookup does. An entry made at
  time zero or before is never found expired but is purged (`OnlyTheCountPurges`, `PurgeIsSeen`).
- Levels survive their coding for 0 to 98 with accuracy, and for 1 to 99 without (`LevelRoundTrip`).
- Removing an agent blanks the first line with its id. A later live line of the same id stays visible, and the line
  end survives only if the entry is long enough for the mark (`RemovedIsGone`, `RemovalStaysInLine`).
- The least margin every daily update keeps above the busiest hour is 81; 83 is kept too and is where an average
  can rest (`LeastSlack`, `HighestRest`).
- The averages for the days of the week are learned but never compared on an installation that starts without them: the
  number of updates that the comparison tests is never incremented, and the one that is incremented is reset at once, so
  every new day weighs as much as all days before (`WeeksNeverCompared`, `UpdateDay`).
- In sid mode the recursive insertion puts a rule under the first match of every sibling list it reaches and goes on
  elsewhere; `RuleTrees.Grown` follows the code.

## Model

| member | source | states |
|---|---|---|
| History.WalkLength | src/analysisd/eventinfo.c:486-503 | a walk uses the longest newest-first prefix of events that are young enough and not marked at the level of the rule |
| FieldTests.WalkEnds | src/analysisd/eventinfo.c:486-503 | that prefix, told by the times and marks of the events, and the only one of its kind |
| FieldTests.QualifyingPasses | src/analysisd/eventinfo.c:145-235 | an event counts exactly if it passes each test the search makes: both events have the field, with equal or with different values, and in the history the category is the same and the regex matches |
| FieldTests.SearchCounts | src/analysisd/eventinfo.c:103-612 | a search finds the event of the walk behind `frequency` others that pass every test of the rule, and nothing if there are not so many |
| FieldTests.NoTestCounts | src/analysisd/eventinfo.c:486-512 | a rule without tests fires exactly when more than `frequency` events of the walk are there, in the history of the same category |
| FieldTests.RegexCounts | src/analysisd/eventinfo.c:505-516 | with a regex alone, exactly when more than `frequency` of them match it; a shared list does not ask |
| FieldTests.SameIdCounts | src/analysisd/eventinfo.c:145-154 | with the id test alone, exactly when more than `frequency` have the id of the searching event |
| FieldTests.SameSrcipCounts | src/analysisd/eventinfo.c:156-165 | the same for the source address |
| FieldTests.SameUserCounts | src/analysisd/eventinfo.c:191-200 | the same for the user; on a shared list only with extra information |
| FieldTests.SameSrcportCounts | src/analysisd/eventinfo.c:167-178 | the same for the source port, which only a shared list with extra information tests |
| FieldTests.SameDstportCounts | src/analysisd/eventinfo.c:180-189 | the same for the destination port |
| FieldTests.SameLocationCounts | src/analysisd/eventinfo.c:202-210 | the same for the location |
| FieldTests.DifferentUrlCounts | src/analysisd/eventinfo.c:212-221 | with the URL test alone, exactly when more than `frequency` have another URL |
| FieldTests.DifferentCountryCounts | src/analysisd/eventinfo.c:223-235 | the same for the country: the code where there is one, the display string otherwise |
| FieldTests.UnknownCountryFindsNothing | src/analysisd/eventinfo.c:223-235 | an event of unknown country finds nothing with a rule that asks for another one |
| History.HitsAreTheQualifying | src/analysisd/eventinfo.c:505-576 | the hits of a walk are exactly its qualifying events, in walk order |
| History.SidsAndGroupsAgree | src/analysisd/eventinfo.c:103-456 | the sid and the group search find the same event and count the same evidence over the same history |
| History.AllThreeAgree | src/analysisd/eventinfo.c:103-612 | all three searches agree for a rule, over every history of one category, exactly when its regex accepts every log and it has, with extra information, no port and location tests, without it no user, URL and country tests |
| History.OtherRulesDisagree | src/analysisd/eventinfo.c:103-612 | for any other rule, of whatever frequency, there is a history on which the history search fires and the sid search does not, or the other way round |
| History.FoundHere | src/analysisd/eventinfo.c:587-605 | an early exit after `frequency` hits is the element at index `frequency` of the filtered walk |
| History.SavedLogs | src/analysisd/eventinfo.c:43-64 | a search keeps at most eleven lines |
| History.SavedCount | src/analysisd/eventinfo.c:248-258 | the number of kept lines never exceeds the slots or the hits |
| FieldTests.SavedLines | src/analysisd/eventinfo.c:246-258 | the lines kept are those of the newest counted events, in order: exactly as many as were counted, but at most eleven and at most `frequency`, or one more in the sid search |
| History.Survivors | src/analysisd/eventinfo_list.c:133-158 | eviction takes at least ten events or all of them, then only events older than the largest frequency, and stops at the first that is not |
| History.InsertedSurvives | src/analysisd/eventinfo_list.c:111-172 | the inserted event survives its own insertion exactly when the list was empty, not full, or held ten events |
| History.InsertedKeeps | src/analysisd/eventinfo_list.c:133-158 | nothing is evicted exactly while the list is empty or has room; otherwise ten events go or all, beyond ten only those older than the largest frequency, from the old end on |
| History.InsertedIsHead | src/analysisd/config.c:70-73 | with a capacity of at least ten the inserted event is the head and the list stays within its capacity |
| HistoryRuns.CountedFromList | src/analysisd/eventinfo.c:587-605 | a firing search counts entries of its list, newest first, and no event more often than it has entries |
| SearchResults.CountedMeetTheTests | src/analysisd/eventinfo.c:587-605 | the events a firing search counts are the newest that pass every test of the rule, up to the one returned |
| HistoryRuns.CountedDiffer | src/analysisd/eventinfo.c:587-605 | where every event has one entry, a firing search counts `frequency` + 1 different events |
| HistoryRuns.SomethingCountedTwice | src/analysisd/eventinfo.c:282-456 | where some event has two entries, some rule fires and counts it twice |
| HistoryRuns.StepKeepsAtMost | src/analysisd/analysisd_stages.c:489-519 | no step gives an event more entries than any had, except registering it in more places |
| HistoryRuns.OneEventFires | src/analysisd/rules_list.c:400-442 | an event registered in `n` places of one group list fires a rule of frequency `n` - 1 by itself |
| HistoryRuns.MarksNeverDecrease | src/analysisd/eventinfo.c:597-600 | a search lowers no mark of its own list and reorders nothing; marks from outside are separate steps |
| HistoryRuns.FiringRaisesBarrier | src/analysisd/eventinfo.c:597-600 | a firing search hides everything that had arrived from rules of its level |
| HistoryRuns.StepKeepsBarrier | src/analysisd/eventinfo.c:597-749 | insertion, eviction, appending, searching, freeing and marking from outside keep a barrier, exactly unless the only mark in front of an older event is freed or lowered |
| HistoryRuns.RunKeepsBarrier | src/analysisd/eventinfo_list.c:111-158 | a barrier survives any run without such a step |
| HistoryRuns.RunLosesBarrier | src/analysisd/eventinfo.c:708-749 | any other run reaches a state without the barrier |
| HistoryRuns.BarrierHidesThePast | src/analysisd/eventinfo.c:486-503 | a walk of a rule of at most that level never gets behind the barrier, also when marks are raised while it reads them |
| HistoryRuns.FiringIsBehindBarrier | src/analysisd/eventinfo.c:486-605 | so nothing older than the barrier is counted |
| HistoryRuns.LostBarrierShowsThePast | src/analysisd/eventinfo.c:486-605 | without the barrier some rule of that level fires on an old event |
| HistoryRuns.FiringsNeverShareEvidence | src/analysisd/eventinfo.c:462-612 | after a firing, in any run that keeps its barrier, a later firing of a rule of at most its level counts only newer events; at least `frequency` / m + 1 events arrived in between if no event has more than m entries |
| HistoryRuns.OtherRunsReachThePast | src/analysisd/eventinfo.c:597-749 | the condition is exact: every run that does not keep the barrier reaches a state where a rule of that level fires on an event older than the first firing |
| HistoryRuns.ShardFiringsNeverShareEvidence | src/analysisd/eventinfo_list.c:102-184 | on the history of one shard, whatever is inserted and evicted, firings share no evidence and are `frequency` + 1 events apart, as long as searches of other lists lower no mark |
| HistoryRuns.LostBarrierReusesEvidence | src/analysisd/rules_list.c:343-352 | on a shared sid list a rule of frequency 2 counts an event twice with two arrivals in between, once the head is freed by another owner |
| HistoryRuns.LoweredMarkReusesEvidence | src/analysisd/eventinfo.c:597-600 | once the mark of the head is lowered through another list, the rule that set it counts the head again at once |
| MarkRaces.ApartByKind | src/analysisd/eventinfo.c:469-475 | two searches exclude each other unless one walks a history, the other a shared list, for different rules |
| MarkRaces.SearchHolds | src/analysisd/eventinfo.c:110-111 | the two mutexes of a search are those its operation holds between taking the second and releasing it |
| MarkRaces.StepInv | src/analysisd/eventinfo.c:110-111 | if those that do not exclude each other set the same mark, no write lowers it |
| MarkRaces.MarkNeverLowered | src/analysisd/eventinfo.c:92-98 | then the mark never goes down, in any interleaving of any number of searches |
| MarkRaces.TwoListsLowerTheMark | src/analysisd/eventinfo.c:496-600 | otherwise some run of two searches ends with the higher mark overwritten by the lower one |
| Events.RuleInfo.FreeLastEvents | src/analysisd/eventinfo.c:24-40 | the alert context is emptied if the rule owns it, and untouched otherwise |
| Events.RuleInfo.SetLastEvent | src/analysisd/eventinfo.c:43-64 | one slot is set and the next is terminated; an index out of range changes nothing |
| Events.RuleInfo.SaveLine | src/analysisd/eventinfo.c:43-64 | saving one more line extends the NULL-terminated context by it |
| Events.RuleInfo.MoveLastEvents | src/analysisd/eventinfo.c:67-89 | the context moves to the firing event exactly once and the rule's slots become empty |
| Events.OSList.constructor | src/shared/list_op.c:40-54 | a new list is empty, with its bound; a bound of one is refused |
| Events.OSList.WalkBack | src/analysisd/eventinfo.c:268 | following the previous pointers from the last node meets the events of the list newest first, one by one |
| Events.OSList.AddData | src/shared/list_op.c:228-280 | append at the tail; a full list drops exactly its oldest node, through the callback |
| Events.OSList.DropFirst | src/shared/list_op.c:228-280 | the oldest node leaves, its event loses its back-pointer if the list has the callback, all other links hold |
| Events.OSList.DeleteThisNode | src/shared/list_op.c:146-182 | exactly the given node leaves, the order of the others and both directions of links hold |
| SharedLists.Registry.NodesAreOwnedOnce | src/analysisd/eventinfo.c:708-749 | no list node outlives its event, and no two nodes share a back-pointer |
| SharedLists.Registry.AddSid | src/analysisd/analysisd_stages.c:489-497 | the sid list gets the event at its tail, drops its oldest node if full, and all back-pointers stay exact |
| SharedLists.Registry.AddGroup | src/analysisd/analysisd_stages.c:510-517 | one group list gets the event at its tail and the back-pointer of this position is its new node |
| SharedLists.Registry.AddedKeepsValid | src/analysisd/rules_list.c:343-352 | the cross-list invariant survives an append, also when the oldest node is dropped |
| SharedLists.Registry.FillGroups | src/analysisd/analysisd_stages.c:502-519 | every group list gains exactly the event's nodes of its positions, in order, and every position has its back-pointer |
| SharedLists.Registry.RegisterMatched | src/analysisd/analysisd_stages.c:489-519 | registering a matched event gives the exact new content of every list and keeps every back-pointer exact |
| SharedLists.Registry.UnlinkSid | src/analysisd/eventinfo.c:724-730 | the sid node is unlinked and freed once, all lists keep the order of the others |
| SharedLists.Registry.UnlinkGroup | src/analysisd/eventinfo.c:734-743 | one group node is unlinked and freed once, no other event is affected |
| SharedLists.Registry.FreeEvent | src/analysisd/eventinfo.c:708-749 | before an event goes, exactly its nodes are unlinked and freed, every list keeps the others in order, and every other back-pointer stays exact |
| EventLists.EventList.PushFront | src/analysisd/eventinfo_list.c:111-131 | the event becomes the head and is marked as retained |
| EventLists.EventList.Evict | src/analysisd/eventinfo_list.c:133-158 | the eviction loop drops exactly the oldest events the rule of `Survivors` says and hands them back as one chain |
| EventLists.EventList.Add | src/analysisd/eventinfo_list.c:102-184 | after insertion the history is what `History.Inserted` says, `memoryused` is its length, exactly the events that fell off its old end are freed, and every shared list loses exactly their nodes; the list never holds an event twice |
| EventLists.EventList.Destroy | src/analysisd/eventinfo_list.c:58-86 | the list empties, every event it held is freed once, and every shared list loses exactly their nodes |
| EventLists.FreeChain | src/analysisd/eventinfo_list.c:176-183 | every event of the victims' chain is freed and no other, and every shared list keeps the nodes of the others in order |
| Searches.SearchLastSids | src/analysisd/eventinfo.c:103-277 | the search returns the event `History.Found` says, moves the saved lines to the firing event once, leaves the counter of the source, and marks the event found, the head and the searching event only |
| Searches.SearchLastGroups | src/analysisd/eventinfo.c:282-456 | the same for the group list |
| Searches.SearchLastEvents | src/analysisd/eventinfo.c:462-612 | the same for the history of the shard |
| SearchResults.ReturnedEvent | src/analysisd/eventinfo.c:103-612 | a finished search returned the event of the walk behind `frequency` others that pass every test of the rule, or none if there are not so many, and its counter is their number, stopped where it fired |
| SearchResults.MarksLeft | src/analysisd/eventinfo.c:597-600 | the event returned, the head and the searching event have the level of the rule as their mark, every other mark is as before, and all are if none is returned |
| SearchResults.ContextLeft | src/analysisd/eventinfo.c:67-89 | the alert context of a firing event lists the logs of the newest counted events, eleven at most and as many as the frequency, or one more for the sid search, and ends there |
| Searches.ExamineSid | src/analysisd/eventinfo.c:130-268 | one round of the sid search goes on, gives up or fires as `History` says |
| Searches.Examine | src/analysisd/eventinfo.c:309-447 | one round of the other two searches goes on, gives up or fires as `History` says |
| Searches.WalkStops | src/analysisd/eventinfo.c:486-503 | a walk that is stopped or ends has found nothing, and its context is the first hits |
| Searches.FoundWalking | src/analysisd/eventinfo.c:587-605 | the hit a group or history search returns is `Found`, with the first `frequency` lines saved |
| Searches.FoundSaved | src/analysisd/eventinfo.c:248-266 | the hit a sid search returns is `Found`, with one more line saved |
| Searches.Deliver | src/analysisd/eventinfo.c:67-89 | the saved lines leave with the firing event, NULL-terminated |
| ListRuns.SidListsHoldOnce | src/analysisd/analysisd_stages.c:489-497 | a sid list holds no event twice |
| ListRuns.GroupListsHoldOnce | src/analysisd/analysisd_stages.c:501-517 | a registered event is at most once on each group list exactly when no list occurs twice among those of its rule |
| ListRuns.OnceIsAtMostOne | src/analysisd/eventinfo.c:282-456 | a list holds no event twice exactly when every event of its past has one entry |
| ListRuns.UnregisteredIsUnlisted | src/analysisd/analysisd_stages.c:489-519 | an event that is not registered yet is on no shared list, so not on the one it searches |
| ListRuns.Register | src/analysisd/analysisd_stages.c:489-519 | registering a matched event is, for every list, one append of it, in as many places as the rule has the list |
| ListRuns.Discard | src/analysisd/eventinfo.c:708-749 | freeing an event is, for every list, the step that takes out all its entries |
| ListRuns.Insert | src/analysisd/eventinfo_list.c:102-184 | inserting an event into the history of its shard is the `Add` step, and for every shared list one `Free` step for each event that falls off |
| ListRuns.FreeIsStep | src/shared/list_op.c:146-182 | taking the nodes of one event out of a list takes a block out of its past |
| ListRuns.MarksAreMarked | src/analysisd/eventinfo.c:597-600 | the marks set in the heap are the marks of the step, at every entry of the marked events |
| ListRuns.SearchIsStep | src/analysisd/eventinfo.c:103-612 | a finished search of any of the three kinds, also over a list that repeats events, is a `Search` step, so the run theorems hold of this code |
| ListRuns.SearchElsewhere | src/analysisd/eventinfo.c:597-600 | for every other list it is a `Mark` step for the event found and one for the head, where they are listed, and nothing else |
| ListRuns.FreesAreSteps | src/analysisd/eventinfo_list.c:176-183 | a list sees the events that are freed together as one `Free` step each |
| RuleMarks.MarkGroup | src/analysisd/rules_list.c:400-442 | every rule whose group is watched gets the list once for each node it hangs at, and nothing else changes |
| RuleMarks.SeveralPlacesRepeat | src/analysisd/rules_list.c:400-442 | a rule gets a list twice exactly when its group is watched and it hangs at more than one node |
| RuleLists.FedOnce | src/analysisd/rules_list.c:400-442 | after any number of markings a rule feeds no list twice exactly when every watching rule that accepts its group met it at one node |
| RuleLists.OnceByTree | src/analysisd/rules_list.c:400-442 | a registered event is at most once on each group list exactly when every watching rule that accepts the group of its rule met that rule at one node of the tree |
| Pipeline.MoveKeepsOwned | src/analysisd/pipeline.c:943-959 | moving an item keeps every item in exactly one place |
| Pipeline.StepInv | src/analysisd/pipeline.c:752-1091 | every step of every thread keeps ownership, shape, staging and balance |
| Pipeline.InitialInv | src/analysisd/pipeline.c:249-273 | the daemon starts in such a state |
| Pipeline.OneOwner | src/analysisd/pipeline.c:943-959 | after any steps of any threads every item there has been is in exactly one queue, hand or history, or freed, and there once |
| PipelineOrders.HistoryOverRun | src/analysisd/eventinfo_list.c:111-158 | over any run a shard's history is what was registered, newest first, on what was there, without a number of the oldest |
| PipelineOrders.RegisteredStaysFirst | src/analysisd/eventinfo_list.c:111-158 | from the registration of an event until its thread stops evicting, whatever the other threads do, it is the first of its history |
| PipelineOrders.FirstInFirstOut | src/shared/queue_op.c:86-109 | over any run a queue hands its items out in the order in which they were put in |
| PipelineOrders.ItemStaysInHand | src/analysisd/analysisd_stages.c:200-260 | until a thread passes its item on or frees it, it keeps that item; what goes to writers before is a copy |
| PipelineOrders.ItemsGoForward | src/analysisd/pipeline.c:752-1091 | an item goes one stage forward or is freed, from the queue of the thread's own kind, shard or writer; only evicted events go back, to be freed, and only a decoder's firewall copy skips a stage |
| PipelineOrders.ClosedIsUnfed | src/analysisd/pipeline.c:1188-1312 | a queue is shut down only when every thread that puts items into it is gone |
| PipelineOrders.CountersCount | src/analysisd/pipeline.c:327-353 | every counter counts the steps it is named after |
| PipelineOrders.EverybodyItsPart | src/analysisd/pipeline.c:752-1091 | only decoders reject and count shard drops, only match threads list, archive and count as processed, only writers write, only receivers, demultiplexers and decoders fail to push |
| PipelineOrders.OnlyOpenQueuesGrow | src/shared/queue_op.c:112-163 | nothing is put into a queue that is shut down or full |
| PipelineOrders.WaitingEndsEmpty | src/shared/queue_op.c:197-213 | a thread that waits for input goes on without any only if its queue is shut down and empty |
| PipelineOrders.ThreadsKeepRunning | src/analysisd/pipeline.c:920-948 | over any run in which shutdown is not requested no thread ends |
| PipelineOrders.NoShardDropsAfterShutdown | src/analysisd/pipeline.c:344-351 | once shutdown is requested and no decoder is about to count one, shard drops are counted no more |
| PipelineOrders.ShardDropIsCounted | src/analysisd/pipeline.c:344-351 | before it is requested, a failed push to a shard is counted as a shard drop before anything else |
| PipelineTrips.TakenIsHandedOn | src/analysisd/pipeline.c:752-795 | from any state a thread at the top of its loop with input can pass the first item on to a queue it feeds that has room, reject or write it, and then nothing else has changed |
| PipelineTrips.TakenIsEnded | src/analysisd/pipeline.c:327-353 | the same for a match thread that archives or frees an event, counted once as processed, and for a push that fails: counted once as dropped, and as a shard drop where it is one and shutdown is not requested |
| PipelineTrips.CopyIsHandedOn | src/analysisd/analysisd_stages.c:211-240 | a copy is a new item at the end of a writer's queue; the thread goes on with what it held |
| PipelineTrips.TakenIsListed | src/analysisd/pipeline.c:943-959 | a match thread can list the first event of its queue and evict any number of the old ones: the event is the first of the history, the oldest are freed, and one more is processed |
| PipelineTrips.MessageComesThrough | src/analysisd/pipeline.c:752-1091 | from any state in which four threads, one of each stage, are at the top of their loops and the queues between them are open and empty, a message can be received, decoded, listed and counted, and nothing else changes |
| Pipeline.StepIsAccounted | src/analysisd/pipeline.c:763-793 | what a step receives is what counters, queues and the acting hand gain |
| Pipeline.NothingIsLost | src/analysisd/pipeline.c:968-1091 | in every interleaving before shutdown, received = processed + dropped + rejected + queued + in hands, and shard drops lead drops by at most the threads between the two increments |
| Pipeline.ShardDropsAreDrops | src/analysisd/pipeline.c:327-353 | after any run shard drops are at most drops exactly when no more decoders stand between the two increments than drops were counted elsewhere |
| PipelineRuns.ShardDropsMayLead | src/analysisd/pipeline.c:327-353 | from any start there is a run in which no push fails but the last, on a full shard queue, and which ends with more shard drops than drops |
| Pipeline.FreedOnce | src/analysisd/pipeline.c:1164-1186 | a step frees at most one item, one that somebody owns and that was not freed before |
| Pipeline.NothingMovesWhileDraining | src/analysisd/pipeline.c:1188-1312 | once all joins succeeded no thread can take a step, so nothing is pushed while draining |
| Pipeline.ShutdownFreesEverything | src/analysisd/pipeline.c:1188-1312 | after shutdown every item there ever was has been freed, exactly once |
| Shutdowns.StuckForever | src/analysisd/analysisd_stages.c:227-235 | once shutdown is requested without room for the copies that decoders hold, no steps whatever complete it |
| Shutdowns.Completes | src/analysisd/pipeline.c:1188-1312 | with that room every thread can be brought to its end, stage by stage, and everything drained |
| Shutdowns.ShutdownCompletes | src/shared/queue_op.c:136-163 | once requested, shutdown can be completed exactly when the copies held have room in the firewall queue, counting one place for each writer that waits for input |
| Shutdowns.ShutdownMayHang | src/analysisd/analysisd_stages.c:227-235 | from any start some run without a failed push ends in a requested shutdown that nothing completes |
| InputClose.StepInv | src/analysisd/pipeline.c:1036-1056 | the descriptor is published, in one caller's hands, or closed |
| InputClose.ClosedOnce | src/analysisd/pipeline.c:1036-1056 | with any number of concurrent closers the input is closed exactly once and nothing else is |
| Locks.OpOrdered | src/analysisd/eventinfo.c:92-98 | every operation takes its locks strictly upward in rank |
| Locks.RuleOpOrdered | src/analysisd/analysisd_stages.c:134-185 | rollover, do_diff and the searches hold their outer lock below the rule's and the list's |
| Locks.EventOpOrdered | src/analysisd/eventinfo_list.c:147-183 | registering, inserting and destroying free events outside the list lock; draining frees them under the queue's, which ranks below |
| Locks.TakesItsLocks | src/analysisd/eventinfo.c:92-98 | every operation takes exactly the locks named for it, in that order: a search that of its rule and then that of its list, a registration that of the shared lists, an insertion that of the history |
| Locks.FreedUnlocked | src/analysisd/eventinfo_list.c:172-183 | what falls off a history is freed after the mutex of the history is released |
| Locks.StoreOpOrdered | src/analysisd/fts.c:49-53 | the write lock comes before the store lock, table locks before agent locks |
| Locks.StepInv | src/analysisd/eventinfo.c:469-475 | no two threads ever hold one lock and everybody goes on in order |
| Locks.SomebodyCanStep | src/analysisd/eventinfo.c:92-98 | following who waits for whom climbs the ranks and ends at a thread that can go on |
| Locks.NoDeadlock | src/analysisd/eventinfo.c:92-98 | in every interleaving of any number of threads somebody can proceed |
| Locks.EverybodyCanFinish | src/analysisd/eventinfo.c:92-98 | from every reachable state all threads can be run to their end |
| RecordFile.AppendedIsReadBack | src/analysisd/fts.c:389-416 | an appended record is read back exactly when the file ended with a line end and the record has none |
| RecordFile.WrittenIsReadBack | src/analysisd/fts.c:164-188 | what compaction writes is read back record by record |
| RecordFile.RecordsOfLine | src/analysisd/fts.c:389-416 | of a line the first 255 characters are read, of a blank line nothing |
| RecordFile.RecordsOfContinued | src/analysisd/fts.c:389-416 | a record appended to an open last line adds no record |
| RecordStores.RecordStore.Add | src/analysisd/fts.c:137-158 | hash and list hold the same duplicate-free records; a full list forgets its oldest in both |
| RecordStores.StoredIsNewest | src/analysisd/fts.c:137-158 | a new record leaves the newest records, as many as there is room for |
| RecordStores.StoredAllFits | src/analysisd/fts.c:389-416 | loading a duplicate-free list that fits gives that list, in order |
| IgnoreStores.IgnoreStore.constructor | src/analysisd/fts.c:389-416 | from any file content the list is its newest distinct records; replay is exact exactly when the file was rewritten or ended with a line end |
| IgnoreStores.IgnoreStore.ReadLine | src/analysisd/fts.c:389-416 | one read takes the first 255 characters of a line and skips the rest of it |
| IgnoreStores.IgnoreStore.Compact | src/analysisd/fts.c:164-188 | a file of twice the list's bound is rewritten as the list; lines rewritten never exceed lines appended plus one list |
| IgnoreStores.IgnoreStore.AddToIgnore | src/analysisd/fts.c:425-472 | the list gains the record, the line count stays below twice the bound, and file and list agree afterwards exactly under a condition on what is there before: a known record and agreement, a rewrite of one-line records, or a readable append after which what differed has dropped out |
| IgnoreStores.MirrorsAfter | src/analysisd/fts.c:137-188 | that condition, on the file, the list and the line count as values |
| IgnoreStores.AgreeIsSame | src/analysisd/fts.c:137-158 | storing a new record makes two lists the same exactly when they are, or differ only in what drops out |
| IgnoreStores.RunsAreDurable | src/analysisd/fts.c:389-472 | from any initial file and for any run of one-line records, file and list agree exactly when the file ended with a line end or has been rewritten |
| IgnoreStores.IgnoreStore.Ignored | src/analysisd/fts.c:477-513 | an event is ignored exactly when the record of the fields that are looked up is in the list |
| IgnoreStores.AddedIsFound | src/analysisd/fts.c:443-499 | a rule finds what another adds, for every event and list, exactly when it checks what the other ignores, and ignores data and system name where the other does |
| IgnoreFields.RecordsOfOneEvent | src/analysisd/fts.c:443-499 | for an event without fields that begin with a blank the record added and the record looked up are equal exactly when each field only one of them takes is missing or starts after the cut |
| IgnoreFields.RecordsOfAllEvents | src/analysisd/fts.c:443-499 | the two records are equal for all events exactly when the masks of the two rules agree as above |
| IgnoreFields.BlanksLookAlike | src/analysisd/fts.c:443-499 | fields that are blanks can make the records of different fields equal |
| FirstTimeSeen.CommonStart | src/os_regex/os_regex_str.c:36-54 | the length is that of the longest common start |
| FirstTimeSeen.HowClosedMatch | src/os_regex/os_regex_str.c:36-54 | the loop counts the longest common start |
| FirstTimeSeen.Fts.ThreeSimilar | src/analysisd/fts.c:553-568 | the newest-first walk finds out whether three recent lines start alike |
| FirstTimeSeen.Fts.Check | src/analysisd/fts.c:518-625 | the result is 1 exactly when neither the line nor its key is stored; the store gains the key, and a new key leaves a pending line |
| FirstTimeSeen.KeyOfAlike | src/analysisd/fts.c:549-585 | an intrusion detection event is stored under its first `minSize` characters exactly if three recent lines at least share more than those with it |
| FirstTimeSeen.WindowIsNewest | src/analysisd/fts.c:549-585 | the recent lines are the newest keys of such events |
| FirstTimeSeen.Remembered | src/analysisd/fts.c:69-90 | a stored key starts the newest part of the list until a full store of other new keys came |
| FirstTimeSeen.FirstSeenTwice | src/analysisd/fts.c:541-591 | between two first-seen results for one key at least a full store of pairwise different other keys was stored |
| ChunkFile.ReadsOfMore | src/analysisd/fts.c:338-356 | appending to a closed file leaves its records as they were |
| ChunkFile.ReadsOfLine | src/analysisd/fts.c:338-356 | of a line of less than 255 characters all is read, of a longer one the first 255 and then what is read of the rest |
| ChunkFile.AppendedReads | src/analysisd/fts.c:199-200 | an appended line is read back exactly when the file is closed and the line has no line end inside |
| ChunkFile.OpenIsContinued | src/analysisd/fts.c:338-356 | a record appended to an open file takes the record of the open line away and is read with that line, cut every 255 characters |
| ChunkFile.WrittenReads | src/analysisd/fts.c:112-119 | what compaction writes is read back record by record |
| FtsFile.ReadLine | src/analysisd/fts.c:340-347 | one read takes a line, or 255 characters of it |
| FtsFile.Load | src/analysisd/fts.c:338-358 | loading gives the newest distinct records of any file and counts its lines; a long file is rewritten and closed |
| FtsFile.StepInv | src/analysisd/fts.c:96-125 | every step of every thread keeps the file closed and each remembered key in the file, the queue or a hand, and the line count exact and bounded |
| FtsFile.NoKeyIsLost | src/analysisd/fts.c:541-625 | from a closed file, with one-line keys, in every interleaving a key in the store has its line in the file as the loader reads it, in the queue, or in a thread's hand, except while the file is being rewritten under the write lock |
| FtsFile.QuietFileIsComplete | src/analysisd/fts.c:190-221 | when all lines are handed over the file holds every remembered key |
| FtsFile.OpenFileLosesKeys | src/analysisd/fts.c:199-201 | both conditions are needed: a new key is in the file after its line was written exactly when it is one line and the file was closed or the cut of the continued line leaves just the key; what the loader reads of an open file afterwards is given in full, without the record of its open line |
| FtsFile.RewriteHeals | src/analysisd/fts.c:104-124 | rewriting the file restores all of it, whatever the file was like |
| Accumulators.Accumulator.CleanUp | src/analysisd/accumulator.c:330-378 | the purge loop leaves exactly the entries that are not stale, in whatever order the buckets are walked |
| Accumulators.Accumulator.Accumulate | src/analysisd/accumulator.c:140-314 | the event gets the stored fields it lacks, the entry the usable fields of the event it lacks; a missing id or decoder, or too long a key, changes no field |
| Accumulators.SharedEntry | src/analysisd/accumulator.c:200-205 | two events whose agent, host and decoder have no blanks share an entry exactly when these and the id agree, a missing agent or host counting as empty |
| Accumulators.HasEntry | src/analysisd/accumulator.c:152-213 | an event has an entry exactly if it has an id and a decoder and the four with their blanks are less than 640 characters |
| Accumulators.NothingFromOthers | src/analysisd/accumulator.c:200-205 | what an event gets is the same whether or not an event of another agent, host, decoder or id came before |
| Accumulators.FieldGot | src/analysisd/accumulator.c:215-262 | an empty field of an event takes the value of the entry if that has one to eighty characters and the entry is not more than 120 seconds old; every other field stays |
| Accumulators.FieldKept | src/analysisd/accumulator.c:263-297 | an empty field of the entry takes the value of the event if that has one to eighty characters; every other field stays, and the entry is dated now |
| Accumulators.StepPurgedFrom | src/analysisd/accumulator.c:191-308 | an event sees no difference between a purged and an unpurged store |
| Accumulators.PurgeIsInvisible | src/analysisd/accumulator.c:330-378 | with a clock that does not go back every sequence of events leaves the same fields as without any purge |
| Accumulators.PurgeIsSeen | src/analysisd/accumulator.c:215-225 | a purge changes what an event gets exactly when its entry dates from time zero or before, is stale, and would have filled a field |
| Accumulators.TimeZeroIsVisible | src/analysisd/accumulator.c:215-225 | such an entry exists |
| Accumulators.EveryTwoHundredth | src/analysisd/accumulator.c:330-378 | over any events, with a clock that does not go back, a purge happens at exactly every two hundredth lookup and with no other event |
| Accumulators.IntervalNeedsClockBack | src/analysisd/accumulator.c:341-348 | before the two hundredth lookup a purge happens exactly when the clock is 300 seconds or more behind the last purge, and it leaves the entries of the last 120 seconds |
| Accumulators.OnlyTheCountPurges | src/analysisd/accumulator.c:341-348 | a purge happens exactly at every two hundredth lookup, never by the interval |
| Accumulators.FirstWriterWins | src/analysisd/accumulator.c:191-308 | every stored field is the first value of 1 to 80 characters since the entry's last gap over 120 seconds |
| RuleTrees.Rule.constructor | src/analysisd/rules.c:306-324 | a loaded rule holds its coded level |
| RuleTrees.Position | src/analysisd/rules_list.c:206-258 | a new sibling comes after all of at least its level and before the first of less |
| RuleTrees.GrownKeepsRules | src/analysisd/rules_list.c:38-128 | no node of a sibling list moves or is replaced |
| RuleTrees.AddedIsTakers | src/analysisd/rules_list.c:72-98 | in group and level mode the number of additions is the number of matching nodes |
| RuleTrees.GrownHasAdded | src/analysisd/rules_list.c:38-128 | the tree gains exactly the additions the walk reports |
| RuleTrees.EachTakerIsServed | src/analysisd/rules_list.c:38-128 | each rule of another signature whose group the match accepts, or whose coded level is at least the one asked for, gets exactly one new child, every other node none |
| RulePlaces.GroupPlaces | src/analysisd/rules_list.c:72-88 | at every place of a sibling list: under it exactly if the match accepts its group and its signature differs |
| RulePlaces.LevelPlaces | src/analysisd/rules_list.c:90-98 | under it exactly if its coded level is at least the one asked for and its signature differs |
| RulePlaces.SidPlaces | src/analysisd/rules_list.c:53-70 | under the first rule of that signature, which ends the walk of the list; below those before it the walk goes on |
| RulePlaces.CategoryPlaces | src/analysisd/rules_list.c:100-115 | under the first top rule of that category and nowhere else |
| RuleTrees.OnlyTheNewNodes | src/analysisd/rules_list.c:38-128 | taking the new nodes away gives back the old tree, in every mode |
| RuleTrees.InsertedIsStable | src/analysisd/rules_list.c:215-222 | insertion keeps a sibling list sorted and stable in load order |
| RuleTrees.GrownIsSorted | src/analysisd/rules_list.c:131-258 | every sibling list of the grown tree is non-increasing in its level |
| RuleTrees.GrownAfterInsertion | src/analysisd/rules_list.c:72-122 | walking a child list just extended is the same as extending it after the walk |
| RuleNodes.AddSorted | src/analysisd/rules_list.c:206-258 | the in-place insertion into a sibling list is `Inserted` |
| RuleNodes.Adopt | src/analysisd/rules_list.c:131-203 | a node gains the new rule in its child list and keeps everything else |
| RuleNodes.RanksOfInserted | src/analysisd/rules_list.c:117-122 | extending a child list just before it is walked does not make the walk longer |
| RuleNodes.AddToRule | src/analysisd/rules_list.c:38-128 | the recursive walk terminates though it descends into lists it has extended, and its result is `Grown`; it reports success exactly when something was added |
| RuleLevels.SetLevels | src/analysisd/rules.c:2215-2243 | every rule is decoded once for each node it hangs at, and the nodes are counted |
| RuleLevels.LevelRoundTrip | src/analysisd/rules.c:306-324 | a rule gets its configured level back, at however many nodes, exactly for levels up to 98, or 1 to 99 without accuracy |
| RuleLevels.LevelsAreRestored | src/analysisd/rules.c:2215-2243 | after decoding a tree such a rule has its configured level |
| RuleLevels.SortedByClass | src/analysisd/rules_list.c:215-222 | siblings order level-0 rules first, then descending levels, then rules without accuracy |
| RuleWinners.WinnerIsFirst | src/analysisd/analysisd.c:1490-1522 | the rule given alerts and is reached by matches, and no place below it or in an earlier branch is both; the tests are numbered in the order of the walk |
| RuleWinners.WinnerInPostOrder | src/analysisd/analysisd.c:1490-1522 | when matching depends on the rule alone, the rule given is the first in post-order of the alerting rules that match together with all above them |
| RuleWinners.OutcomesComeOut | src/analysisd/analysisd.c:1490-1522 | such tests exist for every tree and every choice of matching rules |
| RuleWinners.WinnersAlert | src/analysisd/analysisd.c:1490-1522 | a rule that is given alerts, and all nodes above one of its places matched when they were visited |
| RuleWinners.NoWinnerNoRule | src/analysisd/analysisd.c:1490-1522 | an event gets no rule exactly if no alerting rule is reached |
| HourlyReports.Statistics.CheckIfRuleMatch | src/analysisd/analysisd.c:1490-1522 | however the tests come out at each visit, the recursive match returns the first winner in tree order and counts it, and the hour, exactly once; without a winner nothing is counted; the hour's alerts stay the sum over distinct rules of their counts |
| HourlyReports.Statistics.AnalyzeAll | src/analysisd/analysisd_stages.c:340-354 | over any events of an hour the balance holds, and there are as many alerts as events that were given a rule |
| HourlyReports.Statistics.LoopRule | src/analysisd/analysisd.c:1525-1547 | each rule below a node that fired is printed and reset, no other rule is, and the printed counts add up |
| HourlyReports.Statistics.DumpLogstats | src/analysisd/analysisd.c:1550-1608 | there is a line for each rule that fired and no other, the lines sum to the printed total although rules are shared between parents, and all counters are zero afterwards |
| KeyFiles.BlankIsBlanked | src/addagent/validate.c:283-287 | a blanked line keeps its id and has neither name nor address and does not count |
| KeyFiles.RemovalConcernsOneAgent | src/addagent/validate.c:327-395 | removal leaves every other line, every lookup of another agent and every id as they were, and counts one live agent less |
| KeyFiles.RemovedIsGone | src/addagent/validate.c:218-297 | the agent is gone exactly when no later line is a live entry of its id |
| KeyFiles.Overwritten | src/addagent/validate.c:283-287 | writing the mark at the start of the line is replacing that line |
| KeyFiles.RemovalStaysInLine | src/addagent/validate.c:283-287 | the line end survives exactly when the entry is long enough for the mark |
| KeyFiles.KeyFile.IdExist | src/addagent/validate.c:398-446 | the scan finds the first line of an id and leaves its position |
| KeyFiles.KeyFile.CountAgents | src/addagent/validate.c:67-123 | the scan counts the live entries |
| KeyFiles.KeyFile.MapIds | src/addagent/validate.c:25-64 | a bit is set exactly for the numbers that a live or removed line holds |
| KeyFiles.KeyFile.NewNumber | src/addagent/validate.c:149-170 | the number found is the least free one of the range, and none is found only if all are taken |
| KeyFiles.KeyFile.AddNewAgent | src/addagent/validate.c:125-216 | an entry is appended exactly when fewer than MAX_AGENTS - 3 are counted and an id is given or free; otherwise the file is unchanged |
| KeyFiles.KeyFile.RemoveAgent | src/addagent/validate.c:218-297 | the first line of the id is blanked in place; no byte outside it changes and the file keeps its length |
| KeyFiles.EntryIsCounted | src/addagent/validate.c:206-212 | the entry written is read back with its id, name and address |
| KeyFiles.EntryIsFourFields | src/addagent/validate.c:206-212 | the entry is id, name, address and key with one blank between them |
| KeyFiles.IdOfLine | src/addagent/validate.c:398-446 | the id of a line is what stands before its first blank, unless the line is a comment |
| KeyFiles.NoIdInLine | src/addagent/validate.c:398-446 | a comment or a line without a blank has no id, every other line has one |
| KeyFiles.AgentOfLine | src/addagent/validate.c:67-123 | an agent has the name behind its id unless the line is removed, and counts if a third blank follows and the id is not empty |
| KeyFiles.DecimalIsValue | src/addagent/validate.c:153-158 | a number printed is the number read |
| KeyFiles.TakenStaysTaken | src/addagent/validate.c:218-297 | a removal gives no number back |
| KeyFiles.NumbersAreNeverReused | src/addagent/validate.c:141-170 | over any run of additions and removals a number that a line held once is never handed out |
| KeyFiles.NewNumbersDiffer | src/addagent/validate.c:141-170 | all numbers handed out in a run are different |
| KeyFiles.AgentsStayBounded | src/addagent/validate.c:138-144 | a run never exceeds MAX_AGENTS - 3 counted entries |
| Base64.CharRoundTrip | src/addagent/b64.c:177-212 | the two character maps are inverse on six-bit values |
| Base64.CharsOfTheStandard | src/addagent/b64.c:177-194 | the characters are the 64 of table 1 of RFC 4648, in that order |
| Base64.FilterOfTheStandard | src/addagent/b64.c:214-226 | the filter takes these and the padding and no other |
| Base64.BitsInOrder | src/addagent/b64.c:45-99 | four characters hold the bits of three bytes from the highest to the lowest, with zeros and padding for missing bytes |
| Base64.GroupRoundTrip | src/addagent/b64.c:45-175 | one to three bytes survive their four characters |
| Base64.EncodedRoundTrip | src/addagent/b64.c:45-175 | decoding an encoded text gives the text |
| Base64.EncodedFits | src/addagent/b64.c:45-99 | the encoded length is four characters for every three bytes begun |
| Base64.BufferIsTight | src/addagent/b64.c:58-61 | the output with its NUL fits size*4/3+4, and fills it exactly when the size leaves remainder 1 |
| Base64.DecodedFits | src/addagent/b64.c:106-175 | the decoded length is at most three bytes for every four characters begun |
| Base64.EncodeBase64 | src/addagent/b64.c:45-99 | the loop writes exactly the encoded text, NUL-terminated, within its buffer |
| Base64.CopyAlphabet | src/addagent/b64.c:128-133 | the first loop keeps exactly the characters of the alphabet |
| Base64.DecodeBase64 | src/addagent/b64.c:106-175 | the loops write exactly the decoded bytes of the filtered text, with NULs behind them; nothing for the empty text |
| Base64.DecodeEncode | src/addagent/b64.c:45-175 | whatever noise is inserted into the encoded text, the original is read back exactly when it has no NUL |
| Base64.EncodedIsClean | src/addagent/b64.c:128-133 | the filter takes nothing from an encoded text, so it decodes to the original as it is |
| Base64.NoiseIsIgnored | src/addagent/b64.c:128-133 | one character outside the alphabet anywhere leaves what is decoded |
| HourlyStats.LearnedStaysBounded | src/analysisd/stats.c:142-188 | an update keeps any margin of at least 81 above the busiest hour |
| HourlyStats.LearnedIsMean | src/analysisd/stats.c:142-188 | an average becomes the mean of the day and `inter` days before, rounded down, plus 5, or with the day counted three times plus 25 after three alerts; an hour without events keeps it, one without average starts 20 above its count |
| HourlyStats.StandsStill | src/analysisd/stats.c:142-188 | where an average rests under an hour that is always equally busy, exactly |
| HourlyStats.LeastSlack | src/analysisd/stats.c:142-188 | a margin is kept by every update exactly when it is at least 81 |
| HourlyStats.HighestRest | src/analysisd/stats.c:142-188 | an average can rest 83 above the busiest hour |
| HourlyStats.Statistics.Threshold | src/analysisd/stats.c:116-130 | the threshold lies between the configured least and largest difference above the average |
| HourlyStats.Statistics.ThresholdSteps | src/analysisd/stats.c:116-130 | the threshold is `d` above the average exactly when one more than the configured percentage of it, rounded down, is `d`, or is beyond the configured end that `d` is |
| HourlyStats.Statistics.constructor | src/analysisd/stats.c:393-454 | averages come from their files, counts start at zero |
| HourlyStats.Statistics.UpdateDay | src/analysisd/stats.c:196-231 | a day of the week learns with weight one, and its number of updates stays as loaded |
| HourlyStats.Statistics.Update | src/analysisd/stats.c:133-236 | every hour of the day and of the week learns by the integer average, all counts and errors start again at zero, the last cell of the day's hours counts updates |
| HourlyStats.Statistics.UpdateBounded | src/analysisd/stats.c:133-236 | averages within 83 of the busiest hour stay so over daily updates |
| HourlyStats.Statistics.CheckHour | src/analysisd/stats.c:239-327 | an event alerts exactly when its hour, or its hour of the week on a day compared, exceeds the threshold, after two updates, with fewer than three alerts since the last one and not twice in a row for one hour |
| HourlyStats.Statistics.CheckDay | src/analysisd/stats.c:239-327 | whatever times the events fall into, at most three alert between updates |
| HourlyStats.Statistics.WeeksNeverCompared | src/analysisd/stats.c:292-295 | an installation whose files have no updates of a day of the week never compares one |
| HourlyStats.RecentMessages.Repeated | src/analysisd/stats.c:461-475 | a message is repeated exactly when it is one of the last three recorded |
| HourlyStats.RecentMessages.Record | src/analysisd/stats.c:480-489 | recording shifts the window by one |

## Left out

- Regex, PCRE2 and OSMatch engines, decoders, GeoIP, CDB lists and compiled rules: the model takes a rule's match and
  its regex as uninterpreted predicates; the field tests of the searches are concrete.
- `OSHash` and the ring buffer of `os_queue`: modelled as maps, sets and sequences; the `cur_node` cursor of `OSList` is not
  modelled because the core never uses it.
- Overwrite rules (`OS_AddRuleInfo`): they change a level without sorting again, so the ordering theorems exclude them.
- `OS_MarkID` and the inheritance of category and context buffers in `_AddtoRule`: what they set up is the precondition
  `Registry.Loaded`; that several rules may share one context buffer is not modelled.
- A search as a sequence of reads: in `HistoryRuns` it is one step, placed where its walk starts; `BarrierHidesThePast`
  covers marks raised by other searches while it reads, `MarkRaces` the interleaving of reading and writing one mark.
- Sibling pointers of rule nodes: a child list is a sequence that the methods replace; the nodes themselves are shared objects.
- The real meaning of `_max_freq`: it holds a frequency but is compared with seconds; it is an arbitrary number here.
- Allocation and I/O failures, join timeouts, condition-variable waits and signal handling; Windows and test-rule branches.
- IgnoreFields.RecordsOfOneEvent: says nothing of events with a field that begins with a blank, whose text does not show
  which fields it was made of; `RecordsOfAllEvents` covers them.
- All queues of the pipeline have one size.
- Which shard a decoder and which decoder's queue a demultiplexer chooses, by a hash of the location and by the first
  character of the message: arbitrary in the pipeline.
- In the pipeline a received message and the event made of it are one item, and how many events an insertion evicts is
  arbitrary as long as the head stays (`RegisteredStaysFirst`, `TakenIsListed`), which `InsertedIsHead` justifies.
- Deep copies of events for writers are items of the pipeline; they are never linked into a list.
- `analysisd_handle_hour_rollover`: its locks are modelled, the choice of the hour is not; of a printed report line the hour
  and the level are left out.
- The totals printed at the end of a day, queue-wait figures and counter overflow: they would add easy members.
- `manage_keys.c` (`k_extract`, `k_import`, `k_bulkload`) and the REUSE_ID build: prompts and parsing around the registry
  functions that are modelled.
- Text is a sequence of characters without NUL, except in `Base64`, which works on bytes; key file lines are at most 254
  characters with numeric ids and room for the removal mark, MAX_AGENTS is below a million, and the names, addresses
  and ids of new agents are those the callers' checks let through.
