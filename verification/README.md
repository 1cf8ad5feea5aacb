# A model of the kernel firewall

This project models the shared state of a socket-filtering kernel extension and of the library that talks to it,
and proves what its operations keep over every run:

- the **process table**: reference-counted applications on a doubly linked list, newest first, and a background sweep
  that keeps a cursor from one critical section to the next (`ProcessTable`, `ApplicationsHeap`, `Attachments`);
- the **rule table**: rules in strictly descending order, looked up by first match (`RuleOrder`, `RuleTable`,
  `RuleLaws`, `RuleLists`, `RulesHeap`);
- the **client fan-out**: one counted message on many queues, each drained by its own thread (`Fanout`, `Deliveries`,
  `ClientsHeap`, `ClientListHeap`, `AudienceHeap`);
- the **command protocol** and its byte formats: subscriptions and their counters, the state of the firewall, the
  answers, size-prefixed frames, the message with two addresses of variable length (`Protocol`, `ProtocolLaws`,
  `Replay`, `ClassLaws`, `Records`, `KernelControl`, `Framing`, `Commands`, `AcceptMessage`);
- the **socket cookies**: the list of attached sockets and the data a socket holds back (`Deferred`, `CookiesHeap`).

Every lock-protected section is one atomic step. Each part has a state machine on values, whose invariants are proved
over all runs of all interleavings, and classes on the heap with the program's own fields, links and loops. The
methods of the classes are proved equal to the steps of the machine: a class carries the abstract state in a ghost
field `S`, `Coupled()` says that the fields and links represent it, and for the process table, the rule table and the
fan-out a method `Perform` shows that every section leads from a reachable state to a reachable state. `KernelControl`
puts the linked clients with their queues, the linked rules and the counters together: `Records` says how the clients of
`Fanout` appear in the command protocol, and `KcConnect`, `KcDisconnect` and `KcSend` on the heap are proved to be the
events of `Protocol`, each of them keeping the invariants of both machines. What the kernel decides (allocation, `proc_find`, the
clock, socket space, injection results, the order in which two threads get somewhere) is a parameter of the step, so the
theorems hold for all of its choices.

Verify with `dafny verify dfyconfig.toml`.

## Two forms

`Form` selects how the places are read where the text departs from its evident intent. `AsWritten` follows the text.
`Corrected` changes nothing but the branch in question. For each departure there is a concrete run or state that shows
the law broken, a condition that says exactly when the text as written still meets it, and the law itself over all runs
of the corrected form.

| departure | as written, a witness | when it is harmless |
|---|---|---|
| A rule appended at the tail gets neither its `prev` nor a time of change (Kext/rule.cpp:202-213) | `TailDeleteLosesRules`, `UnnoticedAppend` | `AddRuleExact`, `DeleteRuleExact`, `RunsAgreeExactly`, `UnchangedMeansSame`, `StaleAnswerSound` |
| A deleted rule keeps the table's reference (Kext/rule.cpp:230-231) | `DeletedRuleStays` | `DeleteRuleExact`, `CorrectedRunClean` |
| A rule that does not exist is reported as -1 to a caller that expects 1 (Kext/rule.cpp:223) | `UnansweredDelete` | `AnsweredOnce` |
| Deactivation repeats the body of activation (Kext/rule.cpp:288-292) | `ActiveStaysActive` | `DeactivateAgrees` |
| `RegisterMessageClasses` reports the opposite, `UnregisterMessageClasses` sets bits instead of clearing them (Kext/client.cpp:281, Kext/client.cpp:287) | `NegativeCounter`, `HeardWithoutSubscribing` | `SubscribeKeepsLaw`, `UnsubscribeKeepsLaw`, `HearsNothing` |
| `continue` in `do ... while(false)` ends the attempt instead of repeating it (Kext/client.cpp:215-249) | `DroppedForWantOfARetry` | `RetriesNeverHappen` |
| The send thread is started before the count is stored and before its own reference is counted (Kext/client.cpp:75-77) | `StartRace` | `DeletedUnderThread` |
| The "deactivated" message says "activated" (Kext/messages.cpp:405) | `TakenForUp` | `NoticesTellState` |
| Held-back data does not store its direction (Kext/cookie.cpp:66-68) | `InboundGoesOut` | `DirectionsKept` |
| The address length of held-back data is read before the null test (Kext/cookie.cpp:63) | `NullAddressExample` | `FaultsOnNullAddress` |
| The sweep thread keeps its cursor's reference when it exits (Kext/application.cpp:289-297) | `ShutdownLeakExample` | `ShutdownLeak` |

The code and its comments also disagree in these places; the model follows the code in both forms:

- Kext/rule.h:44 and Shared/messageType.h:801 give direction 0 as "both", but a rule with direction 0 shares no bit with
  any query and never matches (Kext/rule.cpp:122).
- Shared/messageType.h:792-793 gives offset 0 of the two strings of a rule as "for all", but the program then reads the
  message's own size field as a string, which is the wildcard only if the low byte of the size is 0 (`OffsetZero`).
- `FindRule` does not look at the state of a rule, so an inactive rule is found like an active one (Kext/rule.cpp:110-136).
- Kext/cookie.h:25 says `true` is out; `SendDeferredData` injects such data inbound (Kext/cookie.cpp:113-115).
- The answer to an added rule carries the rule's id as the message id and 0 as the rule id (Kext/firewall.cpp:822).
- Answers to rule commands have the class of the rule notifications, so a sender that has not subscribed to these gets
  no answer (Kext/client.cpp:148).

## Model

| member | source | states |
|---|---|---|
| References.RetainGood | Kext/simpleBase.h:13 | taking a reference keeps the law "deleted exactly when the count is 0, once" if and only if the object has not been deleted yet |
| References.ReleaseGood | Kext/simpleBase.h:14-22 | giving one back keeps the law if and only if somebody still held the object; it deletes exactly when the count was 1 |
| References.ReleaseAllGood | Kext/client.cpp:47-57 | releasing a whole list lowers every count by its number of occurrences and deletes exactly those that reach 0 |
| IntrusiveList.PushFront | Kext/application.cpp:214-218 | the node becomes the first of the doubly linked list, in both directions |
| IntrusiveList.Unlink | Kext/application.h:77-88 | a node leaves the doubly linked list; a node whose `prev` is missing takes everything in front of it along |
| IntrusiveList.InsertBefore | Kext/rule.cpp:178-187 | the node enters in front of another one, repairing its back link, with the same loss when that was missing |
| IntrusiveList.Append | Kext/rule.cpp:202-207 | the node becomes the last; without a back link it joins the nodes whose back link is missing |
| ProcessTable.EveryRunCountsOwners | Kext/application.cpp:114-289 | over every interleaving an application's count is listed + under the cursor + held outside; it is deleted once, exactly when that is 0; the running sweep's cursor is null or on a listed entry |
| ProcessTable.StepInv | Kext/application.cpp:145-289 | every section keeps list, history, cursor and counts consistent |
| ProcessTable.GetNewest | Kext/application.cpp:114-143 | a lookup answers the newest entry of the pid that the sweep has left, with one more reference; it makes an entry exactly when none is listed, and answers nothing only when it cannot |
| ProcessTable.LookupNewest | Kext/application.cpp:125-135 | whatever was added for the pid after the entry found is no longer listed, after any removals |
| ProcessTable.ExecAdds | Kext/application.cpp:145-223 | an exec notice in time and with memory puts a new entry with count 1 in front of all others, of the same pid too, and changes nothing else |
| ProcessTable.ExecShadows | Kext/application.cpp:114-223 | over every run after an exec, until its entry is taken out or another exec of the pid comes, every lookup of the pid answers that entry |
| ProcessTable.ClosedNeverGrows | Kext/application.cpp:83-151 | once the shutdown has begun no entry is ever made again, whatever raced with it |
| ProcessTable.TickTodo | Kext/application.cpp:259-288 | how the count of entries to check follows the ticks and the removals |
| ProcessTable.TickMoves | Kext/application.cpp:259-288 | where one tick leaves list and cursor: on, back to the start at the end, or one entry out and back to the start |
| ProcessTable.TickProgress | Kext/application.cpp:259-288 | a tick removes no live entry, and as long as a dead one is listed it decreases a measure of dead entries and the cursor's way |
| ProcessTable.SweepConverges | Kext/application.cpp:251-289 | with liveness fixed and no additions, from any cursor, exactly the live entries are left in their order after (d + 1) * (l + 1) ticks, and stay |
| ProcessTable.ShutdownLeak | Kext/application.cpp:83-112 | after shutdown everything is deleted if and only if the corrected form is used or the cursor was null when the thread left; otherwise exactly the cursor's application is leaked |
| ProcessTable.ShutdownLeakExample | Kext/application.cpp:289-297 | one exec, one tick and a shutdown leak an application |
| ApplicationsHeap.Applications.Add | Kext/application.cpp:153-223 | on the heap: a fresh application with count 1 at the head of the list |
| ApplicationsHeap.Applications.AddLocked | Kext/application.cpp:145-151 | on the heap: the exec notice puts a new application with the given process at the head of the links, and has no effect when closing or out of memory |
| ApplicationsHeap.Applications.Get | Kext/application.cpp:114-143 | on the heap: scan, addition and hold as in the machine, also when the shutdown races with it |
| ApplicationsHeap.Applications.Scan | Kext/application.cpp:123-135 | the loop finds the first entry with the pid |
| ApplicationsHeap.Applications.SweepTick | Kext/application.cpp:259-288 | one critical section of the sweep thread on the real links and its local cursor |
| ApplicationsHeap.Applications.Condemn | Kext/application.cpp:282-285 | a dead entry leaves the links and loses the table's reference |
| ApplicationsHeap.Applications.ThreadExit | Kext/application.cpp:291-297 | the thread's exit, with and without giving up the cursor's reference |
| ApplicationsHeap.Applications.DrainList | Kext/application.cpp:103-106 | the drain loop releases every listed application once and leaves a null head |
| ApplicationsHeap.Applications.Perform | Kext/application.cpp:83-297 | every section on the heap, from a reachable state, is a step of the machine to a reachable state |
| Attachments.EveryRunCountsCookies | Kext/firewall.cpp:96-142 | with sockets attaching and detaching, an application's count is list + cursor + attaches in progress + attached cookies naming it, and no attached cookie names a deleted application |
| Attachments.DetachInv | Kext/firewall.cpp:136-142 | a detach gives back exactly the reference of its own cookie |
| Attachments.DrainedMeansDeleted | Kext/firewall.cpp:577-606 | with the list drained, every application has been deleted if and only if the cursor is null, no socket is attached and no attach is in progress |
| Attachments.UnloadingDeletesAll | Kext/firewall.cpp:577-606 | once `Firewall::Free` has passed its test for attached sockets, with no attach in progress or to come, the finished shutdown has deleted every application if and only if the corrected form is used or the cursor is null |
| RuleOrder.StrCmpSymmetric | Kext/rule.cpp:71-77 | string comparison changes sign when swapped, is 0 on equal strings only, and stays within a byte's range |
| RuleOrder.CompareSymmetric | Kext/rule.cpp:67-100 | `Compare` changes sign when swapped, is 0 exactly on equal keys, and stays within +-65535 |
| RuleOrder.CompareTransitive | Kext/rule.cpp:67-100 | `Compare` is transitive, so with the above a strict total order on keys |
| RuleOrder.StrCmpFirstDifference | Kext/rule.cpp:71-77 | two strings are ordered by the first byte in which they differ, the end of a string being less than any byte |
| RuleOrder.CompareByFields | Kext/rule.cpp:67-100 | the process name decides first, then the path, then the first of the numbers that differ, in their order |
| RuleOrder.ShareBitExactly | Kext/rule.cpp:122 | two direction masks have a bit in common if and only if some power of two is in both, written out for the eight bits |
| RuleOrder.MatchesExactly | Kext/rule.cpp:112-122 | a rule matches if and only if it is the query with some fields left open and shares a direction bit with it |
| RuleOrder.CompareIsSpecificity | Kext/rule.cpp:112-122 | among rules matching one query the greater is exactly the more specific one: named process, path, domain, type, protocol, then larger direction mask, then allow |
| RuleTable.PlaceSplits | Kext/rule.cpp:163-200 | the scan of an addition splits the chain into greater and smaller rules and meets an equal one if and only if there is one |
| RuleTable.DescendingUnique | Kext/rule.cpp:163-213 | a set of rules has only one descending chain |
| RuleTable.StepInv | Kext/rule.cpp:102-306 | every operation in either form keeps order, links and counts consistent |
| RuleTable.EveryRunOrdersAndCounts | Kext/rule.cpp:102-306 | over every run of either form the chain is strictly descending without equal keys, a rule's count is the table's reference, kept or forgotten, plus the callers', and it is deleted once, exactly when nobody has it |
| RuleTable.CorrectedRunClean | Kext/rule.h:100-114 | corrected, no back link is ever missing and no reference of the table is forgotten |
| RuleTable.FreeAllInv | Kext/rule.h:84-98 | the teardown takes the table's reference from exactly the rules still in the chain |
| RuleLaws.FindRuleMostSpecific | Kext/rule.cpp:102-141 | the answer is the greatest and the most specific matching rule; none exactly when none matches |
| RuleLaws.FindRuleDirection | Kext/rule.cpp:112-136 | the answer has a direction bit of the query; a rule for one direction never answers a query for the other |
| RuleLaws.OpenRuleAnswers | Kext/rule.cpp:112-136 | while there is a rule for both directions with all other fields open, every query of one direction has an answer |
| RuleLaws.FindRuleLends | Kext/rule.cpp:126 | the caller gets one reference on the answer and nothing else changes |
| RuleLaws.AddRuleChain | Kext/rule.cpp:143-218 | what each of the three outcomes of an addition leaves, in terms of the table before |
| RuleLaws.AddRuleExact | Kext/rule.cpp:143-218 | an equal rule is returned exactly when there is one; otherwise exactly the new rule is added if and only if the rule behind it has its back link, and all greater rules are lost if not |
| RuleLaws.AddRuleOnlyPlace | Kext/rule.cpp:163-213 | the chain left is the only descending chain of its rules |
| RuleLaws.DeleteRuleExact | Kext/rule.cpp:220-243 | a rule with the id is found exactly when there is one; exactly the first one leaves and the rest keeps its order if and only if its back link is there; the table's reference goes exactly in the corrected form |
| RuleLaws.DeletedRuleStays | Kext/rule.cpp:220-243 | as written: add, release and delete leave a rule with the count 1 that nobody has; corrected it is deleted |
| RuleLaws.TailDeleteLosesRules | Kext/rule.cpp:202-213 | as written: add, add at the tail, delete the second, and the first is gone too |
| RuleLaws.RunsAgreeExactly | Kext/rule.cpp:143-243 | over a run the chain as written equals the corrected one after every step if and only if no step works on a rule whose back link is missing |
| RuleLaws.DeactivateAgrees | Kext/rule.cpp:277-306 | deactivation as written does the right thing if and only if the id names no rule, or one neither active nor inactive |
| RuleLaws.ActivationRoundTrip | Kext/rule.cpp:245-306 | corrected, a successful activation undoes a successful deactivation up to the time of change, and conversely |
| RuleLaws.ActiveStaysActive | Kext/rule.cpp:277-306 | as written the deactivation of an active rule leaves it active and answers "already" |
| RuleLaws.AsWrittenNeverDeactivates | Kext/rule.cpp:288-292 | as written a rule once active is never inactive again in any run |
| RuleLaws.UnchangedMeansSame | Kext/rule.h:116 | if no change is reported since a time, the rules of that time are in place and unchanged, and the chain is the same if and only if nothing was appended at the tail, which corrected is always so |
| RuleLaws.StaleAnswerSound | Kext/rule.h:116 | then the lookup answers what it answered at that time if and only if it had found a rule or no rule appended since matches; corrected none has been appended |
| RuleLaws.UnnoticedAppend | Kext/rule.cpp:202-213 | as written a first rule arrives, changes an answer and is not reported |
| RuleLists.StepLists | Kext/rule.cpp:102-306 | seen as a list of rules and states, every operation does exactly one thing, in either form, when the rule it works on has its back link: an addition inserts at the one place in the order or finds an equal rule, a deletion takes out the first rule with the id, the activations move its state between 1 and 2, a lookup changes nothing |
| RuleLists.ReportedExactly | Kext/rule.h:116 | over every run of either form a change since a time is reported if and only if the list was changed since, an addition at the end not counting as written |
| RuleLists.CommandLists | Kext/firewall.cpp:789-911 | what each command of a client does to that list; a command whose answer cannot be allocated does nothing |
| RuleLists.CommandsDecideRules | Kext/firewall.cpp:789-1057 | corrected, two runs of the same commands with the same allocations leave the same list, whoever sends them and when, and whatever clients and objects there are |
| RulesHeap.Rules.AddRule | Kext/rule.cpp:143-218 | on the heap: creation, scan and the three outcomes |
| RulesHeap.Rules.Link | Kext/rule.cpp:161-217 | on the heap: the locked part, on the real links |
| RulesHeap.Rules.Scan | Kext/rule.cpp:163-200 | the loop stops at the first rule not greater, with the one before it |
| RulesHeap.Rules.LinkLast | Kext/rule.cpp:202-213 | on the heap: the append in both forms |
| RulesHeap.Rules.RemoveFromChain | Kext/rule.h:100-114 | on the heap: the unlinking, with its effect when a back link is missing |
| RulesHeap.Rules.DeleteRule | Kext/rule.cpp:220-243 | on the heap: the deletion in both forms |
| RulesHeap.Rules.ActivateRule | Kext/rule.cpp:245-275 | on the heap: the activation |
| RulesHeap.Rules.DeactivateRule | Kext/rule.cpp:277-306 | on the heap: the deactivation in both forms |
| RulesHeap.Rules.FindRule | Kext/rule.cpp:102-141 | on the heap: the first-match scan and its hold |
| RulesHeap.Rules.FreeAll | Kext/rule.h:84-98 | on the heap: the teardown loop |
| RulesHeap.Rules.Perform | Kext/rule.cpp:102-306 | every section on the heap, from a reachable state, is a step of the machine to a reachable state |
| Fanout.EveryRunCountsAndOrders | Kext/client.cpp:142-276 | over every interleaving a message's count is the creators' holds plus its places on all queues and batches; it is deleted once, exactly when all dropped it; each accepted message of a client is in one place, and what reached the socket is an ordered subsequence |
| Fanout.StepInv | Kext/client.cpp:47-276 | every critical section and every stretch of a send thread, through all exits, keeps this |
| Fanout.BroadcastReaches | Kext/firewall.cpp:681-693 | a broadcast goes once to the end of the queue of exactly the listed clients that are not exiting, have a bit of the message's type in their mask and get a node |
| Fanout.HandedInOrder | Kext/client.cpp:211-259 | what one client's socket got is a subsequence, in order, of what was accepted for it |
| Deliveries.HandedAppend | Kext/client.cpp:211-259 | the messages handed over are exactly those the log marks so, in its order |
| Deliveries.StepReaches | Kext/client.cpp:211-270 | a step adds a message to what a socket has got if and only if it is an attempt of that client's thread with room and an accepting socket, and then the first of its batch; neither popping nor the exits add or drop one |
| Deliveries.LogTellsAttempts | Kext/client.cpp:176-276 | over every run, through all exits, what reached a client's socket is exactly the messages of its successful attempts, in their order |
| Deliveries.StepQueues | Kext/client.cpp:142-163 | every step adds at most one message to a queue, only while the client is connected, and one with a bit of the mask the client then has |
| Fanout.SettleInv | Kext/client.cpp:251-265 | a client may drop messages in any section if exactly those are released |
| Fanout.RetriesNeverHappen | Kext/client.cpp:213-249 | the attempt as written differs from the intended one exactly when the first answer has no room and a later one would |
| Fanout.DroppedForWantOfARetry | Kext/client.cpp:213-249 | as written a message is dropped although the second attempt would find room; corrected it is handed over |
| Fanout.DeletedUnderThread | Kext/client.cpp:75-77 | over every run from its connect on, a client is deleted while its thread has still to run if and only if, as written, it has disconnected and the thread's reference was overwritten or has not been taken |
| Fanout.RunDecides | Kext/client.cpp:75-77 | how a run decides that: whether the thread has begun, whether the client has disconnected, and whether the thread's reference was lost |
| Fanout.CorrectedThreadsCounted | Kext/client.cpp:75-77 | corrected, that never happens in any run |
| Fanout.StartRace | Kext/client.cpp:173-176 | the two orders as written in which a disconnect deletes the client under its thread, and the one in which it does not |
| ClientsHeap.Client.Send | Kext/client.cpp:142-170 | on the heap: the message is queued exactly when the client is not exiting, a bit of the type is in its mask and there is memory; the tail pointer is null exactly when the queue is empty |
| ClientsHeap.Client.DetachQueue | Kext/client.cpp:203-209 | on the heap: the whole queue becomes the batch and both pointers are null |
| ClientsHeap.Client.TryFirst | Kext/client.cpp:213-249 | the attempt loop in both forms hands over exactly what `Attempt` says |
| ClientsHeap.Client.PopFirst | Kext/client.cpp:255-258 | on the heap: the first node of the batch goes and its message loses one reference |
| ClientsHeap.Client.ClearQueue | Kext/client.cpp:47-57 | the loop releases the message of every node once |
| ClientsHeap.Client.ClearBatchAndLeave | Kext/client.cpp:264-270 | on the heap: the exit that gives the rest of the batch up |
| ClientsHeap.Client.Free | Kext/client.cpp:108-140 | on the heap: the queue is taken and every message released once |
| ClientListHeap.ClientList.Push | Kext/firewall.cpp:711-714 | a new client becomes the first of the list |
| ClientListHeap.ClientList.Remove | Kext/firewall.cpp:735-769 | exactly the named client leaves the links and the others keep their order; a client that is not listed changes nothing |
| AudienceHeap.Audience.SendOne | Kext/client.cpp:142-170 | with all clients and messages on the heap: one client's queue and the message's count change, all other clients stay represented |
| AudienceHeap.Audience.Broadcast | Kext/firewall.cpp:681-693 | on the heap: the loop along the links gives the message to the listed clients as the machine's broadcast does |
| AudienceHeap.Audience.Connect | Kext/firewall.cpp:695-724 | on the heap: a fresh client at the head of the list, as the machine's connect |
| AudienceHeap.Audience.Disconnect | Kext/firewall.cpp:726-774 | on the heap: the listed client leaves, is told to exit, loses the list's reference and, if that was the last one, gives up its queue; one that is not listed stays as it is |
| AudienceHeap.Audience.Perform | Kext/client.cpp:47-276 | every section of clients, messages and send threads on the heap, from a reachable state, is a step of the machine to a reachable state |
| Records.SentRecords | Kext/firewall.cpp:681-693 | a broadcast of the machine is, record by record, the protocol's |
| Records.AnsweredRecords | Kext/client.cpp:142-170 | so is an answer to one client |
| Records.JoinedRecords | Kext/firewall.cpp:711-714 | so is a connect |
| Records.PartedRecords | Kext/firewall.cpp:733-745 | so is a disconnect |
| ProtocolLaws.SubscribeKeepsLaw | Kext/firewall.cpp:956-970 | a subscription keeps "counter = number of subscribers" if and only if the corrected form is used |
| ProtocolLaws.UnsubscribeKeepsLaw | Kext/firewall.cpp:972-986 | an unsubscription keeps it if and only if the corrected form is used or the client has all three classes |
| ProtocolLaws.MaskEffect | Kext/firewall.cpp:956-1052 | what a subscription command does to counters and numbers of subscribers |
| ProtocolLaws.NegativeCounter | Kext/client.cpp:284-288 | as written a counter becomes -1 after connect and unsubscribe |
| ProtocolLaws.DisconnectKeepsLaws | Kext/firewall.cpp:726-774 | a disconnect keeps both counter laws, removes exactly the named client and keeps the order of the others |
| ProtocolLaws.ConnectKeepsLaws | Kext/firewall.cpp:695-724 | a connect keeps both counter laws |
| ProtocolLaws.EveryRunCounts | Kext/firewall.cpp:711-1052 | over every run the debug counter is the number of clients in both forms, and corrected each subscription counter is the number of its subscribers |
| ProtocolLaws.EveryRunDebug | Kext/firewall.cpp:713-769 | as written too: the debug counter is the length of the client list and nobody ever loses the basic classes |
| RuleTable.AddLends | Kext/rule.cpp:170-191 | an addition lends the caller the rule it answers |
| ProtocolLaws.AddRuleReleased | Kext/firewall.cpp:844-845 | the command gives back the reference the addition lent, whatever the outcome |
| ProtocolLaws.RunConcat | Kext/firewall.cpp:789-1057 | one run of events after another is one run |
| Replay.AnsweredExactly | Kext/firewall.cpp:789-1057 | what a command puts into every client's queue, stated from the firewall before it: who is answered, with which type, ids and outcome |
| Replay.AnsweredOnce | Kext/firewall.cpp:802-811 | the sender gets exactly one answer, except that as written deleting a rule that does not exist is not answered |
| Replay.UnansweredDelete | Kext/firewall.cpp:802-811 | as written a subscriber that deletes a rule that does not exist gets no answer; corrected it is told of the failure |
| Replay.TakenForUp | Kext/firewall.cpp:913-954 | as written: connect, activate, deactivate, and the client concludes that the firewall is up |
| Replay.NoticesTellState | Kext/firewall.cpp:913-954 | a client connected throughout a run that follows the notices knows the state of the firewall and the notices alternate; as written its conclusion is right if and only if the firewall is up or no notice came |
| Replay.NoticesFollow | Kext/firewall.cpp:913-954 | over every run a notice comes exactly on a change of state, to every client that stays |
| Messages.WantedExactly | Kext/client.cpp:148 | a type is let through if and only if it has a bit of the mask |
| Messages.RuleTypeCodes | Shared/messageType.h:41-44 | the bits of the rule notices' types are those of 0x0101 to 0x0104 |
| ClassLaws.TopicCodes | Shared/messageType.h:10-58 | the classes of the three topics and the types of their six answers as numbers, and the type of the "deactivated" message in both forms |
| ClassLaws.AnswerTypesDiffer | Shared/messageType.h:53-58 | no two of the six subscription answers have the same type |
| ClassLaws.CommandMasks | Kext/client.cpp:278-288 | bit by bit: a subscription adds the topic's bit to the sender's mask, an unsubscription takes it away, corrected, and as written adds every other bit; nothing else changes a mask |
| ClassLaws.EventTook | Kext/client.cpp:142-163 | every event, in either form, gives a client at most one message, and that has a bit of the mask the client then has |
| ClassLaws.HearsNothing | Kext/client.cpp:142-163 | over every run a connected client that does not subscribe to a topic gets no message of the topic's class, as written if it does not unsubscribe from anything either |
| ClassLaws.HeardWithoutSubscribing | Kext/client.cpp:284-288 | as written a client that only unsubscribes from the rule notices gets them |
| Framing.WalkExact | Shared/ServerConnection.cpp:100-107 | walking a buffer gives exactly these frames and ends if and only if the buffer is their concatenation and each states its own size |
| Framing.WalkSplit | Kext/firewall.cpp:789-1057 | a walk that goes through the first part meets the frames of both parts |
| Framing.ReceiveThrough | Shared/ServerConnection.cpp:100-107 | of self-sized frames the receiver delivers exactly the prefix through the first closing frame |
| Framing.ReceivePacked | Shared/ServerConnection.cpp:100-107 | the same for a buffer whose last frame is cut off by its end, the closing frame told by its bytes |
| Framing.SessionDelivers | Shared/ServerConnection.cpp:90-125 | over any number of buffers the session delivers, of all their frames in order, exactly the prefix through the first closing frame, and ends closed if and only if there is one |
| Framing.SessionStops | Shared/ServerConnection.cpp:95-98 | nothing behind an empty receive is delivered |
| Framing.ServerConnection.WalkBuffer | Shared/ServerConnection.cpp:100-107 | the loop over one buffer delivers exactly the frames of `Receive` |
| Framing.ServerConnection.ReceiveThread | Shared/ServerConnection.cpp:90-125 | the receive loop delivers what `Session` says, buffer after buffer; then socket and thread are reset and the delegate for the end is called once, if there is one |
| Commands.DecodeEncode | Shared/messageType.h:814-909 | every command of fixed size reads back as written |
| Commands.RuleCommandBytes | Shared/messageType.h:778-842 | byte by byte: types 0x1002 to 0x1004 with the message id at byte 4 and the rule id at byte 8 |
| Commands.PlainCommandBytes | Shared/messageType.h:63-79 | byte by byte: types 0x1005 to 0x100C with the message id at byte 4, and which topic each names |
| Commands.AddRuleBytes | Shared/messageType.h:789-812 | byte by byte: every field of an add-rule message, and the strings at their offsets up to a 0 |
| Commands.EncodeBytes | Shared/messageType.h:814-909 | every byte of a written command: size, type and ids |
| Commands.TooShort | Kext/firewall.cpp:791-1053 | a command of fixed size cannot be read if and only if the buffer ends before its last field |
| Commands.AddTooShort | Shared/messageType.h:789-812 | an add-rule message cannot be read if and only if its fields or one of its strings reach past the buffer |
| Commands.OtherTypes | Kext/firewall.cpp:791-1053 | any type outside 0x1001 to 0x100C is no command, whatever the frame holds |
| Commands.DecodeAddRule | Shared/messageType.h:789-812 | an add-rule message carries the rule it describes wherever its strings are placed |
| Commands.OffsetZero | Shared/messageType.h:792-806 | a string offset of 0 means the wildcard if and only if the low byte of the message's size is 0 |
| Commands.DecodeExtend | Kext/firewall.cpp:789-791 | a readable command does not depend on what follows it |
| Commands.CommandsSplit | Kext/firewall.cpp:784-1057 | two buffers in one hold the commands of both, in order |
| Commands.CommandsOfEncoded | Kext/firewall.cpp:784-1057 | a buffer of several written commands holds exactly these |
| Commands.CommandsOfFrames | Kext/firewall.cpp:784-1057 | a buffer of self-sized frames holds exactly the commands each of them is on its own |
| KernelControl.KernelControl.KcConnect | Kext/firewall.cpp:695-724 | on the heap: nothing while the firewall closes or without memory; otherwise a fresh client at the head of the links, and the protocol's connect |
| KernelControl.KernelControl.KcDisconnect | Kext/firewall.cpp:726-774 | on the heap: the listed client leaves links, list and counters as the protocol's disconnect says; a null or unlisted one changes nothing |
| KernelControl.KernelControl.KcSend | Kext/firewall.cpp:776-1060 | on the heap: nothing while the firewall closes or without a client; otherwise the commands of the buffer, one after the other, are the run of their events, each with what the kernel decided for it |
| KernelControl.KernelControl.Dispatch | Kext/firewall.cpp:791-1053 | on the heap: one command changes linked rules, client queues, message counts, masks and counters so that they represent what the protocol's command leaves |
| KernelControl.KernelControl.HandleAdd | Kext/firewall.cpp:817-848 | on the heap: the addition to the linked rules, its answer to all or to the sender, and the release of the rule and of the answer |
| KernelControl.KernelControl.Send | Kext/firewall.cpp:681-693 | on the heap: a new answer is queued for every client that wants it and released by its creator, which is the protocol's broadcast |
| KernelControl.SendSplit | Kext/firewall.cpp:784-1057 | one call on a buffer that is two buffers in a row ends where two calls end |
| KernelControl.OtherFrameSkipped | Kext/firewall.cpp:791-1056 | a frame of another type is passed over by its size, whatever that is: the firewall reaches exactly what it reaches by the bytes behind it |
| KernelControl.OtherFramesChangeNothing | Kext/firewall.cpp:791-1056 | a buffer of frames of other types leaves the firewall as it is |
| AcceptMessage.EverythingFits | Shared/messageType.h:525-528 | the needed size is not truncated, both addresses end inside it, and it is at most 546 |
| AcceptMessage.Copy | Shared/messageType.h:92-105 | what the copy wrote reads back as the address, a null one as the unspecified one, unless it has length 0; the answer is the length read back, and nothing else is touched |
| AcceptMessage.CreateSfltAccept | Kext/messages.cpp:254-266 | all writes stay in the allocated buffer, which is then header, local address and remote address |
| AcceptMessage.WrittenParts | Shared/messageType.h:502-513 | the header fields and the addresses as they read back from the finished message |
| AcceptMessage.AcceptBytes | Shared/messageType.h:492-513 | every field of the finished message at its place, byte by byte: size, type, process, user, the listening socket before the socket, local before remote address, on either layout |
| AcceptMessage.AcceptRoundTrip | Shared/messageType.h:515-523 | both addresses read back as written, null as the unspecified one, if and only if the local one is null or has a length |
| AcceptMessage.EmptyLocalReadsRemote | Shared/messageType.h:515-523 | a local address of length 0 reads back as the remote one |
| AcceptMessage.EmptyRemoteReadsMemory | Shared/messageType.h:520-523 | a remote address of length 0 reads back only if a 0 happens to lie behind the message's data |
| AcceptMessage.AcceptIsFrame | Shared/messageType.h:166-173 | the finished message is one self-sized frame |
| Deferred.RunOrder | Kext/cookie.cpp:60-133 | over every run each packet taken in is dealt with once, in arrival order, or still waits behind those that were |
| Deferred.DirectionsKept | Kext/cookie.cpp:60-89 | every packet keeps the direction it came with if and only if the corrected form is used or none was inbound |
| Deferred.InjectedWhereItCame | Kext/cookie.cpp:108-133 | the n-th packet taken in is the n-th dealt with, injected in the direction it came with; as written every injection is outbound |
| Deferred.InboundGoesOut | Kext/cookie.cpp:66-68 | as written a held-back inbound packet is injected outbound |
| Deferred.BuffersConserved | Kext/cookie.cpp:91-133 | over every run the buffers injections consumed, those `mbuf_freem` got and those that wait are together exactly those taken in; a buffer that came once is consumed at most once, and exactly once when it no longer waits |
| Deferred.StepFates | Kext/cookie.cpp:60-133 | sending deals with every waiting packet in order, injecting the outbound ones and the accepted inbound ones; clearing injects none and frees the buffers of all; an arrival touches none |
| Deferred.FaultsOnNullAddress | Kext/cookie.cpp:63 | a run ends without the fault if and only if the corrected form is used or every packet came with an address |
| Deferred.NullAddressExample | Kext/cookie.cpp:63 | as written the first packet without an address faults and nothing can follow; corrected it is queued |
| CookiesHeap.SocketCookie.AddDeferredData | Kext/cookie.cpp:60-89 | on the heap: the append, the failed allocation, and as written the fault on a null address |
| CookiesHeap.InjectOrFree | Kext/cookie.cpp:113-124 | every buffer of the packet, not yet consumed, is consumed once: by the injection of its direction, or by `mbuf_freem` after an inbound injection refused it |
| CookiesHeap.SocketCookie.ClearDeferredData | Kext/cookie.cpp:91-106 | on the heap: the loop frees both buffers of every waiting packet once, in order |
| CookiesHeap.SocketCookie.SendDeferredData | Kext/cookie.cpp:108-133 | on the heap: the loop injects every packet in order and frees the buffers an inbound injection refused, so that every waiting buffer is consumed once |
| CookiesHeap.SocketCookies.Add | Kext/cookie.h:136-148 | the cookie becomes the first of the list and the counter stays its length |
| CookiesHeap.SocketCookies.Remove | Kext/cookie.h:117-134 | exactly the cookie leaves the list and the counter stays its length |
| CookiesHeap.SocketCookies.HaveAttachedSockets | Kext/cookie.h:180-188 | true exactly when the list is not empty, which is when the counter is positive |

## Left out

- Kernel calls (`proc_find`, `ctl_getenqueuespace`, `ctl_enqueuedata`, injections, allocation, the clock): inputs of the steps, not code. The staleness results assume a clock that only moves forward and no teardown of the table in between.
- Widths of the reference counts and subscription counters: unbounded integers, without the 32-bit wrap-around. Message sizes, types, ids and rule fields have their widths.
- Contents of fresh memory: the held-back data as written reads its direction from an allocation assumed to be zeroed, as are the links of new objects.
- KernelControl.KernelControl.KcSend: every allocation of a queue node is assumed to succeed there and in `Protocol`; `Fanout` and `AudienceHeap` have the failing ones. The answer is made behind the change it reports, where the program makes it before and fills in its outcome afterwards; whether it can be made is decided before both.
- KernelControl.KernelControl.KcConnect: that the kernel gives no unit to two clients is required. The start of the thread is part of `AudienceHeap`.
- Commands that reach past the end of the buffer: the program reads whatever memory lies there; the model ends with `Truncated` or `Unreadable`. A frame of size 0, on which both loops run forever, ends with `Endless`.
- Fanout.EveryRunCountsAndOrders: as written a client can be deleted under its thread (`DeletedUnderThread`); the thread's further steps, on freed memory, are not modelled.
- Framing.ServerConnection.ReceiveThread: the delegate that gets the frames is assumed to be set, and the lock around the end is left out.
- The liveness of the send thread: wakeups can be lost, so only safety is claimed. Its pacing sleeps and those of the sweep are left out.
- Several control calls at once: `firewallUp` is not locked, and the calls are taken one after the other.
- The addresses and file times of a rule, which neither the order nor the match looks at.
- How an address of length 0 in held-back data is turned into a null pointer when it is injected.
- `Init` and `Free` of locks, the retries of `UnregisterKernelControl`, registering with the kernel, socket options.
- The debug callbacks of the socket filter, each of which sends one message, and the statements of `DataIn` behind its return.
- Messages with one address or with raw socket data, and text messages: their layouts are simpler cases of the accept message.
- The builder of an add-rule message: the repository has none, so `DecodeAddRule` speaks about any message with the right fields.
- The example programs, lookup tables and project files.
