# Verified models of nanomsg's core and of the chloros scheduler

A Dafny project that models the data structures and protocols in which the repository's hard behaviour sits,
and proves properties of them over all inputs, all reachable states and all runs.

| files | what they model |
|---|---|
| `Trie`, `TrieMeaning`, `TrieSubscribe`, `TrieUnsubscribe`, `TrieMatch`, `TrieRuns`, `TrieLosses`, `TrieAbsent`, `TrieTight` | the Patricia trie of subscriptions as a value, its meaning as a table from strings to reference counts, and what every call does to that table |
| `TrieHeap`, `XSub` | the same trie as linked nodes changed in place, proved equal to the value; the SUB socket's filter and options on it |
| `Req`, `ReqRuns`, `ReqSteps`, `ReqReplies`, `ReqSocket` | the REQ machine composed with its timer, the state machine base, the context's event queue and the worker's task queue; its invariant over all runs; where each step leads and what becomes of a submission and of a reply; the classes that do the same in place |
| `Routing`, `RepSocket`, `Routes`, `Wire` | the stack of keys in message headers over any number of nodes, the XREP and REP sockets, and the nodes' tables along a route |
| `PrioList`, `Pipe` | the priority list with its fairness, and the handshake of a socket with its pipes over two such lists |
| `MsgQueue`, `Hash`, `List`, `TimerSet` | the chunked message queue, the rehashing table, the intrusive list and the timer set |
| `Chunk`, `ChunkRef`, `Dist` | reference-counted message memory, messages of three references, and the broadcast over a list of pipes |
| `Chloros` | the green-thread scheduler on one kernel thread |

Code that works in place is a class whose methods are proved against a specification function or against a
ghost value; the laws are then lemmas about that function. `dafny verify dfyconfig.toml` checks everything.

## Where the code does not do what it is for

Each of these is proved with an exact condition, and most with an input that shows it.

- Converting a node between its two layouts resets the node's own count (`trie.c:384`, `trie.c:609`), so a
  string that branches into eight others loses its subscription when a ninth branch comes, and one with nine
  when the ninth goes: `TrieLosses`.
- Removing a string that is not held may remove another one, dereference NULL, or report a removal that did
  not happen: `TrieAbsent.EveryRemoval` says which call does what.
- Matching steps to the next node without asking whether data are left (`trie.c:467`) and so reads behind the
  message: `TrieMatch.MatchReports` says exactly when that changes the result, `TrieMatch.MatchReadsOn` gives an
  input, and `XSub.PassedIsWanted` says when it changes what the user gets.
- A count is a 32-bit word: after 2^32 subscriptions of one string it is zero again, and a leaf then holds
  nothing: `TrieSubscribe.SubscribeShape`.
- A subscription may leave a node whose only child would fit into it, which removals and splits merge:
  `TrieTight.SubscribeTight` says exactly when.
- A negative resend interval, which the option setter accepts, makes the next request abort.
- Every message that arrives is received into the reply slot, in every state. `ReqReplies.UnreadReplySurvives`
  says exactly when a reply that was not read yet is still there afterwards, and
  `ReqReplies.FreedReplyIsDelivered` when the user is handed a message that has been freed.
- Destroying a REQ socket frees the reply slot whether or not it has been freed: `ReqReplies.FreedTwice` says
  exactly when that is the second time, which matters when a part of the message is a chunk.
- A reply is lost on a route where a link that keeps header and body apart follows, on the way back, one that
  joins them: `Routing.RequestAndReply`.
- Trimming a chunk that is shared spoils the other references: `Chunk.TrimShared`.
- An event of a pipe that was stopped while it was pending is handed to a socket that no longer has the pipe:
  `Pipe.TidyStep`.
- `Wait` called by a spawned thread returns with the queue not empty exactly when no queued thread is ready
  (`Chloros.WaitBySpawned`); its declaration in `chloros.h` reserves it for initial threads.

## Model

| member | source | states |
|---|---|---|
| TrieSubscribe.SubscribeCount | lab2/libs/nanomsg/src/protocols/pubsub/trie.c:236-439 | For every well-formed trie, every string subscribed and every string looked up: the new count is the old one plus one (modulo 2^32) for the string itself, zero for a held string whose node is converted to dense by this call, and unchanged otherwise; the call returns 1 exactly when the string was absent. |
| TrieSubscribe.SubscribeShape | lab2/libs/nanomsg/src/protocols/pubsub/trie.c:236-439 | The result is well formed (prefixes of at most 10 bytes, at most 8 distinct sparse characters and no NULL child, dense nodes with exact `nbr`, at least 9 children and both ends filled, every leaf held) if and only if the count does not wrap to zero at a string that no held string extends. |
| TrieSubscribe.CompactKeepsCounts | lab2/libs/nanomsg/src/protocols/pubsub/trie.c:203-234 | Merging a node that is no subscription with its only child changes the count of no string. |
| TrieSubscribe.CompactKeepsShape | lab2/libs/nanomsg/src/protocols/pubsub/trie.c:203-234 | Merging keeps the node well formed. |
| TrieSubscribe.SplitKeepsCounts | lab2/libs/nanomsg/src/protocols/pubsub/trie.c:286-302 | Cutting a prefix in two, with the merge of the lower half, changes the count of no string. |
| TrieSubscribe.SplitKeepsShape | lab2/libs/nanomsg/src/protocols/pubsub/trie.c:286-302 | The two halves of a cut prefix form a well-formed node, or one that only lacks the branch about to be added. |
| TrieSubscribe.AddChildNext | lab2/libs/nanomsg/src/protocols/pubsub/trie.c:304-402 | Whichever of sparse growth, dense widening and conversion runs, the new child is reached by its character, every other character reaches what it did, and only the conversion resets the node's own count. |
| TrieSubscribe.ChainIsOneString | lab2/libs/nanomsg/src/protocols/pubsub/trie.c:404-430 | The chain of new nodes for the rest of a string, whatever its length, is well formed and holds exactly that string, once. |
| TrieUnsubscribe.UnsubscribeHeld | lab2/libs/nanomsg/src/protocols/pubsub/trie.c:479-657 | For every well-formed trie and every held string: the call does not crash, the result is well formed, the string's count goes down by one, the only other count that changes is that of a node narrowed from dense to sparse, which becomes zero, and 1 is returned exactly when the string's count reaches zero. |
| TrieUnsubscribe.UnsubscribeAbsent | lab2/libs/nanomsg/src/protocols/pubsub/trie.c:479-523 | For a string that is not held the trie is left as it was if and only if the walk does not go astray: it does not end inside the prefix of a held node with no data left, and reaches no NULL. |
| TrieUnsubscribe.EmptyStringRemovesAnother | lab2/libs/nanomsg/src/protocols/pubsub/trie.c:490-491 | With only "ABC" held, removing the empty string removes "ABC" and returns 1. |
| TrieUnsubscribe.PrunedSparse | lab2/libs/nanomsg/src/protocols/pubsub/trie.c:521-556 | A sparse node whose child has gone, deleted or merged or neither, reads as the same table without that child. |
| TrieUnsubscribe.PrunedFromDense | lab2/libs/nanomsg/src/protocols/pubsub/trie.c:558-627 | A dense node whose child has gone, trimmed left or right or turned sparse, keeps its other children; only the conversion drops its own count. |
| TrieLosses.SubscribeIsLocal | lab2/libs/nanomsg/src/protocols/pubsub/trie.c:384 | A subscription changes the count of its own string alone if and only if no held string branches into exactly eight others at the node where the new branch is added. |
| TrieLosses.UnsubscribeIsLocal | lab2/libs/nanomsg/src/protocols/pubsub/trie.c:609 | A removal changes the count of its own string alone if and only if no held string loses the ninth of its branches by it. |
| TrieLosses.NinthBranchForgets | lab2/libs/nanomsg/src/protocols/pubsub/trie.c:384 | A trie in which a ninth branch makes the empty string lose its subscription. |
| TrieLosses.EighthBranchForgets | lab2/libs/nanomsg/src/protocols/pubsub/trie.c:609 | A trie in which the removal of one of nine branches makes the empty string lose its subscription. |
| TrieAbsent.AbsentCode | lab2/libs/nanomsg/src/protocols/pubsub/trie.c:479-523 | For a string that is not held, where the call changes nothing: -EINVAL when the walk ends at the root, 1 when it ends at a node below the root, 0 otherwise. |
| TrieAbsent.AbsentReportsRemoval | lab2/libs/nanomsg/src/protocols/pubsub/trie.c:508-518 | With "XAB", "XAC" and "Y" held, a call for "XA" returns 1 although nothing was held and nothing changes. |
| TrieAbsent.UnsubscribeCrashes | lab2/libs/nanomsg/src/protocols/pubsub/trie.c:479-635 | A removal dereferences NULL or fails the assertion on eight moved children if and only if its walk comes to NULL with data left, or ends at an empty slot of a dense node with exactly nine children. |
| TrieAbsent.FreshSocketCrashes | lab2/libs/nanomsg/src/protocols/pubsub/trie.c:490-494 | With nothing held, a removal dereferences NULL for every string but the empty one. |
| TrieAbsent.HoleCrashes | lab2/libs/nanomsg/src/protocols/pubsub/trie.c:604-627 | Nine one-byte strings held; removing a tenth between them fails the assertion. |
| TrieAbsent.UnsubscribeWhole | lab2/libs/nanomsg/src/protocols/pubsub/trie.c:479-523 | Every removal, crashes included, does what it would do for the string that the node it ends at stands for: the string given, and the rest of the prefix of the node at which the string runs out. |
| TrieAbsent.EveryRemoval | lab2/libs/nanomsg/src/protocols/pubsub/trie.c:479-657 | For every well-formed trie and every string: the string that the node at the end of the walk stands for is removed, with the exact table, shape and code, if it is held; otherwise the call crashes, or counts out a child that is not there (same table, shape lost, 1 returned), or changes nothing and returns its exact code, each exactly under a condition on the walk. |
| TrieMatch.MatchReports | lab2/libs/nanomsg/src/protocols/pubsub/trie.c:441-472 | The walk reports a match if and only if some held string is a prefix of the message, or the walk ends at a node exactly where the message does and some held string is a prefix of the message together with the memory behind it. |
| TrieMatch.MatchIsScan | lab2/libs/nanomsg/src/protocols/pubsub/trie.c:441-472 | The walk agrees with the scan of the whole subscription set for every memory behind the message if and only if some subscription matches or no node ends where the message does. |
| TrieMatch.MatchReadsOn | lab2/libs/nanomsg/src/protocols/pubsub/trie.c:463-471 | With "AB" and "AC" held, the message "A" is reported as matching when the byte behind it is "B". |
| TrieMatch.MatchStopping | lab2/libs/nanomsg/src/protocols/pubsub/trie.c:441-472 | When nothing readable follows the message, the walk is the scan of all subscriptions. |
| TrieMeaning.BranchingHere | lab2/libs/nanomsg/src/protocols/pubsub/trie.h:41-84 | The number of characters by which held strings go on at a node is its number of children, so "eight branches" is a statement about strings and not about nodes. |
| TrieRuns.RunMeaning | lab2/libs/nanomsg/src/protocols/pubsub/trie.c:236-657 | Every run of subscribes and removals in which only held strings are removed, and no 32-bit count wraps at a string that no held string extends, succeeds, keeps the shape, and leaves exactly the counts that a table computed from the history alone has; each call reports a first subscription or a last removal. |
| TrieRuns.RunKeepsShape | lab2/libs/nanomsg/src/protocols/pubsub/trie.c:236-657 | Of the runs that remove only held strings, exactly those in which no count wraps at a string that no held string extends, by the table of the history, go through and keep the shape. |
| TrieTight.CompactTight | lab2/libs/nanomsg/src/protocols/pubsub/trie.c:203-234 | Merging leaves nothing to merge where there was nothing below: an only child of a node that is no subscription then does not fit into it. |
| TrieTight.UnsubscribeTight | lab2/libs/nanomsg/src/protocols/pubsub/trie.c:479-657 | Removing a held string from a trie in which no node could be merged with its only child leaves no such node. |
| TrieTight.SubscribeTight | lab2/libs/nanomsg/src/protocols/pubsub/trie.c:236-439 | A subscription to such a trie leaves no such node either, if and only if it neither shortens the prefix of an only child until that fits into its parent, nor wraps a count to zero at a node into which its only child fits. |
| TrieTight.SubscriptionLoosens | lab2/libs/nanomsg/src/protocols/pubsub/trie.c:286-302 | A subscription that leaves an only child that would fit. |
| TrieTight.ChainIsShort | lab2/libs/nanomsg/src/protocols/pubsub/trie.c:404-430 | A string of n bytes takes n/11 + 1 new nodes, rounded down: all but the last are full. |
| TrieHeap.CheckPrefixOf | lab2/libs/nanomsg/src/protocols/pubsub/trie.c:156-170 | The loop over the prefix finds how many characters the data match. |
| TrieHeap.NextIndex | lab2/libs/nanomsg/src/protocols/pubsub/trie.c:179-201 | The slot found for a character in either layout, or none. |
| TrieHeap.CompactNode | lab2/libs/nanomsg/src/protocols/pubsub/trie.c:203-234 | Merging in place, on linked nodes, is the merge of the value model; the nodes stay a tree. |
| TrieHeap.SplitNode | lab2/libs/nanomsg/src/protocols/pubsub/trie.c:286-302 | Splitting in place is the split of the value model. |
| TrieHeap.ConvertToDense | lab2/libs/nanomsg/src/protocols/pubsub/trie.c:362-402 | The children of a full sparse node move to a new dense one, each owned once. |
| TrieHeap.SubscribeAt | lab2/libs/nanomsg/src/protocols/pubsub/trie.c:236-439 | Subscribing in place is the subscribe of the value model, with all nodes owned once and only nodes of the trie changed. |
| TrieHeap.TrimNode | lab2/libs/nanomsg/src/protocols/pubsub/trie.c:560-602 | Trimming a dense node in place, from the left, from the right or not at all. |
| TrieHeap.Gather | lab2/libs/nanomsg/src/protocols/pubsub/trie.c:604-627 | The children of a dense array are gathered in order into a sparse one. |
| TrieHeap.UnsubscribeAt | lab2/libs/nanomsg/src/protocols/pubsub/trie.c:479-657 | Removing in place is the removal of the value model wherever that does not crash. |
| TrieHeap.MatchFrom | lab2/libs/nanomsg/src/protocols/pubsub/trie.c:441-472 | The loop over linked nodes, with the remaining size going below zero, reports what the walk of the value model reports. |
| TrieHeap.SubscriptionTrie.Subscribe | lab2/libs/nanomsg/src/protocols/pubsub/trie.c:236-439 | The table after the call, the return code and the exact condition for the shape, for the linked trie. |
| TrieHeap.SubscriptionTrie.Unsubscribe | lab2/libs/nanomsg/src/protocols/pubsub/trie.c:474-657 | Wherever the walk does not crash, trie and code are those of the value model: for a held string the exact table, shape and code; for an absent one the trie stays as it was if and only if the walk does not go astray. |
| TrieHeap.SubscriptionTrie.Match | lab2/libs/nanomsg/src/protocols/pubsub/trie.c:441-472 | For a message and the memory behind it: true exactly when some held string is a prefix of the message, or a node ends where the message does and some held string is a prefix of message and memory together. |
| XSub.PassedConcat | lab2/libs/nanomsg/src/protocols/pubsub/xsub.c:162-186 | What is delivered from a stream is what is delivered from its first part followed by what is delivered from the rest. |
| XSub.PassedIsWanted | lab2/libs/nanomsg/src/protocols/pubsub/xsub.c:162-186 | From every stream the user gets exactly the messages that some held string is a prefix of, if and only if no message that none is a prefix of ends at a node and matches together with the memory behind it. |
| XSub.SubSocket.Recv | lab2/libs/nanomsg/src/protocols/pubsub/xsub.c:162-186 | The next message that the walk lets through, all earlier ones having been dropped because it does not; nothing exactly when none is left. |
| XSub.SubSocket.SetOpt | lab2/libs/nanomsg/src/protocols/pubsub/xsub.c:188-214 | Subscribing and unsubscribing through the option setter, wherever a removal does not crash: the table afterwards, of the string that the removal takes out for any string given; ENOPROTOOPT for other levels and options, -EINVAL exactly when nothing is taken out and the walk ends at the root, otherwise 0; and the exact condition for the trie to keep its shape. |
| ReqRuns.StepSafe | lab2/libs/nanomsg/src/protocols/reqrep/req.c:146-653 | From every reachable state of REQ and timer, each step (user send and receive, pipe added, in, out and removed, worker task, timer expiry, option, close) aborts if and only if it puts a request on the wire while the resend interval is negative, and otherwise keeps the invariant: the timer's phase is a function of the REQ state, `sent_to` is set exactly in ACTIVE, DELAYED means that no pipe is writable, the stored request is the last one submitted and carries its identifier. |
| ReqRuns.RunSafe | lab2/libs/nanomsg/src/protocols/reqrep/req.c:146-653 | No run with a non-negative resend interval hits a bad state, bad source, bad action or failed assertion. |
| ReqRuns.NegativeIntervalAborts | lab2/libs/nanomsg/src/protocols/reqrep/req.c:297-315 | A run of four calls in which a negative resend interval aborts the next request. |
| ReqRuns.HeaderCollision | lab2/libs/nanomsg/src/protocols/reqrep/req.c:241-264 | Two submissions carry the same identifier exactly when a multiple of 2^31 submissions lies between them. |
| ReqRuns.OnlyAnswersComplete | lab2/libs/nanomsg/src/protocols/reqrep/req.c:146-201 | Whatever replies without the current identifier arrive, in any number, the machine stays as it is but for the reply slot. |
| ReqRuns.StaleRepliesIgnored | lab2/libs/nanomsg/src/protocols/reqrep/req.c:146-201 | Replies to earlier requests, less than 2^31 submissions old, complete nothing. |
| ReqRuns.CompletionNeedsAnswer | lab2/libs/nanomsg/src/protocols/reqrep/req.c:439-450 | A step from ACTIVE to STOPPING_TIMER is the arrival of a reply with the current identifier. |
| ReqRuns.ResendHappens | lab2/libs/nanomsg/src/protocols/reqrep/req.c:461-548 | After a timeout, a lost pipe or a cancellation, once the worker has run the tasks already queued, the same stored request has been sent once to a ready pipe, or waits for one. |
| ReqRuns.CloseCompletes | lab2/libs/nanomsg/src/protocols/reqrep/req.c:338-359 | A closing socket, and its timer, have stopped once the worker has run the tasks already queued. |
| ReqSteps.SendLeadsTo | lab2/libs/nanomsg/src/protocols/reqrep/req.c:241-264 | Where a submission leads, by state, with an interval that is not negative: from PASSIVE and DONE it is sent exactly once to a ready pipe and the socket is ACTIVE with the timer started with that interval, or it waits in DELAYED when no pipe is ready; DELAYED stays; every other state under way becomes CANCELLING with nothing sent. The stored request is the new one in all cases. |
| ReqSteps.PipeOutLeadsTo | lab2/libs/nanomsg/src/protocols/reqrep/req.c:203-215 | A pipe that becomes writable in DELAYED gets the stored request, exactly once; in every other state it is only noted. |
| ReqSteps.SubmissionGoesOut | lab2/libs/nanomsg/src/protocols/reqrep/req.c:241-548 | Every submission, in whatever state it is made: once the queued tasks have run it has gone out exactly once more, or it waits and the next pipe that becomes writable is sent it exactly once. |
| ReqSteps.ExpiryLeadsTo | lab2/libs/nanomsg/src/protocols/reqrep/req.c:472-482 | An expiry in ACTIVE leads to TIMED_OUT with the timer told to stop; one overtaken by a stop changes nothing. |
| ReqSteps.StartTaskLeadsTo | lab2/libs/nanomsg/src/aio/timer.c:147-154 | The start task arms the timer exactly while the request is still under way. |
| ReqSteps.StopTaskLeadsTo | lab2/libs/nanomsg/src/protocols/reqrep/req.c:493-575 | The stop task leads from TIMED_OUT and CANCELLING to the request being sent once or waiting, from STOPPING_TIMER to DONE, and while closing to IDLE. |
| ReqSteps.PipeRmLeadsTo | lab2/libs/nanomsg/src/protocols/reqrep/req.c:667-676 | A removed pipe goes and the other ready pipes stay, in their order; the request is treated as timed out exactly when it went to that pipe. |
| ReqSteps.RecvLeadsTo | lab2/libs/nanomsg/src/protocols/reqrep/req.c:273-295 | The receive call leads from DONE to PASSIVE with an empty slot and changes nothing in any other state. |
| ReqSteps.AnswerCompletes | lab2/libs/nanomsg/src/protocols/reqrep/req.c:146-201 | An arrival in ACTIVE completes the request, once, if and only if an answer comes before the first malformed message; otherwise nothing but the slot changes. |
| ReqSteps.RawSplits | lab2/libs/nanomsg/src/protocols/reqrep/xreq.c:178-205 | Where the transport does not split header and body, the first word is the header; exactly messages of less than a word are malformed. |
| ReqSteps.SameReplies | lab2/libs/nanomsg/src/protocols/reqrep/req.c:146-201 | Replies are taken the same way whichever transport they come by. |
| ReqSteps.IntervalIsUsed | lab2/libs/nanomsg/src/protocols/reqrep/req.c:297-315 | The interval set last is the one that the next request is timed with. |
| ReqReplies.ArrivalFillsSlot | lab2/libs/nanomsg/src/protocols/reqrep/req.c:146-201 | Once a request is answered, whatever messages arrive change the reply slot and nothing else: the slot then holds the first answer if no malformed message comes before it, and what has been freed otherwise. |
| ReqReplies.UnreadReplySurvives | lab2/libs/nanomsg/src/protocols/reqrep/req.c:146-201 | A reply not yet read survives an arrival if and only if nothing is delivered, or the first message that is malformed or an answer is an answer with the same body. |
| ReqReplies.SlotOverRun | lab2/libs/nanomsg/src/protocols/reqrep/req.c:146-201 | Over every run in which the user makes no call, only arrivals change the slot, each as above. |
| ReqReplies.FreedReplyIsDelivered | lab2/libs/nanomsg/src/protocols/reqrep/req.c:287-292 | After every such run the user is handed a freed message if and only if the last arrival that delivered anything had no answer before a malformed message; otherwise an answer. |
| ReqReplies.EveryReplyCanBeFreed | lab2/libs/nanomsg/src/protocols/reqrep/req.c:160-162 | For every request under way: after its answer and the stop of the timer, one message too short to be a reply frees the reply, and the user's call still succeeds. |
| ReqReplies.StepSlot | lab2/libs/nanomsg/src/protocols/reqrep/req.c:146-201 | In every state, what one step makes of the slot: only arrivals and a receive in DONE change it, and exactly which arrivals leave it freed. |
| ReqReplies.FreedTwice | lab2/libs/nanomsg/src/protocols/reqrep/req.c:109-117 | After every run that does not abort, a socket that is closed stops, and its reply slot then holds a message that has been freed, which destroying the socket frees once more, if and only if the last event that put something into the slot or took it out is an arrival with nothing under way, or one without an answer before the first malformed message. |
| ReqReplies.StrayMessageFreedTwice | lab2/libs/nanomsg/src/protocols/reqrep/req.c:160-172 | One message of any kind that arrives before the first request is such a run. |
| ReqReplies.RequestUnderWay | lab2/libs/nanomsg/src/protocols/reqrep/req.c:203-264 | Three calls from a new socket after which a request is under way. |
| ReqSocket.ResendTimer.Handler | lab2/libs/nanomsg/src/aio/timer.c:115-177 | The timer's handler, in place. |
| ReqSocket.ResendTimer.Shutdown | lab2/libs/nanomsg/src/aio/timer.c:90-113 | The timer's shutdown, in place. |
| ReqSocket.ResendTimer.Start | lab2/libs/nanomsg/src/aio/timer.c:76-83 | Starting the timer through its state machine base. |
| ReqSocket.ResendTimer.Stop | lab2/libs/nanomsg/src/aio/timer.c:85-88 | Stopping the timer through its state machine base. |
| ReqSocket.RequestSocket.ActionSend | lab2/libs/nanomsg/src/protocols/reqrep/req.c:621-653 | Sending the stored request: to the load balancer's choice with the timer started, or DELAYED when there is no pipe. |
| ReqSocket.RequestSocket.Handle | lab2/libs/nanomsg/src/protocols/reqrep/req.c:361-615 | The nine-state handler, in place. |
| ReqSocket.RequestSocket.HandleShutdown | lab2/libs/nanomsg/src/protocols/reqrep/req.c:338-359 | The shutdown handler, in place. |
| ReqSocket.RequestSocket.FeedSource | lab2/libs/nanomsg/src/aio/fsm.c:69-76 | An event goes to the handler, or to the shutdown handler when the machine is stopping. |
| ReqSocket.RequestSocket.LeaveContext | lab2/libs/nanomsg/src/aio/ctx.c:51-64 | Leaving the context hands over the events raised inside, in order, until none is left. |
| ReqSocket.RequestSocket.CSend | lab2/libs/nanomsg/src/protocols/reqrep/req.c:241-264 | A submission is one step of the value machine and keeps its invariant. |
| ReqSocket.RequestSocket.CRecv | lab2/libs/nanomsg/src/protocols/reqrep/req.c:273-295 | EFSM, EAGAIN or the reply slot, by state, as one step of the value machine. |
| ReqSocket.RequestSocket.In | lab2/libs/nanomsg/src/protocols/reqrep/req.c:146-201 | The arrival of any number of replies is one step of the value machine. |
| ReqSocket.RequestSocket.Out | lab2/libs/nanomsg/src/protocols/reqrep/req.c:203-215 | A pipe that becomes writable is one step of the value machine. |
| ReqSocket.RequestSocket.Rm | lab2/libs/nanomsg/src/protocols/reqrep/req.c:667-676 | The removal of a pipe is one step of the value machine. |
| ReqSocket.RequestSocket.RunTask | lab2/libs/nanomsg/src/aio/worker_posix.inc:200-235 | The worker runs the oldest task of the timer. |
| ReqSocket.RequestSocket.Expire | lab2/libs/nanomsg/src/aio/worker_posix.inc:180-190 | The worker reports an expired timer. |
| ReqSocket.RequestSocket.Stop | lab2/libs/nanomsg/src/protocols/reqrep/req.c:119-126 | Closing the socket is one step of the value machine. |
| Routing.ScanFindsStack | lab2/libs/nanomsg/src/protocols/reqrep/xrep.c:208-226 | For any stack of keys, any bottom with the top bit set and any body, the scan finds exactly the stack. |
| Routing.ScanNeedsBottom | lab2/libs/nanomsg/src/protocols/reqrep/xrep.c:212-226 | The scan drops a message if and only if no whole word from the start on has the top bit set. |
| Routing.ForwardPushes | lab2/libs/nanomsg/src/protocols/reqrep/xrep.c:189-247 | After any number of nodes the header is the stack of their keys on the requester's identifier and the body is untouched. |
| Routing.BackwardWhole | lab2/libs/nanomsg/src/protocols/reqrep/xrep.c:154-187 | A reply unwinds a whole stack, popping at each node the key that node pushed, if and only if no link that keeps headers apart comes, on the way back, after one that does not. |
| Routing.RequestAndReply | lab2/libs/nanomsg/src/protocols/reqrep/xrep.c:154-247 | Over any number of nodes and any bodies: the request arrives with exactly the nodes' keys, and the reply reaches the requester with its own identifier, if and only if no link that keeps headers apart comes, on the way back, after one that does not. |
| Routing.MixedLinksLoseReply | lab2/libs/nanomsg/src/protocols/reqrep/xreq.c:178-205 | Two nodes over which the reply is lost. |
| Routing.OneWordArrives | lab2/libs/nanomsg/src/protocols/reqrep/xreq.c:178-205 | A message with a header of one word arrives whole by any transport; exactly a raw message of less than a word is dropped. |
| RepSocket.KeyClash | lab2/libs/nanomsg/src/protocols/reqrep/xrep.c:102-107 | Two pipes get the same key exactly when a multiple of 2^31 additions lies between them, and no key has the top bit set. |
| RepSocket.XRepSocket.FreeKey | lab2/libs/nanomsg/src/protocols/reqrep/xrep.c:102-107 | The next key is free if and only if no registered pipe was added a multiple of 2^31 additions ago. |
| RepSocket.XRepSocket.Add | lab2/libs/nanomsg/src/protocols/reqrep/xrep.c:86-112 | A pipe is registered under the next key. |
| RepSocket.XRepSocket.Rm | lab2/libs/nanomsg/src/protocols/reqrep/xrep.c:114-127 | A removed pipe and its key are gone, and no other. |
| RepSocket.XRepSocket.Out | lab2/libs/nanomsg/src/protocols/reqrep/xrep.c:140-146 | A pipe becomes ready to send. |
| RepSocket.XRepSocket.Recv | lab2/libs/nanomsg/src/protocols/reqrep/xrep.c:189-247 | A request gets its pipe's key on top, or is dropped when malformed. |
| RepSocket.XRepSocket.Send | lab2/libs/nanomsg/src/protocols/reqrep/xrep.c:154-187 | A reply goes, without its key, to the registered and ready pipe whose key is on top of its header, which is ready no longer if it is released; it is dropped, with nothing changed, exactly when there is no such pipe. |
| RepSocket.SendBy | lab2/libs/nanomsg/src/protocols/reqrep/xrep.c:154-187 | A reply goes to a pipe if and only if that pipe is registered under the key on top of its header and ready; it then has that key taken off. |
| RepSocket.ReplySocket.Recv | lab2/libs/nanomsg/src/protocols/reqrep/rep.c:117-142 | A received request is in progress with its backtrace saved; the one before is cancelled whatever the outcome. |
| RepSocket.ReplySocket.Send | lab2/libs/nanomsg/src/protocols/reqrep/rep.c:92-115 | An error exactly when no request is in progress. Otherwise the reply goes to a registered and ready pipe under the key of the backtrace, or is dropped when there is none; as long as fewer than 2^31 pipes have been added in between it goes to the pipe the request came from if that is still registered and ready, and is dropped if not. The ready flags change only for a pipe that was sent to and released. |
| RepSocket.ReplySocket.OnlyRequesterGetsReply | lab2/libs/nanomsg/src/protocols/reqrep/rep.c:92-142 | Whatever pipes come and go, fewer than 2^31 of them, only the pipe the request came from, by the same registration, can have its key. |
| Routes.ReplyReturns | lab2/libs/nanomsg/src/protocols/reqrep/xrep.c:154-247 | A reply leaves each node by exactly the pipe the request came in by, looked up in the node's table as it is by then, and reaches the requester under its own identifier: with all pipes still registered and ready, if and only if headers stay apart in the right order; and with headers staying apart, if and only if all pipes are. |
| Routes.FollowsKeys | lab2/libs/nanomsg/src/protocols/reqrep/xrep.c:154-187 | With every pipe in place the reply takes the pipes of the request if and only if each node pops its own key. |
| Routes.NeedsPipes | lab2/libs/nanomsg/src/protocols/reqrep/xrep.c:170-180 | Where each node pops its own key the reply takes those pipes if and only if all are in place. |
| Hash.HashTable.Get | lab2/libs/nanomsg/src/utils/hash.c:122-139 | A lookup is that of the map from keys to items. |
| Hash.HashTable.Insert | lab2/libs/nanomsg/src/utils/hash.c:90-112 | Inserting an absent key adds it to the map and every item stays in the slot of its key; over any number of insertions the counter is their number modulo 2^32, and the slots double exactly when the insertions so far are more than half of them and there are fewer than 2^31. |
| Hash.HashTable.Load | lab2/libs/nanomsg/src/utils/hash.c:106-111 | Until the counter wraps it bounds the items, and twice the counter is at most the slots unless those are 2^31. |
| Hash.Init | lab2/libs/nanomsg/src/utils/hash.c:33-44 | A new table is empty, has 32 slots and uses the hash of nn_hash_key. |
| Hash.HashTable.Rehash | lab2/libs/nanomsg/src/utils/hash.c:55-87 | Rehashing doubles the slots, loses and duplicates nothing, and puts every item into its slot. |
| Hash.HashTable.MoveBucket | lab2/libs/nanomsg/src/utils/hash.c:71-83 | Moving one old bucket adds exactly its keys to those moved. |
| Hash.HashTable.Erase | lab2/libs/nanomsg/src/utils/hash.c:114-120 | Erasing removes exactly that key from the map; the counter stays. |
| Hash.CounterStep | lab2/libs/nanomsg/src/utils/hash.c:108-111 | While there are fewer than 2^31 slots, the comparison in 32-bit arithmetic asks for more slots if and only if twice the insertions exceed them, and doubling is then enough. |
| List.List.Insert | lab2/libs/nanomsg/src/utils/list.c:72-87 | The item goes before the given one, or to the end; the links of all items agree with the sequence. |
| List.List.Erase | lab2/libs/nanomsg/src/utils/list.c:89-111 | The item is taken out, is no longer in a list, and the one that followed is returned. |
| List.List.Prev | lab2/libs/nanomsg/src/utils/list.c:55-63 | The item before. |
| List.List.Next | lab2/libs/nanomsg/src/utils/list.c:65-70 | The item after. |
| TimerSet.DeliveredInOrder | lab2/libs/nanomsg/src/aio/timerset.c:41-113 | Over every run of adds, removals, events and time going on: what was delivered is in order of due time with ties in order of addition, so is what is running, nothing is delivered early, and each timeout added, by its number, is exactly once among those delivered, removed and running. |
| TimerSet.DueAsAsked | lab2/libs/nanomsg/src/aio/timerset.c:41-113 | Over every run the clock shows the time that has gone on, and each timeout delivered, running or removed is one that was added, due exactly as long after that call as it said. |
| TimerSet.AddLeadsTo | lab2/libs/nanomsg/src/aio/timerset.c:41-65 | A timeout that is added runs, due that long after now, and the others stay in order. |
| TimerSet.RmLeadsTo | lab2/libs/nanomsg/src/aio/timerset.c:67-80 | A handle that is removed runs no longer, the others stay in order, and removing one that does not run changes nothing. |
| TimerSet.EventLeadsTo | lab2/libs/nanomsg/src/aio/timerset.c:94-113 | An event delivers the first timeout exactly when it is due. |
| TimerSet.RunKeeps | lab2/libs/nanomsg/src/aio/timerset.c:41-113 | What was delivered followed by what is running stays one sequence in that order. |
| TimerSet.DrainDelivers | lab2/libs/nanomsg/src/aio/timerset.c:94-113 | Asking until there is no event delivers everything that is due and nothing else. |
| TimerSet.NarrowRight | lab2/libs/nanomsg/src/aio/timerset.c:89-91 | The waiting time narrowed to 32 bits is right if and only if less than 2^31 ms are left, or the lateness still looks negative in 32 bits. |
| TimerSet.TimeoutSet.Add | lab2/libs/nanomsg/src/aio/timerset.c:41-65 | The timeout is put before the first one that is due later; 1 exactly when it is now the first. |
| TimerSet.TimeoutSet.Rm | lab2/libs/nanomsg/src/aio/timerset.c:67-80 | The timeout is taken out, if it is there, and runs no longer; 1 exactly when it was the first. |
| TimerSet.TimeoutSet.Wait | lab2/libs/nanomsg/src/aio/timerset.c:82-92 | How long to wait for the first timeout, -1 exactly when there is none, and right if and only if the time left narrows to 32 bits. |
| TimerSet.TimeoutSet.Event | lab2/libs/nanomsg/src/aio/timerset.c:94-113 | The first timeout is delivered and taken out exactly when it is due. |
| MsgQueue.MessageQueue.constructor | lab2/libs/nanomsg/src/transports/inproc/msgqueue.c:31-49 | An empty queue on one chunk. |
| MsgQueue.TotalConcat | lab2/libs/nanomsg/src/transports/inproc/msgqueue.c:85-91 | The memory of messages is the sum of the sizes of their headers and bodies. |
| MsgQueue.MessageQueue.Send | lab2/libs/nanomsg/src/transports/inproc/msgqueue.c:80-115 | For any number of slots in a chunk: the message joins the end of the queue, refused exactly when something is queued and the memory limit would be reached; count and memory are those of the queued messages, and two or more take less than the limit. |
| MsgQueue.MessageQueue.NextWrite | lab2/libs/nanomsg/src/transports/inproc/msgqueue.c:99-112 | The spare chunk, if there is one, follows the full one, otherwise a new one; what its own link says is never used. |
| MsgQueue.MessageQueue.Recv | lab2/libs/nanomsg/src/transports/inproc/msgqueue.c:117-146 | The oldest message, or nothing exactly when the queue is empty. |
| MsgQueue.MessageQueue.NextRead | lab2/libs/nanomsg/src/transports/inproc/msgqueue.c:130-138 | A chunk read to its end becomes the spare one exactly when there is none, and is freed otherwise. |
| MsgQueue.MessageQueue.Term | lab2/libs/nanomsg/src/transports/inproc/msgqueue.c:51-73 | Terminating drains the queue, finds one chunk with equal positions, and frees every chunk once. |
| MsgQueue.HeldEmpty | lab2/libs/nanomsg/src/transports/inproc/msgqueue.c:65-67 | A chain holds nothing if and only if it is one chunk with equal positions. |
| PrioList.StepKeeps | lab2/libs/nanomsg/src/protocols/utils/priolist.c:52-176 | Every add, removal, activation and advance keeps: the current slot is that of the highest priority with a pipe, or -1 exactly when there is none; each slot's current pipe is in its list, or NULL exactly when the list is empty. |
| PrioList.PriorityAfter | lab2/libs/nanomsg/src/protocols/utils/priolist.c:52-176 | A pipe has the priority it was added with until it is removed; no other call changes one, and a call leaves all slots alone but the one it is for. |
| PrioList.PriorityGiven | lab2/libs/nanomsg/src/protocols/utils/priolist.c:52-102 | Over every run a pipe has priority k if and only if its last addition gave it k and it has not been removed since. |
| PrioList.GetPipeIsBest | lab2/libs/nanomsg/src/protocols/utils/priolist.c:142-147 | The pipe offered is one of the highest priority listed, and there is none exactly when nothing is listed. |
| PrioList.BestAsGiven | lab2/libs/nanomsg/src/protocols/utils/priolist.c:142-147 | After every run the pipe offered has the best of the priorities that the callers gave to the listed pipes. |
| PrioList.ListedAfter | lab2/libs/nanomsg/src/protocols/utils/priolist.c:52-176 | Which pipes are listed after each call. |
| PrioList.AdvanceTurns | lab2/libs/nanomsg/src/protocols/utils/priolist.c:149-164 | Without release the order of turns rotates by one. |
| PrioList.RmTurns | lab2/libs/nanomsg/src/protocols/utils/priolist.c:60-102 | A removed or released pipe drops out of the order of turns, which is otherwise the same. |
| PrioList.ActivateTurns | lab2/libs/nanomsg/src/protocols/utils/priolist.c:104-135 | An activated pipe joins the order of turns at the end of the list, before those that are due after its end. |
| PrioList.FairStep | lab2/libs/nanomsg/src/protocols/utils/priolist.c:60-176 | Any call that neither serves nor removes a pipe leaves its distance, plus one if its slot gave a turn, at most the old distance, plus one if its slot got a pipe. |
| PrioList.Fair | lab2/libs/nanomsg/src/protocols/utils/priolist.c:60-176 | Over every run a pipe gets its turn, or is removed, before its slot has given more turns than its distance and the activations since. |
| PrioList.FullRound | lab2/libs/nanomsg/src/protocols/utils/priolist.c:149-176 | As many turns as the slot has pipes, nobody released, visit each pipe once in order and lead back to the same state. |
| PrioList.PriorityList.Add | lab2/libs/nanomsg/src/protocols/utils/priolist.c:52-58 | The pipe is stored with the priority given; slots and current slot stay as they are. |
| PrioList.PriorityList.Rm | lab2/libs/nanomsg/src/protocols/utils/priolist.c:60-102 | Removal in place is the removal of the value model and keeps its invariant. |
| PrioList.PriorityList.Activate | lab2/libs/nanomsg/src/protocols/utils/priolist.c:104-135 | Activation in place, likewise. |
| PrioList.PriorityList.Advance | lab2/libs/nanomsg/src/protocols/utils/priolist.c:149-176 | Advance in place, likewise. |
| PrioList.PriorityList.FindTop | lab2/libs/nanomsg/src/protocols/utils/priolist.c:93-101 | The search from the current slot on finds the highest priority that has a pipe. |
| PrioList.PriorityList.Get | lab2/libs/nanomsg/src/protocols/utils/priolist.c:142-147 | The current slot's current pipe, or none. |
| PrioList.PriorityList.Turn | lab2/libs/nanomsg/src/protocols/utils/fq.c:61-83 | A receive of the fair queue, and a send of the load balancer, give the best pipe its turn. |
| Pipe.StepSafe | lab2/libs/nanomsg/src/core/pipe.c:75-217 | From every reachable state of a socket with any number of pipes, no start, stop, send, receive, report of the transport within a call or later, or event fails an assertion (an event of a pipe that is no longer registered is not taken for a success: it ends the run), neither the idle one of a send nor the not-in-list one of an activation; and it is kept that a registered pipe in a list is idle, an idle one is listed or has its event pending and not both, and one that is not idle waits for the transport. |
| Pipe.RunSafe | lab2/libs/nanomsg/src/core/pipe.c:75-217 | No run aborts; it goes through, or ends at the event of a pipe that is gone. |
| Pipe.RunTidy | lab2/libs/nanomsg/src/core/pipe.c:75-217 | A run goes through to its end and leaves no event of a pipe that is gone, if and only if it stops each pipe only once its events have been delivered. |
| Pipe.RunLeaves | lab2/libs/nanomsg/src/core/pipe.c:75-217 | Once the queue holds an event of a pipe that is gone, every further run ends at such an event or leaves one in the queue. |
| Pipe.RunFromFresh | lab2/libs/nanomsg/src/core/pipe.c:49-64 | No run of a new socket aborts, and those just described are exactly the ones that go through and leave nothing. |
| Pipe.StrayRun | lab2/libs/nanomsg/src/core/pipe.c:95-100 | A run of three steps that ends at the event of a pipe that is gone. |
| Pipe.TidyStep | lab2/libs/nanomsg/src/core/pipe.c:95-100 | Starting with no event of an unregistered pipe in the queue, a call leaves one there if and only if it stops a pipe whose event is pending. |
| Pipe.CanMoveExactly | lab2/libs/nanomsg/src/protocols/utils/lb.c:56-59 | With no event left to deliver, there is a pipe to send to if and only if some registered pipe is idle. |
| Pipe.StartGivesPriorities | lab2/libs/nanomsg/src/protocols/reqrep/xreq.c:91-106 | A pipe that is accepted has its send priority in the load balancer and its receive priority in the fair queue, and its OUT event is queued; one that is refused is in neither. |
| Pipe.StepKeepsPriorities | lab2/libs/nanomsg/src/core/pipe.c:75-217 | Every call but its stop leaves both priorities of a registered pipe as they were. |
| Pipe.RunKeepsPriorities | lab2/libs/nanomsg/src/core/pipe.c:75-217 | So does every run in which it is not stopped. |
| Pipe.MoveServesBest | lab2/libs/nanomsg/src/protocols/utils/lb.c:66-85 | A send asks a listed idle pipe of the best send priority, a receive one of the best receive priority, and nobody exactly when none is listed; that pipe stays listed exactly when it is done within the call, and nothing else changes. |
| Pipe.DeliveryLists | lab2/libs/nanomsg/src/core/pipe.c:102-124 | The next event of a registered pipe lists that pipe on its side, and nothing else changes. |
| Pipe.ReportQueues | lab2/libs/nanomsg/src/core/pipe.c:102-124 | The report of the transport makes its pipe idle and puts its event at the end of the queue. |
| Pipe.PipeBase.Start | lab2/libs/nanomsg/src/core/pipe.c:75-93 | The states after a start, and the OUT event, or FAILED when the protocol refuses. |
| Pipe.PipeBase.Stop | lab2/libs/nanomsg/src/core/pipe.c:95-100 | A pipe is taken out of its socket exactly when it was active. |
| Pipe.PipeBase.Sent | lab2/libs/nanomsg/src/core/pipe.c:114-124 | The report of the transport: within the call, or later with an OUT event. |
| Pipe.PipeBase.Received | lab2/libs/nanomsg/src/core/pipe.c:102-112 | The same inward. |
| Pipe.PipeBase.Send | lab2/libs/nanomsg/src/core/pipe.c:180-197 | Idle again at once when the transport is done within the call, otherwise released and waiting. |
| Pipe.PipeBase.Recv | lab2/libs/nanomsg/src/core/pipe.c:199-217 | The same inward. |
| Wire.GetPut | lab2/libs/nanomsg/src/utils/wire.c:43-57 | A word written is read back. |
| Wire.PutGet | lab2/libs/nanomsg/src/utils/wire.c:43-57 | Four bytes read are written back. |
| Wire.WordOrder | lab2/libs/nanomsg/src/utils/wire.c:43-57 | Network byte order: one word is less than another if and only if its bytes are smaller at the first place where they differ. |
| Chunk.AllocIntact | lab2/libs/nanomsg/src/utils/chunk.c:60-96 | The pointer to a new chunk's data leads back to its header and reaches all the data. |
| Chunk.TrimIntact | lab2/libs/nanomsg/src/utils/chunk.c:183-205 | After a trim the new pointer leads back to the same header and reaches exactly the rest of the data. |
| Chunk.TrimShared | lab2/libs/nanomsg/src/utils/chunk.c:183-205 | A second reference to the same chunk keeps its data through a trim if and only if nothing is trimmed. |
| Chunk.HeapChunk.constructor | lab2/libs/nanomsg/src/utils/chunk.c:60-96 | A new chunk in place. |
| Chunk.HeapChunk.TrimFront | lab2/libs/nanomsg/src/utils/chunk.c:183-205 | The trim in place: size and the two words in front of the data. |
| Chunk.HeapChunk.AddRef | lab2/libs/nanomsg/src/utils/chunk.c:168-175 | More references. |
| Chunk.HeapChunk.Free | lab2/libs/nanomsg/src/utils/chunk.c:146-166 | One reference less; at zero the tag is overwritten, so that the pointer is no longer taken for a chunk. |
| ChunkRef.InitBalanced | lab2/libs/nanomsg/src/utils/chunkref.c:42-56 | A new reference holds its data, inline below 32 bytes, and the chunk counts are right. |
| ChunkRef.TermBalanced | lab2/libs/nanomsg/src/utils/chunkref.c:67-75 | Giving a reference up frees the chunk exactly when it was the last one and changes no other data. |
| ChunkRef.CopyAndTerm | lab2/libs/nanomsg/src/utils/chunkref.c:102-111 | A copy that is given up again leaves everything as it was. |
| ChunkRef.TrimTakes | lab2/libs/nanomsg/src/utils/chunkref.c:127-140 | A trim takes bytes off the front; references to other chunks keep their data and all counts stay right. |
| ChunkRef.TrimAndCopies | lab2/libs/nanomsg/src/utils/chunkref.c:127-140 | A copy made before the trim keeps its data if and only if they are inline or nothing is trimmed. |
| ChunkRef.MsgTermBalanced | lab2/libs/nanomsg/src/utils/msg.c:41-46 | Terminating a message gives up its three references. |
| ChunkRef.MsgAddRefBalanced | lab2/libs/nanomsg/src/utils/msg.c:62-67 | Counting for n copies at once is right for n copies, even when parts share a chunk. |
| ChunkRef.Msg.Init | lab2/libs/nanomsg/src/utils/msg.c:27-32 | A new message with empty headers and the given body. |
| ChunkRef.Msg.TermMsg | lab2/libs/nanomsg/src/utils/msg.c:41-46 | Termination in place. |
| ChunkRef.Msg.MoveFrom | lab2/libs/nanomsg/src/utils/msg.c:48-53 | A move hands the references over and changes no count. |
| ChunkRef.Msg.CopyFrom | lab2/libs/nanomsg/src/utils/msg.c:55-60 | A copy has the same data and one more reference each. |
| ChunkRef.Msg.BulkStart | lab2/libs/nanomsg/src/utils/msg.c:62-67 | The references of all copies are counted at once. |
| ChunkRef.Msg.BulkCopyFrom | lab2/libs/nanomsg/src/utils/msg.c:69-74 | A copy after that changes no count. |
| ChunkRef.Store.TrimRef | lab2/libs/nanomsg/src/utils/chunkref.c:127-140 | The trim of a reference in place. |
| Dist.ReceiversAre | lab2/libs/nanomsg/src/protocols/utils/dist.c:86-103 | The receivers are exactly the listed pipes other than the excluded one, each once, in the order of the list. |
| Dist.StayingAre | lab2/libs/nanomsg/src/protocols/utils/dist.c:66-107 | A pipe stays in the list if and only if it was excluded or did not ask to be released; the order is that of the list. |
| Dist.KeptAre | lab2/libs/nanomsg/src/protocols/utils/dist.c:66-107 | The copies still with a pipe are as many as the pipes that were sent one and have not given it up. |
| Dist.Distributor.Out | lab2/libs/nanomsg/src/protocols/utils/dist.c:60-64 | A ready pipe joins the list, and the count stays its length. |
| Dist.Distributor.Rm | lab2/libs/nanomsg/src/protocols/utils/dist.c:51-58 | A removed pipe leaves the list, if it is there, and the count stays its length. |
| Dist.Distributor.Send | lab2/libs/nanomsg/src/protocols/utils/dist.c:66-107 | For any list, any excluded pipe and any mix of pipes that are released, that keep their copy or have given it up already: each receiver is sent exactly one copy of the same message in order, the count stays the length of the list, exactly the released pipes leave it, and each chunk has as many references as it has holders and exists exactly while it has one. |
| Chloros.StepKeeps | lab1/src/chloros.cpp:116-270 | From every reachable state, Spawn, Yield, Wait by the initial thread and the exit of a spawned one: the scheduler never runs out of threads, each thread has exactly one place, exactly the exiting one is lost and the spawned one added, no zombie is left in the queue, and Wait returns exactly when it is pending and no other thread is left. |
| Chloros.RunKeeps | lab1/src/chloros.cpp:108-270 | Over every run the assertion after an exit is not reached, no zombie is in the queue while a thread runs its own code, and Wait returns only with an empty queue. |
| Chloros.SpawnRunsNext | lab1/src/chloros.cpp:116-164 | The spawned thread runs next, and the spawner is at the back of an otherwise unchanged queue. |
| Chloros.RoundRobin | lab1/src/chloros.cpp:166-221 | With n threads that are not in Wait, n consecutive Yield(false) run each of them exactly once in order and restore the current thread and the order of the queue. |
| Chloros.YieldRotates | lab1/src/chloros.cpp:166-221 | One Yield(false) moves the threads that are not in Wait up by one place, also when the initial thread is passed over inside its Wait. |
| Chloros.WaitBySpawned | lab1/src/chloros.cpp:223-228 | Wait called by a spawned thread returns at once if and only if no thread in the queue is ready, with the queue as it was and not empty; otherwise another thread runs. |
| Chloros.YieldStays | lab1/src/chloros.cpp:166-221 | Yield(true) returns false and leaves everything as it is if and only if no thread in the queue is ready. |
| Chloros.YieldToReady | lab1/src/chloros.cpp:166-221 | Otherwise the first ready thread of the queue runs, and the caller is behind the others, whose order is unchanged. |
| Chloros.YieldToFront | lab1/src/chloros.cpp:166-221 | Yield(false) runs the front of the queue, the caller being behind the others; the initial thread, when it is in Wait, passes on to the next one or returns. |
| Chloros.ExitToFront | lab1/src/chloros.cpp:262-270 | After an exit the front of the queue runs, likewise, and the others stay in their order. |
| Chloros.WaitToFront | lab1/src/chloros.cpp:223-228 | Wait by the initial thread runs the front of the queue, and returns exactly when there is none. |
| Chloros.WaitOfASpawnedThread | lab1/src/chloros.cpp:223-228 | A state reached by one Spawn in which that happens. |
| Chloros.Scheduler.YieldAway | lab1/src/chloros.cpp:166-216 | The search and the switch in place; there is a switch if and only if some thread in the queue is ready, or waiting when those count too, and is not the initial one while that calls. |
| Chloros.Scheduler.GarbageCollect | lab1/src/chloros.cpp:230-245 | The zombies go and the others stay in order. |
| Chloros.Scheduler.GetThreadCount | lab1/src/chloros.cpp:247-260 | The counts; between calls there are no zombies and all queued threads are counted. |
| Chloros.Scheduler.Spawn | lab1/src/chloros.cpp:116-164 | Spawn in place; the new thread is current afterwards. |
| Chloros.Scheduler.Yield | lab1/src/chloros.cpp:166-221 | Yield in place. |
| Chloros.Scheduler.Wait | lab1/src/chloros.cpp:223-228 | Wait in place; it returns to its caller if and only if the queue is empty. |
| Chloros.Scheduler.Exit | lab1/src/chloros.cpp:262-270 | The exit in place: another thread runs, and the exited one is gone. |

## Left out

- Req: the worker thread is one thread that runs the timer's tasks in the order in which they were queued, between sections of the context, as `worker_posix.inc` does; its poller and the other sockets it serves are not modelled.
- ReqSocket.RequestSocket.CSend: requires the resend interval not to be negative where the request would be sent; the abort otherwise is `ReqRuns.StepSafe`.
- Req: the timer is armed or not; the interval it is armed with is the one it was started with, as the timer set is asked for it.
- ReqSocket.RequestSocket.CRecv: the memory of a reply slot that is overwritten without being freed is not tracked, only what the slot holds.
- Req: the load balancer and the fair queue under REQ are the environment's choice of a ready pipe and of the replies that are there; their own behaviour is in `PrioList` and `Pipe`.
- TrieHeap: freeing memory is not modelled; nodes that are no longer linked are just no longer part of the trie. Dumping and termination of the trie are left out.
- TrieHeap.SubscriptionTrie.Unsubscribe: requires that the walk does not crash; exactly when it does is `TrieAbsent.UnsubscribeCrashes`.
- XSub.SubSocket.SetOpt: requires that a removal does not crash; exactly when it does is `TrieAbsent.UnsubscribeCrashes`.
- XSub.SubSocket.Recv: the fair queue is the sequence of messages it will hand out, each with the readable memory behind it; a read beyond that memory matches nothing.
- RepSocket.XRepSocket.Recv: the pipe and its message are parameters; the choice of the fair queue is `PrioList`. The hash table of pipes is a map here; `Hash` shows that the table is one.
- RepSocket.XRepSocket.Add: requires the next key to be free, which the insertion into the table asserts; `FreeKey` says exactly when it is.
- Hash: the order of items within a slot is not stated. The laws hold for any hash function on 32-bit words; `Hash.Init` gives a table the one of the code.
- List.List.Insert: the place of the neighbour in the list is an extra ghost parameter.
- TimerSet: timeouts are assumed not to be negative and the clock not to go back; the 64-bit sum of clock and timeout does not wrap. The list of handles is a sequence; `List` has the links.
- MsgQueue: sums of sizes do not wrap 64 bits; freeing a message's memory is `ChunkRef`.
- PrioList: pipe handles are numbers, and each slot's list is a sequence; `List` has the links. Statistics are left out.
- Pipe: the composition of pipes, lists and events is a machine on values, because a socket owns all of them at once; the fields of one pipe are also a class. What a transport does is only when it reports, within a send or receive or later, once for each.
- Pipe.StepSafe: an event of a pipe that is gone ends the run, because the code then works on the pipe's freed data; `Pipe.RunTidy` says exactly which runs have none.
- Dist.Distributor.Send: what each pipe answers is a parameter; that it cannot fail is `Pipe`. Reference counts do not wrap 32 bits.
- ChunkRef: chunks are named by numbers and reused by nobody; deallocation functions other than the default one, and the conversion of a reference to a chunk of its own, are left out.
- Chunk: reallocation is left out, because it ignores the space in front of trimmed data. The sizes of the header's fields do not matter and are left out.
- Chloros: contexts, stacks, their layout and alignment, and the lock; several kernel threads, for which the code has no atomic switch. Thread numbers do not wrap.
- Chloros.StepKeeps: only the initial thread calls Wait; `WaitOfASpawnedThread` shows why.
- Surveyor, bus, pair and pipeline sockets repeat the REQ machine, the broadcast, the fair queue and the load balancer.
- Transports, poller, worker threads, sockets of the operating system, clocks, random numbers, options, statistics, devices and tools: environment, represented by parameters and by the order of steps.
- Failed allocations.
- The file server of lab 2, its client and its command line: system calls, foreign libraries and wrappers.
