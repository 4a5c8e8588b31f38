# A verified model of the MineMeld engine

The MineMeld engine (`mm-ng-core/minemeld`) runs a graph of nodes. Miners poll
feeds and publish indicators; the nodes below them subscribe, transform and
publish in turn. A master starts the graph, and stops it with a checkpoint that
travels through it. This project models the five parts of the engine whose
correctness depends on long runs and many parties, and proves what each keeps.

## What is modelled

**Topics** (`KeyNames`, `TopicProtocol`, `TopicTheorems`, `TopicStorage`,
`LateJoiners`, `OverlappingCalls`, `TopicChannels`). A publisher and its subscribers
share a log that Redis holds as lists of 4096 messages. Each access to Redis is one
atomic action, and actions of the publisher and of any number of subscribers
interleave freely. The publisher waits when the slowest published counter is more
than 1024 behind, looks every 128 messages, and deletes old lists by comparing key
names as strings. `TopicChannels` holds the channel objects as classes and shows that
their uninterrupted calls are runs of this protocol. `OverlappingCalls` is about
several calls of `publish` on one channel at a time.

**Fan-out requests** (`RpcFanout`). The collector of replies to broadcast requests,
as a class and as a state machine over arbitrary sends and replies.

**Nodes and the checkpoint barrier** (`Nodes`, `Handlers`, `Graphs`, `Barrier`,
`BarrierTheorems`, `BarrierLosses`, `BarrierLogs`, `BarrierExamples`). A node is a class
whose methods change its state, the checkpoints of its inputs and its checkpoint file. `Handlers` cuts these methods at
every change of the file. The barrier is a network of nodes with cut handlers, joined
by logs that are read in order; `TopicTheorems.TopicIsFifo` says that a topic is such
a log. Any node may publish data at any time, whatever its state, as `base.py` allows.

**Start-up planning and restarts** (`RunConfig`, `StartupPlanner`, `PlannerTheorems`,
`Lifecycle`). The check for cycles, the comparison of two configurations, the
component search and the planner are imperative methods, proved against declarative
specifications. `Lifecycle` lets a process die between any two steps of a handler. It
follows one node over any number of crashes and restarts, and the whole engine over a
crash at any instant of a barrier and a restart with any new configuration. A changed
configuration text is not reported as a change of the graph; the checkpoint file shows it.

**Polling miners** (`BasePoller`, `PollerTheorems`, `PollerFaithful`, `PollerFeeds`,
`PollerRows`, `PollerActor`). The table of a miner, what the nodes below it have been told, and the commands that change both,
also where something raises on the way. What the nodes below hold is computed from
the messages the miner publishes.

**Metrics** (`MetricsStore`). Turning samples into series of time buckets.

## What the proofs found

Where a promise does not hold of the code, the code is modelled as it is and the
condition under which the promise holds is proved.

- **Publishing after the checkpoint.** Nothing in `base.py` keeps a node from publishing
  once it is IDLE. Polling miners check their state before every command. `SyslogMiner`
  and `SyslogMatcher` (`ft/syslog.py`) publish for each syslog message without looking at
  it, and `PanOSLogsAPIFT` (`ft/panos.py`) does so when indicators age out. Without
  repeated inputs, a barrier loses no message, now or however the rest is delivered, if
  and only if no node with subscribers publishes behind its own checkpoint
  (`NothingLostExactly`). Each message published there is lost on every subscriber,
  which raises an assertion or counts a wrong state (`LateIsLost`). What each IDLE
  node has consumed up to the checkpoints holds in every run (`ConsistentCut`).
- **Repeated inputs.** `validate_config` accepts a node that lists the same input twice.
  Such a node counts one checkpoint for two inputs and never becomes IDLE
  (`RepeatedInputBlocks`). A barrier that has come to rest is complete exactly when no
  node has a repeated input (`BarrierCompletes`). Messages get lost too: the
  checkpoint on one subscription overtakes messages on the other, which then raise
  (`ListedTwiceRaises`). On a valid graph, silence behind checkpoints is enough to lose
  nothing if and only if no node repeats an input (`SilenceSufficesExactly`). On any
  graph, no message is in danger at any moment of a run if and only if, besides, no node
  announces its checkpoint while a subscriber that lists it twice is behind with one
  of the two subscriptions (`NeverInDangerExactly`).
- **Empty checkpoint files.** `create_checkpoint` opens the file, which empties it, and
  then writes. The documentation of `read_checkpoint` promises that an invalid file
  reads as no checkpoint; the code takes the first character of an empty file,
  which raises an error it does not catch. A node fails to come back exactly when it
  died between the two (`BootFailsExactly`), and one such node leaves the engine without
  a plan (`EngineBootsExactly`, `OneDeathIsEnough`).
- **Attributes without a name.** The code looks at the first character of every attribute's
  key, which raises on an empty key; a CSV feed whose header ends in a comma delivers one
  (`ft/csv.py:108`). The row is stored before its announcement raises. A new row then is
  missing downstream. Over all runs on a feed no row within its limit is missing, if
  and only if no indicator has, with the miner's template, such a key and a limit still
  to come (`NothingMissingExactly`). A row that was announced before goes stale: receivers
  keep the old value (`StaleThoughNeverMissing`). One listing leaves the view faithful if
  and only if it spoils it in neither way (`ItemFaithfulExactly`, `RefreshCurrentExactly`).
  Over all runs the view is faithful, if and only if no listing of the feed spoils
  complete polls of a single indicator (`FaithfulExactly`). Later polls that list such
  a row raise too (`NamelessStopsPolls`). An age-out gets through to all expired rows
  exactly when none of them has such a key (`AgeOutCompletes`), and a full cycle leaves
  downstream exact exactly when every unmarked row with such a key is in the feed, within
  its limit, announced and current (`CycleExactly`).
- **Rules on `last_seen`.** The documentation of `BasePollerFT` promises that a rule
  on `last_seen` counts from the latest time at which the feed listed the indicator.
  The code sets `last_seen` when an indicator enters and never again: `_update_attributes`
  is given the time of the poll and does not use it. A refresh meets the promise if and
  only if the feed itself gives that time (`LastSeenExactly`). On a feed that gives neither
  attribute such a rule is a rule on `first_seen`, in every run (`LastSeenIsFirstSeen`), and
  an indicator listed by every poll is withdrawn (`ListedYetWithdrawn`).
- **Rebuild.** `_rebuild` announces every row, also rows already marked as withdrawn.
  The downstream view stays in step exactly when no row it gets through is marked
  (`RebuildKeepsInv`, `RebuildExactly`). A marked row that it announces is not withdrawn
  again by any age-out, flush or collection (`ResurrectedIsNeverWithdrawn`).
- **Overlapping calls.** A call of `publish` chooses its list before it appends and counts
  after it. Calls may overlap where several greenlets publish, as in `ft/panos.py`
  and `ft/syslog.py`. The log is cut into full lists if and only if no call begins
  while the calls under way fill the current list (`OverlapExactly`). What a list holds
  behind its 4096th message is never read (`SurplusIsNeverRead`), some other list is
  short for it (`SurplusMeansShort`), and no subscriber ever gets beyond a list that
  stays short (`LeftBehind`, `ShortListStops`). Overlapping calls also skip the checks: two
  calls at a time can publish any number of messages into a well-cut log without one
  look at the subscribers' counters and without one collection (`NothingThrottles`), so
  the bounds on backlog and storage hold for calls that do not overlap.
- **Key names.** `{:013X}` grows to fourteen digits at list 16^13, and fourteen-digit
  names sort below the last thirteen-digit one. Comparing names agrees with comparing
  numbers for exactly the lists below 16^13 (`KeyOrderExact`). A topic holds a third list
  exactly during lists 16^w + 1 to 16^(w+1) - 16, for each w of 13 or more, and never a
  fourth (`ListsExactly`, `ListsBound`). No unread message is deleted in either case
  (`NeverDeletesUnread`).
- **Late subscribers.** A subscriber starts at message 0 whenever it registers. It is
  safe from waiting for ever exactly when fewer than 4096 messages were counted, or
  list 0 is still there and no collection is under way (`LateJoinExactly`). Past
  that it is never handed a message and holds the slowest counter at zero for ever
  (`LateJoinerStarves`), while in time it receives everything (`InTimeJoinerReceives`).

## How the proofs are organised

Each state machine has an `Apply`/`Step`/`Next` function for one atomic step, a `Run`
over a sequence of steps, an invariant, one lemma for each kind of step, and theorems
about `Run` for all sequences. Methods and classes follow the imperative code. Their
`ensures` equate the new state with the step function, or state the result
outright. Where the code leaves an order open (iteration over a set or a
dictionary, ties between checkpoints), so does the model. A class's actor command
takes the clock value it reads as a parameter.

`dafny verify dfyconfig.toml` checks everything.

## Model

| member | source | states |
|---|---|---|
| `KeyNames.QueueNameInjective` | `mm-ng-core/minemeld/comm/zmqredis.py:165-168` | Two lists of a topic never share a key, however many messages there are. |
| `KeyNames.DigitsOrder` | `mm-ng-core/minemeld/comm/zmqredis.py:119-127` | Zero-padded hexadecimal strings of one width are ordered, and told apart, as their numbers are. |
| `KeyNames.QueueOrderWraps` | `mm-ng-core/minemeld/comm/zmqredis.py:119-127` | For every w of 13 or more, the name of list 16^w - 1 sorts above those of lists 16^w to 16^(w+1) - 17 and below those of the last sixteen of that width. |
| `KeyNames.WiderOrder` | `mm-ng-core/minemeld/comm/zmqredis.py:119-127` | A name sorts below one that is a digit longer exactly when its number is at most the longer number without its last digit. |
| `KeyNames.KeyOrderExact` | `mm-ng-core/minemeld/comm/zmqredis.py:119-127` | Comparing key names as strings agrees with comparing list numbers, for all numbers below a limit, if and only if the limit is at most 16^13 = 4503599627370496. |
| `TopicProtocol.BatchIsNextStretch` | `mm-ng-core/minemeld/comm/zmqredis.py:747-754` | A batch is exactly the next stretch of the log, has at most 128 messages, does not reach into the next list, and is empty only at the end of the log. |
| `TopicProtocol.CollectionIsSafe` | `mm-ng-core/minemeld/comm/zmqredis.py:116-134` | Every list about to be deleted lies strictly below the list of each subscriber's published counter and below the one it reads next, although the counters were read earlier. |
| `TopicProtocol.NextListIsLive` | `mm-ng-core/minemeld/comm/zmqredis.py:746-754` | The list a subscriber reads next is there as long as it has something to read. |
| `TopicProtocol.ApplyKeepsDelivery` | `mm-ng-core/minemeld/comm/zmqredis.py:101-171` | Each atomic action keeps what delivery rests on: the log cut into named lists, needed lists alive, every subscriber a prefix of the log. |
| `TopicProtocol.ApplyKeepsInv` | `mm-ng-core/minemeld/comm/zmqredis.py:136-171` | Each atomic action also keeps the window: no more than 1025 + num_publish mod 128 ahead, no more than 1024 past a check. |
| `TopicTheorems.LogIsAccepted` | `mm-ng-core/minemeld/comm/zmqredis.py:136-171` | The log, with the message in hand, is exactly the sequence of messages given to publish. |
| `TopicTheorems.ExactlyOnceInOrder` | `mm-ng-core/minemeld/comm/zmqredis.py:739-775` | In every interleaving, what a subscriber's callback has been handed is exactly a prefix of the log, in order, between its acknowledged counter and the log's length. |
| `TopicTheorems.TopicIsFifo` | `mm-ng-core/minemeld/comm/zmqredis.py:739-775` | Each action appends one message to the log, or hands a subscriber the very next one, or neither: lists and batches refine a log read in order. |
| `TopicTheorems.NeverDeletesUnread` | `mm-ng-core/minemeld/comm/zmqredis.py:116-134` | In every run, each list that a collection removes lies below the list each subscriber reads next. |
| `TopicTheorems.BacklogBound` | `mm-ng-core/minemeld/comm/zmqredis.py:140-158` | num_publish minus any published counter is at most 1025 + (num_publish mod 128), hence at most 1152. |
| `TopicStorage.ListsBound` | `mm-ng-core/minemeld/comm/zmqredis.py:156-171` | At every moment a topic holds at most two lists, and at most three during lists 16^w + 1 to 16^(w+1) - 16 for some w of 13 or more. |
| `TopicStorage.ListsExactly` | `mm-ng-core/minemeld/comm/zmqredis.py:116-171` | Inside any list, whatever its number, a topic holds exactly one list if it is the first, three if it is one of those, and two otherwise. |
| `TopicTheorems.BlockedLeavesWork` | `mm-ng-core/minemeld/comm/zmqredis.py:148-154` | Whenever the publisher waits on the window, some subscriber still has a step to take. |
| `TopicTheorems.SubscriberProgress` | `mm-ng-core/minemeld/comm/zmqredis.py:746-770` | The step of a subscriber that has not caught up strictly decreases a non-negative measure of the work left, and leaves the publisher alone. |
| `TopicTheorems.SubscribersDrain` | `mm-ng-core/minemeld/comm/zmqredis.py:746-770` | From every reachable state the subscribers alone can take delivery of the whole log in as many steps as the measure says, and so release the publisher. |
| `TopicTheorems.QuietMeansDelivered` | `mm-ng-core/minemeld/comm/zmqredis.py:746-775` | When no subscriber can move, each has been handed the whole log. |
| `LateJoiners.LateJoinExactly` | `mm-ng-core/minemeld/comm/zmqredis.py:588-599` | A subscriber that registers now can never be left waiting for a deleted list, in any run, if and only if it is in time. |
| `LateJoiners.InTimeJoinerReceives` | `mm-ng-core/minemeld/comm/zmqredis.py:588-599` | A subscriber that registers in time is handed the log from its first message, in order, in every run. |
| `LateJoiners.LateJoinerStarves` | `mm-ng-core/minemeld/comm/zmqredis.py:588-599` | After list 0 has been collected, a new subscriber is never handed anything and keeps the slowest counter at zero. |
| `OverlappingCalls.OverlapExactly` | `mm-ng-core/minemeld/comm/zmqredis.py:136-171` | For any number of overlapping calls, once all have returned: every list but the last is full and none is overfull, if and only if no call began while num_publish mod 4096 plus the calls under way reached 4096. |
| `OverlappingCalls.OneAtATime` | `mm-ng-core/minemeld/comm/zmqredis.py:136-171` | Calls that do not overlap meet that condition. |
| `OverlappingCalls.UnspacedRun` | `mm-ng-core/minemeld/comm/zmqredis.py:136-171` | Two calls that begin after 4095 messages do not meet it: such runs exist. |
| `OverlappingCalls.NothingThrottles` | `mm-ng-core/minemeld/comm/zmqredis.py:140-158` | For every n there is a run of two calls at a time that publishes 2n messages into a well-cut log and in which no call reaches the check of the window or a collection. |
| `OverlappingCalls.SurplusIsNeverRead` | `mm-ng-core/minemeld/comm/zmqredis.py:747-754` | Every batch of a subscriber is the same as if the lists ended at their 4096th message. |
| `OverlappingCalls.SurplusMeansShort` | `mm-ng-core/minemeld/comm/zmqredis.py:136-171` | After a bad cut, once all calls have returned, some list holds fewer messages than its share of the first num_publish. |
| `OverlappingCalls.LeftBehind` | `mm-ng-core/minemeld/comm/zmqredis.py:137-171` | A list that num_publish has passed and that no call is bound for never changes again, in any run. |
| `OverlappingCalls.ShortListStops` | `mm-ng-core/minemeld/comm/zmqredis.py:746-763` | A subscriber that is not beyond a list with fewer than 4096 messages does not get beyond its end. |
| `TopicChannels.RedisPubChannel.ReadSlowest` | `mm-ng-core/minemeld/comm/zmqredis.py:101-114` | The least published counter, or num_publish without subscribers. |
| `TopicChannels.RedisPubChannel.Gc` | `mm-ng-core/minemeld/comm/zmqredis.py:116-134` | Exactly the lists whose names sort below the lagger's list are removed. |
| `TopicChannels.RedisPubChannel.TryPublish` | `mm-ng-core/minemeld/comm/zmqredis.py:136-171` | Goes to sleep, changing nothing, exactly when num_publish mod 128 is 127 and some subscriber is more than 1024 behind; otherwise counts one message and leaves the lists collected and appended to. |
| `TopicChannels.RedisSubChannel.Connect` | `mm-ng-core/minemeld/comm/zmqredis.py:588-599` | A counter of zero is appended, and the subscriber's number is its place. |
| `TopicChannels.RedisSubChannel.DrainOnce` | `mm-ng-core/minemeld/comm/zmqredis.py:746-775` | One turn hands over exactly the next batch, advances by its length, publishes the counter only if something came, and goes on without a sleep exactly when the batch has 128 messages or all that the list can still hold. |
| `TopicChannels.PublishIsRun` | `mm-ng-core/minemeld/comm/zmqredis.py:136-171` | A call of publish that does not wait leaves the lists, log and count that the protocol's six actions leave. |
| `TopicChannels.DrainIsRun` | `mm-ng-core/minemeld/comm/zmqredis.py:746-770` | A turn of the draining loop is the protocol's read, deliveries and counter write. |
| `TopicChannels.WaitsExactly` | `mm-ng-core/minemeld/comm/zmqredis.py:140-154` | An attempt waits if and only if num_publish mod 128 is 127 and num_publish minus some published counter exceeds 1024. |
| `TopicWindow.BacklogIsReached` | `mm-ng-core/minemeld/comm/zmqredis.py:140-158` | The bound on the backlog is attained: from the start, some run leaves the publisher 1152 messages ahead of its one subscriber, and waiting. |
| `TopicWindow.PublishPlaces` | `mm-ng-core/minemeld/comm/zmqredis.py:137-171` | A call that does not wait puts its message at place num_publish mod 4096 of list num_publish / 4096, and counts it. |
| `TopicWindow.BatchSize` | `mm-ng-core/minemeld/comm/zmqredis.py:747-754` | A batch has 128 messages, or fewer where the list or the log ends. |
| `RpcFanout.FanoutClient.SendRpc` | `mm-ng-core/minemeld/comm/zmqredis.py:242-256` | A request for no results is answered at once; any other is entered with no answers. |
| `RpcFanout.FanoutClient.OnReply` | `mm-ng-core/minemeld/comm/zmqredis.py:191-220` | A reply without source or id, or for an unknown id, changes nothing; otherwise it is counted, and the result is set and the request forgotten at num_results. |
| `RpcFanout.RequestsDoNotInterfere` | `mm-ng-core/minemeld/comm/zmqredis.py:183-220` | Among any number of concurrent requests each evolves as if it were alone. |
| `RpcFanout.CountIsExact` | `mm-ng-core/minemeld/comm/zmqredis.py:205-220` | A pending request has fewer than num_results counted replies, a finished one exactly that many. |
| `RpcFanout.ResultSetOnce` | `mm-ng-core/minemeld/comm/zmqredis.py:183-220` | Under any order of late, repeated and unknown replies each result is set at most once, at exactly num_results. |
| `RpcFanout.DoneExactly` | `mm-ng-core/minemeld/comm/zmqredis.py:205-220` | A request is finished if and only if the distinct sources that answered it since it was sent and the replies without a result are num_results or more together; the result holds the latest answer of each source at that moment, and a pending request what has been collected so far. |
| `RpcFanout.AnswersAreReplies` | `mm-ng-core/minemeld/comm/zmqredis.py:205-212` | Every collected answer was sent by that source in reply to that request. |
| `RpcFanout.NodeOfSlave` | `mm-ng-core/minemeld/mgmtbus.py:237` | Splitting off two colon-separated parts gives back the node's name, even a name with colons. |
| `RpcFanout.InitGraphSeesEveryNode` | `mm-ng-core/minemeld/mgmtbus.py:187-239` | With no errors and results only from the graph's nodes, the planner gets a genuine entry for every node and for no other. |
| `Nodes.BaseFT.constructor` | `mm-ng-core/minemeld/ft/base.py:231-303` | A new node is READY and holds the checkpoint of a file whose configuration matches or is missing, and none otherwise. |
| `Nodes.BaseFT.ConnectTo` | `mm-ng-core/minemeld/ft/base.py:352-385` | Only a READY node is connected; its inputs and output are set and no input counts as checkpointed. |
| `Nodes.BaseFT.Emit` | `mm-ng-core/minemeld/ft/base.py:463-471` | Messages go to the topic of a node with an output, and nowhere without one. |
| `Nodes.BaseFT.ReceiveData` | `mm-ng-core/minemeld/ft/base.py:473-517` | In a wrong state only the error is counted; from a checkpointed source it raises and changes nothing; otherwise exactly the node's reaction is published. |
| `Nodes.BaseFT.ReceiveCheckpoint` | `mm-ng-core/minemeld/ft/base.py:567-593` | Raises in a wrong state or on a different value; waits in CHECKPOINT for the other inputs; at the last one saves, records and publishes the value and is IDLE. |
| `Nodes.BaseFT.MgmtbusCheckpoint` | `mm-ng-core/minemeld/ft/base.py:679-688` | A source saves, records and publishes the value and is IDLE; a node with inputs ignores the command. |
| `Nodes.BaseFT.MgmtbusCommand` | `mm-ng-core/minemeld/ft/base.py:639-657` | Each start-up command removes the file and ends in INIT. |
| `Nodes.BaseFT.StartNode` | `mm-ng-core/minemeld/ft/base.py:749-756` | Only a node in INIT starts. |
| `Nodes.BaseFT.StopNode` | `mm-ng-core/minemeld/ft/base.py:758-771` | Only an IDLE or STARTED node stops. |
| `Handlers.CommandAgrees` | `mm-ng-core/minemeld/ft/base.py:639-657` | A start-up command cut at its change of the file does, uninterrupted, what the whole handler does: from any state it ends in INIT without a file. |
| `Handlers.MgmtCheckpointAgrees` | `mm-ng-core/minemeld/ft/base.py:679-688` | The same for the master's checkpoint command, and with it for creating the file; a source obeys in any state. |
| `Handlers.CheckpointAgrees` | `mm-ng-core/minemeld/ft/base.py:584-593` | The same for the checkpoint of the last input. |
| `Barrier.NextIsAtCut` | `mm-ng-core/minemeld/ft/base.py:590-593` | A message about to be delivered is a checkpoint exactly when it stands at the cut of its log, and then carries the master's value. |
| `Barrier.IdleHasConsumed` | `mm-ng-core/minemeld/ft/base.py:579-593` | An IDLE node has read each input past the input's checkpoint, and that input has announced it, also when nodes publish after their checkpoint. |
| `Barrier.CheckpointKeepsInv` | `mm-ng-core/minemeld/ft/base.py:567-593` | Delivering a checkpoint keeps the invariant and never raises, in any network. |
| `Barrier.DataKeepsInv` | `mm-ng-core/minemeld/ft/base.py:473-487` | Delivering an update or withdraw keeps the invariant, whatever the node publishes in response. |
| `Barrier.RunKeepsInv` | `mm-ng-core/minemeld/ft/base.py:407-593` | Every run of commands, handler steps, deliveries and emissions, in any state of the emitter, keeps the barrier's invariant. |
| `BarrierTheorems.ConsistentCut` | `mm-ng-core/minemeld/ft/base.py:567-593` | In every run, from the moment a node is IDLE its state, inputs and, once announced, its checkpoint and file stay for ever, and it has consumed each input's log up to and including the checkpoint; that part of the log never changes. |
| `BarrierLosses.LateIsLost` | `mm-ng-core/minemeld/ft/base.py:407-487` | A message behind a checkpoint is lost on each subscriber: one that runs raises, one that is IDLE counts a wrong state, and nothing else changes. |
| `BarrierLosses.NothingLostExactly` | `mm-ng-core/minemeld/ft/base.py:407-593` | Without repeated inputs, a run loses no message, now or however the rest is delivered, if and only if in it no node with subscribers publishes behind its own checkpoint. |
| `BarrierLosses.NeverInDangerExactly` | `mm-ng-core/minemeld/ft/base.py:407-593` | On any graph: at no moment of a run can any way of delivering what is published lose a message, if and only if no node with subscribers publishes behind its checkpoint and none announces while a subscriber that lists it twice is behind with one subscription. |
| `BarrierLosses.SilenceSufficesExactly` | `mm-ng-core/minemeld/ft/base.py:567-593` | On a valid acyclic graph, every run silent behind checkpoints loses nothing, if and only if no node lists an input twice. |
| `BarrierExamples.ListedTwiceRaises` | `mm-ng-core/minemeld/ft/base.py:485-487` | A source that publishes once and then its checkpoint, and a node that lists it twice: a silent run raises an assertion. |
| `BarrierExamples.LateEmissionIsLoud` | `mm-ng-core/minemeld/ft/base.py:407-433` | A source that publishes once more after its checkpoint is not silent: such runs exist. |
| `BarrierLosses.NoAssertionFires` | `mm-ng-core/minemeld/ft/base.py:485-487` | On any graph, a careful run raises none of the assertions about updates, withdraws and checkpoint values and discards no message; without repeated inputs every run silent behind checkpoints is careful. |
| `BarrierLosses.SilentCutIsFinal` | `mm-ng-core/minemeld/ft/base.py:567-593` | On any graph, if no node publishes behind its checkpoint, an IDLE node has consumed everything each input has published or ever will. |
| `BarrierLosses.StartedEmittersAreSilent` | `mm-ng-core/minemeld/ft/basepoller.py:411-416` | Nodes that publish only while STARTED, as polling miners do, meet the condition. |
| `BarrierLogs.LogIsSaid` | `mm-ng-core/minemeld/ft/base.py:407-517` | In every run of every network, the log of a node with an output grows, in order, by exactly its own messages, its reactions to the updates and withdraws it accepts (STARTED or CHECKPOINT, source not checkpointed), and its checkpoint; without an output it stays as it is. |
| `BarrierLogs.ReactionIsPublished` | `mm-ng-core/minemeld/ft/base.py:473-517` | An update or withdraw delivered to a running node from an input whose checkpoint it has not read appends exactly the node's reaction to its log, and nothing raises. |
| `BarrierLogs.CheckpointOnce` | `mm-ng-core/minemeld/ft/base.py:567-593` | What a node has said in a barrier contains the master's checkpoint once if it has announced it, and no checkpoint before. |
| `BarrierLogs.HandedInOrder` | `mm-ng-core/minemeld/ft/base.py:407-593` | In every run each subscription hands over its input's log from where it stood, each message once and in order. |
| `BarrierLogs.CarefulLog` | `mm-ng-core/minemeld/ft/base.py:473-517` | In a careful run no reaction is dropped: the log is the node's own messages, its reactions to all that is handed to it, and its checkpoint. |
| `BarrierLogs.MixedIsRefused` | `mm-ng-core/minemeld/ft/base.py:567-582` | A checkpoint is refused, with no change, if and only if the node does not run or has noted another value. |
| `BarrierLogs.TakenIsNoted` | `mm-ng-core/minemeld/ft/base.py:584-593` | A checkpoint that is taken is noted; the node is IDLE exactly when it has noted as many inputs as it lists, waits in CHECKPOINT until then, and cannot be stopped meanwhile. |
| `BarrierLogs.NeverIdleOnMixed` | `mm-ng-core/minemeld/ft/base.py:579-593` | Whatever inputs send, all noted values are equal and a node is never IDLE on mixed values. |
| `BarrierTheorems.BarrierCompletes` | `mm-ng-core/minemeld/ft/base.py:567-593` | On a valid graph, a barrier at rest has every node IDLE if and only if no node repeats an input; then the value is saved everywhere. All channels are empty. |
| `BarrierTheorems.RepeatedInputBlocks` | `mm-ng-core/minemeld/ft/base.py:584-588` | A node that lists an input twice is never IDLE, in any run. |
| `BarrierTheorems.QuietIsIdle` | `mm-ng-core/minemeld/mgmtbus.py:286-289` | On any finite acyclic graph with distinct inputs, when the master has reached all nodes and no delivery or handler step is enabled, every node is IDLE. |
| `BarrierTheorems.DeliverProgress` | `mm-ng-core/minemeld/ft/base.py:567-593` | A delivery without reaction idles its reader or leaves strictly less unread and no more handler steps. |
| `BarrierTheorems.BarrierCanComplete` | `mm-ng-core/minemeld/mgmtbus.py:286-307` | From every state of a barrier without repeated inputs on an acyclic graph some finite run makes every node IDLE. |
| `BarrierTheorems.QuietenGroup` | `mm-ng-core/minemeld/ft/base.py:567-593` | From every state of any barrier a finite run of commands, steps and deliveries at a group of nodes leaves that group nothing to do. |
| `BarrierTheorems.AllGoodIsTrue` | `mm-ng-core/minemeld/mgmtbus.py:289-307` | If every node reported the fresh value as its last checkpoint at some moment of a run, moments that may all differ, then at its end every node is IDLE and holds the value in its file. |
| `RunConfig.DetectCycles` | `mm-ng-core/minemeld/run/config.py:433-470` | The method returns true if and only if the input lists are acyclic, also with unknown and repeated inputs. |
| `RunConfig.AcyclicIsSorted` | `mm-ng-core/minemeld/run/config.py:433-470` | In a graph without cycles the search leaves no edge. |
| `RunConfig.SortedIsAcyclic` | `mm-ng-core/minemeld/run/config.py:433-470` | A search that leaves no edge has put every node behind its inputs, so there is no cycle. |
| `RunConfig.ComputeChanges` | `mm-ng-core/minemeld/run/config.py:101-181` | The changes reported are exactly those between the two configurations: nodes added, removed or of another class, and inputs and outputs of the others. |
| `RunConfig.ChangesAreTrue` | `mm-ng-core/minemeld/run/config.py:142-155` | Every input reported as added is one the node has, as the planner takes for granted. |
| `RunConfig.ChangesTellAll` | `mm-ng-core/minemeld/run/config.py:101-181` | The new configuration can be read off the old one and the changes: its nodes, which are the same as before, and the inputs and output of those; a node is reported as added exactly if it is new or of another class. |
| `Graphs.FullCover` | `mm-ng-core/minemeld/ft/base.py:584-586` | As many checkpointed sources as entries in the input list means: no repeated entry, and all of them checkpointed. |
| `Graphs.BuildGraph` | `mm-ng-core/minemeld/startupplanner.py:17-33` | The result is the undirected graph of the nodes, the inputs they name, and those edges both ways. |
| `Graphs.Explore` | `mm-ng-core/minemeld/startupplanner.py:42-52` | The search from a node not seen before ends with exactly the component of that node, disjoint from all that was seen. |
| `Graphs.WeaklyConnectedComponents` | `mm-ng-core/minemeld/startupplanner.py:36-54` | Terminates with a partition of the nodes into components. |
| `Graphs.ComponentIsLinked` | `mm-ng-core/minemeld/startupplanner.py:36-54` | A node is in a component if and only if a path joins it to the component's members. |
| `Graphs.BlocksAreExact` | `mm-ng-core/minemeld/startupplanner.py:36-54` | Two nodes share a block of the result if and only if an undirected path of inputs joins them. |
| `StartupPlanner.GroupByCheckpoint` | `mm-ng-core/minemeld/startupplanner.py:62-67` | Nodes are grouped by checkpoint, each group with its exact number of sources. |
| `StartupPlanner.MostCommon` | `mm-ng-core/minemeld/startupplanner.py:90-98` | The chosen checkpoint is held in the component, and no other one is held by more sources. |
| `StartupPlanner.FindInvalid` | `mm-ng-core/minemeld/startupplanner.py:101-119` | Exactly the nodes with another checkpoint, with none and not added, or with an input deleted. |
| `StartupPlanner.FindAdded` | `mm-ng-core/minemeld/startupplanner.py:144-163` | Says whether all added nodes and inputs are sources, and which they are. |
| `StartupPlanner.PlanAtQuorum` | `mm-ng-core/minemeld/startupplanner.py:101-184` | Given the quorum, each node's command is the declarative decision of `DecideAt`. |
| `StartupPlanner.PlanSubgraph` | `mm-ng-core/minemeld/startupplanner.py:57-184` | Every node of the component gets a command, and together they are a plan the decision allows for some quorum checkpoint. |
| `PlannerTheorems.Plan` | `mm-ng-core/minemeld/startupplanner.py:187-204` | Every node of the graph, and no other, gets a command, which is the one planned for its component. |
| `PlannerTheorems.PlanAgreement` | `mm-ng-core/minemeld/startupplanner.py:62-184` | All nodes not reset hold one common checkpoint with the quorum; only sources are rebuilt; the other nodes are all initialized or all reset. |
| `PlannerTheorems.NoCheckpointIsReset` | `mm-ng-core/minemeld/startupplanner.py:74-119` | A node without a checkpoint is always reset. |
| `PlannerTheorems.LostCheckpointResetsConsumers` | `mm-ng-core/minemeld/startupplanner.py:107-140` | One node that lost its checkpoint and is not new resets every consumer of its component. |
| `PlannerTheorems.PlanMissesNothing` | `mm-ng-core/minemeld/startupplanner.py:74-184` | If a consumer is reset, no node is merely initialized; if a consumer is initialized, no input was deleted, all added nodes are sources, and each newly wired input is a source that is rebuilt or reset. |
| `PlannerTheorems.AllInitializedExactly` | `mm-ng-core/minemeld/startupplanner.py:81-87` | All nodes are initialized if and only if they hold one checkpoint and none is new or has gained or lost an input. |
| `PlannerTheorems.UnchangedPlan` | `mm-ng-core/minemeld/startupplanner.py:74-140` | With an unchanged configuration and one checkpoint about: all nodes initialized if all hold it, else its holders among the sources rebuilt and all others reset. |
| `PlannerTheorems.PlanIsLocal` | `mm-ng-core/minemeld/startupplanner.py:187-204` | A component's commands depend only on the reports and changes of its own nodes. |
| `PlannerTheorems.PlanExactly` | `mm-ng-core/minemeld/startupplanner.py:57-184` | A plan is allowed if and only if, for a checkpoint that no other outvotes among the sources: where every node holds it or is new and holds none, none lost an input and all that was added are sources, new nodes are reset, newly wired inputs rebuilt and all others initialized; and otherwise sources that hold it and lost no input are rebuilt and all others reset. |
| `PlannerTheorems.SourcesAreKept` | `mm-ng-core/minemeld/startupplanner.py:122-184` | For the plan's quorum, a source that holds it, is not new and lost no input is never reset; it is rebuilt where it is newly wired; and if some consumer is initialized, every newly wired input that is not new is rebuilt. |
| `Lifecycle.RunningLeavesNoCheckpoint` | `mm-ng-core/minemeld/ft/base.py:246-333` | Over any crashes and restarts, a running node has no checkpoint file, and one that dies running comes back without a checkpoint. |
| `Lifecycle.BootFailsExactly` | `mm-ng-core/minemeld/ft/base.py:254-257` | A node fails to come back if and only if it died between opening its checkpoint file and writing it. |
| `Lifecycle.EngineBootsExactly` | `mm-ng-core/minemeld/ft/base.py:246-326` | After a stop or crash at any instant of any barrier, inside handlers too, and with any new configuration, every node comes back if and only if none died between opening and writing its file with nothing written. |
| `Lifecycle.OneDeathIsEnough` | `mm-ng-core/minemeld/ft/base.py:254-326` | A source that dies just after opening its file for the checkpoint does not come back. |
| `Lifecycle.CheckpointIsAllOrNothing` | `mm-ng-core/minemeld/startupplanner.py:74-140` | If all nodes come back and the graph is unchanged, a component is initialized when all its files were written under an unchanged configuration text; otherwise every consumer is reset, and exactly the sources with such a file are rebuilt. |
| `Lifecycle.CleanRestart` | `mm-ng-core/minemeld/startupplanner.py:81-87` | After a barrier at rest on a valid graph without repeated inputs, every node comes back, and an unchanged graph starts with every node initialized if and only if no configuration text has changed. |
| `Lifecycle.RestartExactly` | `mm-ng-core/minemeld/startupplanner.py:74-184` | After a crash at any instant of any barrier and with any new configuration, each node's command follows from the files written, the texts and the changes: consumers keep their state exactly if all nodes of the component are restored or new, none lost an input and all that was added are sources. |
| `Lifecycle.CleanReports` | `mm-ng-core/minemeld/ft/base.py:246-303` | After a completed barrier a node reports the checkpoint if and only if it was there before and its configuration text is unchanged. |
| `Lifecycle.ChangedTextResets` | `mm-ng-core/minemeld/ft/base.py:281-287` | Then a node whose text changed, and which is not reported as added, is reset together with every consumer of its component; the unchanged sources send everything again. |
| `Lifecycle.BootReads` | `mm-ng-core/minemeld/ft/base.py:246-303` | A node is created exactly from a file that is not empty; it holds a checkpoint if and only if the file holds it, in either format, beside the node's own configuration or none. |
| `Lifecycle.LegacyIsKept` | `mm-ng-core/minemeld/ft/base.py:264-287` | A checkpoint saved alone in the line format is kept whatever the configuration; one saved with another configuration is not. |
| `Lifecycle.StartUpIsStarted` | `mm-ng-core/minemeld/ft/base.py:352-771` | Created, connected, commanded and started, a node is STARTED with its inputs and output, no file and an empty log; each of the calls raises out of turn. |
| `BasePoller.CompareExact` | `mm-ng-core/minemeld/ft/basepoller.py:508-530` | Where the comparison does not raise, attributes compare equal if and only if merging them loses no key and changes no value, None counting as absent. |
| `BasePoller.RefreshKeepsInv` | `mm-ng-core/minemeld/ft/basepoller.py:668-687` | Refreshing a row in the feed, also where comparing, merging or announcing raises, keeps all that is announced backed by an unmarked row, and rows without nameless attributes announced and current; the exact statement for the others is RefreshCurrentExactly. |
| `BasePoller.ItemKeepsInv` | `mm-ng-core/minemeld/ft/basepoller.py:635-704` | So does every other way a poll treats an indicator, also where the row is stored and its announcement raises; the exact statement for all rows is ItemFaithfulExactly. |
| `BasePoller.ApplyKeepsInv` | `mm-ng-core/minemeld/ft/basepoller.py:411-506` | Polls (also failing and partial), age-outs, sudden deaths, collections and flushes, complete or ended by a raise, keep that; the exact statement for all rows is FaithfulExactly. |
| `BasePoller.RebuildKeepsInv` | `mm-ng-core/minemeld/ft/basepoller.py:718-726` | A rebuild keeps the two in step if and only if no row that it gets through is marked. |
| `BasePoller.AgeOutCompletes` | `mm-ng-core/minemeld/ft/basepoller.py:419-434` | An age-out withdraws all expired rows, in whatever order they come, if and only if none of them has a nameless attribute. |
| `BasePoller.RebuildExactly` | `mm-ng-core/minemeld/ft/basepoller.py:718-726` | With named attributes, after a rebuild of any view of the table's indicators the two are in step if and only if no row is marked as withdrawn. |
| `PollerFaithful.RefreshCurrentExactly` | `mm-ng-core/minemeld/ft/basepoller.py:668-687` | A refresh keeps an announced value current if and only if it is not the case that comparing and merging succeed, the limit is still to come, the merged attributes contain an empty key, and a visible value changes. |
| `PollerFaithful.ItemFaithfulExactly` | `mm-ng-core/minemeld/ft/basepoller.py:635-704` | One item of a poll leaves all rows faithful, nameless ones included, if and only if it neither enters a row that cannot be announced nor stales one. |
| `PollerFeeds.FaithfulExactly` | `mm-ng-core/minemeld/ft/basepoller.py:411-740` | For any feed: in every run of all commands on any indicators nothing within its limit is missing or stale downstream, if and only if no listing spoils complete polls of a single indicator, that is, enters a row that cannot be announced or stales a row the feed can produce. |
| `PollerFeeds.StaleThoughNeverMissing` | `mm-ng-core/minemeld/ft/basepoller.py:683-687` | A feed of two listings on which nothing is ever missing and yet a run leaves an announced row within its limit stale. |
| `PollerFeeds.NamedFeedIsSound` | `mm-ng-core/minemeld/ft/basepoller.py:508-530` | No listing of a feed with named attributes, under a template with named attributes, spoils such polls. |
| `PollerTheorems.NoOrphansEver` | `mm-ng-core/minemeld/ft/basepoller.py:411-740` | Over every such run, all that is announced has an unmarked row; for rows without nameless attributes, what is missing is past its limit, and what is within its limit shows the row's visible value; the exact statement for all rows is FaithfulExactly. |
| `PollerTheorems.NewMinerKeepsInStep` | `mm-ng-core/minemeld/ft/basepoller.py:384-386` | With named attributes in feed and template, this holds of all rows in every run from a table emptied at start-up; the exact condition is FaithfulExactly. |
| `PollerTheorems.NothingMissingExactly` | `mm-ng-core/minemeld/ft/basepoller.py:647-664` | Over all runs of a new miner on a feed no unmarked row within its limit is missing downstream, if and only if no indicator of the feed has, with the template, a nameless attribute and a limit still to come. |
| `PollerTheorems.NamelessStopsPolls` | `mm-ng-core/minemeld/ft/basepoller.py:508-530` | A poll that lists such a row again raises and leaves everything as it was, unless the feed gives the nameless attribute again and another has gone missing. |
| `PollerTheorems.RaisesAt` | `mm-ng-core/minemeld/ft/basepoller.py:629-704` | A poll that raises has got through to one item and raised there; the items behind it have no effect. |
| `PollerTheorems.PollStamps` | `mm-ng-core/minemeld/ft/basepoller.py:629-704` | A poll changes only rows it lists and stamps each with its time; none disappears. |
| `PollerTheorems.CycleExactly` | `mm-ng-core/minemeld/ft/basepoller.py:411-489` | After a successful poll, sudden death and age-out at t, whatever order it takes the rows in: downstream knows an indicator if and only if the poll lists it, its row after the poll is unmarked and the row's limit is t or later, by its current value, the row untouched and all other rows marked; and this holds if and only if after the poll every unmarked row with a nameless attribute is of that kind, announced and current. |
| `PollerTheorems.CycleIsExact` | `mm-ng-core/minemeld/ft/basepoller.py:411-506` | A collection after such a cycle keeps exactly the rows last seen no more than a millisecond before the poll began, as they were, and leaves downstream as exact. |
| `PollerTheorems.NoFlapping` | `mm-ng-core/minemeld/ft/basepoller.py:694-699` | An indicator withdrawn while in the feed is not announced again at any moment of a run whose successful polls all list it. |
| `PollerTheorems.AgeOutHolds` | `mm-ng-core/minemeld/ft/basepoller.py:419-434` | An age-out that gets through to an indicator of the latest successful poll at its limit puts it in that situation. |
| `PollerTheorems.ResurrectedIsNeverWithdrawn` | `mm-ng-core/minemeld/ft/basepoller.py:718-726` | A marked row announced by a rebuild stays announced through every run whose polls do not list it. |
| `PollerTheorems.OrphanForEver` | `mm-ng-core/minemeld/ft/basepoller.py:419-464` | An announced indicator without an unmarked row stays announced until a poll lists it. |
| `PollerRows.LimitExactly` | `mm-ng-core/minemeld/ft/basepoller.py:881-893` | The limit is the base attribute of the type's rule, or of the default rule, plus its offset; without a rule it is 4294967295000; and there is none exactly if the base is not a number. |
| `PollerRows.EnteredExpires` | `mm-ng-core/minemeld/ft/basepoller.py:647-664` | A new indicator under a rule on first_seen is announced if and only if the offset is not negative, and is taken by an age-out exactly from one millisecond after that time. |
| `PollerRows.PollShowsFeed` | `mm-ng-core/minemeld/ft/basepoller.py:629-692` | After a poll, the row of an indicator that it lists once, and that is new, back, or within its limit and not withdrawn, has every attribute the feed gives and no others but those of the template, the standard and the hidden ones. |
| `PollerRows.NotTakenIsStamped` | `mm-ng-core/minemeld/ft/basepoller.py:694-704` | Otherwise a listing stamps the row, and the mark of a withdrawn one, and publishes nothing. |
| `PollerRows.InFeedExactly` | `mm-ng-core/minemeld/ft/basepoller.py:629-632` | A row is in the feed exactly if it was listed by or since the latest successful poll, or, without one, within the last interval. |
| `PollerRows.EntryDefaults` | `mm-ng-core/minemeld/ft/basepoller.py:647-655` | A new indicator gets the attributes of the feed, else the time as first_seen and last_seen and the miner as source, else the template. |
| `PollerRows.SameListingIsSilent` | `mm-ng-core/minemeld/ft/basepoller.py:668-687` | Listing an indicator again with the same attributes publishes nothing and keeps its limit. |
| `PollerRows.FlushEmptiesView` | `mm-ng-core/minemeld/ft/basepoller.py:444-470` | With named attributes a flush withdraws all that is announced and takes every unmarked row out of the feed. |
| `PollerRows.FlushedComesBack` | `mm-ng-core/minemeld/ft/basepoller.py:444-470` | A flushed indicator, after any commands that do not list it, is announced again as new by the next poll that gets through and lists it within its limit. |
| `PollerRows.LastSeenExactly` | `mm-ng-core/minemeld/ft/basepoller.py:522-530` | The documented meaning of a rule on last_seen, a limit counted from the latest listing, holds of a refresh if and only if the feed gives the time of the poll as last_seen, or gives none and the row was entered at that time. |
| `PollerRows.LastSeenIsFirstSeen` | `mm-ng-core/minemeld/ft/basepoller.py:522-530` | On a feed that gives neither attribute, rules on last_seen and on first_seen lead, in every run of all commands, to the same table and the same announcements. |
| `PollerRows.ListedYetWithdrawn` | `mm-ng-core/minemeld/ft/basepoller.py:411-434` | With a limit of an hour after last_seen, an indicator listed by every poll is withdrawn an hour and a minute after the first, a minute after the last. |
| `PollerActor.BasePollerFT.DoAgeOut` | `mm-ng-core/minemeld/ft/basepoller.py:411-442` | If STARTED, the loop withdraws and marks exactly the unmarked rows whose limit is below now, up to the first whose withdraw raises; otherwise nothing is published or changed. |
| `PollerActor.BasePollerFT.DoFlush` | `mm-ng-core/minemeld/ft/basepoller.py:444-470` | If STARTED, the loop withdraws, marks and takes out of the feed exactly the unmarked rows, up to the first whose withdraw raises; otherwise nothing. |
| `PollerActor.BasePollerFT.DoSuddenDeath` | `mm-ng-core/minemeld/ft/basepoller.py:472-489` | If STARTED, exactly the rows last seen before the latest successful run get a limit before that run; nothing is published. |
| `PollerActor.BasePollerFT.DoCollectGarbage` | `mm-ng-core/minemeld/ft/basepoller.py:491-506` | If STARTED, exactly the marked rows last seen more than one millisecond before the latest successful run go; without such a run, none. |
| `PollerActor.BasePollerFT.DoRebuild` | `mm-ng-core/minemeld/ft/basepoller.py:718-726` | If STARTED, every row is announced, marked ones too, up to the first that raises; otherwise nothing is published. |
| `PollerActor.BasePollerFT.PollItem` | `mm-ng-core/minemeld/ft/basepoller.py:635-704` | Table, messages and result for one indicator, branch by branch, with the row stored where only its announcement raises. |
| `PollerActor.BasePollerFT.Poll` | `mm-ng-core/minemeld/ft/basepoller.py:571-740` | One polling attempt, complete, cut short by a raise, or ended by the node leaving STARTED, which counts as successful; not STARTED, it publishes and changes nothing. |
| `MetricsStore.DeltaSeries` | `mm-ng-core/minemeld/metricsstore.py:91-108` | Raises exactly when a null follows a number; otherwise each bucket holds the sum of the reset-aware increments of its samples, and buckets of time-sorted samples increase. |
| `MetricsStore.TotalIndependentOfSize` | `mm-ng-core/minemeld/metricsstore.py:91-108` | The buckets of any two sizes add up to the same total, the sum of all increments. |
| `MetricsStore.MonotoneTotal` | `mm-ng-core/minemeld/metricsstore.py:100-102` | For a counter that is never reset that total is the last value minus the first. |
| `MetricsStore.TotalWithResets` | `mm-ng-core/minemeld/metricsstore.py:100-102` | With any resets that total is the last value minus the first plus what the counter had reached before each reset. |
| `MetricsStore.SecondsAreExact` | `mm-ng-core/minemeld/metricsstore.py:104-114` | With sizes of whole seconds the division by 1000 loses nothing, and a bucket holds exactly the samples within its span. |
| `MetricsStore.CounterSeries` | `mm-ng-core/minemeld/metricsstore.py:83-88` | Each bucket with a sample holds the last value reported in it, and buckets of time-sorted samples increase. |
| `MetricsStore.LastInExactly` | `mm-ng-core/minemeld/metricsstore.py:83-88` | The value of a bucket is that of a sample in it after which no other sample falls into it. |

## Left out

- Redis, ZeroMQ, gevent and LevelDB: they appear as maps, sequences and atomic steps. A table query is a snapshot, and the order of its rows is left open.
- TopicTheorems.LogIsAccepted: is about one call of `publish` at a time, as are the other theorems about topics. Aggregators and outputs handle one message at a time (`ft/actorbase.py`), and polling miners one command, but other publishers do not; the exact condition for a well-cut log under overlapping calls is `OverlappingCalls.OverlapExactly`.
- OverlappingCalls.OverlapExactly: is about the lists only. The waiting of a call that does reach the check is not modelled there (it holds up that call and no other), and neither are collections; `NothingThrottles` says that overlapping calls can skip both.
- TopicChannels.RedisPubChannel.TryPublish: models one attempt up to the sleep on the window, because the wait is an endless loop; repeated attempts and other interleavings are runs of `TopicProtocol`.
- In the barrier the messages that a handler publishes in reaction to one message are published in one step.
- BarrierLosses.NoAssertionFires: assumes the care that the code does not take; `SyslogMiner`, `SyslogMatcher` and `PanOSLogsAPIFT` can publish behind their checkpoints, and `validate_config` lets inputs repeat. The exact conditions are `NothingLostExactly`, `NeverInDangerExactly` and `SilenceSufficesExactly`.
- PollerRows.FlushedComesBack: assumes that the time from which a row counts as in the feed, the latest successful poll or one interval ago, is after 1970.
- PollerFeeds.FaithfulExactly: assumes that the interval between polls is not negative.
- The one-second sleep between turns of a subscriber that has caught up; the return value of `DrainOnce` only says when there is none.
- The callback's dispatch of a message to a method: handing the message over counts as delivery, also when the handler raises, as in the original.
- The server side of requests and its double replies; the collector is proved for any replies. `RpcFanout.StateInfo` takes the sources of answers to be nodes on the bus, and identifiers never to repeat.
- Time-outs, retries and sleeps in `checkpoint_graph` and `_poll`; each attempt of a poll is its own command. Waiting for the chassis is replaced by the precondition that all subscribers have registered, whose exact form is `LateJoinExactly`.
- A checkpoint file that starts with a brace but lacks a key, a file that cannot be removed, and the saved state of a node inside the file.
- The background removal of deleted nodes' resources: `Lifecycle.Restart` takes nodes that were not there before to have no checkpoint file.
- Checks of a configuration other than the one for cycles (that inputs are nodes with an output is a precondition); the classes of nodes are always given.
- Filters on inputs and outputs. The reaction of a node to a message is arbitrary in the barrier. The view below a miner is stated for filters that accept everything and an enabled output.
- The view below a miner is one map by indicator, so several types of one indicator are not told apart; attributes from a feed do not use the miner's reserved keys, and an indicator type is not one of the settings of the age-out section.
- Base attribute and offset of an age-out rule are parameters; their parsing in `ft/utils.py` is not part of this model.
- Aggregation tables of a poll. Parsing errors of single items are items left out of the poll.
- The order of keys in a stored row: whether a missing attribute comes before a nameless one is a parameter of each item.
- Statistics counters other than the one for a wrong state, traces, status messages, and a node's `sub_state`.
- Sample values are integers. Recording, listing and expiry of metrics, and the choice between the two kinds of series, are not modelled.
- Subclasses of the polling miner, output nodes, the Flask layer, `configapi.py`, `feedredis.py` and the web interfaces.
