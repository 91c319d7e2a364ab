# Minha core: verified models

Minha is a terminal coding assistant. Its core crate holds a task graph with leases, a scheduler, an
in-memory cache, two streaming parsers for model providers, a fair router, a clarification meter, a token
ledger and a few text algorithms. This project models these components in Dafny and proves what they
promise over all inputs, all chunkings and all runs. Code that updates state in place is modelled by
classes and loops that are proved against functions; the lemmas are about those functions.

`dafny verify dfyconfig.toml` checks everything.

| module | component |
|---|---|
| `TaskGraph`, `Leases`, `Scheduler` | cycle rejection by breadth-first search, the ready set and progress, generation-fenced lease tenures, offers of ready nodes to idle agents |
| `LruCache`, `LruRuns`, `CacheLaws`, `CachePruning`, `CacheKeys` | the hot cache as a recency list with pinned entries, what each operation does to it, selection for pruning, the canonical encoding behind cache keys |
| `Framing`, `FrameText`, `Streaming`, `Outcomes`, `ToolCalls`, `ProviderTypes`, `ChatStream`, `ChatTurn`, `ChatOutcome`, `ChatCalls`, `SseStream`, `SseTurn`, `SseOutcome`, `SseItems`, `SseRepeats`, `Delivery` | frames cut from a byte stream and the text they carry, independence from chunking, assembly of tool calls, the two parsers, when a whole turn succeeds, and what its result and events are |
| `EditDistance`, `CommandRanking` | the two-row Levenshtein loop, ranking of commands, the "did you mean" suggestion |
| `TreeTruncation`, `CappedRead` | cutting a JSON tree to a word budget, reading a stream up to a cap |
| `FairRouting` | equal-weight deficit round robin and the failure backoff |
| `Versions` | parsing, printing and precedence of release versions |
| `Clarification`, `AnswerVerdicts`, `ShellTokens` | the ambiguity meter and the tokenizer for reports |
| `UsageLedger` | reservations in saturating 64-bit arithmetic |
| `Prelude`, `Sequences`, `Ordering`, `Text`, `Json` | what the modules above share |

Some expectations do not hold of the code as it is. The model keeps the code and states exactly when they hold:

- Listing inputs in another order can change a manifest, because ties in name and digest keep their input
  order. It never does exactly when inputs of equal name and digest have equal size (`CacheKeys.OrderIndependentIff`).
- `insert` reports success even when the new entry is evicted at once, which happens exactly when it is not
  pinned and does not fit beside the pinned entries (`LruRuns.InsertedStaysIff`, `LruRuns.InsertedIsEvicted`).
- Pruning selects fresh entries before stale ones (crates/minha-core/src/cache.rs:370), although the name of
  the test at line 628 says that it prefers stale ones. Of two entries, one fresh and one stale, with room for
  one, the fresh one goes (`CachePruning.FreshIsPruned`). Stale entries are preferred exactly when nothing is
  selected, everything unpinned is, or all that is unpinned is of one kind (`CachePruning.PrefersStaleIff`).
- The total token limit is not kept when it is the 64-bit maximum and the input and output limits add up to
  more than that (`UsageLedger.TotalLimitIsKeptIff`).
- One answer raises the meter exactly when it delegates a dimension that was confirmed or did not apply, and
  the uncertain sum it leads to, in hundredths, exceeds the old reading of the possible sum it leads to
  (`Clarification.AnswerRaisesMeterIff`). From zero it always does (`Clarification.DelegatingConfirmedRaises`);
  delegating a dimension that did not apply can also lower it (`Clarification.DelegatingMayLower`). For a list
  of answers the same holds of what the last answer to each dimension makes of it (`AnswerVerdicts.AnswersRaiseMeterIff`).
- Reopening leaves nothing to ask about exactly when nothing was unresolved and no dimension is there to be put
  in question, for instance a note without a goal dimension (`Clarification.ReopenAsksIff`, `Clarification.ReopenMayAskNothing`).
- Capturing the same response twice adds items again exactly when some item has neither an id nor a call id
  (`SseStream.RecaptureAddsNothingIff`).
- A turn holds an output item or a tool call twice exactly when an event streams one that is known before it,
  because only snapshots are checked for duplicates: a progress snapshot that brings a call, followed by the
  event that streams it, leaves the call there twice (`SseRepeats.TurnRepeatsNothingIff`,
  `SseRepeats.SnapshotThenStreamRepeats`).
- The result of a turn does not depend on the chunking, but the events that a failing turn has handed on before
  it failed do, exactly when a complete frame fails and one before it has events: the events of the failing push
  are lost (`Delivery.HandingOnIgnoresChunkingIff`, `Delivery.ChunkingShows`).
- The version parser accepts texts that Semantic Versioning 2.0.0 does not: those whose part before any build
  metadata ends in its first hyphen (section 9) and those with malformed build metadata (section 10). It rejects
  versions of the standard exactly when a number needs more than 64 bits. Apart from the trimmed white space and
  leading `v`s these are all differences (`Versions.ConformsIff`, `Versions.ConformingIsRejectedIff`,
  `Versions.BareHyphenIsRelease`, `Versions.TooBigIsRejected`).
- docs/ARCHITECTURE.md:158 says that a stale generation cannot release a newer lease. Acquiring compares no
  generations, so a stale holder can exactly when its pair of holder and generation was granted again with the
  newer lease (`Leases.StaleReleasesIff`, `Leases.ReusedPairReleases`).

## Model

| member | source | states |
|---|---|---|
| `TaskGraph.Reachable` | crates/minha-core/src/graph.rs:122-140 | The search ends and answers true exactly when a dependency path leads from one node to the other. |
| `TaskGraph.AddDependency` | crates/minha-core/src/graph.rs:72-91 | The loop-based operation has the outcome specified by path existence, including which endpoint is reported unknown. |
| `TaskGraph.EdgeKeepsAcyclic` | crates/minha-core/src/graph.rs:85-87 | Adding an edge to an acyclic graph keeps it acyclic if and only if it is no self-loop and no path runs back. |
| `TaskGraph.AddDependencySucceedsIff` | crates/minha-core/src/graph.rs:72-91 | Success, with exactly that edge added, on existing endpoints whose edge closes no cycle; the cycle error on existing endpoints whose edge closes one; and otherwise the first endpoint that is missing is named. |
| `TaskGraph.StepKeepsWellFormed` | crates/minha-core/src/graph.rs:63-101 | Every operation keeps edge endpoints present, keys equal to ids and the graph acyclic, and removes no node or edge. |
| `TaskGraph.RunIsWellFormed` | crates/minha-core/src/graph.rs:56-101 | Every graph reachable from the empty one is well formed, and its version counts the successful operations. |
| `TaskGraph.RunNodes` | crates/minha-core/src/graph.rs:56-101 | Every run holds exactly the nodes that its operations added, each as it was added and with the state it was last given. |
| `TaskGraph.StepEdges` | crates/minha-core/src/graph.rs:72-91 | Only adding a dependency changes the edges, by exactly that edge, and only if its endpoints are there and it closes no cycle. |
| `TaskGraph.ReadyNodesAreTheReadyOnes` | crates/minha-core/src/graph.rs:102-114 | A node is listed exactly when its state is pending or ready and every edge into it comes from a node whose state is succeeded; each once, by ascending id. |
| `TaskGraph.FindReady` | crates/minha-core/src/graph.rs:102-121 | Following unfinished prerequisites backwards from any unfinished node leads to a ready one. |
| `TaskGraph.NoDeadlock` | crates/minha-core/src/graph.rs:102-114 | With nothing running, failed or blocked, the ready list is empty exactly when everything succeeded. |
| `TaskGraph.ScheduleCounts` | crates/minha-core/src/graph.rs:92-114 | Each step of marking a ready node succeeded finishes exactly that node, and no node is finished twice. |
| `TaskGraph.PrerequisitesFirst` | crates/minha-core/src/graph.rs:92-114 | In every such schedule a node comes after all prerequisites that were unfinished. |
| `TaskGraph.ScheduleCompletes` | crates/minha-core/src/graph.rs:92-114 | Any begun schedule extends to one that finishes everything in exactly as many steps as nodes were unfinished. |
| `Leases.LeaseTable.Acquire` | crates/minha-core/src/graph.rs:192-202 | Granted exactly when the node has no unexpired lease; a refusal is a fencing error that changes nothing. |
| `Leases.LeaseTable.Validate` | crates/minha-core/src/graph.rs:203-218 | Missing, expired, stale and valid leases are told apart in this order. |
| `Leases.LeaseTable.Release` | crates/minha-core/src/graph.rs:219-229 | Only a valid holder and generation release a lease; any other call leaves the table alone. |
| `Leases.StepKeepsInv` | crates/minha-core/src/graph.rs:192-229 | Every acquire and release keeps the tenures of each node disjoint and the table entry equal to the last unreleased tenure. |
| `Leases.TenuresNeverOverlap` | docs/ARCHITECTURE.md:152-158 | Over any run with nondecreasing times, the tenures granted on one node are disjoint: no instant is covered by two. |
| `Leases.ValidateIffCurrentTenure` | crates/minha-core/src/graph.rs:203-218 | From the last event on, validation succeeds exactly for the holder and generation of the tenure that covers the instant. |
| `Leases.ValidationErrors` | crates/minha-core/src/graph.rs:203-218 | Why validation fails after a run: there was no tenure or the last one was released, it expired, or it is another holder's or generation's. |
| `Leases.AcquireIffFree` | crates/minha-core/src/graph.rs:192-202 | After any run a node can be leased anew exactly when no tenure covers the instant. |
| `Leases.RunsAreTenures` | crates/minha-core/src/graph.rs:192-229 | After any run, an acquisition starts a tenure exactly when none covers the moment, a release by the holder of the covering one ends it at that moment, and no event does anything else. |
| `Leases.StaleReleasesIff` | docs/ARCHITECTURE.md:158 | The holder of an ended tenure can release something exactly when the covering tenure has the same holder and generation. |
| `Leases.StaleCannotRelease` | docs/ARCHITECTURE.md:158 | If pairs of holder and generation are granted only once on a node, no stale holder releases anything. |
| `Leases.ReusedPairReleases` | crates/minha-core/src/graph.rs:192-229 | A run in which a holder leases a node again with the same generation and the release meant for the first lease ends the second. |
| `Scheduler.Scheduler.Handle` | crates/minha-core/src/agent.rs:115-139 | What each message does to agents, leases and outbox, and which offers it returns. |
| `Scheduler.Scheduler.Schedule` | crates/minha-core/src/agent.rs:140-163 | The in-place loop makes the offers and leaves the agents that the recursive pairing specifies. |
| `Scheduler.Scheduler.Accept` | crates/minha-core/src/agent.rs:164-183 | Unknown agents, agents that are not busy and leases that are taken are refused in this order; otherwise a ten-minute lease is stored. |
| `Scheduler.NextIsFirst` | crates/minha-core/src/agent.rs:143-149 | The agent found for a node is the first available one in key order, and once it is engaged the others follow unchanged. |
| `Scheduler.AvailableAgentsListing` | crates/minha-core/src/agent.rs:143-147 | The available agents are exactly the idle ones with capacity, each once, in key order. |
| `Scheduler.TickPairsInOrder` | crates/minha-core/src/agent.rs:140-163 | A tick makes min(ready, available) offers, the k-th of the k-th ready node to the k-th available agent. |
| `Scheduler.TickOffersOnlyReady` | crates/minha-core/src/agent.rs:140-163 | A tick offers no node that is running, succeeded, failed or blocked, and none with a prerequisite that has not succeeded. |
| `Scheduler.TickEngagesOffered` | crates/minha-core/src/agent.rs:140-163 | Exactly the agents that get an offer become busy and lose one unit of capacity; all others stay the same. |
| `Scheduler.TickSpendsCapacity` | crates/minha-core/src/agent.rs:140-163 | Total capacity falls by exactly the number of offers. |
| `Scheduler.TickUsesChance` | crates/minha-core/src/agent.rs:140-163 | Within a tick an agent gets at most one offer, and afterwards it is not available. |
| `Scheduler.RunOffersAppend` | crates/minha-core/src/agent.rs:112-163 | The offers of a message run are those of its ticks in order, each made to the agents as the messages before it left them. |
| `Scheduler.AtMostOneOfferPerRegistration` | crates/minha-core/src/agent.rs:112-163 | Over any message run from the start, an agent is offered at most as many nodes as it registered times. |
| `Scheduler.UnregisteredGetsNothing` | crates/minha-core/src/agent.rs:125-128 | An agent that unregisters and does not register again is offered nothing any more. |
| `Scheduler.RunKnowsRegistered` | crates/minha-core/src/agent.rs:112-163 | Over any message run the scheduler knows exactly the agents that registered and did not unregister since, each as it registered or as one offer leaves it. |
| `LruCache.HotCache.constructor` | crates/minha-core/src/cache.rs:261-271 | A new cache is empty, with both limits as given and all counters zero. |
| `LruCache.HotCache.Get` | crates/minha-core/src/cache.rs:281-304 | A hit moves the entry to the back of the recency list, updated; a miss or bypass leaves the list alone; which counter moves. |
| `LruCache.HotCache.Insert` | crates/minha-core/src/cache.rs:306-320 | Accepted exactly when cacheable, within capacity and the limit is not zero; then the list is the old one without the key, the entry at the back, evicted to the limits. |
| `LruCache.HotCache.AppendNew` | crates/minha-core/src/cache.rs:314-317 | Filing a new key keeps map, queue and byte count in step and appends to the list. |
| `LruCache.HotCache.TakeOut` | crates/minha-core/src/cache.rs:310-313 | Taking a key out keeps map, queue and byte count in step and removes exactly its entry from the list. |
| `LruCache.HotCache.Remove` | crates/minha-core/src/cache.rs:322-328 | Returns the entry of the key, if any, and takes it out of the list; counters agree with the true sums. |
| `LruCache.HotCache.EvictTo` | crates/minha-core/src/cache.rs:340-347 | The loop leaves the list that evicting oldest unpinned entries to both limits specifies, and counts the evictions. |
| `LruCache.HotCache.EvictOneLru` | crates/minha-core/src/cache.rs:349-366 | Takes out the least recently used entry that is not pinned, and fails exactly when there is none. |
| `LruCache.HotCache.SyncMetrics` | crates/minha-core/src/cache.rs:385-388 | Turns a consistent state into a valid one: the published counts become the length and the byte sum of the recency list, which stays as it is. |
| `LruRuns.EvictionIsMinimal` | crates/minha-core/src/cache.rs:340-366 | A pass drops the least number of unpinned entries, oldest first, that meets both limits, or all of them if no number does. |
| `LruRuns.DropKeeps` | crates/minha-core/src/cache.rs:349-366 | Such a pass keeps every pinned entry and the later unpinned ones, in their order. |
| `LruRuns.DropIsMonotone` | crates/minha-core/src/cache.rs:340-366 | Dropping more never leaves more bytes or more entries. |
| `LruRuns.InsertedStaysIff` | crates/minha-core/src/cache.rs:306-320 | An accepted entry is resident afterwards exactly when it is pinned or fits beside the pinned entries. |
| `LruRuns.InsertedIsEvicted` | crates/minha-core/src/cache.rs:306-320 | With one place, taken by a pinned entry, an accepted entry is evicted at once. |
| `LruRuns.ByLastTouchMoved` | crates/minha-core/src/cache.rs:391-399 | Moving a touched key to the back keeps the list ordered by last hit or insertion. |
| `LruRuns.EvictedFits` | crates/minha-core/src/cache.rs:340-347 | After eviction both limits hold or only pinned entries are left, also for a target other than the capacity. |
| `LruRuns.StepKeepsInv` | crates/minha-core/src/cache.rs:281-347 | Every operation keeps the order by last touch, the limits, and the two counting laws. |
| `LruRuns.EveryRunIsConsistent` | crates/minha-core/src/cache.rs:256-347 | Over every run from the empty cache: no duplicate keys, order by last hit or insertion, limits met or all pinned, lookups are hits plus misses, insertions are residents plus evicted, removed and replaced entries. |
| `CacheLaws.BytesAddUp` | crates/minha-core/src/cache.rs:314-315 | The byte count of a list is that of its entries. |
| `CacheLaws.FreshIff` | crates/minha-core/src/cache.rs:220-227 | Exact entries are always fresh and others never, but for those with a time to live, which counts from when they were stored. |
| `CacheLaws.StepIs` | crates/minha-core/src/cache.rs:281-347 | The list after each operation, entry by entry: a hit moves the entry to the end with one more use, an insertion takes the place of its key and then the fewest oldest unpinned entries go, a removal takes out one entry. |
| `CacheLaws.LookupsCount` | crates/minha-core/src/cache.rs:288-300 | A lookup counts as a hit exactly when it finds the entry, fresh if it must be, and as a miss otherwise unless it bypasses the cache. |
| `CacheLaws.RunsAreSteps` | crates/minha-core/src/cache.rs:256-347 | In every run from the empty cache each operation does that to the list. |
| `CachePruning.SelectionIsShortestPrefix` | crates/minha-core/src/cache.rs:368-383 | The selection is the shortest prefix, in pruning order, of the unpinned entries that brings the rest down to the target, or all of them. |
| `CachePruning.SelectionIgnoresOrder` | crates/minha-core/src/cache.rs:368-370 | The selection does not depend on the order in which the hash map yields its entries. |
| `CacheLaws.CandidatesAre` | crates/minha-core/src/cache.rs:369-370 | The candidates for pruning are the unpinned entries: fresh before stale, then by last use, then by key. |
| `CachePruning.FreshGoFirst` | crates/minha-core/src/cache.rs:370 | A stale entry is selected only after every unpinned fresh one. |
| `CachePruning.PrefersStaleIff` | crates/minha-core/src/cache.rs:368-383 | Whenever a fresh entry is selected every unpinned stale one is, exactly if nothing is selected, the unpinned entries are of one kind, or the bytes exceed the target even without the last candidate. |
| `CachePruning.FreshIsPruned` | crates/minha-core/src/cache.rs:628-646 | Of a fresh and a stale entry of four bytes, with a target of four, the fresh one is selected. |
| `CacheKeys.OrderIndependentIff` | crates/minha-core/src/cache.rs:90-97 | A manifest is independent of the order of its inputs exactly when inputs of equal name and digest have equal size. |
| `CacheKeys.ManifestIsSorted` | crates/minha-core/src/cache.rs:90-97 | A manifest is its inputs, by the bytes of the name and by those of the digest among inputs of the same name. |
| `CacheKeys.TiesKeepTheirOrder` | crates/minha-core/src/cache.rs:95 | Two inputs that tie but differ come out in the order in which they went in. |
| `CacheKeys.CanonicalBytes` | crates/minha-core/src/cache.rs:123-131 | The appending loop produces the recursive encoding. |
| `CacheKeys.FieldRoundTrip` | crates/minha-core/src/cache.rs:400-407 | A length-prefixed field is read back with exactly the bytes that follow it. |
| `CacheKeys.InputRoundTrip` | crates/minha-core/src/cache.rs:125-129 | One encoded input is read back with exactly the bytes that follow it. |
| `CacheKeys.CanonicalRoundTrip` | crates/minha-core/src/cache.rs:122-131 | A decoder recovers every manifest from its canonical bytes. |
| `CacheKeys.CanonicalInjective` | crates/minha-core/src/cache.rs:122-131 | Canonical bytes are equal exactly for equal manifests. |
| `CacheKeys.PreimageInjective` | crates/minha-core/src/cache.rs:147-153 | Hash preimages are equal exactly for equal namespace, request and manifest. |
| `CacheKeys.SameKeyIff` | crates/minha-core/src/cache.rs:147-153 | For any hash, keys agree exactly when namespace, request and manifest agree or the hash collides on these two preimages. |
| `Framing.FrameEndIsFirstBlankLine` | crates/minha-core/src/deepseek.rs:579-593 | A frame ends at the least position behind a blank line, written with LF or CRLF, and there is one exactly if a blank line occurs. |
| `Framing.FrameEndIsStable` | crates/minha-core/src/provider.rs:994-1008 | A frame end found in a prefix is the frame end of every extension. |
| `Framing.CutKeepsBytes` | crates/minha-core/src/deepseek.rs:398-399 | The frames and the rest make up the buffer: no byte is lost or duplicated. |
| `Framing.RestIsIncomplete` | crates/minha-core/src/deepseek.rs:398-401 | What stays in the buffer holds no complete frame. |
| `Framing.CutYieldsFrames` | crates/minha-core/src/deepseek.rs:398-399 | Every piece cut off ends with a blank line and holds no earlier one. |
| `Framing.CutIsUnique` | crates/minha-core/src/deepseek.rs:579-593 | There is only one way to read a buffer as frames followed by an incomplete rest. |
| `Framing.CutContinues` | crates/minha-core/src/provider.rs:817-819 | Cutting a longer buffer continues where the shorter one left off. |
| `FrameText.LinesOfRendered` | crates/minha-core/src/deepseek.rs:424-426 | Splitting a text into lines inverts writing them with LF or CRLF. |
| `FrameText.ChatPayloadIs` | crates/minha-core/src/deepseek.rs:422-429 | In a chat stream a frame carries the texts behind `data:` on its data lines, trimmed and joined by line feeds, whatever other lines and line ends it has. |
| `FrameText.SsePayloadIs` | crates/minha-core/src/provider.rs:1149-1157 | In a responses stream it carries these texts less one space behind the colon, and nothing if there are no data lines. |
| `FrameText.JoinLinesIs` | crates/minha-core/src/provider.rs:1156 | Lines are joined by one line feed between each two. |
| `Json.GetIs` | crates/minha-core/src/provider.rs:867-873 | A member is found exactly if the value is an object that has it. |
| `Json.ReadsAre` | crates/minha-core/src/provider.rs:939-959 | Strings, counts and elements are read from values of just the right kind. |
| `Streaming.DrainOne` | crates/minha-core/src/provider.rs:818-826 | Consuming a buffer takes one frame off its front at a time and stops behind the first frame that fails. |
| `Streaming.PushedTwice` | crates/minha-core/src/deepseek.rs:391-403 | Pushing two chunks has the outcome of pushing them as one, with or without an error. |
| `Streaming.FedAsOne` | crates/minha-core/src/deepseek.rs:265-276 | Feeding any chunks has the outcome of pushing their concatenation at once. |
| `Streaming.ChunkingIsIrrelevant` | crates/minha-core/src/provider.rs:499-510 | Two splittings of one byte stream have the same outcome, for any frame parser. |
| `Streaming.SkippedFrames` | crates/minha-core/src/provider.rs:854-866 | Frames that only use up a budget can be left out while it lasts, without changing events or error. |
| `Outcomes.SucceedsIff` | crates/minha-core/src/deepseek.rs:391-413 | For any frame parser and any account of its states and of why a frame fails: consuming succeeds exactly when no frame fails, and leaves a state as accounted. |
| `Outcomes.FailsIff` | crates/minha-core/src/provider.rs:811-841 | Under such an account the error is that of the first frame that fails. |
| `Delivery.DeliveredIsPrefix` | crates/minha-core/src/deepseek.rs:273-275 | Whatever the chunking, what is handed on before an error is a prefix of the events of the frames before the failing one. |
| `Delivery.DeliversAll` | crates/minha-core/src/deepseek.rs:273-275 | Some chunking hands on all of these events. |
| `Delivery.ChunkingShows` | crates/minha-core/src/provider.rs:507-509 | A frame with events and one that fails hand on the events when pushed one by one, and nothing when pushed together. |
| `Delivery.HandingOnIgnoresChunkingIff` | crates/minha-core/src/provider.rs:507-513 | All chunkings hand on the same events exactly when no complete frame fails or none before the failing one has events. |
| `ToolCalls.CallsDoNotInterfere` | crates/minha-core/src/deepseek.rs:515-573 | With explicit indices the call at an index is built from its own fragments alone and exists exactly when it has any. |
| `ToolCalls.UnindexedCreatesNothing` | crates/minha-core/src/deepseek.rs:521-536 | A fragment without an index creates no call; it extends the single call in flight, and changes nothing if there is not exactly one. |
| `ToolCalls.ExtendedArguments` | crates/minha-core/src/deepseek.rs:543-572 | A different id or a repeated name forgets the arguments; any other fragment extends them. |
| `ToolCalls.NoRestartAfterLast` | crates/minha-core/src/deepseek.rs:543-567 | No fragment behind the last restart is itself a restart. |
| `ToolCalls.ArgumentsSinceRestart` | crates/minha-core/src/deepseek.rs:543-572 | The arguments are the concatenation of the pieces since the last restart. |
| `ToolCalls.IdentityIsLatest` | crates/minha-core/src/deepseek.rs:543-569 | The id is the last one given, and the name the last one given since the id changed. |
| `ToolCalls.FinalCall` | crates/minha-core/src/deepseek.rs:515-573 | Id, name and arguments of the final call at an index, from the fragments of that index. |
| `ChatCalls.AssembledCallsAre` | crates/minha-core/src/deepseek.rs:515-573 | For any entries of `tool_calls` deltas: there is a call at each index that an entry names, with the last `id`, the last `function.name` under it and the `function.arguments` since it was last started over, of the entries that belong to it; an entry without an index belongs to the only call there is. |
| `ChatCalls.TurnCallsAre` | crates/minha-core/src/deepseek.rs:495-573 | The calls of a successful turn are those of all the entries that the stream carries, by ascending index. |
| `ChatStream.ChatStreamParser.constructor` | crates/minha-core/src/deepseek.rs:382-388 | A new parser has an empty buffer, no calls, no malformed frames and is not completed. |
| `ChatStream.ChatStreamParser.Push` | crates/minha-core/src/deepseek.rs:391-403 | Buffer, state, events and error after a push are those of draining the buffer extended by the chunk. |
| `ChatStream.ChatStreamParser.Finish` | crates/minha-core/src/deepseek.rs:405-413 | The leftover bytes are parsed as a last frame, the buffer is emptied and the assembled calls are reported by index. |
| `ChatStream.ChatStreamParser.ParseFrame` | crates/minha-core/src/deepseek.rs:415-576 | The in-place effect of one frame, with all its branches, is the specified one; what a turn makes of all frames is in `ChatOutcome.TurnSucceedsIff`, `ChatOutcome.TurnFailsIff` and `ChatTurn.TurnResultIsSummary`. |
| `ChatStream.ChatStreamParser.ApplyChoice` | crates/minha-core/src/deepseek.rs:495-573 | The in-place effect of one choice on texts, finish reason and calls. |
| `ChatStream.TurnIgnoresChunking` | crates/minha-core/src/deepseek.rs:265-283 | Result and events of a successful turn and the error of a failing one depend on the bytes and not on their chunking. |
| `ChatStream.DeltasMakeUpTheTexts` | crates/minha-core/src/deepseek.rs:499-514 | In a successful turn the text and reasoning events concatenate to the output and reasoning texts. |
| `ChatTurn.TurnIsFold` | crates/minha-core/src/deepseek.rs:265-283 | A turn, with its result, events or error, is what consuming the frames of the whole stream amounts to, its leftover bytes being the last frame. |
| `ChatTurn.SuccessHandsOnAll` | crates/minha-core/src/deepseek.rs:273-279 | A successful turn hands on the events of its outcome. |
| `ChatTurn.EventsIgnoreChunkingIff` | crates/minha-core/src/deepseek.rs:273-279 | The condition under which the events of a turn, failing or not, do not depend on the chunking. |
| `ChatTurn.FramesFollow` | crates/minha-core/src/deepseek.rs:456-575 | After any frames without an error, counts, ids and finish reason are the last ones reported, texts are appended in order, and calls are assembled from all fragments in order. |
| `ChatTurn.TurnResultIsSummary` | crates/minha-core/src/deepseek.rs:260-283 | Every field of a successful turn's result that a frame can set, read off the values of the whole stream at once: fields absent from a later frame keep their earlier values. |
| `ChatTurn.CallListByIndex` | crates/minha-core/src/deepseek.rs:411 | The reported calls are exactly the assembled ones, by ascending index. |
| `ChatTurn.DoneChecksArguments` | crates/minha-core/src/deepseek.rs:431-443 | The end marker fails exactly when some call has arguments that do not parse, and then names the least such index. |
| `ChatTurn.MalformedFramesAreSkipped` | crates/minha-core/src/deepseek.rs:444-455 | A whole turn with up to eight malformed frames has the outcome of the byte stream without them, however both are chunked. |
| `ChatTurn.MalformedFailsIff` | crates/minha-core/src/deepseek.rs:444-455 | A turn fails for malformed frames exactly when a ninth one comes before any other error. |
| `ChatOutcome.LastFrameIs` | crates/minha-core/src/deepseek.rs:405-413 | The frames of a turn are those that end and the leftover bytes, if there are any. |
| `ChatOutcome.TurnSucceedsIff` | crates/minha-core/src/deepseek.rs:260-283 | A turn succeeds exactly when no frame fails and some payload is `[DONE]`; it is incomplete exactly when no frame fails and none is. A frame fails if it is the ninth that carries no JSON, or if it is `[DONE]` and the calls of the frames before it have arguments that are not JSON. |
| `ChatOutcome.TurnFailsIff` | crates/minha-core/src/deepseek.rs:430-455 | Any other error is that of the first frame that fails, with the least index of a call with such arguments. |
| `ChatOutcome.TurnEventsAre` | crates/minha-core/src/deepseek.rs:430-514 | The events of a successful turn, frame by frame: `[DONE]` completes it, and each choice has its nonempty reasoning and then its nonempty text. |
| `SseStream.SseParser.constructor` | crates/minha-core/src/provider.rs:803-808 | A new parser has an empty buffer, no malformed frames and is not completed. |
| `SseStream.SseParser.Push` | crates/minha-core/src/provider.rs:811-828 | Buffer, state, events and error after a push are those of draining the buffer extended by the bytes. |
| `SseStream.SseParser.Finish` | crates/minha-core/src/provider.rs:830-841 | Leftover bytes are read as a last frame unless they are blank; the buffer stays as it is. |
| `SseStream.SseParser.Frame` | crates/minha-core/src/provider.rs:819-825 | A frame without data lines has no effect; any other has the effect of its event. |
| `SseStream.SseParser.Event` | crates/minha-core/src/provider.rs:843-922 | The in-place effect of one event, with all its branches, is the specified one; what a turn makes of all events is in `SseOutcome` and `SseItems`. |
| `SseStream.SseParser.CaptureResponse` | crates/minha-core/src/provider.rs:924-991 | The loop over the output items merges identity, usage, items and calls as specified, skipping known ones. |
| `SseStream.TurnIgnoresChunking` | crates/minha-core/src/provider.rs:497-521 | Result and events of a successful turn and the error of a failing one depend on the bytes and not on their chunking. |
| `SseStream.DeltasMakeUpTheText` | crates/minha-core/src/provider.rs:514-518 | In a successful turn the output text is the concatenation of the text events, or the text of the message items if there were none. |
| `SseStream.RecaptureAddsNothingIff` | crates/minha-core/src/provider.rs:959-990 | Capturing the same output again changes nothing exactly when every item has an id or a call id. |
| `SseTurn.CaptureFollows` | crates/minha-core/src/provider.rs:924-958 | A snapshot updates exactly the counts and names it reports, with cache writes read from the first of two places. |
| `SseTurn.FramesFollow` | crates/minha-core/src/provider.rs:867-921 | After any frames without an error, counts and names are the last ones any snapshot reports, and the text is all deltas in order. |
| `SseTurn.TurnIsFold` | crates/minha-core/src/provider.rs:497-521 | A turn, with its result, events or error, is what consuming the frames of the whole stream amounts to, leftover bytes that are not blank being the last frame. |
| `SseTurn.SuccessHandsOnAll` | crates/minha-core/src/provider.rs:507-513 | A successful turn hands on the events of its outcome. |
| `SseTurn.EventsIgnoreChunkingIff` | crates/minha-core/src/provider.rs:507-513 | The condition under which the events of a turn, failing or not, do not depend on the chunking. |
| `SseTurn.TurnResultIsSummary` | crates/minha-core/src/provider.rs:488-521 | Counts, id, model and text of a successful turn, read off the values of the whole stream at once; the header's model holds until a snapshot names one. Items and calls are in `SseItems.TurnHoldsItems`. |
| `SseTurn.MalformedFramesAreSkipped` | crates/minha-core/src/provider.rs:854-866 | A whole turn with up to eight malformed frames has the outcome of the byte stream without them, however both are chunked. |
| `SseTurn.MalformedFailsIff` | crates/minha-core/src/provider.rs:854-866 | A turn fails for malformed frames exactly when a ninth one comes before any other error. |
| `SseOutcome.LastFrameIs` | crates/minha-core/src/provider.rs:830-841 | The frames of a turn are those that end and the leftover bytes, unless all of them are tabs, line feeds, form feeds, carriage returns and spaces. |
| `SseOutcome.TurnSucceedsIff` | crates/minha-core/src/provider.rs:497-521 | A turn succeeds exactly when no frame fails and some payload trims to `[DONE]` or has the type `response.completed` or `response.done`; it is incomplete exactly when no frame fails and none does. A frame fails if it is the ninth that carries no JSON, or if its type is that of an error. |
| `SseOutcome.TurnFailsIff` | crates/minha-core/src/provider.rs:843-922 | Any other error is that of the first frame that fails, with the message found in the first of three places, redacted. |
| `SseOutcome.TurnEventsAre` | crates/minha-core/src/provider.rs:843-922 | The events of a successful turn, frame by frame: text deltas, streamed items and completions. |
| `SseItems.TurnHoldsItems` | crates/minha-core/src/provider.rs:875-991 | A successful turn holds every streamed item with its call, holds or knows by id every item of every snapshot and its call, and holds no item or call that did not come from one of these; a call has the strings under `call_id`, `name` and `arguments` of its item. |
| `SseItems.FramesKeep` | crates/minha-core/src/provider.rs:868-921 | Any frames without an error only add items and calls, hold all they bring, and add nothing else. |
| `SseItems.StreamingAppends` | crates/minha-core/src/provider.rs:875-899 | A streamed item is appended, and so is its call, whatever is there already. |
| `SseItems.SnapshotAddsInTurn` | crates/minha-core/src/provider.rs:959-990 | Each further item of a snapshot is appended unless one with its id, or its call id and type, is there, and its call unless one has its id. |
| `SseItems.ItemsTextGrows` | crates/minha-core/src/provider.rs:1010-1020 | The text of the items is that of the `output_text` parts of the messages among them, in order. |
| `SseItems.RepeatedItemsAddNothing` | crates/minha-core/src/provider.rs:959-990 | Items with an id or a call id that came before, streamed or in a snapshot, add nothing when a later snapshot repeats them. |
| `SseRepeats.FramesRepeatItemsIff` | crates/minha-core/src/provider.rs:875-898 | Frames without an error leave an output item in the result twice exactly when it was there twice before or a frame streams an item known before it. |
| `SseRepeats.FramesRepeatCallsIff` | crates/minha-core/src/provider.rs:875-898 | The same for tool calls and their ids. |
| `SseRepeats.TurnRepeatsNothingIff` | crates/minha-core/src/provider.rs:875-991 | A successful turn holds no item twice exactly when no frame streams a known item, and no call twice exactly when no frame streams a known call id. |
| `SseRepeats.SnapshotThenStreamRepeats` | crates/minha-core/src/provider.rs:875-900 | A snapshot that brings a call and then the event that streams it leave the item and the call there twice, without an error. |
| `EditDistance.Compute` | crates/minha-tui/src/commands.rs:711-724 | The two-row loop returns the recursive Levenshtein distance of any two strings. |
| `EditDistance.ZeroIffEqual` | crates/minha-tui/src/commands.rs:711-724 | The distance is zero exactly on equal strings. |
| `EditDistance.Symmetric` | crates/minha-tui/src/commands.rs:711-724 | The distance is symmetric. |
| `EditDistance.Triangle` | crates/minha-tui/src/commands.rs:711-724 | The triangle inequality. |
| `EditDistance.ShortestChain` | crates/minha-tui/src/commands.rs:704-711 | There is a chain of single-character insertions, deletions and substitutions of exactly that length. |
| `EditDistance.ChainIsLongEnough` | crates/minha-tui/src/commands.rs:704-711 | No chain of such edits is shorter. |
| `EditDistance.LeastNumberOfEdits` | crates/minha-tui/src/commands.rs:704-711 | The distance is the least number of single-character edits between the strings. |
| `CommandRanking.SubsequenceIff` | crates/minha-tui/src/commands.rs:641-644 | The greedy scan succeeds exactly when an increasing embedding exists. |
| `CommandRanking.RankIff` | crates/minha-tui/src/commands.rs:646-674 | The rank of a command is the best that fits it and there is none exactly when none fits: the name, its start, that of an alias, a part of it, letters in order, or a part of the description, whatever the case of the letters. |
| `Text.LowercaseIs` | crates/minha-tui/src/commands.rs:650-651 | Lower case has no capital ASCII letters and differs in nothing else. |
| `CommandRanking.RankNarrows` | crates/minha-tui/src/commands.rs:646-674 | Appending a character never ranks an unranked command and never improves a rank except to exact. |
| `CommandRanking.TypedRankNarrows` | crates/minha-tui/src/commands.rs:682-683 | The same for queries as typed, with any leading slashes. |
| `CommandRanking.SlashesAreIgnored` | crates/minha-tui/src/commands.rs:683 | Exactly the leading slashes of a query are ignored. |
| `CommandRanking.MatchesAreTheRanked` | crates/minha-tui/src/commands.rs:682-702 | The list is sorted by rank and then registry position and holds exactly the entries of the ranked commands. |
| `CommandRanking.BestComesFirst` | crates/minha-tui/src/commands.rs:684-702 | Every entry is its command with its rank and availability; a better rank comes first, and among equals the earlier command. |
| `CommandRanking.EachListedOnce` | crates/minha-tui/src/commands.rs:684-702 | No command is listed twice. |
| `CommandRanking.ListsIffRanked` | crates/minha-tui/src/commands.rs:684-702 | A command is listed exactly when it is ranked. |
| `CommandRanking.TypingNeverAdds` | crates/minha-tui/src/commands.rs:676-702 | Typing one more character never lists a command that was not listed before. |
| `CommandRanking.EmptyQueryListsRegistry` | crates/minha-tui/src/commands.rs:801-808 | The empty query lists the whole registry in its own order. |
| `CommandRanking.SuggestionIsNearest` | crates/minha-tui/src/commands.rs:727-744 | For a name without matches, the suggestion is the earliest command at the least edit distance within the budget, and there is none exactly when all are beyond it. |
| `CommandRanking.SuggestionIsBestMatch` | crates/minha-tui/src/commands.rs:727-733 | For a name with matches the suggestion is the earliest command of the best rank, and for the empty name there is none. |
| `CommandRanking.BudgetIs` | crates/minha-tui/src/commands.rs:737 | A name shorter than six characters may be off by one edit, one shorter than nine by two, and any other by three. |
| `TreeTruncation.TruncateValue` | crates/minha-core/src/executor.rs:1445-1488 | Rewriting the tree and counting the budget down gives the specified tree and leftover. |
| `TreeTruncation.TruncateItems` | crates/minha-core/src/executor.rs:1463-1473 | The loop over array elements keeps those reached before the budget ran out, each truncated. |
| `TreeTruncation.TruncateFields` | crates/minha-core/src/executor.rs:1474-1485 | The loop over object members, in key order, removes those not reached. |
| `TreeTruncation.FirstWords` | crates/minha-core/src/executor.rs:1450-1457 | The loop over words yields the first ones joined by single spaces. |
| `Text.WordsKeepCharacters` | crates/minha-core/src/executor.rs:1450-1457 | Splitting into words loses exactly the white space. |
| `Text.WordsOfParts` | crates/minha-core/src/executor.rs:1450-1457 | A text without white space is one word, and white space splits a text into the words of both sides. |
| `TreeTruncation.CountIsLength` | crates/minha-core/src/executor.rs:1436-1443 | The recursive count is the length of the word sequence in traversal order. |
| `TreeTruncation.TruncationIsTaken` | crates/minha-core/src/executor.rs:1445-1488 | Read in traversal order, the truncated tree holds the first min(n, count) words, and the leftover budget is n minus that number. |
| `TreeTruncation.SpareBudgetKeepsTree` | crates/minha-core/src/executor.rs:1459-1461 | A tree with fewer words than the budget comes back unchanged. |
| `TreeTruncation.TruncationPrunes` | crates/minha-core/src/executor.rs:1463-1486 | Only array and object tails are cut and strings replaced; every other value, position and key is kept. |
| `TreeTruncation.TruncationIsIdempotent` | crates/minha-core/src/executor.rs:1445-1488 | Truncating again with the same budget changes nothing. |
| `TreeTruncation.ReadContent` | crates/minha-core/src/executor.rs:1531-1539 | A read reports truncation exactly when the words exceed the limit, a content of min(original, limit) words, and the content itself if it was not truncated. |
| `CappedRead.ReadCappedStream` | crates/minha-core/src/executor.rs:2250-2264 | The result is the first bytes of the stream up to the cap, however they arrive, and truncation is reported exactly when there were more; a read that fails before the end of the stream makes the call fail with its error. |
| `CappedRead.PiecesAre` | crates/minha-core/src/executor.rs:2250-2264 | The bytes of the stream are those of the reads before the first that gives none, in order, unless one fails before that. |
| `FairRouting.CooldownDoubles` | crates/minha-core/src/fairness.rs:35-43 | The first failure waits 15 seconds, and each further one twice as long, up to five minutes. |
| `FairRouting.SaturationIs` | crates/minha-core/src/fairness.rs:199-234 | Credits are a hundred thousand each, and credits and debits stop at the ends of the signed 64-bit range. |
| `FairRouting.ChoiceIsBest` | crates/minha-core/src/fairness.rs:203-234 | The chosen candidate has the largest credit and comes first by provider and model among those; its debit saturates. |
| `Ordering.StringLeqIff` | crates/minha-core/src/fairness.rs:214-217 | Strings are ordered by their first differing character, and a prefix comes first. |
| `FairRouting.ChoiceIgnoresOrder` | crates/minha-core/src/fairness.rs:199-218 | The choice does not depend on the order in which distinct candidates are listed. |
| `FairRouting.RoundServesLargest` | crates/minha-core/src/fairness.rs:199-234 | An unsaturated round credits every route and debits one of largest deficit by the work it is given. |
| `FairRouting.RoundKeepsGap` | crates/minha-core/src/fairness.rs:199-234 | A round keeps every gap between deficits within a bound that the work does not exceed, also where a credit or debit saturates. |
| `FairRouting.RoomyRunIsUnsaturated` | crates/minha-core/src/fairness.rs:203-234 | A run saturates nothing if the deficits leave room for every quantum and all the work together. |
| `FairRouting.GapStaysBounded` | crates/minha-core/src/fairness.rs:199-234 | Over any run no gap exceeds the larger of the initial gap and the largest estimate. |
| `FairRouting.DeficitsAccount` | crates/minha-core/src/fairness.rs:199-234 | Each deficit is its start plus one quantum a round less the work served, and all work was served. |
| `FairRouting.LevelService` | crates/minha-core/src/fairness.rs:199-234 | Routes that start level are served amounts that differ by at most the largest estimate. |
| `FairRouting.EqualShares` | crates/minha-core/src/fairness.rs:199-234 | Each of n level routes gets at least the n-th part of all work, less the largest estimate. |
| `Versions.ComparePre` | crates/minha-core/src/update.rs:470-483 | The early-return loop decides by the first difference and then by length. |
| `Versions.ParsePrintRoundTrip` | crates/minha-core/src/update.rs:416-468 | Parsing a printed version returns it unchanged. |
| `Versions.BuildIsIgnored` | crates/minha-core/src/update.rs:418-421 | Appending build metadata of any form to a text changes neither whether it is accepted nor what it denotes. |
| `Versions.BareHyphenIsRelease` | crates/minha-core/src/update.rs:422-441 | A release followed by a bare hyphen, with or without build metadata, is accepted as that release. |
| `Versions.ParseIff` | crates/minha-core/src/update.rs:416-468 | The parser reads a version from exactly the texts that are, less white space around them and leading `v`s, that version in print, possibly a bare hyphen if it is a release, and possibly build metadata; an error quotes what is left of the text. |
| `Versions.StrippedIff` | crates/minha-core/src/update.rs:417 | What is parsed is the text less exactly the white space around it and then all leading `v`s. |
| `Text.WhitespaceIsListed` | crates/minha-core/src/update.rs:417 | White space is the 25 characters with the White_Space property of Unicode, one by one. |
| `Versions.CharactersAre` | crates/minha-core/src/update.rs:445-463 | Digits, and the characters of pre-release identifiers, by their ASCII codes. |
| `Versions.ConformsIff` | crates/minha-core/src/update.rs:416-468 | A trimmed text follows the grammar of the standard and its numbers have 64 bits exactly when the parser accepts it, it has no bare hyphen, and its build metadata is well formed. |
| `Versions.ConformingIsRejectedIff` | crates/minha-core/src/update.rs:426-454 | A version of the standard is rejected exactly when one of its numbers needs more than 64 bits. |
| `Versions.TooBigIsRejected` | crates/minha-core/src/update.rs:432-433 | A release whose first number needs more than 64 bits follows the grammar and is rejected. |
| `Versions.ParsedIsValid` | crates/minha-core/src/update.rs:426-467 | Whatever parses has three core numbers and well-formed identifiers, and printing and parsing it again changes nothing. |
| `Versions.CompareSeqDecides` | crates/minha-core/src/update.rs:470-483 | Comparing sequences element by element decides the lexicographic order stated by positions, and swapping sides flips it. |
| `Versions.CompareIsPrecedence` | crates/minha-core/src/update.rs:402-414 | The comparison is the precedence of section 11 of Semantic Versioning 2.0.0, in all three outcomes. |
| `Versions.CompareTransitive` | crates/minha-core/src/update.rs:402-414 | Not being greater is transitive. |
| `Versions.ReleasesCompareByPrecedence` | crates/minha-core/src/update.rs:402-468 | On any two texts that denote versions, with `v`, white space or build metadata, the check decides the precedence of the standard in all three outcomes. |
| `Versions.CompareSucceedsIff` | crates/minha-core/src/update.rs:402-404 | The comparison succeeds exactly when both texts denote versions. |
| `Clarification.Score` | crates/minha-core/src/clarify.rs:492-514 | The loop that adds up both sums returns the meter. |
| `Clarification.IssueClarification.ApplyAnswers` | crates/minha-core/src/clarify.rs:173-246 | Both in-place passes, the rescoring and the move to review give the specified view; what it is comes out in `AnswerVerdicts.DimensionAfter` and `AnswerVerdicts.StatusAfter`. |
| `Clarification.IssueClarification.Reopen` | crates/minha-core/src/clarify.rs:248-282 | The view after reopening, with the dimension it puts in question. |
| `Clarification.IssueClarification.ExhaustRounds` | crates/minha-core/src/clarify.rs:298-309 | The view after giving up, with every unknown dimension delegated. |
| `Clarification.MeterIsPercentage` | crates/minha-core/src/clarify.rs:508-512 | The meter is at most 100 for any weights, and the clamp never acts. |
| `Clarification.MeterZeroIff` | crates/minha-core/src/clarify.rs:492-514 | With positive weights, the meter is zero exactly when every dimension is confirmed or does not apply. |
| `Clarification.UniformReading` | crates/minha-core/src/clarify.rs:492-530 | The meter reads 100 when all that applies is unknown, 50 when it is partial, 25 when it was inferred or delegated, and 0 when it is confirmed. |
| `Clarification.AnswersNeverRaise` | crates/minha-core/src/clarify.rs:173-246 | Answers to dimensions that were still uncertain, with any actions and notes, never raise the meter. |
| `AnswerVerdicts.AnswersGiveVerdict` | crates/minha-core/src/clarify.rs:173-212 | After a list of answers each dimension, with its status and detail, is decided by the last answer to it alone or, without one, by whether best judgment was asked for. |
| `AnswerVerdicts.AppliedIsVerdicts` | crates/minha-core/src/clarify.rs:173-240 | The whole submission, with its notes, leaves every dimension with the status and weight of that verdict. |
| `AnswerVerdicts.DimensionAfter` | crates/minha-core/src/clarify.rs:173-240 | After a submission each dimension is its verdict, with the notes on it added to its detail. |
| `AnswerVerdicts.StatusAfter` | crates/minha-core/src/clarify.rs:392-422 | After a submission the status is that of its last action among `cancel`, `confirm`, `summarize` and `keep_clarifying`, or the old one without any; but collecting becomes reviewing exactly when the meter is at most 25 and nothing is unknown. |
| `AnswerVerdicts.AnswersRaiseMeterIff` | crates/minha-core/src/clarify.rs:173-246 | For any list of answers, the meter rises exactly when the scaled uncertain sum of these verdicts exceeds the old reading of their possible sum. |
| `Clarification.AnswerRaisesMeterIff` | crates/minha-core/src/clarify.rs:173-246 | For any view and answer, the meter rises exactly when the answer delegates a dimension that was confirmed or did not apply, and the scaled uncertain sum after it exceeds the old reading of the possible sum after it. |
| `Clarification.DelegatingConfirmedRaises` | crates/minha-core/src/clarify.rs:197-202 | From a meter of zero, every delegation raises it. |
| `Clarification.DelegatingMayLower` | crates/minha-core/src/clarify.rs:492-514 | Delegating a dimension that did not apply can take the meter from 100 to 63. |
| `Clarification.BestJudgmentReviews` | crates/minha-core/src/clarify.rs:392-422 | While collecting, any submission that contains "use best judgment" and no closing action reaches the review with the meter at most 25 and nothing unresolved. |
| `Clarification.ExhaustingSettlesUnknowns` | crates/minha-core/src/clarify.rs:295-309 | Giving up leaves nothing unknown, reaches the review and never raises the meter. |
| `Clarification.ExhaustedIs` | crates/minha-core/src/clarify.rs:298-309 | Giving up delegates exactly the unknown dimensions and leaves the others as they are. |
| `Clarification.UnresolvedDimensionsListing` | crates/minha-core/src/clarify.rs:532-546 | The dimensions to ask about are exactly the unresolved ones, heaviest first. |
| `Clarification.UnresolvedKeepTies` | crates/minha-core/src/clarify.rs:532-546 | Dimensions of equal weight are asked about in the order in which they are listed. |
| `Clarification.ReopenAsksIff` | crates/minha-core/src/clarify.rs:248-282 | Something is unresolved after reopening exactly when something was before or a target dimension exists. |
| `Clarification.ReopenedIs` | crates/minha-core/src/clarify.rs:248-282 | Reopening makes exactly the dimension in question partial, with the first 2000 characters of the note as its detail, and takes the issue back to collecting without a brief or questions. |
| `Clarification.ReopenMayAskNothing` | crates/minha-core/src/clarify.rs:248-282 | A note without a goal dimension to put in question leaves nothing unresolved. |
| `Clarification.ReopenAlwaysAsks` | crates/minha-core/src/clarify.rs:1001-1011 | With a goal and a success dimension, reopening always leaves something to clarify. |
| `ShellTokens.ShellishTokens` | crates/minha-core/src/clarify.rs:820-854 | The loop over characters returns the recursive tokenization. |
| `ShellTokens.EscapeRoundTrip` | crates/minha-core/src/clarify.rs:834-841 | Tokenizing inverts escaping and joining with spaces, for any nonempty words. |
| `ShellTokens.QuoteRoundTrip` | crates/minha-core/src/clarify.rs:826-833 | Tokenizing inverts quoting, for nonempty words without the quote. |
| `ShellTokens.TokensAre` | crates/minha-core/src/clarify.rs:820-854 | Every text is a sequence of white space, plain and escaped characters and quotations, the last of which may be open, and its tokens are what these mean. |
| `UsageLedger.ReserveNeverOverflows` | crates/minha-core/src/usage.rs:162-175 | The unchecked additions of an allowed reservation stay within 64 bits in any state. |
| `UsageLedger.UsageLedger.Reserve` | crates/minha-core/src/usage.rs:162-182 | Allowed exactly when the estimate passes the three checks; then only the reservation grows, otherwise nothing changes. |
| `UsageLedger.UsageLedger.Commit` | crates/minha-core/src/usage.rs:184-200 | The reservation is taken back and the actual use is added, all saturating. |
| `UsageLedger.UsageLedger.Release` | crates/minha-core/src/usage.rs:202-205 | The reservation is taken back, saturating, and nothing else changes. |
| `UsageLedger.StepKeepsInv` | crates/minha-core/src/usage.rs:162-205 | Every disciplined operation keeps reservations equal to the outstanding ones and the limits respected. |
| `UsageLedger.ReservationsAddUp` | crates/minha-core/src/usage.rs:162-205 | Over every disciplined run what is reserved is the sum of the outstanding reservations, and use plus reservations stay within the input and output limits. |
| `UsageLedger.UseIsRecorded` | crates/minha-core/src/usage.rs:184-200 | Over every disciplined run the used input and output are the sums of what the commits say, and the three other counters are these sums, saturated. |
| `UsageLedger.RemainingIsLeft` | crates/minha-core/src/usage.rs:105-121 | What is reported to remain is the limit less that use and the outstanding reservations. |
| `UsageLedger.TotalLimitIsKeptIff` | crates/minha-core/src/usage.rs:75-79 | The total limit is kept over all disciplined runs exactly when it is below the 64-bit maximum or the other two limits bound it. |
| `UsageLedger.AllowedIffItFits` | crates/minha-core/src/usage.rs:105-182 | After every disciplined run a reservation is allowed exactly when, added to all that was committed and all that is outstanding, it fits under the three limits. |

## Left out

- HTTP, OAuth, terminals, git and `gh` subprocesses, the file system, rendering and the command-line surface: input and output without a checkable core.
- The SQLite store and the runtime: the router's caller is modelled from its contract only, so settling or cancelling an admission is not part of this model.
- UTF-8 decoding, JSON parsing, redaction of error texts and SHA-256 are function parameters; their own behaviour is not modelled. A provider's JSON values are the abstract values of `Json`.
- Generated identifiers and clock reads are parameters (`Accept`) or left out (the message ids of offers). The command registry is a parameter; the category, argument and network fields of a command are left out.
- Rate limits in a turn's result, the idle timeout and transport errors of the stream loops, and the text of malformed-frame errors.
- Counters without modelled width: the graph version, the cache's byte total and hit, miss and eviction counts, and the two 32-bit sums of the meter, whose weights have 8 bits; they stay far from their limits. The saturating multiplication of the meter and the 64-bit arithmetic of the ledger, the router and the encoding are modelled.
- JSON trees and the parser's result are rewritten as values that the methods return; aliasing of the caller's object is not modelled.
- FairRouting.DeficitsAccount: assumes that no deficit leaves the 64-bit range during the run, for which `RoomyRunIsUnsaturated` gives a bound on its start; a saturated deficit stops accounting for the work. `LevelService` and `EqualShares` assume the same, `GapStaysBounded` does not.
- Leases.TenuresNeverOverlap: the scheduler's `LeaseExpired` message is not an event of these runs, because it removes a lease without looking at its generation or expiry (crates/minha-core/src/agent.rs:134-137). `Handle` models that step.
- UsageLedger.ReservationsAddUp: is about callers that return each reservation at most once and use no more than they reserved; the ledger itself checks neither.
- The preparation of the brief's text, classification of reports, fallback questions and the checks on question batches: finite tables and wording.
- Normalized token work, provider health records, pricing and the other floating-point figures: single formulas.
- Secret detection and redaction, configuration, profiles, the book catalogue, recipients, the judge and receipts: string heuristics and easy members.
