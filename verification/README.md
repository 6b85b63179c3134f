# Context machinery of the y-agent workspace

A model, in Dafny 4.11, of the parts of the workspace that decide what a language model gets to see, with proofs about
them. `dafny verify dfyconfig.toml` checks everything.

| area | modules |
|---|---|
| accessibility-tree snapshot | `Snapshot`, over `WalkGraph` (graphs), `Preorder` (the recursive walk), `StackWalk` (the loop, turn by turn), `WalkHalting` (when it ends) and `ListingOrder` (what comes first); `SnapshotCases` says it of the nodes |
| browser protocol client | `CdpProtocol` (the interleaved steps and what every run keeps), `CdpReconnect` (old readers and new connections), `CdpClient` (the client of channel objects, whose history is a run) |
| compaction boundary and cache fingerprint | `Sampling`, `Fingerprint` |
| history repair and injection | `Repair`, `RepairCases` (which messages survive, and in which entry), `LoadHistory` |
| summarising through an unreliable model | `Compaction`, `SelectiveRetention`, `SummaryContents` (where the text of a summary comes from), `CompactionEngine` |
| budget control | `Guard`, `Pipeline`, `ContextManager`, `WorkingMemory` |
| memory recall | `Recall`, `RecallCases` (what scores, choices and results come to), `Vectors` |
| cached system prompt | `PromptSections`, `CacheKey`, `Conditions`, `SystemPrompt`, `PromptContents` (which sections a prompt is made of), `StalePrompts` |
| slash-command templates | `SlashFiles`, `SlashCases` (what each spelling means) |
| shared | `Wrappers`, `Numbers`, `Sets`, `Text`, `Sorting`, `Scoring` |

Loops over buffers are methods with loops, objects that update fields are classes, and each is proved against a function
or predicate whose own properties are lemmas. The browser client is a state machine: each action is one critical
section of the code, so every interleaving of callers, the reader task and `disconnect` is a run of it. The client
object keeps its history, which its methods prove to be a run, and can perform every run. The modules named `Cases` and
`Contents` say what the functions that the methods are proved against mean, in terms of the inputs and without those
functions.

## Findings

Places where the code does less than its documentation or a natural reading says. Each is proved, by a
concrete witness, by the exact condition under which the code does what is wanted, or by both. That a debug build
panics, and that a caller leaves out an invalidation, is read off the source and not proved.

- `expand` (crates/y-cli/src/slash_files.rs:144-199) does not return when the template ends in an odd number of `$`: the
  bulk copy finds the last `$` at once and copies nothing (`SlashFiles.HaltsIffTrailIsEven`). `$0` reads argument 256,
  because `next - b'1'` wraps in a release build (`SlashFiles.ZeroNamesAFarArgument`); a debug build panics there.
- `safe_compaction_range` (crates/y-context/src/sampling.rs:97-121) moves its end back once only. With interleaved
  groups it cuts one (`Sampling.InterleavedGroupsAreCut`); it is safe for every window exactly on histories without
  straddling groups (`Sampling.SafeForEveryWindowIffNoStraddle`).
- The stable-prompt cache key (crates/y-context/src/system_prompt.rs:280-318) records whether there is a custom prompt
  but not which. The comment there says that content changes invalidate; the code that changes the content
  (crates/y-service/src/prepared_turn_context.rs:137) does not, and only `reload_store` does
  (`StalePrompts.ChangedCustomPromptGoesStale`, `SystemPrompt.PrefixIsSharedIff`).
- The key also lacks active skills, available tools and all flags outside five families, among them `persona.enabled`
  (crates/y-prompt/src/builtins.rs:218). A section can go stale on a change of context if and only if the key does not
  settle its condition (`StalePrompts.FreshIffDetermined`, `StalePrompts.PersonaGoesStale`); with the built-in
  conditions only `persona.enabled` can do it (`StalePrompts.OnlyPersonaMatters`). The key is ambiguous when ids contain
  its separators or are empty (`CacheKey.CommaInSectionIdCollides`, `CacheKey.EmptySectionIdCollides`,
  `CacheKey.SemicolonInModeCollides`, `CacheKey.EqualsInFlagNameCollides`).
- `provide` reads the callable agents once for the key and again for the text
  (crates/y-context/src/system_prompt.rs:371-422, 541-546). A change in between stores the new text under the old key,
  which is served when the old agents come back (`StalePrompts.AgentsGoStale`), unless no section that applies shows
  them (`SystemPrompt.IgnoredAgentsDoNotShow`).
- The prompt budget (crates/y-context/src/system_prompt.rs:547-556) does not count the newlines between sections, so the
  finished prompt can be over it (`StalePrompts.NewlinesAreNotCounted`): if and only if the newlines outnumber the slack
  of the parts and four bytes for each token left over (`SystemPrompt.PromptIsOverBudgetIff`).
- `format_aria_snapshot` (crates/y-browser/src/snapshot.rs:239-341) needs no acyclic input, but a skipped node that is its
  own child keeps it going for every limit but zero (`Snapshot.SelfLoopOfNoiseNeverEnds`). Which inputs and limits it ends on is
  settled by the trail of first children that can reach a cycle (`Snapshot.WalkHaltsIff`,
  `Snapshot.WalkHaltsForEveryLimitIff`); that a cycle has no listed node is not enough to say it does not end
  (`WalkHalting.SkippedCycleMayBeHarmless`).
- In the guard (crates/y-context/src/guard.rs:104-108) removing `tokens_over` tokens does not always clear the overflow:
  the verdict stays when the threshold is a whole number of tokens (`Guard.RemovingTheOverflow`). For a threshold above
  100 the fallback of the narrowing makes the test inexact (`Guard.NarrowedTestIsExactIff`).
- In the browser client ids are only distinct for the first 2^64 calls (`CdpProtocol.IdsAreDistinctIff`).
- Connecting again (crates/y-browser/src/cdp_client.rs:164-193) does not stop the reader of an earlier connection, whose
  teardown can take the writer of the new one and cut off its callers; it cannot if and only if that reader has taken
  the writer, or for the callers has come to its end, before (`CdpReconnect.WriterSurvivesIff`,
  `CdpReconnect.CallersSurviveIff`, `CdpReconnect.OldReaderCutsOffNewCaller`).

## Assumptions

- Strings are sequences of single-byte characters: lower-casing and white space are the ASCII ones, lengths are bytes.
- A hash map yields its entries in an arbitrary order, which is a parameter or an arbitrary choice.
- `u32` sums that are not saturating wrap, as in a release build; `u64` and `u32` saturation is explicit.
- Scores, weights and vectors are exact reals; the square root is an exact non-negative norm (`Vectors.IsNorm`).
- Serialisation is total and injective on messages (`Fingerprint.SerialiserIsFaithful`); SHA-256 is an arbitrary function
  of the stream.
- The summarising model is an arbitrary sequence of replies.

## Model

| member | source | states |
|---|---|---|
| Snapshot.FormatAriaSnapshot | crates/y-browser/src/snapshot.rs:166-341 | For every node list, limit and mode on which the walk ends, which `Snapshot.WalkHaltsIff` characterises, entry k is the k-th node the walk lists: its fields, its reference e(k+1) and its depth |
| Snapshot.WalkHaltsIff | crates/y-browser/src/snapshot.rs:239-341 | The walk halts if and only if no cycle can be reached from the root, or the nodes on its trail and left of it are at least `limit` in number; the trail goes from each node to its first child that can reach a cycle |
| Snapshot.WalkHaltsForEveryLimitIff | crates/y-browser/src/snapshot.rs:239-341 | It halts for every limit if and only if no cycle can be reached or every lap of the trail lists something |
| WalkHalting.HaltsIff | crates/y-browser/src/snapshot.rs:239-341 | The same for every graph, root and limit |
| WalkHalting.HaltsForEveryLimitIff | crates/y-browser/src/snapshot.rs:239-341 | The same for every graph and root |
| WalkHalting.GainIff | crates/y-browser/src/snapshot.rs:254-337 | A stretch of the trail lists something if and only if one of its nodes is listed, or a node that can be reached to the left of it is |
| WalkHalting.SufficesIsDecided | crates/y-browser/src/snapshot.rs:239-341 | Whether the trail lists enough shows within `limit * (nodes + 1)` steps of it, so the condition can be decided |
| WalkHalting.TrailComesRound | crates/y-browser/src/snapshot.rs:239-341 | The trail repeats a node within `nodes + 1` steps, so there is a lap and it can be found |
| WalkHalting.NoSkippedCycleHalts | crates/y-browser/src/snapshot.rs:284-299 | Without a cycle of skipped nodes the walk halts for every limit |
| WalkHalting.SkippedCycleMayBeHarmless | crates/y-browser/src/snapshot.rs:284-299 | That is not necessary: a skipped loop with a listed leaf to its left halts for every limit |
| Snapshot.SelfLoopOfNoiseNeverEnds | crates/y-browser/src/snapshot.rs:284-299 | A text-free generic node that is its own child keeps the loop going for every limit but zero |
| Snapshot.WalkStack | crates/y-browser/src/snapshot.rs:239-341 | The stack loop, with its limit test, unknown ids, skips and reversed pushes, takes the turns of the walk and renders what it lists |
| StackWalk.HaltsIffFrontIsFound | crates/y-browser/src/snapshot.rs:242-338 | The walk halts if and only if the bounded recursive preorder is found in some number of levels |
| StackWalk.OutcomeIsFront | crates/y-browser/src/snapshot.rs:242-338 | What a walk that halts has listed is the bounded recursive preorder |
| Snapshot.ListingIsFrontOfPreorder | crates/y-browser/src/snapshot.rs:239-341 | If the root reaches no cycle the walk ends and the snapshot is the front of the full recursive preorder of what the root reaches, for every limit |
| WalkHalting.FrontOfPart | crates/y-browser/src/snapshot.rs:242-338 | The walk does not see more of the input than what the root reaches |
| WalkHalting.PartIsAcyclic | crates/y-browser/src/snapshot.rs:242-338 | What the root reaches is acyclic if the root reaches no cycle |
| Preorder.BoundedIsFront | crates/y-browser/src/snapshot.rs:242-338 | The preorder that stops after n nodes is the first n nodes of the one that does not stop; skipped nodes hand their depth to their children |
| Preorder.MoreLevels | crates/y-browser/src/snapshot.rs:242-338 | Once the bounded preorder is found, looking further down does not change it |
| WalkGraph.WeightExistsIffNoSkippedCycle | crates/y-browser/src/snapshot.rs:284-299 | A weight that falls with every skipped node exists if and only if no cycle consists of skipped nodes only; the full preorder of an acyclic graph is defined by it |
| Preorder.ListsExactlyTheReachable | crates/y-browser/src/snapshot.rs:242-338 | A node is in the full listing if and only if it is not skipped and can be reached from the root, through skipped nodes too |
| Snapshot.CollectKeepIds | crates/y-browser/src/snapshot.rs:202-235 | Marking halts for every parent map, cyclic ones included, and yields the least set that holds the seeds and is closed under the parent map: the early break loses nothing |
| Snapshot.MarkAncestors | crates/y-browser/src/snapshot.rs:225-231 | One pass up from a seed turns the least closed set of the earlier seeds into that of the earlier seeds and this one |
| Snapshot.LeastKeepSetIsUnique | crates/y-browser/src/snapshot.rs:202-235 | At most one set is least among those that hold the seeds and are closed upwards |
| Snapshot.BuildParents | crates/y-browser/src/snapshot.rs:205-212 | The nested loop builds the map in which the last parent that names a child wins |
| Snapshot.RootIsFirstTop | crates/y-browser/src/snapshot.rs:178-191 | The root is the first node with an id that is nobody's child, and the first node only if there is none |
| Snapshot.LastNodeWins | crates/y-browser/src/snapshot.rs:173-176 | Of several nodes with one id the last is the one found |
| Snapshot.LastParentWins | crates/y-browser/src/snapshot.rs:205-212 | Of several parents that name a child the last is the one the marking follows |
| Snapshot.InteractiveNodesAreListed | crates/y-browser/src/snapshot.rs:222-299 | If the root reaches no cycle, every interactive node that it reaches is listed in interactive mode |
| Snapshot.ListedNodesAreKept | crates/y-browser/src/snapshot.rs:254-268 | In interactive mode, on every input and limit on which the walk ends, only nodes of the keep set are listed |
| Snapshot.PruningGivesTheSameListing | crates/y-browser/src/snapshot.rs:254-268 | In a tree whose root reaches no cycle, not descending below nodes outside the keep set gives the same listing as descending |
| Preorder.PruningLosesNothing | crates/y-browser/src/snapshot.rs:254-268 | The same on graphs: if the listed nodes are kept, and so is every parent of a kept node, pruning changes nothing |
| Snapshot.DepthIsListedAncestors | crates/y-browser/src/snapshot.rs:264-337 | In a tree whose root reaches no cycle the depth of an entry is the number of listed nodes above it on the way from the root |
| Preorder.DepthCountsListedAncestors | crates/y-browser/src/snapshot.rs:264-337 | The same for every graph in which each node has a single parent |
| Preorder.PathIsUnique | crates/y-browser/src/snapshot.rs:239-341 | In such a graph two paths between the same nodes are the same path |
| SnapshotCases.KnownKidsKeepTheirOrder | crates/y-browser/src/snapshot.rs:328-337 | The children that the walk follows are those that are known, each from its own place, in the order of the input |
| SnapshotCases.ChildrenAreShownInOrder | crates/y-browser/src/snapshot.rs:284-337 | In a tree whose root reaches no cycle, for every limit and mode: every entry at or below an earlier child of a node, shown or skipped, comes before every entry at or below a later child |
| SnapshotCases.NodeIsShownFirst | crates/y-browser/src/snapshot.rs:314-337 | There an entry comes before the entries of all nodes below its node |
| ListingOrder.SiblingsInOrder | crates/y-browser/src/snapshot.rs:328-337 | The order of children, for the full preorder of every acyclic graph in which nodes have a single parent and distinct children |
| ListingOrder.EachIsListedOnce | crates/y-browser/src/snapshot.rs:242-338 | That preorder lists no node twice |
| SnapshotCases.ShownIff | crates/y-browser/src/snapshot.rs:254-299 | If the root reaches no cycle, a reached node is in the full listing if and only if, without the filter, its role is no layout role or it has text, and with it, it is kept and its role is no layout role |
| SnapshotCases.SeedIff | crates/y-browser/src/snapshot.rs:214-224 | A node is a seed of the keep set if and only if its role, in any case, is one of the interactive ones, or one of the content ones and its name is more than white space |
| SnapshotCases.EntryShowsItsNode | crates/y-browser/src/snapshot.rs:301-326 | The fields of entry k are those of its node: no role is "unknown", an empty value or description is none |
| Snapshot.ReferencesAreDistinct | crates/y-browser/src/snapshot.rs:312-326 | No two entries of a snapshot share a reference |
| CdpProtocol.TeardownStrandsNobody | crates/y-browser/src/cdp_client.rs:196-211 | In every interleaving, once a teardown has taken the writer and then drained the pending map, and until the next connect, every caller past its write can complete; senders left in the map belong only to callers whose write fails |
| CdpProtocol.DrainFreesWaiters | crates/y-browser/src/cdp_client.rs:206-210 | A call that waits at a drain can receive from then on until it returns its mail or the loss of its sender, and never times out, whatever connects and teardowns follow |
| CdpReconnect.WriterSurvivesIff | crates/y-browser/src/cdp_client.rs:164-193 | While neither its own reader nor a `disconnect` tears it down, a new connection keeps its writer in every continuation if and only if every earlier reader has taken the writer before it or has come to its end |
| CdpReconnect.CallersSurviveIff | crates/y-browser/src/cdp_client.rs:588-595 | In such continuations no caller of the new connection is told that the connection is lost if and only if every earlier reader has come to its end: one that has taken the writer and not yet drained is enough |
| CdpReconnect.OldReaderCutsOffNewCaller | crates/y-browser/src/cdp_client.rs:588-595 | Both do fail: a run in which the drain of the first reader cuts off a caller that wrote to the second connection, whose writer stays |
| CdpReconnect.ConnectConnects | crates/y-browser/src/cdp_client.rs:173-189 | Every connect leads to a state that these conditions speak of |
| CdpReconnect.ContinuationsOfRuns | crates/y-browser/src/cdp_client.rs:164-193 | A run goes on exactly with the continuations of the state that it leads to |
| CdpReconnect.TakingTakes | crates/y-browser/src/cdp_client.rs:588-591 | How an earlier reader loses the new connection its writer |
| CdpReconnect.CuttingOffCuts | crates/y-browser/src/cdp_client.rs:588-595 | How an earlier reader cuts off a caller of the new connection |
| CdpProtocol.DrainBeforeTakeStrandsACaller | crates/y-browser/src/cdp_client.rs:588-595 | The order of the two steps matters: draining first lets a caller register and write in between and then wait with nobody left to answer |
| CdpProtocol.CompletesOnce | crates/y-browser/src/cdp_client.rs:240-281 | What a call has returned at any point of a run it keeps to the end; no call gets a second message |
| CdpProtocol.ReplyCarriesTheCallersId | crates/y-browser/src/cdp_client.rs:570-585 | A caller that got a reply got it from a dispatch of its own id with that payload, while it was pending under that id |
| CdpProtocol.MailWasDelivered | crates/y-browser/src/cdp_client.rs:582-595 | Anything in a caller's channel was put there by a reply with its id or by a drain |
| CdpProtocol.IdsAreDistinctIff | crates/y-browser/src/cdp_client.rs:246 | Ids are pairwise different if and only if the run makes at most 2^64 calls: the counter wraps |
| CdpProtocol.NoSenderLostInRuns | crates/y-browser/src/cdp_client.rs:258-279 | In runs of at most 2^64 calls a sender is never dropped unused, so the sender-dropped error does not occur |
| CdpProtocol.SettledCallersHaveMail | crates/y-browser/src/cdp_client.rs:588-595 | In such runs a caller that still waits after a teardown already has its error or its reply |
| CdpProtocol.SoundInRuns | crates/y-browser/src/cdp_client.rs:258-279 | In every reachable state each pending sender belongs to a call of that id that has had no message |
| CdpProtocol.NewMail | crates/y-browser/src/cdp_client.rs:582-595 | A step that fills a channel is a dispatch of that id or a drain, and the call was pending |
| CdpProtocol.ReturnsItsMailInRuns | crates/y-browser/src/cdp_client.rs:272-280 | In every run a completed call returned what its channel held |
| CdpProtocol.SettledUntilConnect | crates/y-browser/src/cdp_client.rs:196-211 | Nothing but a connect undoes what a teardown achieved |
| CdpClient.CdpClient.AllocateId | crates/y-browser/src/cdp_client.rs:246 | Among the first 2^64 requests the id is different from all earlier ones |
| CdpClient.CdpClient.WriteRequest | crates/y-browser/src/cdp_client.rs:261-268 | Without a writer the request ends so, if the socket refuses with a failed write, else it waits; it then has its answer already or its sender is in the map, which the write leaves alone |
| CdpClient.CdpClient.Await | crates/y-browser/src/cdp_client.rs:272-274 | A reply received was dispatched under the id of this request, a lost connection means a drain, and among the first 2^64 requests there is no third outcome |
| CdpClient.CdpClient.DispatchReply | crates/y-browser/src/cdp_client.rs:570-585 | The request that listens under the id gets the reply, no other request gets anything, and the id leaves the map |
| CdpClient.CdpClient.DrainAll | crates/y-browser/src/cdp_client.rs:592-595 | The map ends empty and everybody who waits is freed; without a writer the client is settled |
| CdpClient.CdpClient.DrainSenders | crates/y-browser/src/cdp_client.rs:593-595 | Sending to one channel after the other, in any order of the map, amounts to draining the map at once |
| CdpClient.CdpClient.Disconnect | crates/y-browser/src/cdp_client.rs:196-211 | Taking the writer and draining without interruption settles the client |
| CdpClient.CdpClient.Perform | crates/y-browser/src/cdp_client.rs:240-281 | Every action that the protocol allows is performed by a critical section, after which the history of the client is again a run that leads to its state |
| CdpClient.Execute | crates/y-browser/src/cdp_client.rs:240-281 | Every run of the protocol can be performed by a client of channel objects, which ends in the state that the run leads to |
| CdpClient.ReceivedFrom | crates/y-browser/src/cdp_client.rs:272-274 | What a waiting call can receive, and which step of the run it comes from |
| Sampling.SafeCompactionRange | crates/y-context/src/sampling.rs:97-121 | The loop computes the range that ends at the first call group crossing the limit; it is not empty, leaves the retain window out, and begins after the first message exactly if that is a system message that no compaction or handoff left |
| Sampling.SafeEndIff | crates/y-context/src/sampling.rs:104-118 | An end is safe if and only if no tool message at or after it bears the id of a call that an assistant message before it makes |
| Sampling.SafeForEveryWindowIffNoStraddle | crates/y-context/src/sampling.rs:95-121 | The boundary is safe for every retain window if and only if no call group opens inside an earlier one and outlives all earlier ones; this is a property of the history alone |
| Sampling.InterleavedGroupsAreCut | crates/y-context/src/sampling.rs:104-118 | Two interleaved groups and a window of one: the returned range cuts the first group in half |
| Sampling.UnsafeRangeShowsStraddle | crates/y-context/src/sampling.rs:104-118 | Whenever the returned range cuts a group, a later group straddles an earlier one |
| Sampling.StraddleShowsUnsafeRange | crates/y-context/src/sampling.rs:104-118 | Every straddling pair past the protected prefix has a retain window for which the range cuts a group |
| Sampling.ContiguousGroupsAreSafe | crates/y-context/src/sampling.rs:104-118 | Histories that finish one group before the next begins are cut safely for every window |
| Sampling.NoSafeEndBeyond | crates/y-context/src/sampling.rs:104-118 | No safe end lies between the returned one and the limit, for every history |
| Sampling.SafeRangeIsGreatest | crates/y-context/src/sampling.rs:95-121 | When the returned range is safe its end is the greatest safe end within the limit |
| Sampling.NoneMeansNothingIsSafe | crates/y-context/src/sampling.rs:100-102 | No range means that no non-empty safe range exists within the limit |
| Fingerprint.CompactionPrefixFingerprint | crates/y-context/src/sampling.rs:124-143 | The digest is taken of the length-prefixed stream of range bounds, configuration and messages |
| Fingerprint.UpdateHash | crates/y-context/src/sampling.rs:145-148 | One call appends one length-prefixed chunk to the stream |
| Fingerprint.StreamInjective | crates/y-context/src/sampling.rs:145-148 | The stream of length-prefixed chunks is uniquely decodable |
| Fingerprint.EqualStreamsHaveEqualSources | crates/y-context/src/sampling.rs:124-143 | Equal streams come from equal ranges, configurations and messages |
| Fingerprint.AppendingKeepsTheStream | crates/y-context/src/sampling.rs:135-141 | Messages appended past the range leave the stream unchanged |
| Fingerprint.SerialisedInTurn | crates/y-context/src/sampling.rs:135-141 | A message that does not serialise leaves no trace in the stream; any other adds its bytes in its place |
| Fingerprint.LeDigit | crates/y-context/src/sampling.rs:130-131 | Byte k of a bound is the digit of weight 256^k: the lowest comes first |
| Fingerprint.LeRoundTrip | crates/y-context/src/sampling.rs:130-131 | Little-endian bytes read back to the number |
| Repair.RepairHistory | crates/y-context/src/repair.rs:39-91 | The single pass returns the kept messages with runs merged, and a report that counts each fix under its own heading; input length is output length plus total fixes |
| Repair.NothingGoesUncounted | crates/y-context/src/repair.rs:31-36 | Every message is kept, merged away or counted as removed |
| Repair.RepairIsIdempotent | crates/y-context/src/repair.rs:38-91 | Repairing a repaired history returns it unchanged |
| Repair.RepairTwice | crates/y-context/src/repair.rs:38-91 | The second repair reports no fix at all |
| Repair.RepairIsIdentityIffSound | crates/y-context/src/repair.rs:38-91 | A history is its own repair if and only if every message passes the filter and no message continues the one before it |
| Repair.RepairedIsSound | crates/y-context/src/repair.rs:53-88 | Every repaired history passes both tests |
| Repair.CallsSurvive | crates/y-context/src/repair.rs:43-81 | No assistant call id is ever dropped or merged away, so no result becomes an orphan |
| RepairCases.ResultSurvivesIffCalled | crates/y-context/src/repair.rs:68-76 | A tool message under an id has an entry in the repaired history, with its id, role, call id and content at the head, if and only if some assistant message makes the call of that id |
| RepairCases.KeptIff | crates/y-context/src/repair.rs:54-76 | A message is kept if and only if it has content or a call id, is no system message after another that has, and is no tool message under an id that no assistant message bears |
| RepairCases.ReportCounts | crates/y-context/src/repair.rs:54-76 | The three counters of removals are the numbers of void messages, of other system messages after the first, and of tool messages under an id that no assistant message bears |
| RepairCases.MergedEntries | crates/y-context/src/repair.rs:78-88 | There is one entry for each kept message that does not go on in the role of the one before it, or is a system message or has a call id; it has the fields of that message and the lines of those that follow up to the next |
| Repair.MergeRunsAppend | crates/y-context/src/repair.rs:79-86 | Merging in place message by message equals merging whole maximal runs |
| Repair.MergingKeepsTheText | crates/y-context/src/repair.rs:79-83 | Merging loses no text: the joined lines are those of the messages kept |
| Repair.AccountsFor | crates/y-context/src/repair.rs:54-83 | Each message moves the report by one under the heading of its fate, or by what merging it saves |
| LoadHistory.LoadHistory.Provide | crates/y-context/src/load_history.rs:66-130 | Appends the greatest verbatim prefix of the repaired history that fits, then one cut message if budget is left, and nothing else |
| LoadHistory.InjectionShowsMessages | crates/y-context/src/load_history.rs:84-121 | The items show "[role] content" of the messages in their order, the cut one its beginning, four bytes to each token left, and the mark |
| LoadHistory.InjectionOverrun | crates/y-context/src/load_history.rs:84-121 | At most budget + 4 tokens are added, beyond the budget only when the last item was cut, and by exactly the cost of the mark |
| LoadHistory.CutIsShorter | crates/y-context/src/load_history.rs:95-102 | A message over the remaining budget is longer than the cut: the "fits anyway" branch is dead |
| LoadHistory.FitCountIsUnique | crates/y-context/src/load_history.rs:84-121 | History and budget determine how many whole messages are injected |
| Guard.NarrowedTestIsExactIff | crates/y-context/src/guard.rs:167-173 | The rounded, narrowed percentage decides the exact test on all inputs if and only if the threshold is at most 100 |
| Guard.SeverityIsExact | crates/y-context/src/guard.rs:95-116 | With ordered thresholds the verdict's level is what the exact products say |
| Guard.SeverityIsMonotone | crates/y-context/src/guard.rs:95-116 | More tokens never bring a milder verdict |
| Guard.VerdictFigures | crates/y-context/src/guard.rs:95-116 | A warning tells the whole percents used, a critical verdict by how much the budget is exceeded, if it is |
| Guard.TotalIsCappedSum | crates/y-context/src/guard.rs:32-37 | The budget is the exact sum of four categories, without the response reserve, cut to 32 bits |
| Guard.RemovingTheOverflow | crates/y-context/src/guard.rs:104-108 | In an overflow the subtraction does not saturate; removing `tokens_over` brings utilisation to at most the threshold, and the verdict is still an overflow if and only if the threshold is a whole number of tokens |
| ContextManager.PrepareContext | crates/y-context/src/context_manager.rs:88-148 | The items end as the staged recovery leaves them; success carries the guard's verdict on those items, an error arises exactly from an overflow that ends critical; beyond the retain window the history becomes one line and the last texts in order |
| ContextManager.RecoverByCompactingHistory | crates/y-context/src/context_manager.rs:151-210 | History longer than the retain window becomes one line that counts the messages gone and the texts of the last messages, in order and estimated afresh; shorter history is left alone |
| ContextManager.UntouchedItemsSurvive | crates/y-context/src/context_manager.rs:88-234 | System, memory, knowledge, skills and status items survive in their order |
| ContextManager.HistoryIsKeptOrSummarised | crates/y-context/src/context_manager.rs:151-210 | History ends untouched unless an overflow meets more than `retain_window` messages; it then ends as one line naming how many are gone and by which strategy, and item i from the end has the text of message i from the end |
| ContextManager.OnlyPicksOut | crates/y-context/src/context_manager.rs:155-161 | Selecting by category gives the items of those categories and no others, in their order |
| ContextManager.DroppedOnlyInTurn | crates/y-context/src/context_manager.rs:100-137 | Bootstrap items go exactly when compaction left an overflow, tool items exactly when that was not enough either |
| ContextManager.FailureMeansAllWasTried | crates/y-context/src/context_manager.rs:100-137 | An error implies that no bootstrap and no tool item is left |
| Pipeline.ContextPipeline.Register | crates/y-context/src/pipeline.rs:126-129 | Sorting after every push keeps the providers the stable sort of all registrations |
| Pipeline.PipelineOrder | crates/y-context/src/pipeline.rs:126-129 | After any registrations the providers are sorted by priority, complete, and first come first served within one priority |
| Sorting.SortIsStable | crates/y-context/src/pipeline.rs:128 | The stable sort the code relies on: sorted, same elements, equal elements in their order |
| Compaction.CallWithRetry | crates/y-context/src/compaction.rs:496-529 | Makes max(1, max_retries) calls at most, all with the same prompt, and stops at the first non-blank answer or deterministic error; the result is the last answer's |
| Compaction.RetrySucceedsIff | crates/y-context/src/compaction.rs:501-528 | Success if and only if some answer within the limit is non-blank text and no deterministic error comes before it |
| Compaction.ChunksCover | crates/y-context/src/compaction.rs:369 | ceil(n / max(1, size)) segments cover all messages in order, all full but the last |
| Compaction.SummarizeSegments | crates/y-context/src/compaction.rs:359-404 | The segment loop is the run of its step function over the chunks, for every reply sequence; the stitched text and the first failure are what that run ends with |
| Compaction.NoFailureIffAllSegmentsAreReplies | crates/y-context/src/compaction.rs:366-391 | No failure is reported if and only if every segment is a non-blank answer of its own retry run |
| Compaction.NothingIsAskedAfterDeterministicError | crates/y-context/src/compaction.rs:370-389 | After a deterministic error no call is made and every later segment is its chunk's fallback |
| Compaction.RunIsDetermined | crates/y-context/src/compaction.rs:359-391 | Replies, segments and prompts determine how many answers each segment takes and all that comes of them |
| Compaction.SegmentsAccumulate | crates/y-context/src/compaction.rs:366-391 | Segments are added one per chunk and never change; the first failure noted stays |
| Compaction.CompactWithRetain | crates/y-context/src/compaction.rs:215-249 | Compacts all but the retain window; a summary, saved tokens and a fallback outcome exactly if something was compacted |
| SelectiveRetention.SelectiveRetain | crates/y-context/src/compaction.rs:407-469 | Keeps the retained messages verbatim and in order after the summary of the rest; asks the model only if there is a rest, and fails exactly as that one retry run does |
| SelectiveRetention.RetainedAreTheBest | crates/y-context/src/compaction.rs:412-426 | min(quota, n) messages are retained, and each outranks every other: higher score, or the same and earlier |
| SelectiveRetention.RetainedIff | crates/y-context/src/compaction.rs:412-426 | A message is retained if and only if fewer than `quota` messages outrank it |
| SelectiveRetention.EveryMessageIsAccountedFor | crates/y-context/src/compaction.rs:428-463 | Every message is either retained verbatim or handed to the summary, never both |
| SelectiveRetention.Compose | crates/y-context/src/compaction.rs:446-463 | Appending to the text buffer with conditional separators gives the paragraphs joined by blank lines |
| CompactionEngine.CompactionEngine.CompactAsync | crates/y-context/src/compaction.rs:279-337 | Nothing happens within the window; beyond it the older messages become the strategy's summary, the token counts follow from it, and the outcome is success exactly if the strategy reports no failure; a summary reported as success shows the model's replies, and of one reply is its text; without a model the placeholder stands in |
| CompactionEngine.SummaryShowsReplies | crates/y-context/src/compaction.rs:306-337 | The summary is the text of the last reply, or of one reply for each segment, or begins with that for the rest; where there is no usable reply the placeholder stands for the messages it was for; the prompts ask for those messages, with the previous summary if there is one |
| SummaryContents.SelectionShows | crates/y-context/src/compaction.rs:428-463 | A selective summary is a paragraph from the last reply for the messages that are not kept, if any, and one for each kept message, in order |
| SummaryContents.SegmentsStand | crates/y-context/src/compaction.rs:366-391 | Each segment is what the last reply to its own prompts made of its chunk, unless an earlier chunk ended with a deterministic error: then it is the placeholder, and nothing is asked |
| SummaryContents.SegmentsAreJoined | crates/y-context/src/compaction.rs:393-400 | The summary is the segments under their numbers with blank lines between them |
| CompactionEngine.SummaryIsNeverEmpty | crates/y-context/src/compaction.rs:306-337 | Whatever the model answers, under every strategy, the summary of some messages is not the empty text |
| CompactionEngine.CallsAreBounded | crates/y-context/src/compaction.rs:306-337 | No strategy makes more than rounds times max(1, max_retries) calls, with one round per segment |
| Sorting.SortBreaksTiesByRank | crates/y-context/src/compaction.rs:420 | A stable sort of elements that come in rank order breaks ties by rank |
| WorkingMemory.WorkingMemory.WriteSlot | crates/y-context/src/working_memory.rs:125-167 | A write succeeds exactly if the exact sums after it are within every limit, also when a label moves to another category; a failed write changes nothing and names the limit and the sum |
| WorkingMemory.WriteNeedsOneCategoryCheck | crates/y-context/src/working_memory.rs:147-163 | Checking the total and the written category suffices for all limits |
| WorkingMemory.WriteSumIsExact | crates/y-context/src/working_memory.rs:126-160 | Within budget the saturating arithmetic of the write computes the exact sum |
| WorkingMemory.WorkingMemory.TokensU64 | crates/y-context/src/working_memory.rs:192-205 | The saturating fold gives the exact sum, capped, in whatever order the map yields its slots |
| WorkingMemory.TokensWithout | crates/y-context/src/working_memory.rs:192-205 | The sum of a category does not depend on the order of the slots |
| WorkingMemory.TokensAfterWrite | crates/y-context/src/working_memory.rs:126-160 | What a write does to each sum |
| WorkingMemory.WorkingMemory.RemoveSlot | crates/y-context/src/working_memory.rs:218-220 | Removal takes the slot out, returns it and keeps every sum within its limit |
| WorkingMemory.WorkingMemory.ExtractForCategories | crates/y-context/src/working_memory.rs:232-244 | The extract holds exactly the slots of the requested categories, with their sums, and is within budget |
| Vectors.CauchySchwarz | crates/y-context/src/recall.rs:319-345 | The square of the dot product is at most the product of the squared norms |
| Vectors.CosineIsBounded | crates/y-context/src/recall.rs:319-345 | With an exact norm the cosine similarity lies in [-1, 1] |
| Recall.ScoreIsBoundedByImportance | crates/y-context/src/recall.rs:168-190 | With non-negative weights that sum to one, the score of every recall method is bounded in magnitude by the memory's importance |
| Recall.TextScoreIsBounded | crates/y-context/src/recall.rs:230-251 | The text score lies between zero and the importance |
| Recall.MmrSelect | crates/y-context/src/recall.rs:257-305 | Returns min(k, n) candidates, each of them the last of the maximisers of the MMR score among those left when it was chosen |
| Recall.GreedyIsUnique | crates/y-context/src/recall.rs:271-302 | Candidates and k determine the selection, ties included |
| Recall.GreedyIsDistinct | crates/y-context/src/recall.rs:300-301 | No candidate is selected twice |
| RecallCases.ChoiceWeighsNovelty | crates/y-context/src/recall.rs:271-302 | No free candidate has more than the chosen one of lambda times its score less 1 - lambda times its greatest likeness to a memory taken before |
| RecallCases.ChoiceFavoursNovelty | crates/y-context/src/recall.rs:271-302 | Of equally relevant candidates one least like the memories taken before is chosen, if lambda is below 1 |
| RecallCases.MaxSimilarityIsGreatest | crates/y-context/src/recall.rs:279-291 | The likeness counted is the greatest of zero and the cosines to the memories taken before, zero where an embedding is missing |
| RecallCases.MethodsAgree | crates/y-context/src/recall.rs:168-190 | The vector score is cosine times importance where both have embeddings and the text score elsewhere; the hybrid is the weighted sum of the two; the other methods go by text |
| RecallCases.TextScoreIs | crates/y-context/src/recall.rs:230-251 | Eight tenths of the importance if query or content holds the other, in any case; else the share of the words of the query that the content has |
| RecallCases.WordsAreSplitByBlanks | crates/y-context/src/recall.rs:237-245 | The words of a text are the pieces between white space, empty ones left out |
| RecallCases.CosineIsQuotient | crates/y-context/src/recall.rs:319-345 | The cosine times both norms is the dot product; a vector is like itself |
| Recall.PureRelevanceIsTopK | crates/y-context/src/recall.rs:293-298 | With lambda = 1 on sorted candidates the t-th choice has the score of the t-th candidate: plain top-k |
| Recall.RankedIsSortedAndComplete | crates/y-context/src/recall.rs:164-201 | The ranking is sorted, equal scores in store order, and holds exactly the memories that reach the threshold, once each |
| RecallCases.ResultsShowMemories | crates/y-context/src/recall.rs:159-227 | Results show content, session and score of different memories that reach the threshold, at most as many as asked for, and all of them if they are fewer |
| RecallCases.OtherResultsAreTheBest | crates/y-context/src/recall.rs:203-226 | Without MMR the results come best first, equal ones in store order, and no memory left out is better |
| Recall.RecallWithEmbedding | crates/y-context/src/recall.rs:159-227 | Every result is a ranked memory with its own score, chosen by MMR when enabled and an embedding is given, else by rank |
| SystemPrompt.CacheIsTransparentInRuns | crates/y-context/src/system_prompt.rs:180-572 | For every template and store, over every run of calls, invalidations, reloads and context changes with separator-free ids, in which a change of the custom prompt, or of a skill, tool or unkeyed flag that a stable condition reads and the key does not settle, comes with an invalidation, and no change of agents that show falls between the two reads of a rebuilding call, each call gives what assembling from scratch gives |
| SystemPrompt.CacheIsTransparent | crates/y-context/src/system_prompt.rs:371-422 | The same for one call in any state that such runs reach |
| SystemPrompt.GoodStep | crates/y-context/src/system_prompt.rs:180-204 | Every step keeps what transparency needs: the cache is the stable prefix of some inputs, under their key, that agree with today's besides the key |
| SystemPrompt.PrefixIsSharedIff | crates/y-context/src/system_prompt.rs:273-318 | Of two contexts with equal keyed inputs one's prefix serves the other, for all sections whose conditions they decide alike, if and only if their custom prompts agree once cut to the budget |
| StalePrompts.ChangedCustomPromptGoesStale | crates/y-context/src/system_prompt.rs:290-292 | Replacing one custom prompt by another without an invalidation: the old text is served |
| StalePrompts.FreshIffDetermined | crates/y-context/src/system_prompt.rs:280-318 | For a section with any condition, nested ones included, every change of context leaves calls right if and only if reading all skills, tools and unkeyed flags in the condition as false and reading them as true give one verdict under all keyed inputs without separators |
| Conditions.SettlesIff | crates/y-prompt/src/section.rs:92-105 | Under given keyed inputs the inputs that are not in the key make no difference to a condition, nested ones included, if and only if the two readings agree there |
| Conditions.KeyedIff | crates/y-prompt/src/section.rs:92-105 | A condition depends on the keyed inputs alone if and only if the two readings agree everywhere |
| Conditions.AtomIsDeterminedIffKeyed | crates/y-prompt/src/section.rs:92-105 | Of unnested conditions the key settles exactly those on the mode or a flag of the five families |
| Conditions.ForcedBounds | crates/y-prompt/src/section.rs:92-105 | The verdict of a condition lies between its two readings |
| Conditions.Extremes | crates/y-prompt/src/section.rs:92-105 | Both readings are attained by contexts with the same keyed inputs |
| StalePrompts.SectionGoesStale | crates/y-context/src/system_prompt.rs:388-399 | While the key stays the old verdict of a condition is served, whatever it is now |
| StalePrompts.PersonaGoesStale | crates/y-prompt/src/builtins.rs:218 | Turning `persona.enabled` on without an invalidation gives the fallback where assembling from scratch gives the persona section |
| StalePrompts.OnlyPersonaMatters | crates/y-prompt/src/builtins.rs:214-228 | For templates with the built-in conditions `persona.enabled` is the only input besides the key that matters |
| StalePrompts.BuiltinChangesAreEnabled | crates/y-prompt/src/builtins.rs:214-228 | So with those templates it, and the custom prompt, are all whose change needs an invalidation |
| StalePrompts.UnkeyedFlagLeavesTheKey | crates/y-context/src/system_prompt.rs:295-305 | A flag outside the five families can be set without changing the key although conditions read it |
| StalePrompts.PersonaFlagIsUnkeyed | crates/y-context/src/system_prompt.rs:295-305 | `persona.enabled` is such a flag |
| SystemPrompt.EntriesAgree | crates/y-context/src/system_prompt.rs:347-386 | Equal keyed inputs select, order and condition the same sections |
| Conditions.ConditionAgrees | crates/y-prompt/src/section.rs:92-105 | A condition, nested ones included, evaluates alike in contexts that agree on the keyed inputs and on what it reads besides |
| PromptContents.PromptIsItsSections | crates/y-context/src/system_prompt.rs:334-572 | The prompt is the cut custom prompt, the stable sections and the live ones, each on a line of its own in the order of the entries: exactly those whose condition holds and that load, and in the prefix none of the four that a custom prompt replaces; each pass stops before the first for which there is no room |
| PromptContents.CustomPromptReplaces | crates/y-context/src/system_prompt.rs:526-528 | With a custom prompt the result is that for a store without the sections on identity, guidelines, security and persona |
| PromptContents.EntriesAreTheSelected | crates/y-context/src/system_prompt.rs:347-386 | The entries are the sections of the template that are stored and selected, or demanded by one of four flags, with the overrides of the template, by priority and in template order within one priority |
| PromptContents.CutTextFillsTheBudget | crates/y-prompt/src/budget.rs:24-57 | A text over its budget becomes its beginning and the mark, four bytes to each token, or nothing where the mark has no room |
| PromptContents.FirstMarkIsReplaced | crates/y-context/src/system_prompt.rs:541-546 | The first mark in a text gives way to the agents, and so on after it |
| PromptContents.CombinedConditions | crates/y-prompt/src/section.rs:92-105 | All of none hold, any of none does not, and one condition more joins with "and" and "or" |
| SystemPrompt.PromptStaysWithinBudget | crates/y-context/src/system_prompt.rs:494-572 | The estimate is within the template's budget unless the fallback prompt is used |
| SystemPrompt.EstimateFallsShortIff | crates/y-context/src/system_prompt.rs:452-473 | If no section budget can make the running total wrap: the finished text is estimated above the tokens it is booked at if and only if its newlines outnumber the slack of its parts, the bytes by which they fall short of four per token |
| SystemPrompt.PromptIsOverBudgetIff | crates/y-context/src/system_prompt.rs:452-473 | It is estimated above the whole budget if and only if its newlines outnumber its slack and the four bytes for each token of the budget that was not booked |
| SystemPrompt.PromptTextStaysNearBudget | crates/y-context/src/system_prompt.rs:452-473 | It then exceeds four bytes per budgeted token by fewer bytes than it has parts |
| PromptSections.TextLength | crates/y-context/src/system_prompt.rs:547-556 | The text is four bytes for each token booked, plus the newlines, minus the slack |
| PromptSections.NewlinesComeBetween | crates/y-context/src/system_prompt.rs:552-554 | There is a newline only between texts, never before the first |
| StalePrompts.NewlinesAreNotCounted | crates/y-context/src/system_prompt.rs:547-556 | Two one-token sections fill a budget of two and make a prompt of three tokens |
| SystemPrompt.BuildSystemPromptProvider.Provide | crates/y-context/src/system_prompt.rs:334-490 | Adds one item, the cached or rebuilt prefix completed with the volatile sections, and moves the cache as specified; with templates off it adds the fallback and changes nothing |
| SystemPrompt.BuildSystemPromptProvider.RebuildStableCache | crates/y-context/src/system_prompt.rs:494-572 | Computes the stable prefix and replaces the cache by it |
| SystemPrompt.BuildSystemPromptProvider.AppendSections | crates/y-context/src/system_prompt.rs:522-557 | The shared loop of both passes adds pieces in order and stops at the first that does not fit |
| SystemPrompt.AmidIsOldOrNew | crates/y-context/src/system_prompt.rs:371-422 | A call between whose two reads of the callable agents these change gives what assembling from scratch gives, under the old agents on a hit and the new ones otherwise |
| SystemPrompt.IgnoredAgentsDoNotShow | crates/y-context/src/system_prompt.rs:541-546 | If no section that applies mentions the agents the prefix does not depend on them |
| StalePrompts.AgentsGoStale | crates/y-context/src/system_prompt.rs:541-563 | Otherwise such a call stores the text of the new agents under the key of the old ones: when the old ones come back, the new ones are shown |
| SystemPrompt.InvalidationIsEnough | crates/y-context/src/system_prompt.rs:180-204 | Whatever the cache held, the first call after an invalidation or a reload gives what assembling from scratch gives, with the store of the reload |
| PromptSections.AddAllStaysWithinBudget | crates/y-context/src/system_prompt.rs:547-556 | Adding pieces never takes the running estimate past the budget |
| PromptSections.Truncate | crates/y-prompt/src/budget.rs:24-57 | A truncated text is within its budget, and a text within its budget is left alone |
| CacheKey.EqualKeysHaveEqualInputs | crates/y-context/src/system_prompt.rs:280-318 | Without separators in ids, equal keys mean equal mode, selection, presence of a custom prompt, keyed flags and agents, whatever order the flag map yields |
| CacheKey.KeyTellsFamilies | crates/y-context/src/system_prompt.rs:293-312 | Equal keys tell the same of every flag of the five families, and the key is made from no other flag |
| CacheKey.CommaInSectionIdCollides | crates/y-context/src/system_prompt.rs:285-288 | With a comma in a section id two different selections have the same key |
| CacheKey.EmptySectionIdCollides | crates/y-context/src/system_prompt.rs:285-288 | A selection of the empty id alone has the key of the empty selection |
| CacheKey.SemicolonInModeCollides | crates/y-context/src/system_prompt.rs:281-317 | A mode with semicolons in it can hold a whole key, so that other agents give the same one |
| CacheKey.EqualsInFlagNameCollides | crates/y-context/src/system_prompt.rs:306-312 | A flag name with `=` and a comma in it reads like two flags |
| CacheKey.FlagTextInjective | crates/y-context/src/system_prompt.rs:306-312 | The flag list can be read back |
| CacheKey.JoinInjective | crates/y-context/src/system_prompt.rs:287 | A comma-joined list of non-empty comma-free ids can be read back |
| SlashFiles.HaltsIffTrailIsEven | crates/y-cli/src/slash_files.rs:144-199 | The expansion loop halts if and only if the template does not end in an odd number of `$` |
| SlashFiles.Expand | crates/y-cli/src/slash_files.rs:144-199 | Where it halts, its output is the left-to-right token expansion of the template |
| SlashFiles.StuckIffOddTrail | crates/y-cli/src/slash_files.rs:189-195 | A lone `$` is left over at the end if and only if the trailing `$` are odd in number |
| SlashFiles.StuckForEver | crates/y-cli/src/slash_files.rs:189-195 | With a lone `$` left over, no number of iterations ends the loop |
| SlashFiles.ZeroNamesAFarArgument | crates/y-cli/src/slash_files.rs:171-177 | `$0` expands to argument 256; all other digits name one of the first nine |
| SlashFiles.DoublingRoundTrip | crates/y-cli/src/slash_files.rs:151-154 | A text with every `$` doubled expands to itself, for all texts and arguments |
| SlashCases.PairsExpand | crates/y-cli/src/slash_files.rs:149-160 | `$$` gives one `$` and `$@` the arguments with spaces between them, whatever follows |
| SlashCases.NameExpands | crates/y-cli/src/slash_files.rs:161-166 | `$ARGUMENTS` gives the same as `$@` |
| SlashCases.NumbersExpand | crates/y-cli/src/slash_files.rs:169-176 | `$1` to `$9` give the arguments of those numbers, or nothing |
| SlashCases.OtherDollarIsCopied | crates/y-cli/src/slash_files.rs:178-181 | Before anything else a `$` stands for itself |
| SlashFiles.ReadingUndoesSpelling | crates/y-cli/src/slash_files.rs:151-187 | A template spelled from tokens is read back as those tokens |
| SlashFiles.ParseArgs | crates/y-cli/src/slash_files.rs:301-333 | The index loops compute the words and quoted strings of the input, left to right |
| SlashFiles.ParsingUndoesQuotingIff | crates/y-cli/src/slash_files.rs:301-333 | Arguments put in double quotes and joined by spaces parse back to themselves if and only if none holds a double quote; empty and spaced ones included |
| SlashCases.QuotesHoldOneArgument | crates/y-cli/src/slash_files.rs:310-323 | What stands between two quotes of either kind is one argument, whatever else it holds |
| SlashCases.OpenQuoteHoldsTheRest | crates/y-cli/src/slash_files.rs:310-323 | Without a closing quote the argument goes on to the end |
| SlashCases.WordsAreArguments | crates/y-cli/src/slash_files.rs:324-330 | A word that does not begin with a quote is one argument, quotes inside it included |
| SlashFiles.SkipBlanks | crates/y-cli/src/slash_files.rs:306-308 | Skipping white space does not change the arguments that follow |
| SlashFiles.ScanQuoted | crates/y-cli/src/slash_files.rs:313-318 | The scan ends at the closing quote, or at the end of the input if there is none |

## Left out

- SystemPrompt.EstimateFallsShortIff: says nothing of section budgets so large that the running `u32` total wraps, nor do SystemPrompt.PromptIsOverBudgetIff and SystemPrompt.PromptTextStaysNearBudget; SystemPrompt.PromptStaysWithinBudget speaks of that running total alone.
- StalePrompts.FreshIffDetermined: speaks of a template of one section; for any template SystemPrompt.CacheIsTransparentInRuns says what suffices.
- PromptSections.Truncate: cuts at single-byte characters and leaves out the flag that tells whether it cut; mode overlays of templates and the loading of section files are arbitrary functions and values.
- SystemPrompt.BuildSystemPromptProvider.Provide: runs one call at a time; of what other tasks can do between its steps only a change of the callable agents is modelled, and the content of the date and environment sections is a parameter.
- SelectiveRetention.SelectiveRetain: takes the importance heuristic and the number of messages to keep as parameters, because the code computes both in floating point.
- CompactionEngine.CompactionEngine.CompactAsync: takes the prompt builders as parameters; the identifier check only logs and is not modelled.
- Recall.RecallWithEmbedding: has no NaN, infinity or rounding.
- CdpProtocol.TeardownStrandsNobody: a caller whose future is dropped while it waits, the `alive` flag and `is_connected` are not part of the state machine, and the write is one atomic step under the writer lock. Opening the connection before the writer is stored, and aborting a reader in the middle of a reply, are not steps of their own; which reader a `disconnect` aborts is left open.
- CdpProtocol.NoSenderLostInRuns: the error for a missing connection is split in three in the model, by its cause, though the code has one value for all.
- ContextManager.PrepareContext: starts from the assembled items; the providers that assemble them are not run.
- `estimate_sampling_tokens` and `sampling_preflight` are saturating sums and one comparison.
- Text rendering of snapshots, `truncate_output`, status messages, per-category overruns and read-only accessors would only add easy members.
- Target discovery, health checks, connecting, event broadcast and the launching of the browser are input and output.
- Finding, reading and naming slash-command files and their front matter are file handling and simple line splitting.
- Timestamps, logging, tracing and configuration defaults are not modelled.
