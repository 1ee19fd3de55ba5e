# Toolbox algorithms, verified

A Dafny model of the algorithmic core of the developer toolbox, with proofs of what its documentation promises and of
where those promises end. `dafny verify dfyconfig.toml` checks all of it. One module per file:

| part | modules |
|---|---|
| text diff: Myers' O(ND) search, numbered lines, word-level changes, unified hunks and their patch | `EditGraph`, `Myers`, `Diff`, `WordDiff`, `Hunks`, `DiffText` |
| SQL lexer and formatter | `SqlLexer`, `SqlShapes`, `SqlCleanup`, `SqlThinning`, `SqlLayout`, `SqlFormat`, `SqlLines`, `SqlTwice` |
| hash tables and heaps of the learning module | `Structures`, `Primes`, `HashTable`, `Heap` |
| graph traversals and shortest paths | `Graphs`, `Bfs`, `Dfs`, `Dijkstra` |
| token-bucket rate limiter with its idle sweep | `TokenBucket`, `SweepLimit`, `Limiter` |
| collaboration hub, with all interleavings of its lock regions | `HubModel`, `Hub`, `MessageRate` |
| audit log paging and export | `Audit` |
| shell command lexer, JSONPath evaluation, HTML escaping | `Shell`, `JsonPath`, `JsonSelect`, `Html` |
| white space, concatenation, optional values, reversal | `Text`, `Basics` |

Code that updates things step by step is written as methods with loops, arrays and classes, and proved against
specification functions; the promises are proved about those functions. `hide` statements only keep definitions out of
proofs that do not need them.

Where code and documentation disagree the model follows the code. What came to light:

- with context 0, the header of a hunk that only inserts or only deletes names the wrong place, and the patch can go wrong
  in that direction (`Hunks.HeadersExactIff`), exactly under the condition of `Hunks.PatchedIff`
  (`Hunks.ZeroContextMisplaces`, `Hunks.ZeroContextMisplacesDeletion`);
- the note on ignored differences can appear where only the line endings differ (`DiffText.UnfoundedNote`);
- word-level comparison pairs the last of several deletes with a single insert (`WordDiff.LastDeleteIsPaired`);
- the two clean-up loops at the end of `backtrack` never run (`Myers.Backtrack`);
- Dijkstra's search never looks at the edges of a start node that is not listed (`Dijkstra.UnlistedStartIff`);
- the SQL formatter changes tokens exactly in the cases of `SqlFormat.TokensKept`, and is not always idempotent
  (`SqlTwice.IdempotentIff`, `SqlFormat.DotsPart`); its replacement of blank lines only ever
  affects the inside of tokens, and its variable `depth` is always 0;
- thirty messages per second is what a window allows, and any given second exactly under the condition of
  `MessageRate.LimitPerSecondIff`; up to sixty can pass;
- the idle sweep of the limiter is an invisible optimisation exactly up to burst = rps * ttl (`SweepLimit.InvisibleIff`);
- a caller that waits exactly the advised time can be refused again, by less than a nanosecond
  (`TokenBucket.RetryAfterSufficesIff`).

## Model

| member | source | states |
|---|---|---|
| `EditGraph.DistBeyondCorner` | apps/web/src/modules/diff/diff.ts:213-254 | a point past the corner costs the full distance plus what it overshoots, so no overshooting diagonal can stop the search early |
| `EditGraph.DistParity` | apps/web/src/modules/diff/diff.ts:213-254 | distance and diagonal have the same parity, which is why a pass visits every other diagonal |
| `EditGraph.DiagonalMonotone` | apps/web/src/modules/diff/diff.ts:213-254 | distance does not fall along a diagonal, so the furthest reach decides a pass |
| `EditGraph.ScriptCostsAtLeastDist` | apps/web/src/modules/diff/diff.ts:174-198 | every script from i, j on costs at least the distance that remains: the lower bound behind minimality |
| `EditGraph.DistAfterPrefix` | apps/web/src/modules/diff/diff.ts:174-198 | stripping a common prefix does not change the distance |
| `EditGraph.DistBeforeSuffix` | apps/web/src/modules/diff/diff.ts:174-198 | stripping a common suffix does not change the distance |
| `EditGraph.CommonSubsequenceBoundsDist` | apps/web/src/modules/diff/diff.ts:174-198 | any common subsequence bounds the distance from above by the two lengths minus twice its own |
| `EditGraph.DistScriptKeepsLongest` | apps/web/src/modules/diff/diff.ts:174-198 | a script as cheap as the distance leaves unchanged a longest common subsequence |
| `Myers.RunEndsFurthest` | apps/web/src/modules/diff/diff.ts:213-254 | the greedy run down a diagonal ends at the furthest point the pass can reach there, inside or outside the grid |
| `Myers.NeighboursOutOfReach` | apps/web/src/modules/diff/diff.ts:213-254 | one step past the chosen start nothing is reachable in the pass |
| `Myers.StopsAtCorner` | apps/web/src/modules/diff/diff.ts:200-257 | the stopping test fires exactly at the corner and with the exact distance |
| `Myers.PassEnds` | apps/web/src/modules/diff/diff.ts:213-254 | a pass that does not stop leaves the furthest points of the next layer in the array |
| `Myers.Pass` | apps/web/src/modules/diff/diff.ts:216-254 | one value of d: updates a copy of the array in place, and stops only with the exact distance |
| `Myers.DiffMiddle` | apps/web/src/modules/diff/diff.ts:200-257 | the whole search: it stops by d = n + m, and its script transforms a into b at exactly the edit distance |
| `Myers.Backtrack` | apps/web/src/modules/diff/diff.ts:259-311 | retraces the choices from the saved arrays in bounds; the two clean-up loops at its end never have anything to do |
| `Myers.Coalesce` | apps/web/src/modules/diff/diff.ts:313-325 | run-length form of the same steps: no empty run, no two neighbours of one kind |
| `Myers.MyersDiff` | apps/web/src/modules/diff/diff.ts:174-198 | for all sequences the script transforms a into b, no script is cheaper, and its inserts plus deletes number the two lengths less twice a longest common subsequence |
| `Diff.RenderLines` | apps/web/src/modules/diff/diff.ts:86-119 | numbered lines show both documents completely and in order, each line with its own numbers |
| `WordDiff.TokensKeepText` | apps/web/src/modules/diff/diff.ts:374-376 | the words of a line put together are the line |
| `WordDiff.WordsAlternate` | apps/web/src/modules/diff/diff.ts:374-376 | each word is all white space or holds none, and neighbours differ in that, so the words are the maximal runs |
| `WordDiff.WordSegments` | apps/web/src/modules/diff/diff.ts:345-366 | each side spells its own line, and both agree on the text left unchanged, which is a longest common subsequence of the words |
| `WordDiff.AnnotateWordChanges` | apps/web/src/modules/diff/diff.ts:332-371 | only words are added, as minimal as above, on exactly the delete lines directly before a single insert that resembles them |
| `WordDiff.LastDeleteIsPaired` | apps/web/src/modules/diff/diff.ts:338-340 | after two deletes the second is paired with the insert, although the comment there speaks of a single delete |
| `Hunks.BuildHunks` | apps/web/src/modules/diff/diff.ts:405-428 | the hunks are ordered, disjoint and apart, and cover exactly the lines within the context of a change |
| `Hunks.LeftsExactIff` | apps/web/src/modules/diff/diff.ts:405-443 | the left halves of all headers are exact if and only if the context is at least 1 or no run of changes only inserts behind an unchanged line |
| `Hunks.HeaderExactIff` | apps/web/src/modules/diff/diff.ts:430-443 | a header is off, in one half or the other, exactly when the hunk only inserts with a left line before it or only deletes with a right line before it |
| `Hunks.HeadersExactIff` | apps/web/src/modules/diff/diff.ts:405-443 | both halves of all headers are exact if and only if the context is at least 1, or behind an unchanged line no run of changes only inserts and none only deletes |
| `Hunks.PatchTheorem` | apps/web/src/modules/diff/diff.ts:405-443 | with exact left halves, replacing each hunk at its place turns the left document into the non-delete lines |
| `Hunks.PatchedIff` | apps/web/src/modules/diff/diff.ts:405-443 | for every context, the hunks turn the left document into the non-delete lines if and only if no hunk only inserts behind a left line, or else up to the last such hunk nothing is removed and the inserted lines may as well stand in front of all the left ones |
| `Hunks.BackwardsPatchedIff` | apps/web/src/modules/diff/diff.ts:405-443 | applied backwards they give the left document if and only if the same holds with the two sides exchanged |
| `Hunks.BackwardsPatch` | apps/web/src/modules/diff/diff.ts:405-443 | applied backwards, the hunks turn the non-delete lines into the left document, for context at least 1 or when no run only deletes behind an unchanged line |
| `Hunks.ZeroContextMisplaces` | apps/web/src/modules/diff/diff.ts:437 | with context 0 an insertion behind line 1 has a wrong header and lands in front of it, which is wrong exactly if the two lines differ |
| `Hunks.ZeroContextMisplacesDeletion` | apps/web/src/modules/diff/diff.ts:439 | with context 0 a deletion behind line 1 has a wrong right half although nothing is only inserted, and backwards the line lands in front |
| `DiffText.SplitShown` | apps/web/src/modules/diff/diff.ts:154-160 | any mixture of LF, CRLF and CR, with or without a last ending, is split into the lines the text shows |
| `DiffText.SplitLinesRoundTrip` | apps/web/src/modules/diff/diff.ts:154-160 | a document is split back into its lines if and only if no CR ends a line right before an empty line ended by LF |
| `DiffText.Notes` | apps/web/src/modules/diff/diff.ts:129-141 | a note on ignored differences exactly if such an option is on, no line differs and the texts do; one on the final line feed exactly if one side has it |
| `DiffText.SameLinesIff` | apps/web/src/modules/diff/diff.ts:154-160 | two texts have the same lines if and only if they differ in nothing but their line endings |
| `DiffText.NormalizerIff` | apps/web/src/modules/diff/diff.ts:77-82 | two lines count as equal exactly if they are the same; or, ignoring white space, have the same runs of other characters; ignoring case, the same lower case; ignoring both, the same lower case of those runs joined by blanks |
| `DiffText.Utf8Bytes` | apps/web/src/modules/diff/diff.ts:64-68 | a text takes the sum of the fewest bytes that hold each of its characters |
| `DiffText.UnfoundedNote` | apps/web/src/modules/diff/diff.ts:129-136 | for a line a with and without a final line feed the condition of the first note holds although the lines are the same, so the note can name a difference that is not there |
| `DiffText.DiffTexts` | apps/web/src/modules/diff/diff.ts:64-151 | the two size errors; otherwise numbered lines, minimal counts, identical exactly if no line differs under the options, the notes, and hunks that patch forwards and backwards for every context from 1 on, without options from the left document to the right one and back |
| `DiffText.IdenticalIff` | apps/web/src/modules/diff/diff.ts:86-151 | no added and no removed line exactly if the normalised documents are equal |
| `DiffText.PatchIsRight` | apps/web/src/modules/diff/diff.ts:64-151 | without normalisation the patch of the left document is the right one, and backwards the left one, each under its half of the condition |
| `DiffText.PatchIsRightIff` | apps/web/src/modules/diff/diff.ts:64-151 | and exactly when they are, for every context |
| `HashTable.InsertOpen` | apps/web/src/modules/learning/algorithms/structures.ts:520-578 | the probing loop ends at the first bucket that holds the value or nothing, or rejects |
| `HashTable.HashTableSteps` | apps/web/src/modules/learning/algorithms/structures.ts:464-585 | the input errors, the final table, and that the tables shown go from the empty to the final one through every state between insertions, in order |
| `HashTable.HashWraps` | apps/web/src/modules/learning/algorithms/structures.ts:459-462 | the hash of a value is its size wrapped round the table: even in the value, periodic in the size, and the value itself below it |
| `HashTable.NextProbe` | apps/web/src/modules/learning/algorithms/structures.ts:526-535 | a search starts at the hash; linear probing then goes one bucket on, quadratic probing 2a + 1 after attempt a |
| `HashTable.LinearCluster` | apps/web/src/modules/learning/algorithms/structures.ts:526-577 | in a finished table with linear probing every bucket from the home of a value up to its own, round the end, is taken |
| `HashTable.RunSound` | apps/web/src/modules/learning/algorithms/structures.ts:493-578 | every run keeps: each stored value sits where a search for it stops, each rejected value has no place left |
| `HashTable.OpenAddressing` | apps/web/src/modules/learning/algorithms/structures.ts:493-578 | each value is stored at most once, and stored and rejected values are the input, with none in both |
| `HashTable.RepeatedInsertion` | apps/web/src/modules/learning/algorithms/structures.ts:526-578 | inserting a stored value again changes nothing: it meets occupied buckets of others only, and then the earlier copy |
| `HashTable.RejectedIff` | apps/web/src/modules/learning/algorithms/structures.ts:526-577 | a value is rejected exactly if all its probes are taken by others |
| `HashTable.RejectedInOrder` | apps/web/src/modules/learning/algorithms/structures.ts:566-578 | a value once rejected is rejected each time it comes, and the list of rejected values keeps their order |
| `HashTable.LinearRejectsOnlyWhenFull` | apps/web/src/modules/learning/algorithms/structures.ts:520-578 | linear probing rejects only when the table is full |
| `Primes.PrimeDividesNoProduct` | apps/web/src/modules/learning/algorithms/structures.ts:526-577 | Euclid's lemma, the number theory behind the probing guarantee |
| `Primes.SquaresDiffer` | apps/web/src/modules/learning/algorithms/structures.ts:526-577 | squares of different offsets below half a prime differ modulo the prime |
| `HashTable.CountProbes` | apps/web/src/modules/learning/algorithms/structures.ts:526-577 | the first (p + 1) / 2 quadratic probes are pairwise distinct buckets |
| `HashTable.SecondHalfRevisits` | apps/web/src/modules/learning/algorithms/structures.ts:526-577 | the later probes visit no new bucket |
| `HashTable.StoredCounts` | apps/web/src/modules/learning/algorithms/structures.ts:482-585 | the counter behind the load factor is the number of taken buckets, or with chaining of different values |
| `HashTable.QuadraticGuarantee` | apps/web/src/modules/learning/algorithms/structures.ts:526-577 | on a prime table with a load factor below one half the next value is never rejected, and is in the table afterwards |
| `HashTable.QuadraticRejectsNothing` | apps/web/src/modules/learning/algorithms/structures.ts:526-577 | nothing is rejected as long as twice the number of distinct values is at most p + 1 |
| `HashTable.QuadraticLimitIsTight` | apps/web/src/modules/learning/algorithms/structures.ts:526-577 | one value more can be rejected, for every odd prime |
| `HashTable.ChainingKeepsAll` | apps/web/src/modules/learning/algorithms/structures.ts:502-526 | chaining stores every value of the input and rejects none |
| `HashTable.ChainingInOrder` | apps/web/src/modules/learning/algorithms/structures.ts:502-526 | within a bucket the values stand in the order they came |
| `Heap.SiftDown` | apps/web/src/modules/learning/algorithms/structures.ts:191-207 | the in-place loop computes the recursive sift and leaves the rest of the array alone |
| `Heap.SiftedDownIsHeap` | apps/web/src/modules/learning/algorithms/structures.ts:191-207 | sifting restores the heap order below its start and keeps the values |
| `Heap.BuildHeap` | apps/web/src/modules/learning/algorithms/structures.ts:115-119 | the bottom-up loop, in place |
| `Heap.BuiltIsHeap` | apps/web/src/modules/learning/algorithms/structures.ts:115-119 | bottom-up building gives a max-heap of the same values |
| `Heap.ExtractedDescends` | apps/web/src/modules/learning/algorithms/structures.ts:129-185 | repeated extraction yields the values in descending order |
| `Heap.HeapExtractSteps` | apps/web/src/modules/learning/algorithms/structures.ts:112-189 | the output is a descending permutation of the input, and every snapshot conserves the values |
| `Heap.PushedIsHeap` | apps/web/src/modules/learning/algorithms/structures.ts:46-104 | insertion by sifting up gives a heap of the same values |
| `Heap.HeapInsertSteps` | apps/web/src/modules/learning/algorithms/structures.ts:46-104 | the in-place loop computes exactly that heap, or the input error |
| `Bfs.BfsSteps` | apps/web/src/modules/learning/algorithms/graph.ts:3-61 | visits exactly the reachable nodes, each once, in the order of their distance in edges; each next node is the first unvisited successor of the earliest visited node that has one |
| `Bfs.LevelsAreHops` | apps/web/src/modules/learning/algorithms/graph.ts:3-61 | the level at which a node is found is its least number of edges from the start |
| `Dijkstra.PathsAreCovered` | apps/web/src/modules/learning/algorithms/graph.ts:63-150 | once every open node is at infinity, a path from a settled node ends at a settled node, and the table is not above the distance it starts from plus its weight |
| `Dijkstra.RelaxOne` | apps/web/src/modules/learning/algorithms/graph.ts:116-138 | every other entry stays; an open target gets the smaller of its old distance and the way over this edge, a settled one keeps its own |
| `Dijkstra.PickNearest` | apps/web/src/modules/learning/algorithms/graph.ts:86-97 | the first unvisited node of the least finite distance |
| `Dijkstra.DijkstraSteps` | apps/web/src/modules/learning/algorithms/graph.ts:63-150 | confirmed distances are final and ascending; at the end every distance is the least path weight, infinite exactly for unreachable nodes |
| `Dijkstra.UnlistedStartIff` | apps/web/src/modules/learning/algorithms/graph.ts:63-150 | from a start that is not a listed node the table is right exactly if no edge leads from it to a listed node |
| `Dijkstra.UnlistedStartFails` | apps/web/src/modules/learning/algorithms/graph.ts:63-150 | with the single edge from an unlisted a to b and start a, the table leaves b at infinity although b is at distance 1 |
| `Dfs.FilterIsHarmless` | apps/web/src/modules/learning/algorithms/graph.ts:159-227 | leaving out successors already visited when they are pushed changes nothing |
| `Dfs.DfsSteps` | apps/web/src/modules/learning/algorithms/graph.ts:159-227 | the explicit stack with reversed pushes and skip on pop visits in exactly the recursive preorder |
| `Dfs.PreorderIsReachable` | apps/web/src/modules/learning/algorithms/graph.ts:159-227 | that is every reachable node, once |
| `Dfs.PreorderIsDepthFirst` | apps/web/src/modules/learning/algorithms/graph.ts:159-227 | each next node is the first unvisited successor of the latest visited node that has one |
| `TokenBucket.Clamped` | internal/ratelimit/ratelimit.go:74-87 | a legal rate and a legal burst are kept, any other becomes 1 |
| `TokenBucket.RemainingIsExact` | internal/ratelimit/ratelimit.go:107-153 | after a decision just as many further requests at the same instant are allowed as it says remain |
| `TokenBucket.NewCallerStartsFull` | internal/ratelimit/ratelimit.go:114-120 | a new caller may make its whole burst at once |
| `TokenBucket.RunSimulates` | internal/ratelimit/ratelimit.go:107-170 | with burst <= rps * ttl a swept run and an unswept one stay in a simulation |
| `TokenBucket.SweepIsInvisible` | internal/ratelimit/ratelimit.go:107-170 | under that condition every decision of every run is the same as if no bucket were ever deleted |
| `SweepLimit.InvisibleIff` | internal/ratelimit/ratelimit.go:107-170 | whatever time the clock starts from, some run can tell the sweep exactly if burst > rps * ttl |
| `TokenBucket.RateIsBounded` | internal/ratelimit/ratelimit.go:107-170 | the calls allowed to a key in any interval of any run number at most burst + rps * length |
| `TokenBucket.RetryIsServedIff` | internal/ratelimit/ratelimit.go:122-143 | a refused caller is served again exactly once a whole token has accrued |
| `TokenBucket.RetryAfterSufficesIff` | internal/ratelimit/ratelimit.go:129-143 | waiting out the advice, cut to whole nanoseconds, is enough if and only if it was rounded up to a second or the time needed is a whole number of nanoseconds; one nanosecond more is always enough |
| `TokenBucket.RetryAfterFallsShort` | internal/ratelimit/ratelimit.go:132 | at 0.3 requests a second the advice of 3333333333 nanoseconds is refused again |
| `Limiter.BucketCell.Take` | internal/ratelimit/ratelimit.go:122-153 | refill and decision on one bucket, in place |
| `Limiter.Limiter.constructor` | internal/ratelimit/ratelimit.go:74-87 | an empty limiter with the limit clamped |
| `Limiter.Limiter.Allow` | internal/ratelimit/ratelimit.go:107-153 | the decision and the new buckets are those of the value model, old state to new |
| `Limiter.Limiter.SweepLocked` | internal/ratelimit/ratelimit.go:160-170 | deletes exactly the buckets idle for longer than the period, and at most once a period |
| `HubModel.StepKeepsInv` | internal/collab/room.go:142-251 | every step keeps the invariant |
| `HubModel.RunInv` | internal/collab/room.go:142-251 | so does every interleaving from the empty hub |
| `HubModel.OpenExactlyWhileRegistered` | internal/collab/room.go:142-201 | a client is open if and only if it is the one registered under its workspace and actor; only a Leave under way may still be about to close it |
| `HubModel.RemovedRoomsStayEmpty` | internal/collab/room.go:142-251 | a room removed from the hub stays removed and empty for ever, so a stale lookup addresses nobody |
| `HubModel.MembersWereThere` | internal/collab/room.go:222-230 | the members a broadcast addresses are the clients the room of its workspace had in one earlier state of the run |
| `HubModel.DeliveriesStayInRoom` | internal/collab/room.go:209-251 | a message reaches only clients that were in the room of the sender in one earlier state, the sender among them, never the sender, and each at most once |
| `HubModel.EveryMemberServed` | internal/collab/room.go:209-251 | in every run, once a broadcast has ended well each member of its snapshot but the sender has been given the message, or was closed or had a full buffer when its turn came |
| `HubModel.OutcomeMeans` | internal/collab/room.go:209-238 | why a broadcast ended as it did: too large exactly by its payload, not authorised for a sender outside the room, rate limited for one inside, and Ok without a room or for a member |
| `HubModel.JoinRegisters` | internal/collab/room.go:142-175 | a join registers a new open client in place of the actor's previous one, which is closed, and leaves every other client alone |
| `HubModel.LeaveRemoves` | internal/collab/room.go:178-201 | a leave closes the actor's client, leaves every other client alone, and keeps the room exactly if somebody is left in it |
| `Hub.Client.Allow` | internal/collab/room.go:83-93 | the window counter, in place |
| `Hub.Hub.constructor` | internal/collab/room.go:110-112 | an empty hub |
| `Hub.Hub.Join` | internal/collab/room.go:142-175 | the objects after Join are those of the join step: previous connection closed, new client registered; an error for an empty id |
| `Hub.Hub.Leave` | internal/collab/room.go:178-201 | the objects after Leave are those of its two steps |
| `Hub.Others` | internal/collab/room.go:224-229 | the recipients: every other member once, in any map order |
| `Hub.Offer` | internal/collab/room.go:240-248 | an open client with a free slot gets the message, a full buffer drops it, a closed client may |
| `Hub.Hub.Broadcast` | internal/collab/room.go:209-251 | the outcome follows from payload, room, sender and window; if it is Ok every other member with a free slot gets exactly this message, and nobody else gets anything; and the call is a run of its own steps |
| `MessageRate.AllowedWithinSecond` | internal/collab/room.go:81-93 | exactly how many messages of one second pass, from any window: what it has left for the early ones, and a new limit for the late ones |
| `MessageRate.LimitPerSecondIff` | internal/collab/room.go:81-93 | at most thirty of them pass if and only if the old window lets none through, or leaves enough for all the late ones |
| `MessageRate.LimitPerWindow` | internal/collab/room.go:81-93 | in the second after a window starts exactly the first thirty messages pass |
| `MessageRate.AtMostTwiceTheLimit` | internal/collab/room.go:81-93 | in any one second at most sixty messages pass |
| `MessageRate.TwiceTheLimitHappens` | internal/collab/room.go:81-93 | and sixty do in some runs |
| `Audit.QueryAuditRecords` | internal/team/audit.go:79-139 | the page built by appending is the specified page |
| `Audit.RowsAreRight` | internal/team/audit.go:145-170 | the rows are exactly the matching records below the cursor, once each, newest first |
| `Audit.ConditionsSelect` | internal/team/audit.go:145-170 | each named condition picks, from the rows of the query without it, those of its actor, action or target |
| `Audit.WindowsSplit` | internal/team/audit.go:145-170 | two windows that meet share out the rows of the whole |
| `Audit.InstantSelects` | internal/team/audit.go:145-170 | a window of one instant has just the rows of that instant |
| `Audit.AllRows` | internal/team/audit.go:145-170 | without conditions every record is a row, newest first |
| `Audit.RowsAfterCursor` | internal/team/audit.go:79-139 | moving the cursor to the last record of a page leaves exactly the rows after it |
| `Audit.PageIsExact` | internal/team/audit.go:79-139 | the next rows, the exact total, and a cursor exactly if more rows follow |
| `Audit.AppendsInvisible` | internal/team/audit.go:184-233 | records appended between pages do not change the rows below an old id |
| `Audit.WriteAuditCsv` | internal/team/audit.go:184-233 | with records appended between pages, the export writes exactly the matching records of the first page's time, once each in descending order, and ends; a failed or cancelled export has written a prefix of that |
| `SqlLexer.TokenizeSql` | apps/web/src/modules/sql/sqlFormat.ts:81-214 | the loop yields the token list of the recursive specification |
| `SqlShapes.LiteralIsRead` | apps/web/src/modules/sql/sqlFormat.ts:123-139 | any text, its quotes doubled, between quotes is read back as one literal |
| `SqlShapes.QuotedNameIsRead` | apps/web/src/modules/sql/sqlFormat.ts:141-149 | a quoted identifier ends at the first closing mark of its kind |
| `SqlShapes.BlockCommentIsRead` | apps/web/src/modules/sql/sqlFormat.ts:112-121 | a block comment ends at the first closing mark |
| `SqlShapes.LineCommentIsRead` | apps/web/src/modules/sql/sqlFormat.ts:103-110 | a line comment ends before the line feed |
| `SqlShapes.WordIsRead` | apps/web/src/modules/sql/sqlFormat.ts:185-193 | a word goes as far as its characters do, and is a keyword exactly if reserved |
| `SqlShapes.ParameterIsRead` | apps/web/src/modules/sql/sqlFormat.ts:151-170 | the four forms of parameters |
| `SqlTwice.NumberRead` | apps/web/src/modules/sql/sqlFormat.ts:172-183 | a number goes on up to the first character it cannot hold, a sign only behind an e |
| `SqlShapes.OperatorIsRead` | apps/web/src/modules/sql/sqlFormat.ts:195-201 | two-character operators are not taken apart |
| `SqlShapes.MarkIsRead` | apps/web/src/modules/sql/sqlFormat.ts:203-207 | parentheses, commas, semicolons and closing brackets are punctuation |
| `SqlLexer.Cut` | apps/web/src/modules/sql/sqlFormat.ts:81-214 | the text of a token, on its own, is that token, and complete unless the input ends inside it |
| `SqlLexer.FirstOf` | apps/web/src/modules/sql/sqlFormat.ts:81-214 | in front of anything that may follow, a token is still read as itself |
| `SqlLexer.LexIsLexed` | apps/web/src/modules/sql/sqlFormat.ts:81-214 | only the last token of an input can be incomplete |
| `SqlCleanup.CleanFixed` | apps/web/src/modules/sql/sqlFormat.ts:369-373 | a token text survives the closing replacements exactly if it has no white space at its end, no blank before a line end and no three line feeds in a row |
| `SqlCleanup.CollapseSplit` | apps/web/src/modules/sql/sqlFormat.ts:369-373 | the newline replacement works on two parts separately unless line feeds meet |
| `SqlLayout.WriteToken` | apps/web/src/modules/sql/sqlFormat.ts:271-365 | the loop body, branch by branch |
| `SqlLayout.FormatSql` | apps/web/src/modules/sql/sqlFormat.ts:230-374 | the whole printer: out, current, parenDepth and suppressSpace produce exactly the specified text, and depth never leaves 0 |
| `SqlLines.DepthIs` | apps/web/src/modules/sql/sqlFormat.ts:282-296 | the depth counted forwards is the most that any stretch of tokens up to here leaves open |
| `SqlLines.FormatIsLaidOut` | apps/web/src/modules/sql/sqlFormat.ts:230-374 | for every input the text is the words of its tokens with exactly the white space of the layout rules between them |
| `SqlLines.LinesOfText` | apps/web/src/modules/sql/sqlFormat.ts:230-374 | outside parentheses clauses and joins begin a line at column 0, AND, OR and ON at the indentation; what follows a comma, BY, DISTINCT, ALL, FROM, WHERE, HAVING or a list-opening SELECT, SET or VALUES begins a line; inside parentheses lines end only around comments and behind semicolons; every line begun between tokens has no or one indentation |
| `SqlLines.WordIs` | apps/web/src/modules/sql/sqlFormat.ts:271-273 | keywords are capitalised exactly if asked for, and only literals, comments and quoted names are ever cleaned up |
| `SqlFormat.RenderIsNeat` | apps/web/src/modules/sql/sqlFormat.ts:369-373 | the closing replacements act on each token by itself and never on the space between tokens |
| `SqlFormat.FollowsNext` | apps/web/src/modules/sql/sqlFormat.ts:240-365 | every printed token is followed by something that leaves it as it is, unless a dot meets a number |
| `SqlFormat.SpoiltChanges` | apps/web/src/modules/sql/sqlFormat.ts:369-373 | a token changed by the replacements is never read back |
| `SqlFormat.TokensKept` | apps/web/src/modules/sql/sqlFormat.ts:223-374 | lexing the formatted text gives the same tokens up to keyword case if and only if every token is tidy and no dot stands next to a number it would join |
| `SqlThinning.CleanedLexeme` | apps/web/src/modules/sql/sqlFormat.ts:369-373 | what the closing replacements leave of a token is a token of the same kind, closed if it was, and only literals, comments and quoted identifiers change |
| `SqlThinning.ReachThinned` | apps/web/src/modules/sql/sqlFormat.ts:81-214 | taking out white space that stands before white space or at the end moves, adds and removes no closing mark |
| `SqlFormat.TokensRead` | apps/web/src/modules/sql/sqlFormat.ts:223-374 | unless a dot meets a number, the formatted text has the tokens of the input, each with its own text cased and cleaned |
| `SqlTwice.ReadBlock` | apps/web/src/modules/sql/sqlFormat.ts:223-374 | dots and numbers printed without a gap are read back as one number, which ends where the layout ends it unless a token that wants a space follows a dot |
| `SqlTwice.IdempotentIff` | apps/web/src/modules/sql/sqlFormat.ts:223-374 | for every input formatting twice is formatting once if and only if what one run leaves of each token is tidy, and the gap before each token still suits the numbers the dots have made |
| `SqlTwice.IdempotentWithoutClash` | apps/web/src/modules/sql/sqlFormat.ts:223-374 | where no dot meets a number the first half of that condition is all |
| `SqlFormat.InkKept` | apps/web/src/modules/sql/sqlFormat.ts:223-374 | for every input whatsoever no character other than white space is added, dropped or moved |
| `SqlFormat.DotsMerge` | apps/web/src/modules/sql/sqlFormat.ts:357-362 | the three tokens of 1 . 2 are printed as 1.2 and read back as one number, which a second run leaves alone |
| `SqlFormat.DotsPart` | apps/web/src/modules/sql/sqlFormat.ts:357-362 | 1 . ? is printed as 1.? and by a second run as 1. ? |
| `SqlFormat.LiteralsChange` | apps/web/src/modules/sql/sqlFormat.ts:226-227 | a literal is not always emitted verbatim, and formatting it twice changes it twice |
| `Shell.ReadWord` | apps/web/src/modules/command/tokenize.ts:94-150 | a word runs exactly up to the first break outside quotes and escapes, and its value and quoting are functions of its text alone |
| `Shell.TakeRedirection` | apps/web/src/modules/command/tokenize.ts:68-85 | a file descriptor right before a redirection becomes part of it |
| `Shell.Tokenize` | apps/web/src/modules/command/tokenize.ts:41-163 | tokens are the input between their ends, in order; everything else is white space other than a line feed; no descriptor is left behind; and the lexer ends |
| `Shell.InOrder` | apps/web/src/modules/command/tokenize.ts:41-163 | tokens do not overlap, and each is what its kind says |
| `Shell.SkippedIsSpace` | apps/web/src/modules/command/tokenize.ts:52-56 | a character outside every token is white space, and never a line feed |
| `Shell.LongestMatch` | apps/web/src/modules/command/tokenize.ts:34-37 | no operator or redirection that the input has at a position is longer than the one found there |
| `Shell.AssignmentIff` | apps/web/src/modules/command/tokenize.ts:39 | an assignment is a name with an equals sign right behind it |
| `Shell.ReadsSingle` | apps/web/src/modules/command/tokenize.ts:107-115 | single quotes keep everything up to the next one |
| `Shell.ReadsDouble` | apps/web/src/modules/command/tokenize.ts:117-139 | double quotes keep everything, a quote and a backslash behind a backslash |
| `Shell.ReadsPlain` | apps/web/src/modules/command/tokenize.ts:140-149 | outside quotes a backslash keeps the next character and any other character stands for itself |
| `Shell.QuotedIsOneWord` | apps/web/src/modules/command/tokenize.ts:41-163 | any text written in double quotes is one word with that text as its value |
| `Shell.OneTokenList` | apps/web/src/modules/command/tokenize.ts:41-163 | for every input just one token list meets what tokenize promises |
| `Shell.SegmentTokens` | apps/web/src/modules/command/tokenize.ts:179-194 | the segments with their operators put back are the tokens; no operator inside a segment, none empty, only the first without an operator |
| `JsonPath.SliceFollowsRfc` | apps/web/src/modules/query/jsonPath.ts:121-142 | for all bounds, given or not, and every step the slice selects what RFC 9535, section 2.3.4.2.2 selects |
| `JsonPath.UpMembers` | apps/web/src/modules/query/jsonPath.ts:132-136 | a rising slice selects exactly the positions at whole steps within its bounds |
| `JsonPath.DownMembers` | apps/web/src/modules/query/jsonPath.ts:136-140 | so does a falling one |
| `JsonSelect.IndexIsSlice` | apps/web/src/modules/query/jsonPath.ts:110-119 | a single index selects what the slice of that one element selects |
| `JsonSelect.UnionOfIndexes` | apps/web/src/modules/query/jsonPath.ts:110-119 | a union of indexes selects its parts in order |
| `JsonSelect.NameSelects` | apps/web/src/modules/query/jsonPath.ts:99-107 | a name selects the property that a step by it leads to, in records only |
| `JsonSelect.UnionOfNames` | apps/web/src/modules/query/jsonPath.ts:99-107 | a union of names selects its parts in order |
| `JsonPath.ApplySlice` | apps/web/src/modules/query/jsonPath.ts:121-142 | the loops push exactly those elements |
| `JsonPath.Walk` | apps/web/src/modules/query/jsonPath.ts:155-168 | the recursive walk with its visitor |
| `JsonPath.WalkedReachesAll` | apps/web/src/modules/query/jsonPath.ts:191-205 | recursive descent misses no place in the document |
| `JsonSelect.WalkedPlaces` | apps/web/src/modules/query/jsonPath.ts:191-205 | recursive descent walks every place once, in document order |
| `JsonSelect.DescendSelects` | apps/web/src/modules/query/jsonPath.ts:155-168 | descent to a name selects the name in each of the nodes walked |
| `JsonPath.ApplyFilter` | apps/web/src/modules/query/jsonPath.ts:170-184 | the loop keeps what the specified filter keeps |
| `JsonSelect.AsksIff` | apps/web/src/modules/query/jsonPath.ts:214-246 | the comparison of the value found with the literal: the same scalar, the order of numbers, or that of strings by their first difference |
| `JsonSelect.HoldsIff` | apps/web/src/modules/query/jsonPath.ts:207-262 | a filter holds exactly if following its path from the child leads to a value, for a comparison one that compares as asked |
| `JsonSelect.FilterSelects` | apps/web/src/modules/query/jsonPath.ts:170-184 | exactly the children that satisfy the filter are kept, in child order and each once |
| `JsonSelect.FilterQuery` | apps/web/src/modules/query/jsonPath.ts:64-90 | the matches of a query that ends in a filter are the satisfying children of what the query without it matches |
| `JsonPath.ApplySegment` | apps/web/src/modules/query/jsonPath.ts:92-189 | one segment on one node |
| `JsonPath.RunStage` | apps/web/src/modules/query/jsonPath.ts:72-83 | the error is raised exactly if a stage yields more than 10 000 nodes |
| `JsonSelect.StageInOrder` | apps/web/src/modules/query/jsonPath.ts:72-83 | what a segment selects from earlier nodes comes before what it selects from later ones |
| `JsonPath.MatchesLead` | apps/web/src/modules/query/jsonPath.ts:64-205 | through unions, slices, wildcards, descent and filters, following a match's path from the root reaches exactly its value |
| `JsonPath.QueryJsonPath` | apps/web/src/modules/query/jsonPath.ts:64-90 | as many paths as values, in the same order, and all of the above |
| `JsonPath.KeyShown` | apps/web/src/modules/query/jsonPath.ts:268-275 | a numeral is shown in brackets, any other key quoted as well |
| `JsonPath.KeysAppend` | apps/web/src/modules/query/jsonPath.ts:268-275 | paths are shown key by key |
| `JsonPath.FormatInjective` | apps/web/src/modules/query/jsonPath.ts:268-275 | different key lists are displayed differently, although backslashes are not escaped |
| `JsonPath.PathsIdentify` | apps/web/src/modules/query/jsonPath.ts:64-90 | two matches shown with the same path are the same |
| `Html.EscapeIsCoding` | apps/web/src/modules/text/transforms.ts:38-45 | the chain of five replacements codes each character once, because the ampersand comes first |
| `Html.EscapeOne` | apps/web/src/modules/text/transforms.ts:38-45 | the five special characters become their entities, any other character stays |
| `Html.EscapeAppend` | apps/web/src/modules/text/transforms.ts:38-45 | texts are escaped character by character |
| `Html.UnescapeStep` | apps/web/src/modules/text/transforms.ts:47-54 | each replacement decodes one character as long as every ampersand begins an entity |
| `Html.UnescapeEscape` | apps/web/src/modules/text/transforms.ts:38-54 | unescaping undoes escaping for every string |
| `Html.EscapedIsInert` | apps/web/src/modules/text/transforms.ts:38-45 | escaped text holds no special character but ampersands that begin an entity of the input |

## Left out

- The size caps of the SQL formatter and of the JSONPath expression, and the 32-bit width of the diagonal arrays: they matter for large inputs only.
- Explanation texts, highlights and the other contents of snapshots, beyond what the ghost sequences of states record: they do not feed back into the algorithms.
- Binary search trees: that an in-order walk is sorted follows from insertion in a few lines and touches nothing else here.
- DiffText.DiffTexts: lower-casing and the similarity test of lines are parameters, so what they compute is not modelled; the textual form of hunks is left out.
- Hunks.PatchedIff: hunks are applied by line position as their headers say, without a search for moved context.
- HashTable.HashTableSteps: values are unbounded integers; the source's numbers can also be fractions, and are compared as such.
- Dijkstra.DijkstraSteps: weights are reals, so rounding of sums is not modelled.
- TokenBucket.Allow: tokens and times are reals on a clock that does not go back, so float64 rounding, the nanosecond steps of the clock and the range of durations are not modelled; the truncation of the Retry-After header to whole seconds is not either.
- Limiter.Limiter.Allow: one call at a time, which is what the mutex grants; the key functions and the HTTP middleware around it are left out.
- HubModel.Next: message payloads are strings, and the clock is a parameter of each step; authorisation, the transport and the deferred Leave of a retired connection are not part of this model.
- Hub.Hub.Broadcast: this method takes the lock regions one after the other; what other goroutines do in between is covered by the state machine only.
- Audit.WriteAuditCsv: the table is a sequence ordered by id (ids strictly increase by `internal/team/store.go:112`); pruning during an export, trimming of the query strings, and the formatting of CSV rows are left out.
- SqlLexer.TokenizeSql: line numbers, which only the lint rules use, are left out; so are characters outside the Basic Multilingual Plane, whose halves the source treats as two characters.
- The SQL lint rules, the command index and the explanations built on the shell tokens: table lookups.
- JsonPath.Holds: names found on a prototype chain rather than on the object itself are not modelled, and each step of a filter path carries the integer its text denotes; strings are ordered by code point.
- JsonPath.QueryJsonPath: starts from the parsed segments; the expression parser is left out.
- The other text transformations, code generation, formats, cron wording, the Git sandbox, storage and every page: input, output or library calls.
