# Verification of cppkg: diff, jobs, egrpc handlers and HashList

Dafny models of four parts of cppkg, with proofs of what they promise.

- **The Myers diff** (`EditGraph`, `Scripts`, `Furthest`, `Search`, `Backtrace`, `Choices`, `Disjoint`). The four
  functions of `cppkg/diff/myers_diff.h` are methods with the same loops, on arrays and growing
  sequences. They are proved against the textbook recursion for the longest common subsequence, for an
  arbitrary relation as comparator. `EditGraph.Dist` is the distance n + m − 2·LCS extended to the whole
  quadrant, because the search runs past the edges of the grid; the proofs are about how it changes from
  a point to its neighbours. `Furthest.Far` is Myers' recurrence: it is what the loops compute, and
  `FarIsFurthest` shows that it is the furthest reaching point. `Choices` says which of the cheapest scripts
  comes out.
- **Batches and messages** (`Batches`, `BatchCosts`, `Message`). `cppkg/diff/msg.cc`: the batched differ,
  what it keeps of each batch and what that costs, and the message builder. A message is the sequence of
  records that are given to `diff_line_format`.
- **`jobs::Sequence`** (`SequenceProtocol`, `SequenceSafety`, `SequenceRuns`). A step system whose actors are the
  attaching thread, threads that call `stop` or `join`, the destructor, the master and the workers. A run
  is any sequence of steps; a step that its actor cannot take changes nothing. Every theorem is about
  every run. The class `SequenceSafety.Sequence` has the critical sections as methods on the shared fields,
  each proved to be one step of the system.
- **egrpc handlers** (`Streams`, `StreamPairs`, `RetryChain`). The server's and the client's stream
  handlers and the retrying client as classes; a server call and a client handler joined by a channel,
  under every order of completions.
- **`estd::HashList`** (`HashLists`). List nodes are objects, iterators are references to them, and the
  class is proved to refine a list that searches.

## Conventions

- `Scripts.IndexT` and `Backtrace.Int32` are the ranges of `int16_t` and `int32_t`. C++ computes in `int`
  and narrows when it stores, so variables that the source declares as `IndexT` have that type here: the
  verifier shows that a store changes no value. Where a store can change one, it is written out with
  `Search.Narrow`.
- Sizes. Both searches give the right answer for `Search.Searchable` arrays: n + m ≤ 32766, or 32767 unless
  nothing matches (`Search.SearchableIff`); the round that arrays beyond that would need has no end
  (`Search.RoundsThatEnd`). The backtrace also keeps the row width 2(n + m) + 1 in an `IndexT`, which is
  right only for n + m ≤ 16383 (`Search.Supported`). For larger arrays the width is negative, the number of
  rows becomes 0 and the script is empty; `Backtrace.ReturnsScriptIff`, `Batches.BatchedIsScriptIff`,
  `Batches.LimitsThatWork`, `Message.EmptyIffEqualIff` and `Message.FreeIffEqualIff` say what that means for
  `myers_diff`, for the batched differ, for its limit, whose default is 32767 (`cppkg/diff/msg.h:44`), and for
  messages. `to_string` narrows the number of entries (`Message.Kept`), and sees only the first entries of a
  script with 65536 or more.
- The loops that `myers_diff_min_edit` and `myers_diff_trace` share are the methods `Search.Round`, `Extend`,
  `Enter` and `Slide`. Some other loops and loop bodies are methods of their own (`Backtrace.CountRows`,
  `BackRound`, `PreviousPoint`, `DescendSnake`, `ToEntries`, `Batches.FindBatchEnd`, `PushBack`, `KeepBatch`,
  `Message.MarkShown`).
- A batch limit of 0 makes `safe_diff_msg_helper` recur on the same input, so the limit must be positive
  unless both inputs are empty; `Batches.BatchMakesProgress` shows that the limit is all that matters.
- `msg.h` describes `safe_diff_msg` as the same as `diff_msg` in batches. Its script is a correct one, but
  not always a cheapest one: `BatchCosts.NeverCostsMoreIff` shows that it is for all inputs of given sizes
  if and only if both fit into one batch or one is empty. For all other sizes `BatchCosts.CostsMore` has
  inputs for which the batched script deletes and adds every line although they have lines in common.
- `cisab::logs::fatal` is not part of this model; it is taken not to return, so that a job attached to a
  sequence under destruction is refused. The write function of a stream service is taken not to move the
  iterator that it is passed.
- The environment is a parameter where it matters: the outcome of every attempt of a retry chain, the
  init and write functions of a service, the order of completions, the results of job bodies.

## Model

| member | source | states |
|---|---|---|
| EditGraph.WalkNeeds | cppkg/diff/myers_diff.h:34-84 | no walk through the edit graph, inside or outside the grid, gets to a point with fewer non-diagonal moves than Dist |
| EditGraph.BestWalk | cppkg/diff/myers_diff.h:34-84 | some walk needs just that many, so Dist is the true distance |
| EditGraph.FurthestIsFurthestReaching | cppkg/diff/myers_diff.h:107-135 | a furthest point is reached with d non-diagonal moves, and no walk with at most d gets further on its diagonal |
| EditGraph.SnakeStep | cppkg/diff/myers_diff.h:125-130 | sliding along matches keeps the distance and ends at a furthest point exactly where the next pair does not match |
| EditGraph.DistBeyondCorner | cppkg/diff/myers_diff.h:76-80 | beyond the far corner every step costs one, so overshooting never pays |
| Scripts.FitsNeeds | cppkg/diff/myers_diff.h:214-254 | every valid edit script between prefixes costs at least n + m − 2·LCS and consumes both prefixes entirely |
| Scripts.BestScript | cppkg/diff/myers_diff.h:214-254 | the bound is attained for arrays of any size |
| Scripts.PrefixCheapest | cppkg/diff/msg.cc:107-118 | every prefix of a cheapest script is a cheapest script for what it consumes |
| Scripts.EntryFits | cppkg/diff/myers_diff.h:196-209 | the entry at any position carries the element at the position its predecessors lead to, and kept pairs match |
| Scripts.RoundTrip | cppkg/diff/myers_diff.h:215-254 | a script without ADD entries is orig; without DEL entries it is updated, if the comparator only takes equal elements for each other |
| Scripts.UpdatedsAreUpdated | cppkg/diff/myers_diff.h:215-254 | for any comparator, the script without DEL entries is updated, except for elements of orig that the comparator matches with the updated one |
| Scripts.NumbersEnumerate | cppkg/diff/myers_diff.h:201-205 | positions count 0, 1, 2, … through each array, once and in order, and are −1 exactly where an entry is not from that array |
| Scripts.Concatenate | cppkg/diff/msg.cc:115-124 | a script of a prefix followed by a script of the rest is a script of the whole, and costs add up |
| Furthest.FarIsFurthest | cppkg/diff/myers_diff.h:107-135 | the value that round d leaves for diagonal k is the furthest point at distance d on k, entered on a snake |
| Furthest.FurthestIsFar | cppkg/diff/myers_diff.h:107-135 | a value is the furthest reaching one if and only if it is the one that the recurrence computes |
| Furthest.EntranceOnSnake | cppkg/diff/myers_diff.h:112-123 | given furthest points of both neighbours, the branch that the search takes enters at a point from which the snake leads to the furthest point |
| Furthest.StopsAtCorner | cppkg/diff/myers_diff.h:76-80 | x ≥ n and y ≥ m holds first in the round of the true distance on diagonal n − m, and then at exactly (n, m) |
| Furthest.CornerIsVisited | cppkg/diff/myers_diff.h:107-135 | that round is at most n + m and does visit that diagonal, so the search always stops there |
| Furthest.PointsInRange | cppkg/diff/myers_diff.h:41-74 | 0 ≤ x ≤ n + d and 0 ≤ y ≤ m + d for all points of round d, where a snake starts and where it ends |
| Furthest.PointsInTotal | cppkg/diff/myers_diff.h:41-74 | until the search stops no coordinate exceeds n + m, however far it runs past an edge, so all costs fit an IndexT if n + m does |
| Furthest.CostMeans | cppkg/diff/myers_diff.h:86-91 | a trace slot is 0 exactly for diagonals no round has visited, and otherwise the furthest point of the last round that did |
| Furthest.RoundReads | cppkg/diff/myers_diff.h:112-114 | the neighbouring slots that count in round r are untouched since round r − 1 wrote them |
| Search.SearchableIff | cppkg/diff/myers_diff.h:41-52 | the sizes that can be searched, those whose last round has an end: up to 32766 elements in all, and 32767 unless nothing matches |
| Search.RoundsThatEnd | cppkg/diff/myers_diff.h:110 | the loop over k has an end exactly for rounds up to 32765; later ones narrow k back to negative values |
| Search.RoundWithoutEnd | cppkg/diff/myers_diff.h:107-134 | for other arrays of 32767 elements in all no diagonal of round 32766 gets to the far corner, and that round has no end |
| Search.AfterDiagonal | cppkg/diff/myers_diff.h:110-134 | after any diagonal the round is at the corner or goes on to the next one without narrowing, and in the last round not past the corner's |
| Search.NarrowIs | cppkg/diff/myers_diff.h:147 | narrowing gives the one int16_t that is congruent modulo 65536 |
| Search.RowWidthFits | cppkg/diff/myers_diff.h:147 | the row width survives its conversion to int16_t if and only if n + m ≤ 16383 |
| Search.OneSlot | cppkg/diff/myers_diff.h:54-74 | the slot index modulo ncost is injective on diagonals from −(n + m) to n + m |
| Search.CyclicIndex | cppkg/diff/myers_diff.h:54-55 | the index expression (ncost + k) % ncost is the slot of diagonal k |
| Search.NeighbourSlots | cppkg/diff/myers_diff.h:112-114 | the slots read for k − 1 and k + 1 hold what round r − 1 left, wherever the branch looks at them, although at the ends one read is of another diagonal's slot |
| Search.RecordNext | cppkg/diff/myers_diff.h:132 | writing the slot of k disturbs no slot that is still to be read |
| Search.Enter | cppkg/diff/myers_diff.h:112-123 | the two reads and the branch give the point where the recurrence enters diagonal k |
| Search.Slide | cppkg/diff/myers_diff.h:123-130 | the innermost loop ends where the snake ends |
| Search.Extend | cppkg/diff/myers_diff.h:112-132 | one step of the inner loop computes the furthest point on diagonal k and records it |
| Search.Round | cppkg/diff/myers_diff.h:110-134 | a round turns one row of costs into the next, and ends the search exactly in the round of the true distance |
| Search.MyersDiffMinEdit | cppkg/diff/myers_diff.h:36-84 | for all sizes that can be searched it returns n + m − 2·LCS, although its loop stops one round early and defaults to n + m |
| Search.MyersDiffTrace | cppkg/diff/myers_diff.h:93-137 | for the same sizes the trace has one row more than there are edits, each the array of costs before its round |
| Search.RowsAt | cppkg/diff/myers_diff.h:86-91 | where in the flattened trace the cost of a round and a diagonal is |
| Backtrace.TraceNeighbours | cppkg/diff/myers_diff.h:157-159 | row d of the trace shows the backtrace the same two neighbours that the forward search saw in round d |
| Backtrace.TraceAt | cppkg/diff/myers_diff.h:158-168 | the index into the flattened trace fits an int and leads to the cost of that round and diagonal |
| Backtrace.PreviousPoint | cppkg/diff/myers_diff.h:156-168 | the backward branch picks the diagonal that the forward search came from and reads its furthest point |
| Backtrace.DescendSnake | cppkg/diff/myers_diff.h:171-174 | the inner loop goes back along the snake and stops where the forward search entered it |
| Backtrace.BackRound | cppkg/diff/myers_diff.h:154-183 | one round of the backtrace appends the snake and the point that the forward search came from, and stays inside the grid |
| Backtrace.CountRows | cppkg/diff/myers_diff.h:147-153 | dividing the trace by the narrowed row width gives its number of rows, or 0 if the width did not fit |
| Backtrace.MyersDiffBacktrace | cppkg/diff/myers_diff.h:143-185 | the points are the way back along the choices of the forward search; for n + m > 16383 there are none |
| Backtrace.WayBackIsChain | cppkg/diff/myers_diff.h:143-185 | that way leads from (n, m) to the origin in single steps inside the grid, diagonal only on matched pairs, with one turn per round |
| Backtrace.ChainIsScript | cppkg/diff/myers_diff.h:221-251 | any such path becomes a valid script with true positions that costs one edit per turn |
| Backtrace.MyersScriptIsOptimal | cppkg/diff/myers_diff.h:214-254 | the script goes from all of orig to all of updated, is correctly numbered, costs n + m − 2·LCS, and no valid script is cheaper |
| Backtrace.Reverse | cppkg/diff/myers_diff.h:252-253 | the result is the entries in reverse |
| Backtrace.ToEntries | cppkg/diff/myers_diff.h:221-251 | the loop over the points makes the entry of every step |
| Backtrace.ReturnsScriptIff | cppkg/diff/myers_diff.h:216-254 | of the arrays that can be searched, myers_diff returns a script of its arguments for exactly those with n + m ≤ 16383 |
| Backtrace.MyersDiff | cppkg/diff/myers_diff.h:216-254 | returns that optimal script, and nothing for the larger sizes |
| Choices.MyersScriptIff | cppkg/diff/myers_diff.h:214-254 | myers_diff returns the one correctly numbered script in which every entry is the choice at the point it leads to: an ADD if that comes from a nearer point, else a DEL if that does, else an EQ |
| Choices.ChoiceAtStart | cppkg/diff/myers_diff.h:112-123 | the branch of the search, on ties too, enters a diagonal from above exactly where a cheapest script can end in an ADD |
| Choices.ChoiceOnSnake | cppkg/diff/myers_diff.h:171-174 | along a snake no cheapest script can end in an ADD or a DEL |
| Choices.MyersScriptIsChosen | cppkg/diff/myers_diff.h:154-183 | so every entry of the script is that choice |
| Choices.ChosenIsUnique | cppkg/diff/myers_diff.h:214-254 | there is at most one such script |
| Choices.CanAddIff | cppkg/diff/myers_diff.h:157-162 | an ADD comes from a nearer point if and only if some cheapest script ends in one |
| Choices.CanDeleteIff | cppkg/diff/myers_diff.h:163-166 | the same for a DEL |
| Choices.DeletionsFirst | cppkg/diff/test/main.cc:148-158 | an ADD is never directly followed by a DEL |
| Disjoint.DisjointScript | cppkg/diff/test/main.cc:64-80 | if nothing matches, the script is all deletions in order and then all additions in order |
| Disjoint.FarOfDisjoint | cppkg/diff/myers_diff.h:112-123 | then the search never slides, and the points of round d are those with x + y = d |
| Batches.LimitsThatWork | cppkg/diff/msg.h:41-44 | a limit makes the batched differ return a script of its inputs, whatever they are, if and only if it is at most 8191 |
| Batches.BatchedIsScriptIff | cppkg/diff/msg.cc:75-125 | the batched differ returns a script of its inputs if and only if its first batch is of a supported size |
| Batches.BatchedCounts | cppkg/diff/msg.cc:94-124 | a batch of a larger size is skipped: its lines are missing from the script |
| Batches.SegmentFits | cppkg/diff/msg.cc:101-118 | what is kept of a supported batch is a cheapest script for the slices that it consumes, with positions relative to them, and the inputs go on after them |
| Batches.SegmentsAreCut | cppkg/diff/msg.cc:83-124 | the kept segments are exactly these: of every batch but the last, the part of its script up to the last EQ entry, or all of it without one, and the next batch begins where that ends |
| Batches.CutsAtLastEQ | cppkg/diff/msg.cc:101-118 | that part is the longest prefix that ends in an EQ entry |
| Batches.BatchMakesProgress | cppkg/diff/msg.cc:83-124 | a batch consumes something of the input if and only if the limit is not 0 |
| Batches.SegmentsAreOptimal | cppkg/diff/msg.cc:75-125 | all kept segments are cheapest scripts of consecutive slices that cover both inputs |
| Batches.BatchedIsScript | cppkg/diff/msg.cc:75-125 | for every limit in range the segments make a valid script of the whole, never cheaper than the minimum, and equal to it if one batch takes all |
| BatchCosts.NeverCostsMoreIff | cppkg/diff/msg.cc:83-124 | for given sizes and limit, the batched script is a cheapest one for all inputs if and only if both fit in one batch or one is empty |
| BatchCosts.CostsMore | cppkg/diff/msg.cc:94-124 | for all other sizes there are inputs with common lines for which batching deletes and adds every line |
| BatchCosts.CommonLinesMissed | cppkg/diff/msg.cc:94-124 | if neither the first batch nor the rest has lines in common, every line is edited, whatever the inputs share across the cut |
| BatchCosts.EmptySideCostsNoMore | cppkg/diff/msg.cc:83-124 | with an empty side batching costs nothing |
| BatchCosts.BatchingCanCostMore | cppkg/diff/msg.h:40-44 | with limit 1, removing the first of two different lines costs three edits instead of one |
| BatchCosts.CutCosts | cppkg/diff/msg.cc:122-124 | cutting the inputs anywhere never makes them cheaper to convert |
| Batches.PushBack | cppkg/diff/msg.cc:115-118 | appends the first n entries of a script to the caller's vector |
| Batches.FindBatchEnd | cppkg/diff/msg.cc:101-113 | the end is after an EQ entry with no EQ entry behind it, and the offsets are what is consumed by then; without an EQ entry, it is the end of the batch |
| Batches.KeepBatch | cppkg/diff/msg.cc:94-118 | diffs one batch and appends what is kept of it |
| Batches.SafeDiffMsgHelper | cppkg/diff/msg.cc:75-125 | terminates and appends the segments of all batches, in order, to what the vector held |
| Message.MarkShown | cppkg/diff/msg.cc:17-30 | marks exactly the entries at most three before or after an edit, among those that the number of entries kept in an IndexT counts |
| Message.ToString | cppkg/diff/msg.cc:15-55 | shows exactly the entries near an edit, in order, each with its line, its action and how much of either input precedes it; of 65536 entries or more it sees only the remainder |
| Message.MessageShows | cppkg/diff/msg.cc:33-53 | which entries a message shows, in which order, and with what |
| Message.NearMeans | cppkg/diff/msg.cc:25-27 | an entry is near an edit if some edit is at most three before or after it |
| Message.ShownIffNear | cppkg/diff/msg.cc:20-30 | an entry is shown if and only if it is near an edit, and nothing but entries is shown |
| Message.MessageIsTruthful | cppkg/diff/msg.cc:30-53 | shown line numbers are true absolute positions in both inputs, whatever positions the entries carry |
| Message.PrintedIsTruthful | cppkg/diff/msg.cc:17-53 | also if only the first entries of the script are kept |
| Message.FreeIffEqual | cppkg/diff/msg.cc:75-125 | for every limit in range the batched script has no edits if and only if the inputs are equal |
| Message.EqualIsFree | cppkg/diff/msg.cc:75-125 | equal inputs have no edits even if batches are not supported |
| Message.FreeIffEqualIff | cppkg/diff/msg.cc:75-125 | for inputs of given sizes, no edits means no difference, if and only if: for equal sizes, the first batch is supported; for different sizes, the last one is |
| Message.AllSkippedIff | cppkg/diff/msg.cc:83-124 | that the last batch, given by the sizes, is not supported, is the same as that no batch is |
| Message.SkippedIsFree | cppkg/diff/msg.cc:75-125 | then the batched script is empty, whatever the inputs are |
| Message.SupportedBatchCosts | cppkg/diff/msg.cc:75-125 | inputs of different sizes have an edit if any batch, and so the last one, is supported |
| Message.EmptyIffFree | cppkg/diff/msg.cc:15-55 | a message is empty if and only if its script has no edits |
| Message.EmptyIffEqualIff | cppkg/diff/msg.h:32-33 | for given sizes of up to 32766 lines in total, the message is empty for equal inputs only, if and only if they total at most 16383 lines |
| Message.DiffMsg | cppkg/diff/msg.cc:127-133 | for all inputs that can be searched: up to 16383 lines in total the message is true, and empty if and only if the inputs are equal; beyond, it is empty |
| Message.BatchedLength | cppkg/diff/msg.cc:75-125 | a batched script has no more entries than there are lines |
| Message.AllKeptIff | cppkg/diff/msg.cc:17 | to_string keeps all entries of the batched scripts of given sizes if and only if there are at most 32767 lines in all |
| Message.NothingKept | cppkg/diff/msg.cc:17-54 | 65536 lines against none have an empty message |
| Message.SafeDiffMsg | cppkg/diff/msg.cc:135-143 | the message of the batched script for every limit; true if batches are of a supported size, and then empty if and only if the inputs are equal, if the script has at most 32767 entries; empty for equal inputs in any case |
| SequenceProtocol.InvAlways | cppkg/jobs/sequence.h:30-133 | the invariant of the step system holds after every interleaving |
| SequenceProtocol.CallFollows | cppkg/jobs/sequence.h:78-92 | the next body start is the next attempt of the same job, not after a stop, or the first attempt of a later job |
| SequenceProtocol.InvPop | cppkg/jobs/sequence.h:51-56 | popping a task keeps the order of the jobs and loses none |
| SequenceProtocol.InvStop | cppkg/jobs/sequence.h:123-133 | stop at any moment keeps the invariant |
| SequenceProtocol.InvEnd | cppkg/jobs/sequence.h:83-92 | so does the end of a task |
| SequenceSafety.OneBodyAtATime | cppkg/jobs/sequence.h:58-59 | at most one job thread exists at any time |
| SequenceSafety.StartsInOrder | cppkg/jobs/sequence.h:71-104 | bodies start in attach order, no job starts twice, and the attempts of a job are consecutive |
| SequenceSafety.NoAttemptSkipped | cppkg/jobs/sequence.h:80-92 | attempts are numbered 0, 1, 2, … and each directly follows the one before |
| SequenceSafety.AfterStopOnlyOnce | cppkg/jobs/sequence.h:78-92 | after a body start that comes after stop, the job does not start again; a job first started after stop starts exactly once |
| SequenceSafety.WhoHasRun | cppkg/jobs/sequence.h:78-104 | finished jobs have run; dropped, refused and queued ones have not |
| SequenceRuns.FinishedIff | cppkg/jobs/sequence.h:80-91 | in every run the finished jobs are exactly those whose body returned true, or that found the stop signal after it returned false |
| SequenceRuns.EndedStartsNoMore | cppkg/jobs/sequence.h:83-92 | from that step on the job does not start, whatever steps follow |
| SequenceRuns.TriesAgain | cppkg/jobs/sequence.h:81-91 | a body that returns false is called with the next attempt, unless the stop signal is given by then, and no other body starts in between, whatever other actors do |
| SequenceSafety.InExactlyOnePlace | cppkg/jobs/sequence.h:93-104 | every attached job is exactly one of being attached, queued, in flight, finished, dropped, refused |
| SequenceSafety.SettledForGood | cppkg/jobs/sequence.h:114-133 | no step unsettles a job |
| SequenceSafety.JoinCompletes | cppkg/jobs/sequence.h:113-120 | without stop and without a destructor, all attached jobs have finished when join returns |
| SequenceSafety.JoinMeans | cppkg/jobs/sequence.h:114-120 | when join returns and the last job has finished, all jobs are settled; if stop dropped it, only one earlier job that was popped before may be unsettled; else the sequence is being destroyed |
| SequenceSafety.JoinCanLeaveOne | cppkg/jobs/sequence.h:114-133 | a run in which join returns after stop while the body of an earlier job is still running |
| SequenceSafety.JoinBeforeDestruction | cppkg/jobs/sequence.h:114-120 | without a destructor at work, a job unsettled when join returns is the only one, is in flight, and the last job was dropped |
| SequenceSafety.DestructionIsFinal | cppkg/jobs/sequence.h:63-69 | after the destructor all jobs are settled, no thread is left, and no body starts whatever is called |
| SequenceRuns.CanDrain | cppkg/jobs/sequence.h:34-60 | every run can go on, without further calls, until every job that got through has finished unless it was dropped before |
| SequenceRuns.CanBeDestroyed | cppkg/jobs/sequence.h:63-69 | every run can go on until the destructor is through |
| SequenceSafety.Sequence.Reserve | cppkg/jobs/sequence.h:93 | taking the future of a new task is one step of the system |
| SequenceSafety.Sequence.Enqueue | cppkg/jobs/sequence.h:95-101 | so is the locked part of attach_job, which appends the task unless the sequence is being destroyed |
| SequenceSafety.Sequence.Stop | cppkg/jobs/sequence.h:123-133 | so is stop, which empties the queue and gives the signal |
| SequenceSafety.Sequence.Wake | cppkg/jobs/sequence.h:38-57 | so is the master's locked part, which pops the first task, if any |
| Streams.AsyncServerStreamCall.ProcessNext | cppkg/egrpc/server_async_stream.h:80-106 | the skipping loop passes each element to write once and issues one operation, a write of the first accepted reply or the finish |
| Streams.AsyncServerStreamCall.ServeNext | cppkg/egrpc/server_async_stream.h:61-111 | one serve is one step of the server's state machine, with the fall-through from STARTUP |
| Streams.ProcessIssuesNext | cppkg/egrpc/server_async_stream.h:80-106 | the PROCESS part issues the first of the operations that are left and keeps the others |
| Streams.ServeIssuesNext | cppkg/egrpc/server_async_stream.h:61-111 | until deletion every serve issues the next operation of the call's script and no other |
| Streams.ServedInAll | cppkg/egrpc/server_async_stream.h:61-111 | after n completions the first n operations have been issued; the last completion deletes the call, and every element has been visited once in order |
| Streams.ServeAll | cppkg/egrpc/server_async_stream.h:61-119 | the object, driven from its creation to its deletion, issues its script, visits every element once in order, creates one successor, and takes one completion per operation and one more |
| Streams.RepliesAreFilterMap | cppkg/egrpc/server_async_stream.h:85-97 | if write overwrites the reply, the replies are those to the accepted elements, one by one, in spite of the reused reply object |
| Streams.SeekWrites | cppkg/egrpc/server_async_stream.h:85-95 | for any write, the reply that is sent has gone through the writes of the skipped elements before it |
| StreamPairs.AsyncClientStreamHandler.HandleEvent | cppkg/egrpc/client_async_stream.h:26-78 | one handle is one step of the client's state machine |
| StreamPairs.AsyncClientStreamHandler.Destroy | cppkg/egrpc/iclient_async.h:35-41 | destruction sets a held promise to the error |
| StreamPairs.InvStep | cppkg/egrpc/client_async_stream.h:26-78 | whatever completes next, the client has passed on exactly the delivered writes and awaits what its state says |
| StreamPairs.ReceivedInOrder | cppkg/egrpc/client_async_stream.h:47-62 | under any order of completions the callback has seen a prefix of the server's replies, in order, and the promise is set once, when the client is deleted |
| StreamPairs.EndToEnd | cppkg/egrpc/client_async_stream.h:62-77 | when the client is gone it has received all replies, and its promise holds an error exactly if the final status is not OK |
| StreamPairs.Connection.Complete | cppkg/egrpc/client_async_stream.h:26-78 | an event delivered to the two objects is one step of the two state machines |
| StreamPairs.Communicate | cppkg/egrpc/client_async_stream.h:26-78 | for the objects, under any run of events: what callback and promise have got, and that a client that is gone has got all replies, and its promise the message of the final error or none |
| StreamPairs.EventsRunOut | cppkg/egrpc/client_async_stream.h:26-78 | every event brings both ends closer to deletion, so no run goes on for ever |
| StreamPairs.SomethingCanHappen | cppkg/egrpc/server_async_stream.h:61-111 | while an end is left some event can happen: the two never wait for each other |
| StreamPairs.CanFinish | cppkg/egrpc/server_async_stream.h:61-111 | every run, whatever has happened in it, can go on until both ends are deleted |
| RetryChain.AsyncClientHandler.constructor | cppkg/egrpc/client_async.h:23-30 | constructing a handler is one attempt, including all that happens if it completes at once |
| RetryChain.AsyncClientHandler.HandleEvent | cppkg/egrpc/client_async.h:32-63 | handling a completion runs the callback, hands the promise to a new handler, or fails |
| RetryChain.AsyncClientHandler.Destroy | cppkg/egrpc/iclient_async.h:35-41 | the promise is set by the handler that still holds it, and only by that |
| RetryChain.HandleOnTheWay | cppkg/egrpc/client_async.h:32-63 | after a completion either the chain is done, or one handler waits, the promise is untouched and all earlier handlers are gone |
| RetryChain.WhileWaiting | cppkg/egrpc/client_async.h:32-63 | the same after any number of completions |
| RetryChain.ChainIsLinear | cppkg/egrpc/client_async.h:23-63 | at most n + 1 attempts, one destruction each, the promise set once, to the last error if and only if all failed, the callback once if and only if one succeeded, however attempts complete |
| RetryChain.CompleteAll | cppkg/egrpc/client_async.h:32-63 | delivering completions to whatever handler waits drives the objects through that chain |
| RetryChain.Request | cppkg/egrpc/client_async.h:23-63 | the same for the objects: the promise gets the message of the last error, or none, and the callback the reply of the attempt that succeeded |
| HashLists.HashList.constructor | cppkg/estd/hashlist.h:25 | an empty list with an empty index |
| HashLists.HashList.FromRange | cppkg/estd/hashlist.h:27-34 | the list of pushing back every value in turn |
| HashLists.RangeWithoutDuplicates | cppkg/estd/hashlist.h:27-34 | that list has every value of the range once, in the order of first occurrences |
| HashLists.HashList.PushBackValue | cppkg/estd/hashlist.h:116-127 | appends a new node for a value to list and index unless it is there, and returns its position |
| HashLists.HashList.PopBackValue | cppkg/estd/hashlist.h:129-137 | a list that is not empty loses exactly its last value, from list and index |
| HashLists.HashList.InsertValue | cppkg/estd/hashlist.h:139-148 | puts a new node for a value right before a position unless the value is there, and returns where it is |
| HashLists.HashList.EraseValue | cppkg/estd/hashlist.h:150-158 | removes the node of a value, if any, from list and index |
| HashLists.HashList.ClearAll | cppkg/estd/hashlist.h:160-164 | empties both |
| HashLists.HashList.PerformAll | cppkg/estd/hashlist.h:116-164 | any legal run of operations gives what it gives on the naive list, and a value that is there all the time keeps its position |
| HashLists.RunKeeps | cppkg/estd/hashlist.h:116-164 | no run of operations makes a duplicate |
| HashLists.InsertLands | cppkg/estd/hashlist.h:139-148 | a legal insertion of a new value puts it right before the value at its position, or at the end |
| HashLists.OrderStays | cppkg/estd/hashlist.h:116-164 | no operation changes the order of the values that stay |
| HashLists.EraseUndoesInsert | cppkg/estd/hashlist.h:139-158 | erase takes back an insertion, wherever it was |
| HashLists.PopUndoesPush | cppkg/estd/hashlist.h:116-137 | pop_back takes back a push_back, and leaves an empty list empty |
| HashLists.EraseRemovesOnly | cppkg/estd/hashlist.h:150-158 | erase leaves exactly the other values |

## Left out

- Text formatting, reading and trimming of lines (`diff_line_format`, `process_lines`, `diff_lines`): library string I/O.
- gRPC, loggers, deadlines, threads and mutexes themselves: they appear as events, steps and atomic sections.
- `AsyncServerStreamCall::shutdown` while writing, which issues a finish and then deletes the tag; only runs that end through FINISH are modelled.
- Liveness of `Sequence` and its destructor: the last notification comes before the exit signal, so it depends on a timing window; proved are safety, and that every run can be continued to an end.
- Worker and master threads of `Sequence` as code: their loops, and that of `ManagedJob`, are steps of the step system, because other threads get in between; only the critical sections are methods.
- `Sequence::is_running`, races during construction, and moving a `ManagedJob`.
- Copying a `HashList`, and writing through its iterators and references, which bypass the index; `std::list` and `std::unordered_map` are a sequence of nodes and a map.
- Inputs to the searches with n + m > 32767, whose lengths or their sum do not fit an `IndexT`. Memory limits.
- Message.SafeDiffMsg: not for batches of 32767 lines or more, nor for scripts whose number of entries narrows to a negative one, for which `to_string` would need an array of negative size.
- The other packages (`numbers`, `units`, `flag`, `error`, `arrs`, the rest of `estd`, `scope_guard.h`, `server_async.h`): plumbing, floating point, or easy properties.
