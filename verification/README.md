# Petals, modelled and verified

Petals runs a transformer whose blocks are spread over servers that come and go. In many places a fast,
stateful or repaired form has to agree with a simple one. This project models those places in Dafny and
proves the agreement for all inputs, all runs and all patterns of failure.

**Recurrent math and caches that rewind.** `TriangularSolve`, `GatedDelta` and `ChunkedDelta` prove that
the blocked gated delta rule (triangular solve per chunk, zero padding of the last chunk) returns exactly
what the token recurrence returns. On top of that `LinearMixer` proves the split law of the linear mixer
although it changes rule with the length of its input, `SessionCaches` proves that the hybrid cache
always equals the fold of the logical sequence over every run of steps and rewinds, and `KvCaches` does
the same for sliced attention caches. `SpanServers` puts one such cache per block under a tracked prefix
and proves that a request is answered as by stateless blocks.

**Rebalancing.** `SortedWindows` and `Placements` prove that each move of a server with positive
throughput strictly raises the ascending throughputs of the swarm; `Rebalancing` is the search itself, on
mutable spans and an array edited in place, proved to stop for every swarm and shuffle.

**Fault-tolerant pipelines.** `Pipelines`, `ServerSessions` and `InferenceSessions` follow one inference
session through steps, rewinds, lost replies, retries and the splicing in of replacement streams, with
the exact conditions under which a step returns. `SpeculativeDecoding` runs on such a session; from
position 0 every draft model yields greedy tokens of the target. `SpeculativeStops` says exactly, by what a
caller can compute beforehand, when every draft gives the result of plain decoding and when decoding returns.
`GradientChains` and `SequentialAutograd` do the forward and backward passes used in training. `Routing`
builds the graph, shows that it always has a path, and folds any path into a tiling.

**Shared bookkeeping on a server.** `CacheProtocol` is a transition system of allocations, frees and
pipe reads in any interleaving, with threads that outlive their coroutines. `CacheCaps` says exactly when
the capacity is respected, `CacheWakeups` exactly when a wakeup is lost, `CacheLocks` exactly when the lock is
left with a thread that nobody waits for. `MemoryCaches` is the object whose
atomic sections are the steps, composed into the coroutines that allocate and free among any steps of others.
`SessionEvents` is the protocol between handler processes, `StepMerger` the merging of requests and
pushes. `CacheAccounting` relates the advertised cache tokens to what a session allocates,
`ExpertDispatch` is the scatter-add over experts, `SpanTables` turns announcements into spans.

`Common` and `RealSums` hold shared types and finite sums. `dafny verify dfyconfig.toml` checks
everything.

## How the source is read

- Numbers are exact reals or unbounded integers. The exponential is a parameter of which only
  `exp(0) = 1` and `exp(x + y) = exp(x) exp(y)` are used.
- A lane is one batch row, one head and one value column: the delta rules never mix lanes, so a state is
  one vector per lane. Normalised queries and keys are inputs of a lane, the query scale is a parameter.
- What the network, the servers, the shuffle, the draft model or the stopping criteria do is given by
  arbitrary functions or action lists, so each theorem holds for every behaviour of them.
- A raised exception is the result `Raised`. Where a call can raise, the contract says what is left unchanged.
- An object updated in place is a class; a ghost `log` field holds the logical sequence it stands for.
- `CapHoldsWhenTestsAreAlone` is about servers on which no running coroutine tests between the test and the
  charge of another. On a single event loop nothing is awaited between a successful test and its charge, apart
  from leaving the lock, and the waiting loop needs the lock, so this holds there. A thread that outlived its
  coroutine may still test at any moment; it admits nothing and is not counted. `CapHoldsExactlyIfAllFit` does
  without the assumption: the cap then holds in every interleaving exactly for requests that fit all together.
  The invariants of `CacheProtocol` never need it.

## Where the code does less than it seems to

- The comparison in src/petals/server/block_functions.py:165-168 is written as a nonempty tuple, so it never
  refuses a start position beyond the cached rows. The hybrid cache refuses such a prefix itself; the sliced
  cache does not. `StepIsRightExactlyWhenCached` gives the exact condition under which its step is right.
- A replacement stream starts at position 0 and the position test in
  src/petals/client/inference_session.py:346 rejects it when the session is further on. Past position 0 a
  step therefore returns exactly if every open stream answers at once, whatever the retries.
- After a step that raised at position 0 a replacement may inherit a stale history, and the rows of that
  step come back in place of the new ones: `StaleRowsComeBack` is such a run, `StaleSessionRepeats` the exact
  condition. `RewindPutsInOrder` shows that rewinding to position 0 clears it.
- Decoding speculatively on a session that is not at position 0 steps the whole text on top of what was seen
  (`ResumedDecodeIsWrong`), and the stopping criterion is asked only after a whole accepted run
  (`StopDependsOnDraft`); `RightExactlyFromPositionZero` and `DraftDoesNotMatterExactly` are the conditions.
- A time limit ends the coroutine that waits for cache memory but not its thread, which may clear the event
  that the next waiter is blocked on (`WakeupIsLost`). If it strikes while the lock is being acquired, the thread
  may keep the lock, as the comment at src/petals/server/memory_cache.py:122-123 warns, and nobody is admitted
  any more (`LockMayStick`, `NobodyIsAdmittedOnceStuck`).
- A server advertises its tokens at the average price of its blocks, and a client made for some of them counts
  only those it sees. `ClientIsNeverMisledExactly` says which clients may trust the test, `PartialClientIsMisled`
  is one that may not, with the default dimensions of src/petals/models/qwen3_5_moe/config.py:43-53.
- Announced ranges are not compared with the blocks they are announced for, so a span may come out empty or
  reversed (`RangeMayBeReversed`). In the rebalancing search such a span moves once, to the first start with
  an empty slice, and changes nothing (`ParkingPlaceIsBest`, `IdleMoveKeepsLoads`).
- A push that the owner of a session takes itself gets ahead of pushes that other handlers have forwarded and the
  owner has not read (`PushesMayOvertake`); `RunKeepsOrderExactly` says when the order of acceptance is kept.
- An announced inference rate may be zero, and 1 / 0 raises while the graph is built, also for a server that no
  route needs (`IdleServerStopsRouting`).
- The branch of src/petals/client/inference_session.py:149-152 for server-to-server metadata is left out,
  because the position of a stream starts as a number and is only ever assigned numbers.

## Model

| member | source | states |
|---|---|---|
| ChunkedDelta.ChunkRule | src/petals/models/qwen3_5_moe/ops.py:55-132 | For every length, chunk size, initial state and real inputs the blocked rule returns exactly the outputs and the final state of the token-by-token recurrence. |
| GatedDelta.DeltaRule | src/petals/models/qwen3_5_moe/ops.py:162-168 | One position entry by entry: the state decays by the factor of the token, what it then predicts along the key is compared with the value, and the difference is written along the key with the strength of the token. |
| GatedDelta.ReadIsScaled | src/petals/models/qwen3_5_moe/ops.py:148-149 | Scaling the query before reading scales what is read. |
| GatedDelta.RecurrentRule | src/petals/models/qwen3_5_moe/ops.py:135-174 | The loop that overwrites state and output row by row computes the recursive recurrence from the given or the zero state. |
| GatedDelta.RecurrenceSplits | src/petals/models/qwen3_5_moe/ops.py:158-169 | A sequence may be cut anywhere: the second part started from the state of the first gives the same rows and the same final state. |
| GatedDelta.StateAtFront | src/petals/models/qwen3_5_moe/ops.py:158-169 | The state after n positions does not depend on later positions. |
| GatedDelta.StateAtBack | src/petals/models/qwen3_5_moe/ops.py:158-169 | The state inside the second part is that of the second part run on its own from the state of the first. |
| TriangularSolve.FoldRow | src/petals/models/qwen3_5_moe/ops.py:100-102 | Folding one row in place, from a copy of the row and the finished rows above, leaves every other entry alone. |
| TriangularSolve.FoldRows | src/petals/models/qwen3_5_moe/ops.py:99-102 | The in-place row loop turns a strictly lower-triangular matrix A into T - I. |
| TriangularSolve.SolverInvertsEntry | src/petals/models/qwen3_5_moe/ops.py:98-103 | (I - A) T = I, entry by entry, at every size. |
| TriangularSolve.TimesAssociates | src/petals/models/qwen3_5_moe/ops.py:104-105 | Multiplying by a product of matrices is multiplying by one after the other. |
| TriangularSolve.SolverSolves | src/petals/models/qwen3_5_moe/ops.py:98-105 | y = T x satisfies y = x + A y for every x. |
| TriangularSolve.SolutionIsUnique | src/petals/models/qwen3_5_moe/ops.py:98-105 | A strictly lower system has no second solution, so whatever satisfies the system is T x. |
| ChunkedDelta.ClosedForm | src/petals/models/qwen3_5_moe/ops.py:122-125 | The state after a position of a chunk is the decayed incoming state plus the decayed corrections so far. |
| ChunkedDelta.DecayedClosedForm | src/petals/models/qwen3_5_moe/ops.py:165-168 | The decayed state that a position reads before it writes, in the same closed form. |
| ChunkedDelta.CorrectionsSolveSystem | src/petals/models/qwen3_5_moe/ops.py:96-98 | The corrections of the token recurrence solve the masked, decayed system built from one chunk. |
| ChunkedDelta.NewValueIsSolved | src/petals/models/qwen3_5_moe/ops.py:104-119 | value minus k_cumdecay applied to the state is T applied to what the system sees from outside. |
| ChunkedDelta.NewValueIsCorrection | src/petals/models/qwen3_5_moe/ops.py:118-119 | v_new holds exactly the corrections that the recurrence makes one token at a time. |
| ChunkedDelta.ChunkOutputIsRecurrent | src/petals/models/qwen3_5_moe/ops.py:117-121 | The rows of a chunk are the rows the recurrence reads out. |
| ChunkedDelta.ChunkStateIsRecurrent | src/petals/models/qwen3_5_moe/ops.py:122-125 | The state carried to the next chunk is the state of the recurrence. |
| ChunkedDelta.PaddingIsInert | src/petals/models/qwen3_5_moe/ops.py:76-82 | Zero tokens after the end change neither the state nor the rows that are kept. |
| ChunkedDelta.PaddedToWholeChunks | src/petals/models/qwen3_5_moe/ops.py:76-82 | The padded length is a whole number of chunks. |
| ChunkedDelta.PaddedChunks | src/petals/models/qwen3_5_moe/ops.py:88-92 | The chunks have the chunk size and joined again give the padded input. |
| ChunkedDelta.PrepareChunk | src/petals/models/qwen3_5_moe/ops.py:95-105 | Row folding, the identity and two products give, for each chunk, T times the weighted values and T times the decayed keys. |
| ChunkedDelta.ApplyChunk | src/petals/models/qwen3_5_moe/ops.py:115-125 | One turn of the chunk loop returns the rows and the state of the recurrence over that chunk. |
| LinearMixer.TokensSplit | src/petals/models/qwen3_5_moe/block.py:117-120 | The convolution window carries all that a later piece needs of an earlier one, also when the piece is shorter than the window. |
| LinearMixer.PassSplits | src/petals/models/qwen3_5_moe/block.py:113-142 | Feeding x + y equals feeding x and then y from the returned window and recurrent state. |
| LinearMixer.RowsSeeTheirWindows | src/petals/models/qwen3_5_moe/block.py:117-120 | Every row of a pass is made from windows that end with the projected row of their own position and go back over the rows before it, into the kept window where the pass has none. |
| LinearMixer.StateSeesItsWindow | src/petals/models/qwen3_5_moe/block.py:119-119 | The window kept for the next pass is the one of the last position, and each lane keeps the state after the tokens made from those windows. |
| LinearMixer.RecorderShowsWindows | src/petals/models/qwen3_5_moe/block.py:117-120 | A mixer that shows what it convolves shows, d places from the end of the window at a position, the projected row d places before it or the row of the kept window. |
| LinearMixer.Forward | src/petals/models/qwen3_5_moe/block.py:113-142 | Whichever rule the length selects, one pass returns the rows and the state of the same pass function, each position convolving its own row and the rows just before it. |
| SessionCaches.BlockSplits | src/petals/models/qwen3_5_moe/block.py:181-186 | The whole linear-attention block obeys the split law. |
| SessionCaches.StatelessRow | src/petals/models/qwen3_5_moe/block.py:181-186 | A row of the block with no cache, spelled out: norm, windows that start blank, lanes that start from zeros, gate and residual. |
| SessionCaches.WholeSequence | src/petals/models/qwen3_5_moe/block.py:216-219 | The rows after a prefix, computed from the state of the prefix, are the last rows of a stateless pass over everything. |
| SessionCaches.HybridCache.constructor | src/petals/models/qwen3_5_moe/block.py:199-201 | A fresh cache stands for the empty sequence whatever its tensors contain. |
| SessionCaches.HybridCache.Replay | src/petals/models/qwen3_5_moe/block.py:207-215 | Replaying retained inputs in chunks of any size rebuilds the state of the prefix. |
| SessionCaches.HybridCache.StateBefore | src/petals/models/qwen3_5_moe/block.py:199-215 | No state, the cached state or a replayed one: always the fold of the prefix; a prefix beyond the position is refused. |
| SessionCaches.HybridCache.InferenceWithCache | src/petals/models/qwen3_5_moe/block.py:188-229 | A step that returns gives the rows of a stateless pass over the logical sequence and leaves the cache its fold, for every chunking and rewind; a step that raises leaves every part of the cache as it was. |
| KvCaches.AttentionSplits | src/petals/models/qwen3_moe/block.py:71-86 | Masked attention after cached keys and values obeys the split law. |
| KvCaches.RowAttendsToPrefix | src/petals/models/qwen3_moe/block.py:71-86 | The row at a position attends from that position to one entry for each row up to its own, each made at its own position from its normed row. |
| KvCaches.CachedPrefix | src/petals/models/qwen3_moe/block.py:126-130 | A slice of the cache stands for the prefix of the sequence. |
| KvCaches.KvCache.constructor | src/petals/models/qwen3_moe/block.py:89-98 | A fresh cache stands for the empty sequence whatever its tensors contain. |
| KvCaches.KvCache.InferenceWithCache | src/petals/models/qwen3_moe/block.py:118-134 | A step attends to the sliced cache; if the prefix was cached its rows are those of a stateless pass over the rewound and extended sequence; a step that raises leaves both tensors as they were. |
| SpanServers.StatelessLooksBack | src/petals/models/qwen3_5_moe/block.py:181-186 | The first n rows of a linear or full block only depend on the first n rows of its input. |
| SpanServers.BlocksAreCausal | src/petals/models/qwen3_5_moe/block.py:181-186 | A pipeline of such blocks is causal, so what is proved of sessions over causal pipelines holds for it. |
| SpanServers.RunBlock | src/petals/server/backend.py:160-164 | A step of one block, of either kind, on its own cache. |
| SpanServers.BlockFollows | src/petals/server/block_functions.py:218-226 | A block that cached what arrived before, cut and extended by what arrives now, caches what arrives for the new sequence. |
| SpanServers.SpanServer.constructor | src/petals/server/block_functions.py:157-160 | A new stream has empty caches, one per block, and has seen no prefix. |
| SpanServers.SpanServer.RunOne | src/petals/server/block_functions.py:222-226 | One block of the span takes its turn: its rows and its cache are those of the stateless blocks so far. |
| SpanServers.SpanServer.RunBlocks | src/petals/server/block_functions.py:213-226 | All blocks in turn, each on its own cache. |
| SpanServers.SpanServer.Infer | src/petals/server/block_functions.py:159-237 | One request on the caches and the tracked prefix: if the position it names is still cached, the answer and what is held afterwards are those of the stateless blocks, for every mix of block kinds, chunk lengths and rewinds; without faults it raises exactly beyond the maximum length, and a raise ends the stream. |
| KvCaches.KvCache.CommitRows | src/petals/models/qwen3_moe/block.py:131-133 | Only the new range of both tensors is overwritten. |
| KvCaches.StepIsRightExactlyWhenCached | src/petals/server/block_functions.py:163-168 | For every block, cache content and input the step is right if and only if the start position is within the cached rows; the comparison that should refuse others is a nonempty tuple, hence always true. |
| Pipelines.Pipeline.RunIsCausal | src/petals/client/inference_session.py:337-357 | A chain of causal blocks is causal: early rows do not depend on later inputs. |
| Pipelines.Pipeline.RunComposes | src/petals/client/inference_session.py:347-355 | Passing a span and then the next one is passing both at once. |
| Pipelines.Pipeline.RunIsLastOf | src/petals/client/inference_session.py:337-357 | However the sequences between the blocks are written down, the blocks in turn end in the last one. |
| Pipelines.TrimmedTiles | src/petals/client/inference_session.py:392-393 | Shortening the last span to the requested end turns a route into a tiling. |
| Pipelines.SpliceTiles | src/petals/client/inference_session.py:397-400 | Putting a tiling of a failed span in its place keeps the whole a tiling. |
| ServerSessions.ServerSession.constructor | src/petals/client/inference_session.py:46-70 | A new stream starts at position 0 with no history. |
| ServerSessions.ServerSession.Serve | src/petals/server/block_functions.py:159-237 | What the other end of a stream does: within the cached rows the value-level answer that SpanServers.SpanServer.Infer is proved to give, beyond them anything. |
| ServerSessions.ServerSession.Rewind | src/petals/client/inference_session.py:103-108 | After a rewind client and server agree on the shortened sequence; at position 0 nothing is remembered. |
| ServerSessions.ServerSession.Step | src/petals/client/inference_session.py:110-185 | A step returns exactly if the stream is open, the server answers and the lengths agree; it then gives the last rows of the blocks up to the span end with both sides in agreement, also for a used, closed or replaced stream at position 0, which may insist on the rows it remembers; one that raises leaves a history fit for a replacement. |
| ServerSessions.UnusedStreamSendsItsInputs | src/petals/client/inference_session.py:127-139 | A replacement stream sends the rows it was given if and only if its inherited history is empty or holds those very rows; another history of equal length is sent in their place. |
| InferenceSessions.InferenceSession.constructor | src/petals/client/inference_session.py:238-245 | A new session is empty and valid. |
| InferenceSessions.InferenceSession.Rewind | src/petals/client/inference_session.py:255-260 | Rewinding sets every stream back and keeps the chain; it raises exactly if some stream is not as far, which happens only after a step that raised. At position 0 it never does, and no stream remembers anything afterwards. |
| InferenceSessions.RewindStreams | src/petals/client/inference_session.py:258-260 | Each stream of the chain is set back, up to the first that is not as far; those in agreement stay so. |
| InferenceSessions.InferenceSession.Step | src/petals/client/inference_session.py:297-375 | Whatever fails, a step that returns gives the last n rows of the full pipeline on its target, with the spans tiling all blocks; too long a step is refused unchanged. Past position 0 it returns if and only if every open stream answers at once. At position 0 it raises only at a block that no attempt passes, and returns only if every stream was answered by some attempt. |
| InferenceSessions.InferenceSession.StaleSessionRepeats | src/petals/client/inference_session.py:398-399 | After a step that raised, a session whose first stream remembers its rows gives the right ones if and only if the next step brings the same rows. |
| InferenceSessions.StaleRowsComeBack | src/petals/client/inference_session.py:337-370 | A run: a step passes its first block and raises at the second; the next step of the same length fails the position test, replaces the first stream, and returns the rows of the step before. |
| InferenceSessions.RewindPutsInOrder | src/petals/client/inference_session.py:255-260 | Rewound to position 0, any session gives the right rows again, whatever a raised step left in it. |
| InferenceSessions.InferenceSession.PushAll | src/petals/client/inference_session.py:335-357 | The walk over the blocks passes each block once, whatever repairs happen on the way, with the exact conditions of the step. |
| InferenceSessions.InferenceSession.PassBlock | src/petals/client/inference_session.py:338-370 | The retry loop: past position 0 it returns if and only if the stream answers at once; at position 0 it gives up only if no attempt within the retries has a route, its connections and a reply. |
| InferenceSessions.InferenceSession.Attempt | src/petals/client/inference_session.py:341-357 | One attempt returns exactly if its repair, where one is made, opens, the stream is at the position of the session, and the server answers; past position 0 no repaired stream is. |
| InferenceSessions.InferenceSession.PushThrough | src/petals/client/inference_session.py:345-357 | On success one more stream has taken the new rows; on failure those behind it are untouched. |
| InferenceSessions.InferenceSession.UpdateSequence | src/petals/client/inference_session.py:377-404 | A repair succeeds exactly if there is a route and all its servers accept a stream; it replaces the failed stream by streams along the route, the first inheriting its history, and the chain still tiles. |
| InferenceSessions.InferenceSession.Splice | src/petals/client/inference_session.py:397-400 | The list splice keeps the streams distinct, the tiling, and the agreement of all other streams. |
| InferenceSessions.SplicedStreams | src/petals/client/inference_session.py:397-400 | Where each stream stands after the splice, and that none occurs twice. |
| InferenceSessions.InferenceSession.Commit | src/petals/client/inference_session.py:372-372 | When all streams have taken the rows the position moves and the session is valid for the longer sequence. |
| InferenceSessions.EnterServerSessions | src/petals/client/inference_session.py:262-284 | One distinct unused stream per span is opened, in order, if and only if every server accepts; otherwise none. |
| InferenceSessions.OpenAlongRoute | src/petals/client/inference_session.py:389-394 | A trimmed route tiles the blocks asked for, and its streams follow it. |
| SpeculativeDecoding.Model.GreedyIsUnique | src/petals/models/llama/speculative_model.py:44-111 | Two greedy continuations of one prompt agree as far as both go. |
| SpeculativeDecoding.Model.RowPredicts | src/petals/models/llama/speculative_model.py:68-77 | A row of a longer pass has the argmax that decoding the shorter sequence would have. |
| SpeculativeDecoding.Model.NextReadsLastRow | src/petals/models/llama/speculative_model.py:66-77 | The next token of plain decoding is the argmax of the last row of the blocks run on the embedded ids. |
| SpeculativeDecoding.Accepted | src/petals/models/llama/speculative_model.py:70-89 | At least one token, at most the draft, all of them the argmax of the target, a beginning of the draft or a single token. |
| SpeculativeDecoding.Agreeing | src/petals/models/llama/speculative_model.py:72-85 | The longest run on which draft and target agree: the next token, if there is one, differs. |
| SpeculativeDecoding.Accept | src/petals/models/llama/speculative_model.py:70-89 | The loop collects exactly the longest agreeing run, or else the first token of the target. |
| SpeculativeDecoding.RowsPredictDraft | src/petals/models/llama/speculative_model.py:65-68 | The last rows of the verified sequence line up with the drafted positions. |
| SpeculativeDecoding.AcceptedIsGreedy | src/petals/models/llama/speculative_model.py:70-98 | Every accepted token is the argmax on its own prefix, and all of them but the last are among the tokens verified. |
| SpeculativeDecoding.RewindForDraft | src/petals/models/llama/speculative_model.py:59-64 | After the first draft the session is legally set back to the tokens before the last given one; for the first draft it is left where it is. |
| SpeculativeDecoding.RowsForDraft | src/petals/models/llama/speculative_model.py:56-68 | The rows returned are the last ones of the pass over everything the session has seen, resumed or not; without failures they are missing exactly beyond the maximum length. |
| SpeculativeDecoding.Verify | src/petals/models/llama/speculative_model.py:56-89 | One iteration accepts exactly the longest agreeing run of the draft, or else one token, judged by the rows the session has seen. |
| SpeculativeDecoding.OnlyNewTokensAreJudged | src/petals/models/llama/speculative_model.py:49-54 | Whatever the small model returns in front of the tokens asked for, decoding is the same as with those tokens alone. |
| SpeculativeDecoding.GreedyGrows | src/petals/models/llama/speculative_model.py:98-98 | Appending greedy tokens to a greedy continuation gives a greedy continuation. |
| SpeculativeDecoding.Sample | src/petals/models/llama/speculative_model.py:44-111 | The loop ends, on a new or resumed session, and returns what the decoding function gives for this draft, criterion and session, or for its new tokens alone; without failures it raises only where that does. |
| SpeculativeDecoding.DecodeIsGreedy | src/petals/models/llama/speculative_model.py:44-111 | From position 0, for every draft model, what is returned is a greedy continuation of the target, longer than the prompt, within the maximum, and meets the criterion. |
| SpeculativeDecoding.RightExactlyFromPositionZero | src/petals/models/llama/speculative_model.py:60-64 | A session gives greedy continuations for every model, prompt and draft if and only if it is at position 0 when decoding begins, since the first iteration does not set it back. |
| SpeculativeDecoding.ResumedDecodeIsWrong | src/petals/models/llama/speculative_model.py:60-64 | For every session that has seen anything, a model and a prompt to which the wrong token is returned. |
| SpeculativeStops.PlainStopsFirst | src/petals/models/llama/speculative_model.py:103-104 | Plain decoding ends at the first prefix of a greedy continuation that meets the criterion. |
| SpeculativeStops.DecodeIsPlainExactly | src/petals/models/llama/speculative_model.py:97-104 | From position 0, for one draft, the result is that of plain greedy decoding under the same criterion if and only if no shorter part of it beyond the prompt meets the criterion. |
| SpeculativeStops.StopDependsOnDraft | src/petals/models/llama/speculative_model.py:97-104 | A criterion met by two tokens: a draft of two right tokens runs past it, a draft of wrong ones does not. |
| SpeculativeStops.OneAtATimeIsPlain | src/petals/models/llama/speculative_model.py:44-111 | Drafting one token at a time always gives the result of plain decoding. |
| SpeculativeStops.ContinuedIsGreedy | src/petals/models/llama/speculative_model.py:70-98 | The greedy continuation of each length, which a caller can compute before decoding, is the only one. |
| SpeculativeStops.PlannedRunIsAccepted | src/petals/models/llama/speculative_model.py:70-89 | Of a draft that is right for some tokens and then wrong, exactly the right ones are accepted, or the one token of the target. |
| SpeculativeStops.SecondMeetingIsReturned | src/petals/models/llama/speculative_model.py:97-104 | A draft that is wrong but for two right tokens just before the first greedy continuation that meets the criterion makes decoding run past it and return the second one. |
| SpeculativeStops.DraftDoesNotMatterExactly | src/petals/models/llama/speculative_model.py:44-111 | Before decoding begins: every draft gives the result of plain decoding if and only if tokens are drafted one at a time or no two greedy continuations of the prompt up to the maximum length meet the criterion. |
| SpeculativeStops.MustStop | src/petals/models/llama/speculative_model.py:44-104 | No accepted run steps over as many meeting lengths in a row as tokens are drafted, so decoding returns. |
| SpeculativeStops.PlanEvades | src/petals/models/llama/speculative_model.py:44-104 | If there is no such row, some draft accepts its way past every meeting length until there is no room left, and decoding raises. |
| SpeculativeStops.DecodeReturnsExactly | src/petals/models/llama/speculative_model.py:44-104 | From position 0 decoding returns for every draft that is long enough if and only if some row of lengths, as long as a draft or up to the maximum length, meets the criterion; a criterion met at the maximum length is enough. |
| GradientChains.Chain.FwdComposes | src/petals/client/sequential_autograd.py:69-94 | Running a span and then the next one is running both. |
| GradientChains.TraceIsChain | src/petals/server/block_functions.py:63-80 | However the hidden states and the prompted inputs of the blocks are written down, one from the other, the forward chain ends in the last one. |
| GradientChains.Chain.LastBlockFirst | src/petals/server/block_functions.py:129-138 | One step of the chain rule: the gradient passes the last block, whose prompt takes its share. |
| GradientChains.Chain.GradSplits | src/petals/client/sequential_autograd.py:136-176 | Differentiating the later part and then the earlier one is the chain rule of the whole, prompt gradients in block order. |
| GradientChains.GradIsAdjoint | src/petals/server/block_functions.py:126-139 | For every pairing for which backward is the adjoint of the tangent of a block at its input: the input gradient paired with a direction is the output gradient paired with that direction carried through the blocks at the inputs they were fed, prompts added. |
| GradientChains.PromptGradIsAdjoint | src/petals/server/block_functions.py:126-142 | The gradient of the prompt of each block, paired with a change of it, is the output gradient paired with what that change makes of the output. |
| GradientChains.DownIsOnceEach | src/petals/server/block_functions.py:129-134 | The order of differentiation contains each block of the span exactly once. |
| GradientChains.DownCounts | src/petals/server/block_functions.py:127-127 | The countdown starts at the last block and ends at the first. |
| GradientChains.RunRpcForward | src/petals/server/block_functions.py:62-81 | The server loop computes the blocks of the span with their prompts. |
| GradientChains.KeepInputs | src/petals/server/block_functions.py:105-124 | The forward chain of the backward pass keeps what each block is fed, its prompt added. |
| GradientChains.RunRpcBackward | src/petals/server/block_functions.py:106-141 | With recomputed inputs, a reverse walk and reversed prompt gradients, the gradients of the chain rule, whose meaning GradIsAdjoint and PromptGradIsAdjoint give; the blocks are differentiated from the last to the first. |
| SequentialAutograd.NextSpans | src/petals/client/sequential_autograd.py:62-66 | The route in use, or a new one after a failure, tiles the remaining blocks; it is missing exactly if none is in use and none is found. |
| SequentialAutograd.SequentialForward | src/petals/client/sequential_autograd.py:56-110 | If it returns, the output is the whole chain on the input, the recorded spans and inputs are exactly its pieces, and each span was answered by some attempt; it returns if every block has an attempt with a route and an answer. |
| SequentialAutograd.HalfwayStep | src/petals/client/sequential_autograd.py:165-176 | A differentiated span takes the pass from its end to its start without losing or repeating a block. |
| SequentialAutograd.PushBackup | src/petals/client/sequential_autograd.py:143-153 | The pieces of a span that failed, run forward again, stand on the stack in its place. |
| SequentialAutograd.BackwardSpan | src/petals/client/sequential_autograd.py:139-186 | The retry loop for the top of the stack differentiates it or a last piece of it exactly once; it returns if some attempt has its answer and, after the first, its backup pass. |
| SequentialAutograd.SequentialBackward | src/petals/client/sequential_autograd.py:113-196 | Under every pattern of failures and re-routing it returns, if at all, the gradient of the whole chain, each block differentiated once and in descending order, prompt gradients in block order; it returns if every possible span end has an attempt that goes through. |
| SortedWindows.LexLessIsLower | src/petals/server/block_selection.py:24-25 | Comparing sorted windows lexicographically is comparing their multisets by the first value that one has more often. |
| SortedWindows.LowerCancels | src/petals/server/block_selection.py:24-25 | Values common to both sides may be cancelled. |
| SortedWindows.NotLowerKeepsMinimum | src/petals/server/block_selection.py:48-48 | A swarm that is not lower has no smaller minimum. |
| Placements.BestBeatsOthers | src/petals/server/block_selection.py:23-25 | The chosen start is no worse than any other, ties going to the smallest start. |
| Placements.BestIsUnbeaten | src/petals/server/block_selection.py:23-25 | A start is chosen if and only if no other window beats it. |
| Placements.BestIsNotHigher | src/petals/server/block_selection.py:23-25 | No window has sorted throughputs below the chosen one. |
| Placements.ParkingPlaceIsBest | src/petals/server/block_selection.py:23-25 | For an empty or reversed span the chosen start is the first one whose slice, with a negative end counted from the back, is empty. |
| Placements.LoadsAfterMove | src/petals/server/block_selection.py:78-86 | The four edits of the array together are the throughputs of the new placement. |
| Placements.MoveImproves | src/petals/server/block_selection.py:76-86 | Each move of a server with throughput and blocks strictly raises the throughputs of the swarm, as bags and as ascending lists. |
| Placements.IdleMoveKeepsLoads | src/petals/server/block_selection.py:76-86 | A server without throughput, or with an empty or reversed span, changes nothing wherever it goes. |
| Placements.IdleServerSettles | src/petals/server/block_selection.py:76-86 | Such a server is settled after one visit. |
| Placements.RankDrops | src/petals/server/block_selection.py:71-86 | The number of placements ranked above the current one falls with every rise, so rises cannot go on for ever, wherever reversed spans stand. |
| Placements.BottleneckRises | src/petals/server/block_selection.py:88-89 | If the sorted throughputs rise, their minimum does not fall. |
| Placements.VisitKeepsProgress | src/petals/server/block_selection.py:76-86 | A visit raises the sorted throughputs, or leaves the loads alone and the server settled. |
| Placements.ProgressKeepsBottleneck | src/petals/server/block_selection.py:88-90 | new_throughput < initial_throughput cannot hold in exact arithmetic. |
| Placements.RestMeansNoBetterWindow | src/petals/server/block_selection.py:71-86 | All servers are settled if and only if none with blocks has a better window under the rule and those without stand at their parking place. |
| Placements.GuardKeepsSwarmConnected | src/petals/server/block_selection.py:59-60 | If the other servers alone give every block throughput, no move of this one leaves a block without. |
| Rebalancing.Span.constructor | src/petals/data_structures.py:85-104 | A span is its blocks and the throughput of its server. |
| Rebalancing.Span.MoveTo | src/petals/server/block_selection.py:36-37 | A move keeps the length. |
| Rebalancing.AddOnSlice | src/petals/server/block_selection.py:78-86 | Adds to a slice of the array, with a negative end counted from the back, and to nothing else. |
| Rebalancing.SliceOfPlace | src/petals/server/block_selection.py:78-86 | The slice of a placed span holds exactly the blocks it serves, none if it is empty or reversed. |
| Rebalancing.ComputedSpansArePlaced | src/petals/utils/dht.py:144-152 | Whatever is announced for a whole model, every span computed lies inside it or is reversed with an empty slice, which is all that the search asks for. |
| Rebalancing.ComputeThroughputs | src/petals/server/block_selection.py:12-20 | The array holds for each block the sum over the servers that serve it. |
| Rebalancing.Reconsider | src/petals/server/block_selection.py:77-86 | A visit leaves the edited array equal to recomputation from the spans, with the server at its best response; it reports whether it moved. |
| Rebalancing.RunPass | src/petals/server/block_selection.py:72-86 | A pass in any order keeps array and spans in step and moves nobody if everybody was settled. |
| Rebalancing.PassEndsSettled | src/petals/server/block_selection.py:75-86 | A pass raises the sorted throughputs or ends with every server settled. |
| Rebalancing.Search | src/petals/server/block_selection.py:70-86 | The search ends for every swarm, empty and reversed spans included, and every shuffle, with every server settled. |
| Rebalancing.LeavesUnlessNeeded | src/petals/server/block_selection.py:53-65 | The guard in terms of the other servers: in a connected swarm a server leaves only if they give each of its blocks more than a trace, so that they serve every block without it; in any other swarm nothing holds it. |
| Rebalancing.TryLocalMove | src/petals/server/block_selection.py:53-68 | The server leaves exactly if the disjointness guard lets it and its best window is another one. |
| Rebalancing.ShouldChooseOtherBlocks | src/petals/server/block_selection.py:40-95 | The answer: forced above quality 1, raised if the server is not among the spans, refused if it is on its best place or, in a connected swarm, if the others give one of its blocks hardly anything, and otherwise decided by the ratio of the two bottlenecks, the second never being the smaller. If a connected swarm is told to move a server, the others alone serve every block. |
| CacheProtocol.SizesStep | src/petals/server/memory_cache.py:127-177 | Every step keeps current_size the sum of live reservations and enqueued_size the sum of pending ones. |
| CacheProtocol.HandlesStep | src/petals/server/memory_cache.py:127-132 | Every step keeps handles unshared and below the counter. |
| CacheProtocol.ReadingOneMore | src/petals/server/memory_cache.py:203-221 | Reading a longer pipe is reading the shorter one and then the last message; a delete misses only if its handles are not there. |
| CacheProtocol.RuntimeStep | src/petals/server/memory_cache.py:127-221 | Every step keeps the drained runtime map equal to the live handles, with no delete of a missing handle. |
| CacheProtocol.LockStep | src/petals/server/memory_cache.py:150-156 | At most the lock holder is between acquiring and admission, or is a thread that keeps the lock for nobody. |
| CacheProtocol.StepKeepsInvariant | src/petals/server/memory_cache.py:101-221 | Accounting, handles, runtime map and lock survive every step, those of threads that outlive their coroutine included. |
| CacheProtocol.EveryRunKeepsInvariant | src/petals/server/memory_cache.py:101-221 | They hold in every interleaving of allocations, failures, time-outs that leave a thread in the waiting loop, acquiring the lock or holding it, frees and pipe reads. |
| CacheCaps.StepStaysWithinCapExactly | src/petals/server/memory_cache.py:150-158 | A step keeps usage and admitted requests within the cap if and only if what it admits fits beside everything charged or admitted so far. |
| CacheCaps.CapHoldsWhenTestsAreAlone | src/petals/server/memory_cache.py:148-158 | If no test of a running coroutine falls between another test and its charge, as on a single event loop, usage and admitted requests never exceed the cap, whatever threads that outlived their coroutines test. |
| CacheCaps.CapHoldsExactlyIfAllFit | src/petals/server/memory_cache.py:127-158 | Every interleaving of given requests stays within the cap if and only if the sizes that fit alone add up to at most the cap. |
| CacheCaps.CapCanBeExceeded | src/petals/server/memory_cache.py:150-158 | Two requests for the whole cache exceed every positive cap in some run, because the lock is released before the charge. |
| CacheWakeups.StepLosesExactlyBySteal | src/petals/server/memory_cache.py:179-193 | A step loses a wakeup if and only if an orphaned thread clears the event that a waiter with room is blocked on while nobody is about to signal. |
| CacheWakeups.RunLosesExactlyBySteal | src/petals/server/memory_cache.py:179-193 | A run never loses a wakeup if and only if none of its steps is of that kind. |
| CacheWakeups.WakeupIsLost | src/petals/server/memory_cache.py:145-193 | For every positive cap, a run that loses one: a time limit releases the lock, the thread stays in its loop and clears the event of the next waiter. |
| CacheWakeups.WakeupsAreSafeExactlyWithoutTimeLimits | src/petals/server/memory_cache.py:145-193 | No interleaving loses a wakeup if and only if no request carries a time limit. |
| CacheLocks.StepSticksExactly | src/petals/server/memory_cache.py:118-151 | A step leaves the lock with a thread that nobody waits for if and only if it was so before, or the time limit strikes once the lock is got and before the coroutine goes on, or a thread abandoned while acquiring gets it. |
| CacheLocks.StuckStays | src/petals/server/memory_cache.py:118-156 | Such a lock stays stuck, and no step admits a request any more. |
| CacheLocks.NobodyIsAdmittedOnceStuck | src/petals/server/memory_cache.py:118-158 | However the run goes on, whoever has memory then was admitted before the lock got stuck. |
| CacheLocks.LockMayStick | src/petals/server/memory_cache.py:145-151 | For every cap, a run of one timed request that leaves the lock stuck. |
| CacheLocks.LockIsSafeExactlyWithoutTimeLimits | src/petals/server/memory_cache.py:145-167 | No interleaving leaves the lock stuck if and only if no request carries a time limit. |
| MemoryCaches.MemoryCache.constructor | src/petals/server/memory_cache.py:28-41 | A new cache is the start state of the protocol. |
| MemoryCaches.MemoryCache.Perform | src/petals/server/memory_cache.py:101-221 | A step of another coroutine or of the runtime on the shared fields. |
| MemoryCaches.MemoryCache.Interleave | src/petals/server/memory_cache.py:101-221 | However many steps others take, they leave the allocation of this coroutine where it is; to the runtime they only send. |
| MemoryCaches.MemoryCache.Enqueue | src/petals/server/memory_cache.py:141-142 | Entering the wait is the arrival step. |
| MemoryCaches.MemoryCache.TestAtOnce | src/petals/server/memory_cache.py:148-149 | The immediate test is the protocol step; it refuses exactly a request without patience that finds no room beside everything charged or enqueued. |
| MemoryCaches.MemoryCache.TakeLock | src/petals/server/memory_cache.py:150-150 | Taking the lock is the protocol step. |
| MemoryCaches.MemoryCache.TimeOut | src/petals/server/memory_cache.py:162-167 | The time limit in the waiting loop releases lock and count and leaves the thread where it is; before the lock is being acquired it leaves nothing. |
| MemoryCaches.MemoryCache.AbandonLock | src/petals/server/memory_cache.py:118-151 | The time limit while the lock is being acquired, or is held but the coroutine was not told: the count is released, the thread goes on and the lock, if it has it, stays taken. |
| MemoryCaches.MemoryCache.DeadlinePasses | src/petals/server/memory_cache.py:189-192 | The deadline of the thread fails the allocation. |
| MemoryCaches.MemoryCache.TestForRoom | src/petals/server/memory_cache.py:150-156 | The test under the lock is the protocol step: admitted exactly with room, refused exactly without room and patience or if larger than the cache, else on to the waiting loop. |
| MemoryCaches.MemoryCache.TestAgain | src/petals/server/memory_cache.py:187-187 | The test in the waiting loop is the protocol step, and admits exactly with room. |
| MemoryCaches.MemoryCache.SeeEvent | src/petals/server/memory_cache.py:189-189 | Seeing the event is the protocol step. |
| MemoryCaches.MemoryCache.ClearEvent | src/petals/server/memory_cache.py:193-193 | Clearing the event is the protocol step. |
| MemoryCaches.MemoryCache.LeaveQueue | src/petals/server/memory_cache.py:158-160 | An admitted request stops counting as enqueued. |
| MemoryCaches.MemoryCache.ChargeAndSend | src/petals/server/memory_cache.py:127-132 | Handles, sizes and the message to the runtime change together. |
| MemoryCaches.MemoryCache.FreeAndSend | src/petals/server/memory_cache.py:174-176 | Message and size change together. |
| MemoryCaches.MemoryCache.SignalFreed | src/petals/server/memory_cache.py:177-177 | Setting the event is the protocol step. |
| MemoryCaches.MemoryCache.AcquireMemoryLock | src/petals/server/memory_cache.py:147-150 | The wait for the lock, with any steps of others in between, ends with the lock, still waiting while somebody else holds it, or with the time limit at a look that is named, which leaves a thread acquiring the lock exactly if one had begun. |
| MemoryCaches.MemoryCache.ClearAfterWakeup | src/petals/server/memory_cache.py:189-193 | From seeing the event to clearing it, with steps of others and the time limit in between; the gap in which it struck is named. |
| MemoryCaches.MemoryCache.LookAtEvent | src/petals/server/memory_cache.py:188-193 | One look at the event: the deadline of the thread fails the allocation, a clear event leaves it blocked, a set one is cleared before the next test. |
| MemoryCaches.MemoryCache.WaitUntilAvailable | src/petals/server/memory_cache.py:179-193 | The loop of the waiting thread ends with an admission while there is room, blocked without room or with the event clear, or with the time limit in a gap that is named, which leaves at most a thread and never the lock. |
| MemoryCaches.MemoryCache.TestOrWait | src/petals/server/memory_cache.py:150-156 | With the lock held: admitted while there is room, never admitted if larger than the cache, never left waiting without patience; a time limit that strikes before the test leaves the lock taken. |
| MemoryCaches.MemoryCache.WaitForFreeMemory | src/petals/server/memory_cache.py:136-167 | From the count to the admission, the refusal or the time limit, each with its cause; in quiet surroundings the sizes alone decide. |
| MemoryCaches.MemoryCache.ScheduleAlloc | src/petals/server/memory_cache.py:118-134 | Among any steps of others, an allocation that returns handles has them live and charged; one that fails leaves the counters those of the others. It is refused only without patience and room or if larger than the cache, and then holds no lock; it times out only in a gap where the time limit strikes, which tells what is left: the lock if it had been got and the coroutine not told, a thread acquiring it if one had begun. It still waits only while somebody else holds the lock or, holding it, without room or with the event clear. In quiet surroundings sizes and patience decide exactly. |
| MemoryCaches.MemoryCache.AllocateCache | src/petals/server/memory_cache.py:101-107 | Memory is held while the caller works and then given back: no handle stays live, nothing stays charged or enqueued; the outcomes have the same causes and leave the same behind and, in quiet surroundings, have the same exact condition. |
| MemoryCaches.MemoryCache.WaitingHasReason | src/petals/server/memory_cache.py:177-193 | As long as no wakeup was lost, a thread that is blocked although there is room is about to be woken. |
| MemoryCaches.MemoryCache.UseCache | src/petals/server/memory_cache.py:196-221 | Draining the pipe while handlers go on sending leaves exactly the live handles, a lookup succeeds if and only if all handles are live, and the warning about an unknown handle is unreachable. |
| MemoryCaches.MemoryCache.ReadMessage | src/petals/server/memory_cache.py:204-220 | One message read is the protocol step, and it never misses a handle. |
| Routing.SortSpans | src/petals/client/routing/sequence_info.py:57-67 | The per-block index lists for each block exactly the spans that hold it. |
| Routing.BuildInferenceGraph | src/petals/client/routing/sequence_manager.py:217-278 | The graph is built if and only if every block is covered and no server in the range announces an inference rate of zero, and it has exactly the edges described, no others. |
| Routing.AdvanceEdges | src/petals/client/routing/sequence_manager.py:271-276 | The edges along the blocks of one server inside the range, one per block held; it raises exactly if there is one and the rate is zero. |
| Routing.IdleServerStopsRouting | src/petals/client/routing/sequence_manager.py:273-276 | A server with rate zero beside one that serves everything: the range is covered, yet there is no graph, and without the idle server there is one. |
| Routing.PathExists | src/petals/client/routing/sequence_manager.py:177-199 | If every block is covered the edges form a path from start to end. |
| Routing.FoldedGrows | src/petals/client/routing/sequence_manager.py:204-209 | One more node of a path keeps the folded spans inside their servers and closed ones ending where a server ends. |
| Routing.GrownIsGood | src/petals/client/routing/sequence_manager.py:204-209 | At the end of the path the folded spans are a good route. |
| Routing.NothingRemoved | src/petals/client/routing/sequence_manager.py:211-213 | The filter for empty spans never removes anything from such a route. |
| Routing.MakeSequenceWithMinLatency | src/petals/client/routing/sequence_manager.py:199-215 | Every path folds into nonempty spans with different neighbours that tile the range, each inside its server and left only at its end or the end of the range. |
| Routing.MakeSequenceWithMaxThroughput | src/petals/client/routing/sequence_manager.py:302-324 | Random routes tile from the start and pass the end only in the last span, each span running to the end of its server; a covered range never fails. |
| ExpertDispatch.Dispatch.OneMoreExpert | src/petals/models/qwen3_moe/ops.py:111-116 | What a token has received grows by the share of the next expert. |
| ExpertDispatch.Dispatch.AllExperts | src/petals/models/qwen3_moe/ops.py:108-117 | After all experts every slot has been counted once. |
| ExpertDispatch.ScatterExpert | src/petals/models/qwen3_moe/ops.py:113-116 | One pass of an expert adds its share to each token that chose it and to no other. |
| ExpertDispatch.DispatchExperts | src/petals/models/qwen3_5_moe/ops.py:262-286 | Expert-major dispatch over the hit experts gives each token the weighted sum over its chosen slots. |
| CacheAccounting.CostIsAffine | src/petals/server/server.py:735-755 | The two measured lengths determine the cost of every length. |
| CacheAccounting.SubRunCostsLess | src/petals/server/server.py:747-752 | A run of the blocks of a server costs no more than all of them. |
| CacheAccounting.TokensLeftIsGreatest | src/petals/server/server.py:821-822 | The advertised number is the greatest whose price fits beside the fixed part into the bytes left, and 0 if the fixed part alone does not fit. |
| CacheAccounting.AdmissionIsExact | src/petals/server/server.py:821-822 | For a span of any number of visible blocks the token test of the client passes if and only if the fixed part and the rounded price of that many blocks fit into the bytes left. |
| CacheAccounting.ClientIsNeverMisledExactly | src/petals/client/routing/sequence_manager.py:292-300 | A client whose span is cut to some of the blocks never admits a session without memory if and only if those blocks cost no more per token than the average price says. |
| CacheAccounting.PaidSessionFits | src/petals/client/routing/sequence_manager.py:292-300 | If the visible blocks cost no more per token than that, an admitted session fits on any run of them. |
| CacheAccounting.UnpaidSessionFails | src/petals/client/routing/sequence_manager.py:292-300 | If they cost more, there is a session that is admitted and does not fit. |
| CacheAccounting.EveryClientIsSafeExactly | src/petals/server/server.py:754-759 | No client of any part of the server is misled if and only if no single block costs more per token than two entries at the price. |
| CacheAccounting.PartialClientIsMisled | src/petals/client/routing/sequence_manager.py:292-300 | With the default dimensions of the adapter, one linear block of four: 10000 tokens are admitted and do not fit. |
| CacheAccounting.AdmittedSessionFits | src/petals/client/routing/sequence_manager.py:292-300 | A client that sees all blocks of the server can allocate an admitted session on any run of them. |
| CacheAccounting.PriceCovers | src/petals/server/server.py:754-759 | The reserved budget covers the cost; for a session of at least one token it exceeds it by less than two bytes per block and token if and only if tokens cost anything at all. |
| SessionEvents.LookupNeverMisses | src/petals/server/handler.py:216-223 | The local queue lookup never misses. |
| SessionEvents.MappedMeansLiveOrEnding | src/petals/server/handler.py:199-214 | A handler maps a session to its owner only while it is live or its END event is still in the queue. |
| SessionEvents.StepKeepsInvariant | src/petals/server/handler.py:199-247 | Map and unread events together tell the story of each session, queues exist exactly for own live sessions, and pushes travel only to owners: every step keeps this. |
| SessionEvents.EveryRunKeepsInvariant | src/petals/server/handler.py:199-247 | It holds in every interleaving of the handler processes. |
| SessionEvents.PushReachesOwnerOrIsDropped | src/petals/server/handler.py:216-243 | In every run a push is appended to the queue of its session at the owner, or as an event to the events of the owner, and changes nothing else; or it is dropped by a handler that does not know the session. |
| SessionEvents.ReadingAPush | src/petals/server/handler.py:240-243 | A forwarded push that is read goes to the end of the queue of its session if that still lives, and nowhere else. |
| SessionEvents.StepMovesPushes | src/petals/server/handler.py:216-243 | What one step does to the queue of a live session and to its pushes on the way: a direct push ends the queue, a forwarded one the way, reading moves the first on the way to the end of the queue, taking removes the first of the queue, and nothing else touches them. |
| SessionEvents.PushesAreAccounted | src/petals/server/handler.py:216-243 | In every run, what was put into the queue of a live session is a merge of its direct pushes and of the forwarded ones that arrived, each kind in order, and the forwarded ones on the way follow: none is lost or doubled. |
| SessionEvents.StepKeepsOrderExactly | src/petals/server/handler.py:216-243 | A step spoils the order of acceptance if and only if it is a direct push that gets ahead of other requests on the way. |
| SessionEvents.RunKeepsOrderExactly | src/petals/server/handler.py:216-243 | Throughout a run a session gets its pushes in the order of acceptance if and only if no step does that. |
| SessionEvents.PushesMayOvertake | src/petals/server/handler.py:216-243 | A run of two handlers in which the second push comes first. |
| StepMerger.EachStepOnce | src/petals/server/handler.py:265-275 | Each step id that arrived is yielded exactly once. |
| StepMerger.OneMoreArrival | src/petals/server/handler.py:264-275 | One more arrival is yielded after all the earlier ones, exactly if its step is new. |
| StepMerger.FirstArrivalIsYielded | src/petals/server/handler.py:272-275 | The first request of a step is the one that is yielded. |
| StepMerger.YieldIfNew | src/petals/server/handler.py:264-275 | One turn of the loop yields a request exactly if it is the first of its step. |
| StepMerger.IterateInferenceSteps | src/petals/server/handler.py:249-307 | For every order of readiness: the next request of the client is taken exactly if it is there when a wait ends, otherwise the next push if that is, and the loop times out only when neither is. It yields the first arrivals, in order, up to the first request without tensors, and no step id twice. |
| SpanTables.ComputeSpans | src/petals/utils/dht.py:134-153 | The table built block by block holds for each peer the fold of its announcements. |
| SpanTables.SpanIsNonemptyExactly | src/petals/utils/dht.py:144-152 | Whatever is announced, a span begins at or after 0 and ends inside the model; it is nonempty if and only if the range announced with its first block is, or a later block in the same state lies behind its start. |
| SpanTables.RangeMayBeReversed | src/petals/utils/dht.py:148-150 | An announcement that gives a reversed span. |
| SpanTables.SpansAreProper | src/petals/utils/dht.py:134-153 | A peer has a span exactly if it announces some block in a high enough state; the span is in the highest state announced, and, for announcements inside their ranges, nonempty and covering every later block announced in it. |
| SpanTables.SteadyServerGetsItsRange | src/petals/utils/dht.py:148-152 | A server announcing one range for its blocks starts at its first block, counted from those at hand, or at 0, and gets exactly the end of its range, cut to those at hand, if and only if all its blocks after the first lie before it. |
| SpanTables.RangelessServerSpansItsBlocks | src/petals/utils/dht.py:144-152 | A server that announces no range gets everything from the first to the last of its blocks. |

## Left out

- InferenceSessions.InferenceSession.Step: not called after a step that raised past position 0, nor after one that raised at position 0 when the first stream was asked once, got no answer and was not replaced (a single attempt) and other rows follow; a rewind to position 0 comes first.
- InferenceSessions.InferenceSession.Rewind: setting the position of a session without streams forward is not modelled; streams opened later would start at 0 and fail the position test.
- InferenceSessions.InferenceSession.PassBlock: the number of retries is finite; with an unlimited number, every call that returns is one of these.
- ServerSessions.ServerSession.Serve: says nothing about the answer from a start position beyond the cached rows; `StepIsRightExactlyWhenCached` does for a sliced cache. The client's loops run on this value-level answer and not on the heap of the caches.
- SpanServers.SpanServer.Infer: promises no rows for a position beyond what is cached, where a linear block raises and a sliced cache answers from leftovers.
- SessionCaches.HybridCache.InferenceWithCache: called with at least one row that fits into the allocated length, which src/petals/server/block_functions.py:193-211 ensures.
- KvCaches.KvCache.InferenceWithCache: the same bounds; masked scores count as not attended, where the code uses the smallest finite number before the softmax.
- GradientChains.RunRpcBackward: either all blocks of the chain have prompts or none; the code says that mixed prompts are not supported.
- SequentialAutograd.SequentialBackward: consumes one list of spans once; splitting a batch by MAX_TOKENS_IN_BATCH and a second backward pass over the same lists are not modelled.
- SpeculativeDecoding.Sample: batch size one and no logits processors, the case in which the code accepts tokens one by one; end-of-sequence padding is not modelled. That nothing fails is assumed of each iteration as a whole; `InferenceSession.Step` has the finer conditions.
- Routing.MakeSequenceWithMinLatency: holds for every path of the graph; that the path found is the cheapest is the business of a library that is not part of this model, so edge delays, round-trip times and the alloc_delay penalty are left out.
- Routing.SortSpans: an end before block 0, which a sub-sequence may compute for a span that holds none of its blocks, is taken as 0.
- Routing.BuildInferenceGraph: the span index is the one of the last update; bans, changed announcements and pings between updates are not modelled.
- CacheCaps.CapHoldsWhenTestsAreAlone: assumes that no test of a running coroutine falls between another test and its charge.
- CacheProtocol.EveryRunKeepsInvariant: the wrap-around of 64-bit counters is not modelled.
- CacheWakeups.WakeupIsLost: a waiter whose event was cleared between its wakeup and its return may also be told by the event library that it timed out; this is not modelled.
- MemoryCaches.MemoryCache.ScheduleAlloc: the account of a wait covers any finite number of looks at the lock and the event and ends with `StillWaiting`; that a wait ends is not promised by the code. The steps of the thread it leaves behind are those of `CacheProtocol`.
- CacheAccounting.AdmittedSessionFits: batch size one, a session of at least one token and a server that advertises its tokens left; the sizes are those of one device.
- StepMerger.IterateInferenceSteps: a client stream that ends with an exception and the None that closes a session queue are not modelled.
- Floating-point rounding, data types, devices, CUDA graphs, tensor parallelism, quantization and LoRA.
- The projections, norms, gates, rotary tables and MLPs of the blocks: they are arbitrary row-wise functions.
- Batches of more than one sequence: rows of a batch never mix, so one is enough.
- Reordering by hypo_ids, and deep prompts inside inference sessions.
- The DHT, P2P transport, serialization, compression, pings, wall-clock time-outs and back-off: they appear as arbitrary success, failure or delay.
- Pushing from server to server started by this client; only the handling of pushes on a server is modelled.
- Liveness of a repair after position 0: the code does not provide it.
- Task priorities, statistics, logging, command line, downloads, disk space and throughput measurement.
