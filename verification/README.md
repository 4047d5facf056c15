# Freecell Solver: model and proofs

A Dafny model of the parts of Freecell Solver and of FreeCell Pro whose correctness does not show
from reading one function, with proofs of what they promise. The configuration is one deck,
alternate colours, any card to an empty column, and the solvers without caches; the numbers of
columns, freecells, threads and batch items are symbolic unless a bound needs them.

The chain behind the exhaustive solver's verdict:

- `Positions`, `HornePrune`, `Potential`, `Boards`: the rules, the greedy "safe to foundation" prune as a
  confluent fixpoint that never loses a solution (a simulation between a position and a later one whose
  columns are prefixes), and the count of irreversible moves as the rise of a potential.
- `DerivedStates`, `Placement`, `GeneratedOnce`: the move generator, exact, sufficient up to placement, without
  duplicates, and reversible exactly where it says so.
- `VarBase`, `Debondt`, `DebondtRoundTrip`, `DebondtLayout`, `DeltaStater`, `Keys`: the Debondt codec, its round
  trip and layout, and keys that are equal exactly for positions that differ by placement.
- `BitPacked`, `Arranging`, `DeltaBits`, `DeltaBitsRoundTrip`, `DeltaBitsLayout`, `BitStater`: the older bit-packed
  codec.
- `Search`, `Workers`, `WorkerOrder`, `WorkerTermination`, `DbmSolver`, `SolverInstance`: the worker protocol over
  all interleavings, the order of its queue, its limits, how long its runs can be, and the single-thread program
  with total correctness and a shortest solution.
- `DepthWorkers`, `DepthOrder`, `DepthTermination`, `DepthSolver`: the batch protocol with its condition variable,
  depth after depth, with the order of its queues, its limits and how long its runs can be.
- `Sweep`, `SweepNodes`, `DepthSweep`: reference counts and the sweep of drained depths over all runs of that
  protocol, and the nodes that hold the records, used again when vacant.

Beside it:

- `Sequences`, `Replay`: sequence moves as runs of single-card moves, and the rewriting of a solution for
  a game that sends safe cards up by itself.
- `PositionsByRank`, `FreecellMoves`: the multi-card moves that park the cards over a sequence, with the table by
  which new parents are found and the sort that restores the order.
- `Fcplay`: moving a sequence by hand in FreeCell Pro, by storing and playing out its cards.
- `RedBlack`, `KazHeap`, `KazTree`, `KazDelete`, `KazDict`: the red-black tree with parent links, a sentinel
  and a recycle bin, as linked nodes that show a pure tree seen from a path (a zipper).
- `LruCache`: the cache as a doubly linked list and a tree, and the most recent keys it holds.
- `HashTable`: the chained hash table with growth, filtered deletion and a list of vacant items.

`Cards`, `Numbers`, `Shuffles` and `SolverCommon` hold what several of these share.

The cache follows its pointers: with a capacity of one the insertion would follow a NULL link, so the
capacity is at least two. The bit writer and reader come from a library outside the repository; they are
modelled as runs of bits. `FCS_BREAK_BACKWARD_COMPAT_2`
is off, so of the move functions only the one for whole sequences sorts what it finds.

## Proof notes

Every method that changes state is proved against a function of its old state or a relation that fixes
the new one; lemmas then say what that function or relation guarantees. Predicates written as a
quantifier over one value with an explicit trigger, or split into one predicate for each index, keep the
verifier from unfolding them where they are only passed along.

## Model

| member | source | states |
|---|---|---|
| `Positions.MoveKeepsDeck` | fc-solve/source/dbm_calc_derived.h:326-548 | Conservation: a legal single-card move keeps every card of the deck in exactly one place, on its foundation or once in play, and keeps the number of columns and freecells |
| `Positions.UniqueInColumns` | fc-solve/source/dbm_calc_derived.h:326-548 | With a full deck no card sits at two places of the tableau |
| `Positions.ExposedOnce` | fc-solve/source/dbm_calc_derived.h:326-548 | With a full deck two different places expose two different cards |
| `Positions.SolvedMeansCleared` | fc-solve/source/dbm_calc_derived.h:313-324 | With a full deck the foundations are complete if and only if no card is left in a column or freecell |
| `HornePrune.SafeCommute` | fc-solve/source/calc_foundation.h:12-41 | Two safe moves can be made in either order: each stays safe after the other, and both orders give the same position |
| `HornePrune.PruneAnyOrder` | fc-solve/source/dbm_calc_derived.h:183-245 | Confluence: whichever safe card goes up first, the pruned position is the same |
| `HornePrune.MaximalRunIsPrune` | fc-solve/source/dbm_calc_derived.h:183-245 | Every run of safe moves that cannot be extended ends in the pruned position, however the cards were chosen |
| `HornePrune.SafeMoveKeepsAhead` | fc-solve/source/dbm_calc_derived.h:183-245 | Sending a safe card up keeps the position ahead of the one it is compared with: its columns are prefixes, and every hidden card is home and settled |
| `HornePrune.AnswerKeepsAhead` | fc-solve/source/dbm_calc_derived.h:326-548 | Simulation: every legal move of a position is answered by the position ahead of it (with the same move, with sending the card home, or with nothing), which stays ahead |
| `HornePrune.AheadSolves` | fc-solve/source/dbm_calc_derived.h:171-292 | Any solution of a position gives one, at most as long, of every position ahead of it |
| `HornePrune.PruneKeepsSolvable` | fc-solve/source/dbm_calc_derived.h:171-292 | A position is solvable if and only if its pruned image is |
| `HornePrune.SolverRule` | fc-solve/source/calc_foundation.h:12-41 | The rank comparisons of the solver mean: a card goes up safely if and only if it is next on its foundation, and every card that can be put on it, and every card that can be put on such a card, is home or next |
| `HornePrune.GameRule` | ext-ifaces/FC-Pro/fc_pro_iface.c:345-422 | The same for the rule of the game, where all of those cards must be home |
| `Boards.Board.CalcFoundationToPutCardOn` | fc-solve/source/calc_foundation.h:2-42 | Returns the suit of the card if it is next on its foundation and every card that could wait for it, directly or on a card that does, is home or next; otherwise nothing |
| `Boards.Board.HornePrune` | fc-solve/source/dbm_calc_derived.h:171-292 | The sweeps over columns and freecells end in the pruned position, and the count returned is the rise of the potential |
| `Potential.MoveRaisesPhi` | fc-solve/source/dbm_calc_derived.h:113-132 | The irreversible-move cost of a legal move is exactly the rise of a potential: cards home less the adjacencies in the columns that are not parent and child |
| `Potential.RunCostIsPhi` | fc-solve/source/dbm_calc_derived.h:171-292 | The costs counted along a run of safe moves add up to the rise of the potential |
| `DerivedStates.GeneratedMovesExact` | fc-solve/source/dbm_calc_derived.h:326-548 | The list built by the loops holds the moves of the generator and no others |
| `GeneratedOnce.ListedExactly` | fc-solve/source/dbm_calc_derived.h:326-548 | The moves listed are the legal ones home, onto a parent, from a column to the last vacant freecell, and to the last empty column unless the card is the only one of its column |
| `GeneratedOnce.ListedInOrder` | fc-solve/source/dbm_calc_derived.h:326-548 | The list is in the reverse of the order in which the moves are made: home, onto a parent, to the empty column, to a freecell, each stage from the columns first, by index of source and destination |
| `GeneratedOnce.DerivedDiffer` | fc-solve/source/dbm_calc_derived.h:326-548 | Nothing is derived twice: with a full deck no two moves of the list lead to positions that differ only by placement, and none leads back to the position up to placement |
| `DerivedStates.CalcDerivedStates` | fc-solve/source/dbm_calc_derived.h:326-548 | For an unsolved position the loops list, in the order of the code, the position after each generated move (pruned on request) with its irreversible-move count; a solved position is reported instead |
| `DerivedStates.DerivedBound` | fc-solve/source/dbm_calc_derived.h:326-548 | A bound on how many states one position derives, from the numbers of its columns and freecells |
| `Placement.AlikeSolves` | fc-solve/source/dbm_calc_derived.h:326-548 | Positions that differ only in which column or freecell holds what have solutions of the same length |
| `Placement.GeneratedOrIdle` | fc-solve/source/dbm_calc_derived.h:326-548 | Every legal move is, up to placement, a generated one or no change at all |
| `Placement.SolvableIffGenerated` | fc-solve/source/dbm_calc_derived.h:326-548 | A position can be solved by generated moves if and only if it can be solved by legal moves |
| `Search.PruneKeepsGeneratedSolvable` | fc-solve/source/dbm_calc_derived.h:171-292 | The generated moves solve a position if and only if they solve its pruned image |
| `Placement.UndoRestores` | fc-solve/source/dbm_calc_derived.h:164-168 | A generated move that counts no irreversible move is undone by another generated move, up to placement |
| `Placement.ReversibleIffUndoable` | fc-solve/source/dbm_calc_derived.h:164-168 | A generated move counts as reversible if and only if some run of legal moves leads back to the position, up to placement |
| `VarBase.UnpackPack` | fc-solve/source/var_base_reader.h:34-70 | Digits written in their bases are read back |
| `VarBase.PackBound` | fc-solve/source/var_base_writer.h:40-46 | The packed number is below the product of the bases |
| `VarBase.DigitAt` | fc-solve/source/var_base_writer.h:40-46 | Each digit is the packed number divided by the product of the bases written before it, modulo its own base: the first one written is the lowest |
| `VarBase.Writer.Write` | fc-solve/source/var_base_writer.h:40-46 | Writing a digit appends it to the digits the packed number stands for |
| `VarBase.Writer.GetData` | fc-solve/source/var_base_writer.h:48-80 | A number that fits the cleared buffer is written as its bytes, lowest first, the unwritten ones zero |
| `VarBase.ByteAt` | fc-solve/source/var_base_writer.h:48-80 | Byte k is the number divided by 256^k, modulo 256 |
| `Debondt.OptUnique` | fc-solve/source/delta_states_debondt_impl.h:98-138 | Each card of a full-deck position has exactly one option: topmost, in a freecell, in its original place, or on one of the two cards that can carry it |
| `DebondtLayout.DigitOf` | fc-solve/source/delta_states_debondt_impl.h:20-31 | The first four digits are the foundations; digit 4 * (rank - 1) + suit of a card from rank two on is 0 if it is home or at the bottom of a column, 1 in a freecell, 2 on a card that is not its parent, 3 or 4 on a parent of the lower or higher two suits, each if and only if |
| `DebondtRoundTrip.RoundTrip` | fc-solve/source/delta_states_debondt_impl.h:330-529 | Decoding the digits of a position that descends from the deal gives it back: the same foundations, the same freecell cards and the same columns up to placement |
| `DebondtRoundTrip.SameDigitsIffAlike` | fc-solve/source/delta_states_debondt_impl.h:146-291 | Two positions that descend from the deal have the same digits if and only if they differ only by placement |
| `DebondtLayout.DecodedPlaces` | fc-solve/source/delta_states_debondt_impl.h:399-529 | Decoding leaves each column of the deal whose first card is still at the bottom of one in its place, fills the others from the first one on with the highest card first, and the freecells with the lowest card first |
| `DeltaStater.Stater.EncodeComposite` | fc-solve/source/delta_states_debondt_impl.h:146-291 | The loops over foundations, freecells, columns and cards write exactly the digits of the position |
| `DeltaStater.Stater.DecodeInto` | fc-solve/source/delta_states_debondt_impl.h:330-529 | The decoding loops rebuild exactly the position that the digits stand for |
| `DeltaStater.Stater.FillColumnWithDescendentCards` | fc-solve/source/delta_states_debondt_impl.h:293-328 | Extends a column by the whole chain of cards whose options place them on it |
| `Keys.ProductFitsBuffer` | fc-solve/source/delta_states_debondt_impl.h:20-35 | The product of all bases is 14^4 * 5^44 * 3^4, which is below 2^128, so every key fits the 16-byte buffer |
| `Keys.KeyRoundTrip` | fc-solve/source/delta_states_debondt_impl.h:532-557 | Decoding the bytes of a key gives the encoded position up to placement |
| `Keys.SameKeyIffAlike` | fc-solve/source/delta_states_debondt_impl.h:546-557 | Two positions that descend from the deal have the same key if and only if they differ only by placement |
| `Keys.EncodeIntoBuffer` | fc-solve/source/delta_states_debondt_impl.h:546-557 | The 16-byte key written is the packed digits of the position, byte by byte |
| `Keys.DecodeIntoState` | fc-solve/source/delta_states_debondt_impl.h:532-544 | The position read from the key of a position is the decoding of that key |
| `BitPacked.BitsRoundTrip` | fc-solve/source/delta_states_impl.h:85-134 | A number below 2^n is read back from its n bits |
| `DeltaBits.ReachableKeepsDeal` | fc-solve/source/delta_states_impl.h:15-28 | In every position reachable from the deal the cards of each column up to its last non-parent adjacency are those of the deal in the same column |
| `DeltaBitsRoundTrip.ColumnRoundTrip` | fc-solve/source/delta_states_impl.h:85-134 | The bits of one column, whatever follows them, decode to that column |
| `DeltaBitsRoundTrip.HomeIsMissing` | fc-solve/source/delta_states_impl.h:294-303 | The foundations are the ranks below the lowest card of each suit in play |
| `DeltaBitsRoundTrip.RoundTrip` | fc-solve/source/delta_states_impl.h:291-375 | Decoding the bits of a reachable position, whatever follows them, gives its foundations, its freecells in order of rank and suit, and its columns with only the empty and the wholly rebuilt ones permuted |
| `DeltaBitsRoundTrip.SameBitsIffSamePlaces` | fc-solve/source/delta_states_impl.h:171-288 | Two reachable positions have the same bits if and only if they differ only in the order of freecells and of empty or wholly rebuilt columns |
| `DeltaBitsRoundTrip.BitsFitBuffer` | fc-solve/source/delta_states.h:33-41 | With four freecells, eight columns and at most seven dealt cards in each, the bits fit the 24-byte record with its length byte |
| `DeltaBitsLayout.WidthIsLeast` | fc-solve/source/delta_states_impl.h:30-65 | The width for the count of dealt cards is the least that holds it for every column of the deal |
| `DeltaBitsLayout.ColumnLayout` | fc-solve/source/delta_states_impl.h:85-134 | The bits of a column: how many cards it still starts with up to the last one that does not lie on a parent, how many follow in four bits, six bits for the bottom card if none is dealt, and one bit for each further card, set for the higher two suits |
| `DeltaBitsLayout.EncodedLayout` | fc-solve/source/delta_states_impl.h:214-288 | Six bits for each freecell in the order written, zero for a vacant one and 4 * rank + suit for a card, then the columns one after the other |
| `DeltaBitsLayout.WrittenOrder` | fc-solve/source/delta_states_impl.h:136-288 | Vacant freecells are written first and then the cards by rank and suit; columns with dealt cards keep their places, and in the other places come the empty columns and then the rest by bottom card |
| `BitStater.GetColumnOrigNumCards` | fc-solve/source/delta_states_impl.h:15-28 | The loop finds the count of cards up to the last one that does not lie on a parent |
| `BitStater.Stater.constructor` | fc-solve/source/delta_states_impl.h:30-65 | The width computed is the one that holds the greatest count of original cards in the deal |
| `BitStater.GetColumnEncoding` | fc-solve/source/delta_states_impl.h:85-134 | The type of a column and exactly its bits |
| `BitStater.GetFreecellsEncoding` | fc-solve/source/delta_states_impl.h:136-169 | The selection sort writes the freecells in sorted order, nothing lost |
| `BitStater.PromoteEmptyCols` | fc-solve/source/delta_states_impl.h:171-212 | The in-place swaps permute the indexes, leave columns with dealt cards in place, and put every empty column before every wholly rebuilt one |
| `BitStater.SortByBase` | fc-solve/source/delta_states_impl.h:246-263 | The insertion sort orders the rebuilt columns by their bottom card and keeps them all |
| `BitStater.OrderColumns` | fc-solve/source/delta_states_impl.h:214-271 | The order written does not depend on where the empty and rebuilt columns stood |
| `BitStater.Stater.EncodeComposite` | fc-solve/source/delta_states_impl.h:214-288 | Writes exactly the bits of the position |
| `BitStater.Stater.DecodeInto` | fc-solve/source/delta_states_impl.h:291-375 | Reads exactly the position that the bits decode to, foundations included |
| `Search.NextIsGood` | fc-solve/source/dbm_solver.c:136-217 | The pruned position after a legal move still descends from the deal, so its key can be decoded |
| `Search.ChildIsMove` | fc-solve/source/dbm_solver.c:136-217 | Every derived key is the key of the pruned position after a generated move |
| `Search.ClosedMeansUnsolvable` | fc-solve/source/dbm_solver.c:429-520 | If a set of keys holds the first key, no solved position, and everything derived from its members, the deal has no solution |
| `Search.ChildSolvesParent` | fc-solve/source/dbm_solver.c:429-520 | A solvable derived key makes its parent solvable |
| `Workers.StepKeepsInv` | fc-solve/source/dbm_solver.c:109-222 | Each critical section of each worker keeps the invariant of the protocol: exact counters, a valid queue, parents stored before children, and every stored record queued, held or expanded |
| `Workers.RunKeepsInv` | fc-solve/source/dbm_solver.c:109-222 | The invariant holds after every interleaving of any number of workers |
| `Workers.Conservation` | fc-solve/source/dbm_procs.h:366-381 | Along every run processed + queued = stored, each key is stored once, and the in-flight count is never negative |
| `Workers.DoneIsClosed` | fc-solve/source/dbm_solver.c:136-217 | When all workers have left and none called the search off, the queue is empty, nothing is in flight, and every record is expanded |
| `Workers.NoDeadlock` | fc-solve/source/dbm_solver.c:136-217 | A worker that has not left can always take a step |
| `Workers.TraceIsTrail` | fc-solve/source/dbm_procs.h:255-281 | The trace of a record leads from it by parents to the first record |
| `WorkerOrder.TakenInOrder` | fc-solve/source/offloading_queue.h:91-113 | In every interleaving the queue holds exactly the records not taken yet, in the order they were stored, so records are taken in that order |
| `WorkerOrder.RunKeepsLimits` | fc-solve/source/dbm_procs.h:366-381 | In every interleaving a search is called off for its limits only when one of them was reached |
| `WorkerOrder.StepKeepsLimits` | fc-solve/source/dbm_procs.h:366-381 | Taking an item raises the flag if and only if a limit is reached with it |
| `WorkerOrder.TraceIsShortest` | fc-solve/source/dbm_solver.c:109-222 | With a single thread no way of derived keys from the first key to a solved one is shorter than the one reported |
| `Workers.RefcountNeverWraps` | fc-solve/source/delta_states.h:106-160 | In every run the 8-bit reference count of a record is the number of records that name it as parent, if no key derives 256 keys |
| `DbmSolver.EveryRunIsSound` | fc-solve/source/dbm_solver.c:396-520 | In every interleaving: if all workers leave without a termination flag the deal is unsolvable, the queue empty and nothing in flight; if a solution is flagged the deal is solvable |
| `DbmSolver.EveryRunInOrder` | fc-solve/source/dbm_solver.c:136-165 | The order of the queue for the keys of a deal, in every interleaving |
| `DbmSolver.TraceHasMoves` | fc-solve/source/dbm_procs.h:255-281 | Between two positions of the trace there is always a generated move, so the printed solution can be rebuilt |
| `WorkerTermination.RunsEnd` | fc-solve/source/dbm_solver.c:136-217 | In every interleaving the number of steps other than polls of an empty queue is bounded by the number of keys and threads |
| `WorkerTermination.CanFinish` | fc-solve/source/dbm_solver.c:136-217 | Wherever the threads are, they can still bring the search to its end |
| `DbmSolver.EveryRunEnds` | fc-solve/source/dbm_solver.c:109-222 | The same for the keys of a deal, of which there are at most 2^128 |
| `DbmSolver.VerdictInReach` | fc-solve/source/dbm_solver.c:396-520 | Every run can be continued until all threads have left; the verdict is then right, and it is Intractable only if a limit was reached |
| `DbmSolver.SearchDecides` | fc-solve/source/dbm_solver.c:396-520 | With limits above the number of keys every run can be continued until all threads have left with the deal decided: a solution flagged if and only if the deal is solvable |
| `DbmSolver.RefcountsAreExact` | fc-solve/source/dbm_kaztree.c:80-103 | With eight columns and at most twelve freecells the reference counts are exact in every run |
| `SolverInstance.Instance.InsertKeyValue` | fc-solve/source/dbm_kaztree.c:44-103 | Stores a key if and only if it is absent, and then counts it at its parent |
| `SolverInstance.Instance.TakeItem` | fc-solve/source/dbm_solver.c:136-165 | The critical section at the top of the loop is the step of the protocol: it gives the previous item back, takes the first one of the queue, and sets the flag at the limits |
| `SolverInstance.Instance.CheckMultipleKeys` | fc-solve/source/dbm_procs.h:153-211 | Inserts all derived keys as the protocol does |
| `SolverInstance.HandleItem` | fc-solve/source/dbm_solver.c:176-217 | Decoding a key, deriving, pruning and encoding gives the derived keys, or finds the position solved |
| `SolverInstance.CalcTrace` | fc-solve/source/dbm_procs.h:255-281 | The loop over the parents returns the keys from the solved record back to the first one |
| `SolverInstance.RunSolverThread` | fc-solve/source/dbm_solver.c:109-222 | The loop of a single worker is a run of the protocol that ends |
| `SolverInstance.Solve` | fc-solve/source/dbm_solver.c:396-520 | Total correctness with one thread: success means solvable, with a shortest way of derived keys back to the first one; "Could not solve" means unsolvable; Intractable means that a limit was reached; and the search ends |
| `DepthWorkers.DeepStepKeepsInv` | fc-solve/source/depth_dbm_solver.c:119-225 | Each step of a batch worker, a wake-up without signal and the descent to the next depth keep the invariant |
| `DepthWorkers.WaiterHasHolder` | fc-solve/source/depth_dbm_solver.c:119-225 | No lost wake-up: while a worker waits on the monitor, some worker that neither waits nor has left holds an unreturned batch |
| `DepthWorkers.NoDeepDeadlock` | fc-solve/source/depth_dbm_solver.c:119-225 | Until all workers have left, one that neither waits nor has left can take a step |
| `DepthWorkers.DepthIsDrained` | fc-solve/source/depth_dbm_solver.c:119-225 | When all leave a depth without termination, its queue and those before it are empty and every record there is expanded |
| `DepthWorkers.OneDepthPerKey` | fc-solve/source/depth_dbm_solver.c:235-264 | A key is stored once and in one depth collection only, the one of its potential |
| `DepthOrder.RunInOrder` | fc-solve/source/depth_dbm_solver.c:119-225 | In every run the queue of each depth holds exactly its records not taken yet, in the order they were stored, and the search is called off for its limits only when one was reached |
| `DepthOrder.BatchIsNext` | fc-solve/source/depth_dbm_solver.c:119-225 | A batch is the next records of its depth in order, as many as fit or all that are left |
| `DepthOrder.BatchAtLimit` | fc-solve/source/dbm_procs.h:366-381 | Taking a batch raises the flag if and only if a limit is reached with it |
| `DepthSolver.CountIsPhi` | fc-solve/source/depth_dbm_solver.c:26-39 | The irreversible-move count of a derived key is the rise of the potential, so a depth is the same on every path |
| `DepthSolver.PhiRange` | fc-solve/source/depth_dbm_solver.c:26-39 | The potential of a full-deck position lies between -51 and 52 |
| `DepthSolver.DepthBelowMax` | fc-solve/source/depth_dbm_solver.c:26-39 | Every depth is below 104, which is MAX_FCC_DEPTH |
| `DepthSolver.EveryDeepRunIsSound` | fc-solve/source/depth_dbm_solver.c:266-291 | In every run: reaching the last depth without termination means the deal is unsolvable, and a flagged solution means it is solvable |
| `DepthSolver.EveryDeepRunInOrder` | fc-solve/source/depth_dbm_solver.c:266-291 | The order of the queues and the limits for the keys of a deal, in every run |
| `DepthTermination.StepCounts` | fc-solve/source/dbm_procs.h:366-381 | Each step of the batch protocol keeps the counters: processed + queued = stored |
| `DepthTermination.DeepRunsEnd` | fc-solve/source/depth_dbm_solver.c:119-225 | In every run the number of steps is bounded by the numbers of depths, keys and threads and twice the number of spurious wake-ups, and the counters agree with the collections |
| `DepthTermination.DeepFinish` | fc-solve/source/depth_dbm_solver.c:266-291 | Every run can be continued to the end of the search without spurious wake-ups |
| `DepthSolver.EveryDeepRunEnds` | fc-solve/source/depth_dbm_solver.c:266-291 | The same bound for the keys of a deal, of which there are at most 2^128 |
| `DepthSolver.DeepVerdictInReach` | fc-solve/source/depth_dbm_solver.c:266-291 | Every run can be continued to a verdict without spurious wake-ups; the verdict is right, and it is Intractable only if a limit was reached |
| `DepthSolver.DeepSearchDecides` | fc-solve/source/depth_dbm_solver.c:266-291 | With limits above the number of keys every run can be continued to the end with the deal decided: a solution flagged if and only if the deal is solvable |
| `Sweep.SweptOnce` | fc-solve/source/dbm_procs.h:283-338 | The records taken out do not depend on the order of the sweep |
| `Sweep.LiveTrace` | fc-solve/source/dbm_procs.h:255-338 | With exact counts the parents of a live record are live up to the first |
| `Sweep.SweepRowsOk` | fc-solve/source/dbm_procs.h:283-338 | After a sweep the counts are exact, and a record is gone exactly if it has no live child and was swept over or lost one |
| `SweepNodes.NoVacantParent` | fc-solve/source/dbm_procs.h:304-322 | No node of a live record names a vacant node as its parent, so a vacant node can be used again |
| `SweepNodes.Records.Insert` | fc-solve/source/fcs-libavl/rb.c:174-190 | A record gets the first vacant node, or a new one if none is vacant; seen from the records nothing else changes, and all counts stay exact |
| `SweepNodes.Records.MarkAndSweepOldStates` | fc-solve/source/dbm_procs.h:283-338 | The loop with its walk up the parents leaves exactly the outcome of the sweep, and each node holds one live record or is vacant |
| `DepthSweep.InsertKeepsTable` | fc-solve/source/depth_dbm_solver.c:235-264 | Storing a derived key keeps every record listed once with an exact count, which never wraps its byte |
| `DepthSweep.SweepKeepsTable` | fc-solve/source/depth_dbm_solver.c:278-282 | Sweeping the drained depth takes out records of this depth and earlier ones only |
| `DepthSweep.EveryRunSweeps` | fc-solve/source/depth_dbm_solver.c:266-291 | Every run of the batch protocol can be taken with the reference counts and sweeps |
| `DepthSweep.EverySweepIsSafe` | fc-solve/source/depth_dbm_solver.c:266-291 | After any number of sweeps in any run: a record is live if and only if its depth is not drained or a live record names it as parent, so nothing needed is gone and nothing else stays; counts are exact and below 256; and the reported solution has a trace of live records |
| `DepthSolver.DealSweepsSafely` | fc-solve/source/depth_dbm_solver.c:266-291 | The same for every deal with eight columns and at most twelve freecells |
| `Sequences.SequenceMoveIsPlay` | fc-solve/source/meta_move_funcs_helpers.h:20-32 | A sequence no longer than (vacant freecells + 1) * 2^(other vacant columns) can be moved card by card |
| `Sequences.CapacityIs` | fc-solve/source/meta_move_funcs_helpers.h:20-32 | The capacity is the number of vacant freecells and one, doubled for each empty column other than the destination |
| `Sequences.PlayKeepsDeck` | ext-ifaces/FC-Pro/fc_pro_iface.c:263-592 | A sequence move keeps every card of the deck in one place |
| `Replay.AheadCarriesMore` | ext-ifaces/FC-Pro/fc_pro_iface.c:523-592 | The position with more cards home can carry at least as long a sequence |
| `Replay.Replayer.MoveSafeCards` | ext-ifaces/FC-Pro/fc_pro_iface.c:345-422 | The loop that sends safe cards up ends in the pruned position and keeps the virtual lengths right |
| `Replay.FollowedStaysGood` | ext-ifaces/FC-Pro/fc_pro_iface.c:424-592 | For each legal move of the solver the replay can follow, none of its assertions fails, and real columns stay prefixes of the virtual ones |
| `Replay.MovesProcessedGen` | ext-ifaces/FC-Pro/fc_pro_iface.c:263-592 | For every legal solution the moves emitted are legal one by one when safe cards go up automatically before each, and end solved |
| `Replay.IsComplete` | ext-ifaces/FC-Pro/fc_pro_iface.c:303-345 | The 52-card check passes exactly when every card is present |
| `FreecellMoves.PlayAllIsPlay` | fc-solve/source/freecell.c:610-693 | A list of recorded moves that can be replayed is a run of legal single-card moves |
| `FreecellMoves.CapacityOf` | fc-solve/source/meta_move_funcs_helpers.h:20-32 | The maximal sequence length computed is the true capacity, with the destination column left out if it is empty |
| `FreecellMoves.NewState.EmptyTwoCols` | fc-solve/source/freecell.c:165-274 | Parking the cards over two columns always finds a place, and records exactly the moves made: the cards are taken column by column from the last one back, the r-th one to the r-th vacant freecell, and those that find none in turn to the empty columns |
| `FreecellMoves.Relocate` | fc-solve/source/freecell.c:610-693 | The state built is the result of replaying its recorded moves, each legal, and has the sequence on its new parent |
| `FreecellMoves.RelocatesIff` | fc-solve/source/freecell.c:583-605 | The check is exact: a sequence can be relocated onto an open parent if and only if the cards in the way are no more than the vacant freecells and columns, and in every position with these parked, freecells first, the move of the sequence is legal |
| `PositionsByRank.CalcPositionsByRank` | fc-solve/source/scans.h:41-123 | The table has the place of a card exactly if no child of it lies on it, and nothing else |
| `FreecellMoves.OntoParents` | fc-solve/source/freecell.c:641-689 | The two entries of the table give every parent that can take the cards, in the order of the suits, and no other |
| `FreecellMoves.SortDerivedStates` | fc-solve/source/freecell.c:50-67 | The insertion sort leaves the same derived states in the order of their numbers |
| `FreecellMoves.MoveStackCardsToDifferentStacks` | fc-solve/source/freecell.c:610-693 | Lists exactly the whole sequences that can be played to an open parent once the cards in the way are parked, each once with its replayable moves, in the order of the plain nested loops over sequences and parents, though they are found by the table of positions |
| `FreecellMoves.MoveCardsToADifferentParent` | fc-solve/source/freecell.c:958-1082 | Lists exactly the parts of sequences at the end of a column that can be played to another open parent once the cards in the way are parked, each once with its replayable moves, by column, first card and suit of the new parent |
| `FreecellMoves.MoveSequencesToFreeStacks` | fc-solve/source/freecell.c:695-809 | Lists exactly the sequences that go to a free column, from the first column and the top on, each once with its replayable moves: one at the end of its column whole, of one with cards over it the longest end that can be played when these are parked |
| `FreecellMoves.ToFreeStackIff` | fc-solve/source/freecell.c:714-788 | The arithmetic is exact: a sequence at the end of its column goes if and only if it can be played whole to an empty column and is not all of its own; of one with cards over it goes the longest end that can be played in every position with these parked, freecells first |
| `Fcplay.StoreOneOk` | ext-ifaces/FC-Pro/Fcplay.c:1381-1483 | While fewer cards are stored than the capacity allows, storing the next one never fails |
| `Fcplay.StoreAllOk` | ext-ifaces/FC-Pro/Fcplay.c:587-703 | A run of at most (F + 1) * (C + 1) cards, with F vacant freecells and C empty columns, is stored, its last card moved and the rest played out to the whole run on the destination |
| `Fcplay.StoringNeeds` | ext-ifaces/FC-Pro/Fcplay.c:1381-1483 | The bound is exact: all cards of a run but the last can be stored if and only if there are at most (F + 1) * (C + 1) of them |
| `Fcplay.PlayOutAll` | ext-ifaces/FC-Pro/Fcplay.c:1485-1525 | Playing the log out backwards rebuilds the run in its order and leaves everything else as it was |
| `Fcplay.LogFits` | ext-ifaces/FC-Pro/Fcplay.c:1381-1483 | The log of stored cards never has more than 24 of its 50 entries |
| `Fcplay.Table.StoreCard` | ext-ifaces/FC-Pro/Fcplay.c:1381-1483 | Fails exactly when there is no place for the card |
| `Fcplay.Table.UnstoreCards` | ext-ifaces/FC-Pro/Fcplay.c:1485-1525 | Plays out the log as specified |
| `Fcplay.Table.MoveSequence` | ext-ifaces/FC-Pro/Fcplay.c:587-703 | Storing, moving and unstoring move the whole sequence |
| `Fcplay.Table.MoveColToFullCol` | ext-ifaces/FC-Pro/Fcplay.c:520-703 | Moves if and only if some run of at most (F + 1) * (C + 1) cards fits the destination, and then moves it whole |
| `RedBlack.RotateLeftItems` | fc-solve/source/kaz_tree.c:91-121 | A rotation keeps the keys in order |
| `RedBlack.CheckerAccepts` | fc-solve/source/kaz_tree.c:208-239 | The rules kept are those of the checker in the code: a tree obeys them if and only if its root is black and the checker returns a black height |
| `RedBlack.RedBlackIsShallow` | fc-solve/source/kaz_tree.c:208-239 | No way down a red-black tree is longer than twice the binary logarithm of the number of nodes and one |
| `KazHeap.RotateLeftView` | fc-solve/source/kaz_tree.c:91-121 | If the links show a tree at a place, they show the tree rotated to the left there afterwards, all parent links and the rest of the heap included |
| `KazHeap.RotateRightView` | fc-solve/source/kaz_tree.c:123-145 | The same for a rotation to the right |
| `KazDict.Dict.RotateLeft` | fc-solve/source/kaz_tree.c:91-121 | Whatever tree the node shows before the rotation, in whatever place, afterwards the links show that tree rotated to the left in the same place |
| `KazDict.Dict.RotateRight` | fc-solve/source/kaz_tree.c:123-145 | The same to the right |
| `KazDict.Dict.Lookup` | fc-solve/source/kaz_tree.c:586-635 | Finds the node of a key if and only if the key is in the tree |
| `KazDict.Dict.First` | fc-solve/source/kaz_tree.c:1205-1214 | The node of the least key |
| `KazDict.Dict.Next` | fc-solve/source/kaz_tree.c:1246-1268 | The node of the next key in order |
| `KazDict.Dict.Insert` | fc-solve/source/kaz_tree.c:798-927 | Adds an absent key in its place, or returns the node that has it and leaves the tree alone; search order, parent links, no red below red and equal black heights are kept |
| `KazDict.Dict.FixInsert` | fc-solve/source/kaz_tree.c:798-927 | The recolouring and rotating loop keeps the keys and restores the colour rules |
| `KazDict.Dict.Delete` | fc-solve/source/kaz_tree.c:935-1130 | Removes exactly the target, by putting its successor in its place, and keeps all tree invariants; the loop ends by the red-root trick |
| `KazDict.Dict.FixDelete` | fc-solve/source/kaz_tree.c:1010-1130 | The fix-up loop restores equal black heights and the colour rules and keeps the keys |
| `KazDict.Dict.AllocInsert` | fc-solve/source/kaz_tree.c:1153-1192 | Inserts with a node from the recycle bin or a new one, and gives it back if the key is there: each node is in the tree or in the bin |
| `KazDict.Dict.DeleteFree` | fc-solve/source/kaz_tree.c:1194-1203 | Deletes a node and puts it on the recycle bin |
| `LruCache.HoldsMostRecent` | fc-solve/source/dbm_cache.h:82-182 | After any history the cache holds the keys used most recently, as many as fit, in the order of their last use |
| `LruCache.PromotedLinked` | fc-solve/source/dbm_cache.h:98-116 | The pointer updates of a hit move the node to the top and keep the list linked both ways |
| `LruCache.Cache.DoesKeyExist` | fc-solve/source/dbm_cache.h:82-118 | Reports whether the key is in the cache; a hit moves it to the front and changes nothing else |
| `LruCache.Cache.Insert` | fc-solve/source/dbm_cache.h:120-182 | An absent key goes to the front; from a full cache exactly the least recently used one is dropped; list, tree and count agree |
| `HashTable.Hash.Find` | fc-solve/source/fcs_hash__insert.h:76-134 | The walk of one chain finds an item if and only if it is in the table |
| `HashTable.Hash.Insert` | fc-solve/source/fcs_hash__insert.h:67-166 | Returns the item that is there, leaving the table alone, or adds the new one; every item stays in the bucket of its hash, and the table grows when it has more than two items for each bucket and not before |
| `HashTable.Hash.Rehash` | fc-solve/source/fcs_hash__insert.h:21-63 | Doubles the buckets unless that overflows a word, and keeps the contents |
| `HashTable.Hash.Foreach` | fc-solve/source/fcs_hash.h:152-179 | Deletes exactly the selected items; their nodes go to the vacant list and none is lost |
| `HashTable.NumElemsIsSize` | fc-solve/source/fcs_hash__insert.h:153-161 | Items and vacant nodes make up all nodes, so the element count is the number of items |
| `HashTable.UnlinkedHolds` | fc-solve/source/fcs_hash.h:160-176 | Skipping an item in its chain leaves every other node in its one place |

## Left out

- Two decks, Simple Simon, Baker's Dozen and columns only kings may start: they multiply the cases of the generator and of the codec without new ideas.
- The caches and disk-backed stores of the solvers (pre-cache, `dbm_bdb.c`, `dbm_leveldb.cpp`) and the compilations that use them; `LruCache` stands alone beside the solvers.
- The solvers' store is a set of keys with one record each; that the tree behind it is a sorted set is proved in `KazDict`, not connected to the protocol.
- The offloading queue is a sequence, taken from the front and filled at the back; its pages on disk are not modelled.
- WorkerOrder.TraceIsShortest: with several threads no shortest way is promised, since items can be finished out of order.
- Recording the pruned moves into `moves_seq`, the numeric move labels, and the bitmask of irreversible moves: the DBM solvers pass NULL or do not read them.
- Reading positions, intermediate input, `QUEUE_TERMINATE`, printing and signals: input and output.
- The step that turns a trace into printed moves: only that a generated move joins each two positions of a trace is proved.
- Allocators, alignment and pointer packing as memory layout: nodes and records are numbers, NULL and the sentinel are 0, and the reference count is a byte beside its record.
- Derived states are values in a list, not buffers that are reused; aliasing of the indirect stacks is not captured.
- The depth solver's workers and main thread are steps of a state machine over shared values; no class mirrors its instance.
- Thread fairness: deadlock freedom, absence of lost wake-ups and bounds on the length of runs are proved; that every worker is scheduled is not.
- WorkerTermination.RunsEnd: polls are counted but not bounded, since a thread may poll for as long as another one works; so are the spurious wake-ups of DepthTermination.DeepRunsEnd.
- DerivedStates.CalcDerivedStates: the position returned for a solved input is not modelled, only that it is solved.
- Replay.MovesProcessedGen: a move from freecell to freecell is not among the solver moves, as the source has no branch for it.
- Replay.IsComplete: the cards are a set of 52 slots; the source also prints the missing ones.
- Fcplay.Table.MoveColToFullCol: the branch that asks the user about moves to an empty column and the "supermove" display branch are left out, as are messages and redrawing.
- FreecellMoves.MoveStackCardsToDifferentStacks: hashing of the derived states is left out; a column number fits the eight bits it has in the sort number; the other move functions of `freecell.c` (freecell cards onto stacks, non-top cards to the foundations, cards onto a parent on the same stack, emptying a stack into freecells) follow the same pattern and are not modelled.
- KazDict.Dict.Insert: keys are integers compared as numbers; the comparison callback and duplicate keys are left out.
- LruCache.Cache.Insert: the tree is a map from keys to nodes; the strings of moves are sequences that are never shared.
- HashTable.Hash.Insert: keys are integers compared for equality, nodes are never freed, and the number of elements is unbounded.
- DeltaBitsRoundTrip.BitsFitBuffer: states the size of the bits; their packing into bytes is the bit writer's and is not modelled beyond the copying of whole bytes.
- FreecellMoves.MoveCardsToADifferentParent: the sort number is kept with each derived state here too, though nothing is sorted by it.
- VarBase.Writer.Write: numbers are unbounded; that the product of all bases, and so every number written, stays below 2^128 is Keys.ProductFitsBuffer.
- SweepNodes.Records.MarkAndSweepOldStates: the traversal of the red-black tree is a sequence of its nodes in any order; the recycle bin is a list of nodes.
- SweepNodes.Records.Insert: the tree that orders the nodes by key is left out.
- Command line, presets, range solvers, forks and pipes, the UI of FreeCell Pro, the FC89 letter mapping, scripts and site files.
