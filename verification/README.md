# Taut shapes, verified

A Dafny model of the mailbox engines of `taut-shape`, with proofs of what they
promise. Each engine is a deterministic state machine: an input comes in, the
state changes in place, a list of outputs goes out. Each is a class here, with
the fields the source has, plus ghost fields for what has happened so far
(everything pushed, everything accepted, all timer events). Its methods are
proved against functions and predicates on plain values, and the promises are
proved about those, over every state and every run.

- **CRDT** (`Crdt*.dfy`): causal buffering, the drain to a fixpoint, vector
  clocks, bootstrap floors, equivocation winners, anti-entropy reads. Replicas
  converge under any delivery exactly when the operations are *settled*: the
  least causal closure of the least variants leaves out no other variant that
  is ready. A replica can be rebuilt from a read, and a live one brought up to
  date by one.
- **Text projection** (`Text*.dfy`): the choice of atoms and the depth-first
  walk over an arbitrary parent graph with orphans and cycles. Converged
  replicas project the same text.
- **SWMR** (`Swmr*.dfy`): snapshot plus deltas with reset epochs, as a step
  relation whose runs refine a replay of the writer's full history.
- **Log** (`Log*.dfy`): the window, the session table with its two indices,
  held long-polls, watermarks and eviction.
- **Stream** (`Stream*.dfy`): the bounded ring, the drop rule, and what every
  reader has been sent since it joined.
- **Atom** (`Atom*.dfy`): the latest value and its versions.
- **JSON and base64** (`Json*.dfy`, `Base64.dfy`): the tool's printers, parser
  and decoder, their round trips, and the grammar the parser accepts.

The `*Outcomes.dfy` files say of an engine, in terms of its fields and its
history alone, what every input does and sends: they tie down the functions
that the methods are proved against. `CrdtOrder.dfy` does so for the orders,
`JsonGrammar.dfy`, `JsonLetters.dfy` and `JsonPrinted.dfy` for the texts.

`Timers.dfy` holds the timer ledger that all four held-read engines keep,
`Mailbox.dfy` the outputs, the sweep and the held-read steps they share, `Records.dfy` the
batches of the log and the stream, `Orders.dfy` the ascending enumerations,
`Sequences.dfy` the joining of pieces.

`dafny verify dfyconfig.toml` checks the whole project.

## Model

| member | source | states |
|---|---|---|
| CrdtClock.ClockMap | crates/taut-shape/src/crdt/mod.rs:33-47 | The one-pass clock parser, comparing neighbours only, accepts exactly the clocks whose entries are positive, named and strictly ascending by origin, and gives their readings |
| CrdtClock.ClockValueParses | crates/taut-shape/src/crdt/mod.rs:49-60 | A printed clock parses back to the same readings |
| CrdtClock.ParsedClockPrints | crates/taut-shape/src/crdt/mod.rs:33-60 | A well-formed clock is its own canonical listing: parsing and printing gives it back |
| CrdtSpec.ReadyIffPrerequisites | crates/taut-shape/src/crdt/mod.rs:211-219 | Being ready by clock readings is the same as having the predecessor and all named dependencies above the floor integrated |
| CrdtSpec.ClockMonotone | crates/taut-shape/src/crdt/mod.rs:221-241 | A clock is pointwise at most another exactly when its integrated set is a subset of the other's |
| CrdtNode.Node.constructor | crates/taut-shape/src/crdt/mod.rs:97-110 | A new mailbox is empty and valid |
| CrdtNode.Node.Drain | crates/taut-shape/src/crdt/mod.rs:221-241 | The batch loop stops at the least causal fixpoint above what was integrated, with the clock that matches it |
| CrdtNode.Node.Integrate | crates/taut-shape/src/crdt/mod.rs:233-239 | A batch taken together may be integrated in any order: it advances every origin by one and keeps the clock in step |
| CrdtNode.Node.Apply | crates/taut-shape/src/crdt/mod.rs:172-209 | Every branch: late, malformed and already covered operations, duplicates, equivocations, the pending bound, acceptance; keeps the invariant tying the state to all operations ever accepted |
| CrdtNode.Node.Admit | crates/taut-shape/src/crdt/mod.rs:182-209 | The part of an apply after the checks: the least variant wins, a second variant is reported once |
| CrdtNode.Node.Install | crates/taut-shape/src/crdt/mod.rs:243-260 | A bootstrap is taken only into an empty live mailbox without one; every refusal has its diagnostic |
| CrdtNode.Node.Handle | crates/taut-shape/src/crdt/mod.rs:131-150 | Each input is one step of the mailbox with exactly the outputs of that step |
| CrdtSpec.ApplyKeepsInv | crates/taut-shape/src/crdt/mod.rs:172-209 | Whatever the operation, an apply keeps: winners stored, equivocations exact, clock exact, nothing ready left, pending bound; and no clock reading falls |
| CrdtSpec.InstallKeepsInv | crates/taut-shape/src/crdt/mod.rs:243-260 | Installing a bootstrap keeps the invariant and never lowers the clock |
| CrdtSpec.StepKeepsInv | crates/taut-shape/src/crdt/mod.rs:131-150 | Every input keeps the invariant and never lowers the clock |
| CrdtRuns.ReachableStates | crates/taut-shape/src/crdt/mod.rs:172-260 | In every state of every run the integrated identities are exactly those with floor < seq <= clock, no pending operation is ready, pending stays within its bound, clocks never go down |
| CrdtRuns.BatchEqualsOneByOne | crates/taut-shape/src/crdt/mod.rs:221-241 | Integrating one ready operation at a time, in any order, ends where the batch drain ends |
| CrdtRuns.OneByOneDrains | crates/taut-shape/src/crdt/mod.rs:221-241 | Any one-at-a-time drain reaches the least fixpoint |
| CrdtRuns.ApplyTotal | crates/taut-shape/src/crdt/mod.rs:172-241 | Draining always terminates: every apply has an outcome |
| Orders.StringLessExactly | crates/taut-shape/src/crdt/mod.rs:66-75 | Strings are compared at the first position where they differ, a proper prefix being smaller; this and the other orders are the ones the enumerations and the winners use |
| CrdtOrder.KeyLessExactly | crates/taut-shape/src/crdt/mod.rs:62-64 | Identities are compared by origin, then by number |
| CrdtOrder.VariantLessExactly | crates/taut-shape/src/crdt/mod.rs:66-75 | One variant of an identity comes before another exactly when its dependency entries, or for equal dependencies its payload, are smaller at the first difference or end there |
| CrdtOrder.StoredPrecedes | crates/taut-shape/src/crdt/mod.rs:190-198 | Of all variants accepted of one identity the stored one comes before every other at their first difference, dependencies before payload |
| CrdtOrder.ApplyKeepsPreceding | crates/taut-shape/src/crdt/mod.rs:186-198 | Applying a second variant keeps whichever of the two comes before the other and marks the identity |
| CrdtOutcomes.ClockParses | crates/taut-shape/src/crdt/mod.rs:33-47 | A clock is accepted exactly when its entries are named, positive and strictly ascending by origin; every origin then reads what its entry says and no other origin reads anything |
| CrdtOutcomes.ValidExactly | crates/taut-shape/src/crdt/mod.rs:165-170 | An operation is valid exactly when it has an origin and a positive number, its dependencies are a clock, and none is itself or later |
| CrdtOutcomes.ReadyIsCovered | crates/taut-shape/src/crdt/mod.rs:211-219 | An operation is ready exactly when the clock covers its predecessor and all its dependencies |
| CrdtOutcomes.ApplyOutcomes | crates/taut-shape/src/crdt/mod.rs:172-209 | Every apply, case by case: what is refused or dropped with which diagnostic, and otherwise which variant the table holds, what is marked and what is left alone |
| CrdtOutcomes.IntegratesExactly | crates/taut-shape/src/crdt/mod.rs:221-241 | After an apply exactly the identities from floor to clock are integrated, everything stored and covered is among them, and nothing was integrated that is not covered |
| CrdtOutcomes.InstallOutcomes | crates/taut-shape/src/crdt/mod.rs:243-260 | Every installation, case by case: the four refusals, the repetition, and the mailbox whose floor and clock are the bootstrap's |
| CrdtOutcomes.EndsOnce | crates/taut-shape/src/crdt/mod.rs:131-150 | Sealing and closing set their flags once, do nothing after a close and send nothing; a read changes nothing |
| CrdtOutcomes.ListingAscends | crates/taut-shape/src/crdt/mod.rs:120-125 | Operations are listed each once, by origin and then by number |
| CrdtOutcomes.ReadOutcomes | crates/taut-shape/src/crdt/mod.rs:262-331 | Every read: whom it answers, the clock as next cursor, and the state: data or bootstrap exactly with something to send, and otherwise how the mailbox ended |
| CrdtOutcomes.InvalidExactly | crates/taut-shape/src/crdt/mod.rs:262-283 | A cursor is invalid exactly when it is malformed or some entry of it exceeds the clock |
| CrdtOutcomes.ReadSends | crates/taut-shape/src/crdt/mod.rs:284-313 | A read from a valid cursor is sent exactly the integrated operations beyond it, or all and the bootstrap when it lies behind the floor |
| CrdtConvergence.Convergence | crates/taut-shape/src/crdt/mod.rs:172-241 | Two runs from the same optional bootstrap that deliver the same settled operations, in any order with any repetition and none refused, end with equal clock, operations and equivocations, and integrate exactly the least closed set of the least variants |
| CrdtConvergence.ConvergenceOfAgreeingDeps | crates/taut-shape/src/crdt/mod.rs:190-198 | The case where operations of one identity agree on dependencies |
| CrdtConvergence.AgreeingDepsSettle | crates/taut-shape/src/crdt/mod.rs:190-198 | Operations that agree on dependencies are settled |
| CrdtConvergence.SettledIntegrates | crates/taut-shape/src/crdt/mod.rs:190-241 | What a replica integrates of settled operations does not depend on the order of arrival |
| CrdtDivergence.ConvergesExactlyWhenSettled | crates/taut-shape/src/crdt/mod.rs:190-198 | With room for all, the clocks agree however the operations are delivered if and only if the operations are settled |
| CrdtDivergence.UnsettledExample | crates/taut-shape/src/crdt/mod.rs:190-198 | A concrete family that is not settled: two variants of one identity with different dependencies |
| CrdtCatchUp.FullRead | crates/taut-shape/src/crdt/mod.rs:262-331 | A read without a cursor is sent the bootstrap and every integrated operation |
| CrdtCatchUp.BootstrapReconstruction | crates/taut-shape/src/crdt/mod.rs:243-331 | A fresh replica that installs the bootstrap and applies the listed operations in key order has the source's exact clock and operations if and only if the source's integrated set is the least one for the variants it stores |
| CrdtCatchUp.SettledSourceIsLeast | crates/taut-shape/src/crdt/mod.rs:190-241 | Sources whose operations are settled meet that condition |
| CrdtCatchUp.RoomSuffices | crates/taut-shape/src/crdt/mod.rs:200-205 | A buffer with room for all operations delivered refuses none |
| CrdtCatchUp.IncrementalRead | crates/taut-shape/src/crdt/mod.rs:284-331 | A read from between floor and clock is sent exactly the integrated operations beyond its cursor |
| CrdtCatchUp.CatchUp | crates/taut-shape/src/crdt/mod.rs:262-331 | A live replica at or below the source that reads with its own clock and applies the answer reaches the answer's cursor in every origin, and exactly it when it held nothing pending, if the variants it then stores lead from what it integrated to what the source integrated |
| CrdtCatchUp.CatchUpExactly | crates/taut-shape/src/crdt/mod.rs:190-241 | Unless the answer displaces a variant the replica held back, it reaches the cursor if and only if that condition holds |
| CrdtCatchUp.CatchUpOfEmptyBuffer | crates/taut-shape/src/crdt/mod.rs:190-241 | A replica that holds nothing pending ends at exactly the source's clock if and only if the source's integrated set is the least one above the replica's for the variants it stores |
| CrdtCatchUp.AgreeingDepsLead | crates/taut-shape/src/crdt/mod.rs:190-198 | Operations of one identity that agree on dependencies always meet the condition |
| CrdtCatchUp.StoresMerged | crates/taut-shape/src/crdt/mod.rs:190-198 | Such a replica ends up storing exactly the lesser variant of each identity it holds or was sent |
| CrdtCatchUp.CaughtUpReadsNothing | crates/taut-shape/src/crdt/mod.rs:262-331 | A read at the source's own clock returns no operations |
| CrdtCatchUp.CursorKinds | crates/taut-shape/src/crdt/mod.rs:262-298 | A cursor is invalid exactly when malformed or beyond the clock, and needs a bootstrap exactly when behind the floor |
| CrdtCatchUp.BehindReadRebuilds | crates/taut-shape/src/crdt/mod.rs:284-313 | A read from behind the floor carries the same bootstrap and operations as a read without a cursor |
| TextProjection.Bootstrap | crates/taut-shape/src/crdt/text.rs:277-330 | The bootstrap's atoms: each id of a readable row with the parent and the text of its last such row, under the empty identity, and no other id; its deletions, and whether any row is malformed |
| TextProjection.FromRowsUnique | crates/taut-shape/src/crdt/text.rs:304-326 | The rows determine those atoms |
| TextOutcomes.RowsCounted | crates/taut-shape/src/crdt/text.rs:277-290 | All rows of a readable bootstrap count, and none of an absent or unreadable one |
| TextProjection.Absorb | crates/taut-shape/src/crdt/text.rs:331-393 | After all operations every id is placed by a least candidate among its bootstrap row and inserts; exactly the contested ids and malformed payloads are reported |
| TextProjection.ChoiceIsOrderFree | crates/taut-shape/src/crdt/text.rs:264-271 | Among operations with distinct keys the chosen atoms do not depend on the order of the operations |
| TextProjection.LeastIsUnique | crates/taut-shape/src/crdt/text.rs:264-271 | Candidates with distinct keys have one least element |
| TextOutcomes.CandidateLessExactly | crates/taut-shape/src/crdt/text.rs:264-271 | Candidates are compared by parent, none counting as the empty id, then text, origin and number, each at the first difference |
| TextOutcomes.PlacedAtoms | crates/taut-shape/src/crdt/text.rs:331-393 | In a projection an id is placed exactly when a bootstrap row or an insert names it, as one of those, which no other of them precedes |
| TextOutcomes.ContestedIds | crates/taut-shape/src/crdt/text.rs:366-379 | An id is reported as contested exactly when some row or insert would have placed it differently |
| TextPhases.TableChildren | crates/taut-shape/src/crdt/text.rs:394-411 | The child table holds, for every known parent, exactly its children in ascending order; exactly the atoms with an unknown parent are reported |
| TextWalk.Walk.constructor | crates/taut-shape/src/crdt/text.rs:412-415 | The walk starts with nothing entered, the diagnostics so far and no text |
| TextWalk.Walk.Visit | crates/taut-shape/src/crdt/text.rs:416-453 | On any finite parent graph a visit terminates, enters everything below the atom that is not blocked, once, as the preorder of a tree with ascending siblings, and reports a cycle exactly at the atom it started from |
| TextWalk.Walk.VisitChildren | crates/taut-shape/src/crdt/text.rs:434-449 | The loop over children keeps the walk's books between any two of them |
| TextPhases.VisitRoots | crates/taut-shape/src/crdt/text.rs:454-467 | The trees below the null-parent roots are complete: every child is present, in ascending order |
| TextPhases.Sweep | crates/taut-shape/src/crdt/text.rs:468-486 | The sweep visits what is left, each time from the least atom not yet visited, and reports exactly the cycles |
| TextPhases.WalkAll | crates/taut-shape/src/crdt/text.rs:412-486 | Both passes together visit every attached atom exactly once and no other, and report the smallest atom of each cycle |
| TextPhases.Project | crates/taut-shape/src/crdt/text.rs:273-491 | The whole projection: text is the concatenation of the non-deleted visited atoms in visiting order; each of the five kinds of diagnostics is reported exactly when its cause is present, `cycle` exactly for the smallest atom of each parent cycle |
| TextPhases.StartIsLeast | crates/taut-shape/src/crdt/text.rs:468-486 | The sweep enters every cycle at its smallest atom |
| TextPhases.StartLoops | crates/taut-shape/src/crdt/text.rs:425-429 | A visit that meets its starting atom again has found a parent cycle through it, and only then |
| TextForest.OneLeastPerCycle | crates/taut-shape/src/crdt/text.rs:425-429 | Every parent cycle has exactly one smallest atom |
| TextPhases.OneReportPerCycle | crates/taut-shape/src/crdt/text.rs:425-429 | Each parent cycle is reported once: from an atom on it exactly one reported atom is reached |
| TextForest.TreeLinked | crates/taut-shape/src/crdt/text.rs:434-449 | Every atom of a grown tree descends from its root, and follows an atom of the tree unless it is the root |
| TextForest.ParentFirst | crates/taut-shape/src/crdt/text.rs:430-450 | In the preorder of a grown tree every atom but the first comes after its parent |
| TextConvergence.ProjectedUnique | crates/taut-shape/src/crdt/text.rs:412-486 | For given atoms and deletions exactly one sequence of atoms is visited and one text results, cycles and orphans included |
| TextConvergence.ProjectionDetermined | crates/taut-shape/src/crdt/text.rs:273-491 | The projection, text and diagnostics, is a function of the bootstrap and the set of operations: their order does not matter |
| TextConvergence.ConvergedReplicasProjectAlike | crates/taut-shape/src/crdt/text.rs:273-491 | Replicas that start from the same bootstrap and are delivered the same settled operations, in any order with any repetition, project the same text with the same diagnostics |
| TextPhases.RootTextInOrder | crates/taut-shape/src/crdt/text.rs:454-467 | In the text below the null-parent roots every atom comes after its parent |
| TextOutcomes.SiblingsAscend | crates/taut-shape/src/crdt/text.rs:394-467 | Below the null-parent roots, atoms that follow the same one are visited in the order of their ids, however far apart their texts put them |
| TextOutcomes.KidsAscend | crates/taut-shape/src/crdt/text.rs:394-411 | The children of an atom are exactly those that follow it, in the order of their ids |
| TextOutcomes.TextIsJoined | crates/taut-shape/src/crdt/text.rs:430-433 | The text is the texts of the visited atoms that are not deleted, joined in the order of the visit |
| Timers.TokensInOrder | crates/taut-shape/src/log/node.rs:99-102 | The tokens set in a run are 1, 2, 3, ... in order |
| Timers.RetiredOnce | crates/taut-shape/src/log/node.rs:117-124 | No token is retired twice: it is cancelled or fired once, never both |
| Timers.LiveTokens | crates/taut-shape/src/log/node.rs:286-323 | The live tokens are those set and not retired, and only set tokens are retired |
| Timers.HeldAreLive | crates/taut-shape/src/stream/mod.rs:288-381 | The tokens set and not yet retired are exactly those on held reads |
| Mailbox.SweptStep | crates/taut-shape/src/swmr/mod.rs:481-502 | One stream of a sweep: answered and released with its timer cancelled, or left alone; the timer ledger stays exact |
| Mailbox.SweptAll | crates/taut-shape/src/swmr/mod.rs:481-502 | A whole sweep leaves exactly the unanswerable reads held and sends the answers in creation order |
| Mailbox.AnswersReply | crates/taut-shape/src/swmr/mod.rs:481-502 | Every response of a sweep answers a read that was held |
| Mailbox.OpenIdle | crates/taut-shape/src/swmr/mod.rs:262-277 | Creates the stream on first use, lists it last, and cancels the read held on it |
| Mailbox.AnswerOrPark | crates/taut-shape/src/swmr/mod.rs:278-303 | Sends the answer, or parks the read under the next token if it has a timeout and under none otherwise |
| Mailbox.ReadBooks | crates/taut-shape/src/swmr/mod.rs:269-303 | A read as a whole keeps the listing in creation order and the timer ledger exact |
| Mailbox.RemoveStream | crates/taut-shape/src/swmr/mod.rs:504-520 | Removes the stream from table and order, cancels its timer, and stops the producer with the last reader when so configured |
| Mailbox.FindByToken | crates/taut-shape/src/swmr/mod.rs:523-527 | Finds the held read that waits on a token, if there is one |
| Mailbox.FireBooks | crates/taut-shape/src/swmr/mod.rs:522-536 | A live token is on one held read; firing it retires it and keeps the ledger exact |
| Mailbox.EndAccounts | crates/taut-shape/src/atom/mod.rs:238-254 | Ending a stream retires the token of its held read and no other |
| Mailbox.SupersedeAccounts | crates/taut-shape/src/atom/mod.rs:126-133 | A new read on a stream cancels the token of the read it drops and no other |
| Mailbox.ParkAccounts | crates/taut-shape/src/atom/mod.rs:134-160 | A read that is parked with a timeout takes the next token; any other takes none |
| Mailbox.ParkingIs | crates/taut-shape/src/swmr/mod.rs:278-303 | A read that is answered leaves nothing held; one that waits is held, with the next token and a timer of exactly its milliseconds if these are positive |
| Mailbox.ListedLast | crates/taut-shape/src/swmr/mod.rs:262-267 | A new stream comes last, a known one keeps its place |
| Mailbox.WithoutCloses | crates/taut-shape/src/swmr/mod.rs:504-510 | Removing a stream closes its gap and keeps all others in their order |
| Mailbox.EndingIs | crates/taut-shape/src/swmr/mod.rs:504-520 | Ending a known stream cancels the timer of its held read and stops the producer exactly when it was the last one and that was asked for |
| Mailbox.SweepSends | crates/taut-shape/src/swmr/mod.rs:481-502 | A sweep sends, stream by stream in their order, the cancellation of the timer and then the response of each held read that is answered, and nothing else |
| Mailbox.SweepLeaves | crates/taut-shape/src/swmr/mod.rs:481-502 | A sweep leaves exactly the reads held that were not answered |
| SwmrSpec.NextCursorIssued | crates/taut-shape/src/swmr/mod.rs:416-421 | Whatever position a read names, foreign ones included, the next cursor in its answer is the current one and counts as handed out |
| SwmrSpec.AnswerToIssued | crates/taut-shape/src/swmr/mod.rs:305-414 | To a read without a cursor or from one that was handed out: never InvalidResumeSeq, and deltas that chain without a gap from the cursor (or the snapshot sent) to the next cursor |
| SwmrSpec.IssuedStays | crates/taut-shape/src/swmr/mod.rs:148-200 | A cursor once handed out stays known through everything the node can do |
| SwmrSpec.ProbeAnswers | crates/taut-shape/src/swmr/mod.rs:522-536 | A held read can always be answered when its timer fires |
| SwmrSpec.SnapshotKeeps | crates/taut-shape/src/swmr/mod.rs:148-161 | A snapshot push keeps the retained part in agreement with the full history and (epoch, head) does not fall |
| SwmrSpec.DeltaKeeps | crates/taut-shape/src/swmr/mod.rs:163-186 | A delta push extends the history by that delta and (epoch, head) rises |
| SwmrSpec.ResetKeeps | crates/taut-shape/src/swmr/mod.rs:188-200 | A reset opens a new epoch and keeps the history of the old ones |
| SwmrRuns.StepKeeps | crates/taut-shape/src/swmr/mod.rs:100-111 | Every input keeps the retained part in agreement with the full history, which only grows, and (epoch, head) never goes back |
| SwmrRuns.ResponseAnswers | crates/taut-shape/src/swmr/mod.rs:100-111 | Every response of a step answers the read just made, or one that was held, in the store the step leaves; a reset notice is sent by a producer reset only |
| SwmrRuns.RunRetains | crates/taut-shape/src/swmr/mod.rs:100-111 | In every state of every run the retained part agrees with the history |
| SwmrRuns.RunProgress | crates/taut-shape/src/swmr/mod.rs:100-111 | Between any two moments of a run the history only grew and (epoch, head) did not decrease lexicographically |
| SwmrRuns.HandedOutIsIssued | crates/taut-shape/src/swmr/mod.rs:416-421 | A cursor in any response of a run, whatever read it answered, counts as handed out at every later moment |
| SwmrRuns.HandedOutStaysValid | crates/taut-shape/src/swmr/mod.rs:305-414 | In every run: a cursor in a response at one step, presented by anyone at any later one, is never answered InvalidResumeSeq, and its delta slice is in range |
| SwmrRuns.ResponsesStayValid | crates/taut-shape/src/swmr/mod.rs:305-414 | The same of the responses sent in the run, held reads included |
| SwmrOutcomes.AfterTheEnd | crates/taut-shape/src/swmr/mod.rs:148-151 | After a seal or close every push and reset changes nothing, the writer bound included, and sends the late-push warning alone |
| SwmrOutcomes.AnotherWriter | crates/taut-shape/src/swmr/mod.rs:127-135 | Before that, every push or reset naming another writer than the bound one changes nothing and sends the writer-conflict fault alone |
| SwmrOutcomes.DeltaNeedsSnapshot | crates/taut-shape/src/swmr/mod.rs:163-180 | A delta before any snapshot or at the retention bound is refused with its own fault, and binds its writer all the same |
| SwmrOutcomes.AcceptedTakes | crates/taut-shape/src/swmr/mod.rs:148-200 | Every other push or reset is accepted without a diagnostic and binds its writer: a snapshot stands at the head and drops the deltas, a delta goes from the head to the next number, a reset opens the next epoch empty with its detail |
| SwmrOutcomes.AcceptedRecords | crates/taut-shape/src/swmr/mod.rs:148-200 | The full history grows by exactly what was accepted: a first snapshot opens its epoch, a delta is appended, nothing else changes it |
| SwmrOutcomes.OneWriter | crates/taut-shape/src/swmr/mod.rs:127-135 | All pushes and resets that a run accepts name one writer |
| SwmrOutcomes.OthersChangeNothing | crates/taut-shape/src/swmr/mod.rs:127-135 | Once a run has bound a writer, whatever another one sends at any later step changes nothing and is answered with a diagnostic alone |
| SwmrOutcomes.EndsOnce | crates/taut-shape/src/swmr/mod.rs:237-260 | Sealing and closing set their flags once and change nothing else of the store; a close stops the producer last, with the right reason |
| SwmrOutcomes.OthersKeep | crates/taut-shape/src/swmr/mod.rs:269-303 | Reads, ended streams and timers touch neither the store nor the writer |
| SwmrOutcomes.OrderOfCreation | crates/taut-shape/src/swmr/mod.rs:262-267 | The streams stay in the order of their first reads: a new one comes last, an ended one closes its gap, no other input moves any |
| SwmrOutcomes.ResolveKinds | crates/taut-shape/src/swmr/mod.rs:305-455 | Data goes exactly to a newcomer or a reader within the retained deltas of the open epoch, a repair exactly to another epoch or outside of them; every other read gets failed, closed, end of stream or a probe's empty answer, in that order, or waits |
| SwmrOutcomes.ResolveCarries | crates/taut-shape/src/swmr/mod.rs:305-414 | Newcomers and repairs are sent the snapshot and all deltas, readers with a position only the deltas after it, all others nothing |
| SwmrOutcomes.ResolveNames | crates/taut-shape/src/swmr/mod.rs:416-479 | Every answer names its read, hands out the head of the open epoch if it has a snapshot, and carries the error exactly of a failed mailbox |
| SwmrOutcomes.RepairReasons | crates/taut-shape/src/swmr/mod.rs:312-402 | Why a repair is made: a reset of an older epoch with its reason and detail, a position below the snapshot, or one never handed out |
| SwmrOutcomes.NoticeIs | crates/taut-shape/src/swmr/mod.rs:202-235 | A producer reset answers a held read that had a position with the notice alone, and resolves every other |
| SwmrNode.Node.constructor | crates/taut-shape/src/swmr/mod.rs:72-94 | A new mailbox is the start of every run |
| SwmrNode.Node.AnswerAllHeld | crates/taut-shape/src/swmr/mod.rs:481-502 | Answers what can be answered, in creation order, cancels the timers of exactly those and leaves the rest held |
| SwmrNode.Node.CheckWriter | crates/taut-shape/src/swmr/mod.rs:127-135 | The first writer is bound, later ones must be the same |
| SwmrNode.Node.Refuse | crates/taut-shape/src/swmr/mod.rs:148-154 | The checks every push and reset begins with; a writer is bound only while the mailbox is open |
| SwmrNode.Node.SnapshotPush | crates/taut-shape/src/swmr/mod.rs:148-161 | One step: refused on a terminal mailbox or for another writer, else recorded and published to the held reads |
| SwmrNode.Node.DeltaPush | crates/taut-shape/src/swmr/mod.rs:163-186 | One step: as above, and refused before a snapshot and at the retention bound |
| SwmrNode.Node.ProducerReset | crates/taut-shape/src/swmr/mod.rs:188-235 | One step: drops the position of every held read that had one and answers each with the reset |
| SwmrNode.Node.Seal | crates/taut-shape/src/swmr/mod.rs:237-243 | One step, idempotent: answers what the end makes answerable |
| SwmrNode.Node.Close | crates/taut-shape/src/swmr/mod.rs:245-260 | One step, idempotent: answers, then stops the producer with the right reason |
| SwmrNode.Node.Read | crates/taut-shape/src/swmr/mod.rs:269-303 | One step: drops the stream's held read, then answers, probes or parks under the next token |
| SwmrNode.Node.EndStream | crates/taut-shape/src/swmr/mod.rs:504-520 | One step: removes the stream, cancels its timer, and stops the producer with the last reader when so configured |
| SwmrNode.Node.TimerExpired | crates/taut-shape/src/swmr/mod.rs:522-536 | One step: a live token fires once, for its own read, which is answered; any other token is ignored |
| SwmrNode.Node.Handle | crates/taut-shape/src/swmr/mod.rs:100-111 | Any input makes exactly one step of the run model, with its outputs; every response answers a read just made or held, forced by a reset exactly when the input is one |
| SwmrReplay.AnswerKeepsFaithful | crates/taut-shape/src/swmr/mod.rs:305-414 | Applying any answer keeps a reader on the writer's folded state at its cursor |
| SwmrReplay.ReaderRefinesReplay | crates/taut-shape/src/swmr/mod.rs:148-235 | In every run of a writer whose mid-epoch snapshots equal the folded state, for any fold: a reader that follows its answers holds, at every later moment too, the replay of the writer's full history at its cursor, through compactions and both kinds of reset, and its cursor is never called invalid |
| SwmrReplay.HonestExactly | crates/taut-shape/src/swmr/mod.rs:148-161 | Every state of a run is honest if and only if every accepted mid-epoch snapshot of it equals the folded state |
| SwmrReplay.StepHonesty | crates/taut-shape/src/swmr/mod.rs:148-235 | A step from an honest store leaves an honest one if and only if its input is honest |
| SwmrReplay.ResponseKeepsFaithful | crates/taut-shape/src/swmr/mod.rs:305-414 | Any response a run sends keeps a faithful reader faithful |
| SwmrReplay.SnapshotHonesty | crates/taut-shape/src/swmr/mod.rs:155-161 | A snapshot keeps the store honest if and only if it opens an epoch or equals the folded state at the head |
| SwmrReplay.HonestyKept | crates/taut-shape/src/swmr/mod.rs:163-200 | Deltas and resets keep an honest store honest |
| SwmrReplay.DishonestSnapshotSplitsReaders | crates/taut-shape/src/swmr/mod.rs:378-388 | A caught-up reader is not sent a mid-epoch snapshot, and agrees with a newcomer if and only if the snapshot was honest |
| Records.LongestIsHistory | crates/taut-shape/src/log/window.rs:108-139 | The longest batch from a position is a contiguous slice of the history; no longer one is within the limits |
| Records.LongestFitIsLongest | crates/taut-shape/src/log/window.rs:118-137 | Stopping at the first record that does not fit gives the longest prefix that fits |
| Records.FitsExactly | crates/taut-shape/src/log/window.rs:118-137 | The limits of a batch: no more records than allowed, and beyond the first record no more payload bytes in all, where a limit of 2^64 - 1 allows any number |
| LogWindow.Window.constructor | crates/taut-shape/src/log/window.rs:38-45 | A new window is empty, live and valid |
| LogWindow.Window.Push | crates/taut-shape/src/log/window.rs:65-70 | Appends under the next position |
| LogWindow.Window.Seal | crates/taut-shape/src/log/window.rs:74-78 | Seals a live log only |
| LogWindow.Window.Close | crates/taut-shape/src/log/window.rs:83-90 | The first terminal transition wins; a sealed log may still close |
| LogWindow.Window.ScanFrom | crates/taut-shape/src/log/window.rs:108-139 | The directly indexed loop computes the longest batch within the limits after the position |
| LogWindow.ScanIsHistory | crates/taut-shape/src/log/window.rs:92-139 | A scan from a retained position is exactly the history after it, maximal, and non-empty unless no record is allowed |
| LogWindow.Window.Evict | crates/taut-shape/src/log/window.rs:145-164 | The floor rises to one past the eviction, clamped to the head, and never falls; the window stays the tail of the history above it |
| LogSession.Table.constructor | crates/taut-shape/src/log/session.rs:56-63 | An empty table with empty indices |
| LogSession.Table.GetOrCreate | crates/taut-shape/src/log/session.rs:72-86 | A new stream gets the next rank; the indices stay exact |
| LogSession.Table.Remove | crates/taut-shape/src/log/session.rs:99-108 | Removes the stream from the table and both indices |
| LogSession.Table.MinWatermark | crates/taut-shape/src/log/session.rs:112-114 | An eviction is safe for every stream if and only if it does not exceed the least watermark |
| LogSession.Table.SetHeld | crates/taut-shape/src/log/session.rs:119-126 | Parks a read and indexes it by rank and by token |
| LogSession.Table.ClearHeld | crates/taut-shape/src/log/session.rs:130-139 | Releases a read and drops it from both indices |
| LogSession.Table.SetWatermark | crates/taut-shape/src/log/node.rs:131-132 | Moves one watermark and leaves the indices exact |
| LogSession.Table.HeldInCreationOrder | crates/taut-shape/src/log/session.rs:144-146 | The rank index lists exactly the held streams in creation order: the filtered and sorted table |
| LogSession.CreationOrderUnique | crates/taut-shape/src/log/session.rs:144-146 | There is only one such listing |
| LogSession.Table.FindByTimer | crates/taut-shape/src/log/session.rs:150-152 | The token index finds what a scan of the table would |
| LogSpec.DataIsHistory | crates/taut-shape/src/log/node.rs:127-140 | A data answer is exactly the history from the cursor to the next cursor, the longest the limits allow, and moves the cursor if and only if some record is allowed |
| LogSpec.ExpiredExactly | crates/taut-shape/src/log/node.rs:203-217 | A position is expired exactly beyond the head or below what is retained; the position offered instead is readable |
| LogSpec.WaitsExactly | crates/taut-shape/src/log/node.rs:219-227 | A read waits exactly at the head of a live log |
| LogOutcomes.AnswerKinds | crates/taut-shape/src/log/node.rs:203-228 | Every position has one answer: beyond the head or below the retained part expired with the nearest readable position, below the head data, at the head end of stream, closed or failed with its error, or nothing while the log is live |
| LogSpec.ChainIsContiguous | crates/taut-shape/src/log/node.rs:107-201 | Answers chained by their cursors concatenate to one contiguous history slice, through any pushes and evictions between them |
| LogSpec.PushWakes | crates/taut-shape/src/log/node.rs:230-246 | After a push every read that waited can be answered, with the new record if it may have one |
| LogSpec.EndWakes | crates/taut-shape/src/log/node.rs:248-277 | After the log ends every read that waited can be answered |
| LogNode.Node.constructor | crates/taut-shape/src/log/node.rs:46-53 | A new mailbox is valid |
| LogNode.Node.Resolve | crates/taut-shape/src/log/node.rs:127-158 | The answer of the window to a position, with the watermark moved exactly by data |
| LogNode.Node.ReleaseHeld | crates/taut-shape/src/log/node.rs:331-394 | Every held read is answered, in creation order, with its timer cancelled; none is parked again and none expires |
| LogNode.Node.OnPush | crates/taut-shape/src/log/node.rs:230-246 | A push to a live log leaves no read held and each gets the new record; a late one changes nothing |
| LogNode.Node.OnSeal | crates/taut-shape/src/log/node.rs:248-251 | Leaves no read held |
| LogNode.Node.OnClose | crates/taut-shape/src/log/node.rs:253-277 | The first terminal close leaves no read held and then stops the producer; a later one does nothing |
| LogNode.Node.OnEvict | crates/taut-shape/src/log/node.rs:279-284 | Answers nobody and keeps every held read at the head; tracks whether evictions stayed at or below the least watermark |
| LogNode.Node.OnRead | crates/taut-shape/src/log/node.rs:107-201 | Supersedes, answers, probes or parks; a read without a cursor starts at position 0 and a given cursor is used as it is: a data answer is the history from there; while nothing was evicted a read without a cursor never expires, and while every eviction was watermark-safe a read from the cursor of the stream's last data answer is never expired |
| LogOutcomes.ReadSends | crates/taut-shape/src/log/node.rs:107-201 | A read sends the cancellation of the read it supersedes, then its answer, or the empty answer of a probe, or its timer with exactly its milliseconds, or nothing |
| LogOutcomes.ReadLeaves | crates/taut-shape/src/log/node.rs:107-201 | A read leaves its stream open, holding it exactly if it waits, moved exactly by data; no other stream is touched |
| LogOutcomes.NewComesLast | crates/taut-shape/src/log/session.rs:72-86 | A stream that is new is ranked after all others; a known one keeps its place |
| LogOutcomes.ReleaseSends | crates/taut-shape/src/log/node.rs:331-394 | A release sends, stream by stream in the order of creation, the cancellation of the timer and then the answer |
| LogOutcomes.ReleaseLeaves | crates/taut-shape/src/log/node.rs:331-394 | A release leaves none of those streams held, each moved by data alone, and no other stream changed |
| LogNode.Node.Handle | crates/taut-shape/src/log/node.rs:58-73 | Any input: the history only grows; every response answers the read just made or one that was held; a data answer is the history from that read's position, the longest batch its limits allow; only a read just made can expire |
| LogNode.Node.OnEndStream | crates/taut-shape/src/log/node.rs:286-304 | Removes the stream, cancels its timer, and stops the producer on the last reader when so configured |
| LogNode.Node.OnTimerExpired | crates/taut-shape/src/log/node.rs:306-323 | A live token answers its own read at the head; any other token is ignored |
| StreamSpec.FloorIs | crates/taut-shape/src/stream/mod.rs:81-85 | The floor is one past what the capacity pushed out |
| StreamSpec.PushKeeps | crates/taut-shape/src/stream/mod.rs:98-112 | The ring holds exactly the last `capacity` pushes |
| StreamSpec.AnswersExactly | crates/taut-shape/src/stream/mod.rs:202-270 | A reader is dropped if and only if more than the capacity behind, gets data if and only if behind within it (the pushes right after its position, the longest batch its limits allow, never empty), and waits if and only if at the head of a live stream without probing |
| StreamSpec.AnswerKinds | crates/taut-shape/src/stream/mod.rs:209-270 | A reader neither dropped nor behind gets failed with its error, closed, end of stream or a probe's empty answer, in that order, or waits |
| StreamSpec.BoundsExactly | crates/taut-shape/src/stream/mod.rs:222-247 | A positive number of records limits a batch, and any number of bytes that is not negative limits it beyond the first record; nothing else does |
| StreamSpec.AnswerJournaled | crates/taut-shape/src/stream/mod.rs:222-255 | An answer extends what a reader was sent to exactly the pushes up to its new position |
| StreamSpec.PushAnswersAll | crates/taut-shape/src/stream/mod.rs:288-322 | After a push every held reader is answered with the new record alone; none has fallen out of the ring |
| StreamSpec.EndAnswersAll | crates/taut-shape/src/stream/mod.rs:114-137 | After the end every held reader is answered with the terminal state |
| StreamSpec.ProbeAnswers | crates/taut-shape/src/stream/mod.rs:354-381 | A held read can always be answered when its timer fires |
| StreamNode.Node.constructor | crates/taut-shape/src/stream/mod.rs:61-75 | A new stream is empty and valid |
| StreamNode.Node.ResolveAt | crates/taut-shape/src/stream/mod.rs:202-270 | The loop over the ring gives the answer of the specification |
| StreamNode.Node.AnswerAllHeld | crates/taut-shape/src/stream/mod.rs:288-322 | Answers the held reads in creation order; every reader's journal stays the consecutive pushes since it joined |
| StreamNode.Node.Insert | crates/taut-shape/src/stream/mod.rs:105-110 | Writes under the new head and drops the oldest past capacity |
| StreamNode.Node.Push | crates/taut-shape/src/stream/mod.rs:98-112 | Every held reader is sent the new record and none stays held; a late push changes nothing |
| StreamNode.Node.Seal | crates/taut-shape/src/stream/mod.rs:114-120 | Ends the stream once; no reader stays held |
| StreamNode.Node.Close | crates/taut-shape/src/stream/mod.rs:122-137 | Closes once; no reader stays held; the producer is stopped last |
| StreamNode.Node.Read | crates/taut-shape/src/stream/mod.rs:152-200 | A read removes its reader if and only if it is more than the capacity behind; otherwise it is answered, moved and journaled, or parked |
| StreamOutcomes.ReadFrom | crates/taut-shape/src/stream/mod.rs:139-200 | A read is answered from where its reader was, a new reader from the head, which is also where its journal starts; it moves exactly to the answer's next position |
| StreamOutcomes.ReadSends | crates/taut-shape/src/stream/mod.rs:152-200 | A read sends the cancellation of the read it supersedes, then its answer, or its timer with exactly its milliseconds; dropping the last reader stops the producer if so configured |
| StreamOutcomes.SweepLeaves | crates/taut-shape/src/stream/mod.rs:288-322 | A sweep moves a held reader exactly by its answer and leaves every other as it was |
| StreamNode.Node.Drop | crates/taut-shape/src/stream/mod.rs:178-186 | A dropped reader leaves the table, the order and its journal |
| StreamNode.Node.MoveOrPark | crates/taut-shape/src/stream/mod.rs:172-199 | An answered reader moves to the next position; an unanswered one is held under the next token if it has a timeout |
| StreamNode.Node.Handle | crates/taut-shape/src/stream/mod.rs:87-96 | Any input: the history only grows; a data answer is exactly the pushes after its reader's position; only a read drops, and only beyond the capacity |
| StreamNode.Node.EndStream | crates/taut-shape/src/stream/mod.rs:342-352 | Removes the reader, cancels its timer, and stops the producer with the last reader when so configured |
| StreamNode.Node.FindByToken | crates/taut-shape/src/stream/mod.rs:355-361 | Finds the held read that waits on a token, if there is one |
| StreamNode.Node.TimerExpired | crates/taut-shape/src/stream/mod.rs:354-381 | A live token answers its own reader at the head; any other token is ignored |
| AtomSpec.AnswersExactly | crates/taut-shape/src/atom/mod.rs:163-216 | Data exactly behind the latest version, and it is the latest replacement; waiting exactly when not behind on a live mailbox without probing |
| AtomSpec.AnswerKinds | crates/taut-shape/src/atom/mod.rs:163-216 | A read that gets no data gets failed with its error, closed, end of stream or a probe's empty answer, in that order, or waits |
| AtomSpec.PanicsExactly | crates/taut-shape/src/atom/mod.rs:170-182 | The payload the source expects is missing if and only if a negative version is asked of a mailbox never written |
| AtomSpec.HeldIsSafe | crates/taut-shape/src/atom/mod.rs:256-270 | A held read never meets a missing payload later, and is answered when probed |
| AtomSpec.VersionsRise | crates/taut-shape/src/atom/mod.rs:82-92 | Along the answers a reader follows, the values have strictly rising versions, each the replacement accepted under that version |
| AtomNode.Node.constructor | crates/taut-shape/src/atom/mod.rs:53-65 | A new mailbox is empty and valid |
| AtomNode.Node.AnswerAllHeld | crates/taut-shape/src/atom/mod.rs:218-236 | Answers what can be answered, in creation order, and leaves the rest held |
| AtomNode.Node.Replace | crates/taut-shape/src/atom/mod.rs:82-92 | The next version, sent to every held read behind it; refused after the end |
| AtomNode.Node.Seal | crates/taut-shape/src/atom/mod.rs:94-100 | Idempotent; answers what the end makes answerable |
| AtomNode.Node.Close | crates/taut-shape/src/atom/mod.rs:102-117 | Idempotent; answers, then stops the producer |
| AtomNode.Node.Read | crates/taut-shape/src/atom/mod.rs:126-161 | Supersedes, answers or parks, a read without a version being one of version 0; excluded only where the source panics |
| AtomNode.Node.Handle | crates/taut-shape/src/atom/mod.rs:67-76 | Any input: every response names the latest version, with its payload exactly when it is data |
| AtomNode.Node.EndStream | crates/taut-shape/src/atom/mod.rs:238-254 | Removes the stream, cancels its timer, and stops the producer with the last reader when so configured |
| AtomNode.Node.TimerExpired | crates/taut-shape/src/atom/mod.rs:256-270 | A live token answers its own read with the latest version and no value; any other token is ignored |
| Base64.Encode | crates/taut-shape-tool/src/json.rs:364-388 | The chunk loop over 24-bit numbers produces the encoding by bit groups |
| Base64.Decode | crates/taut-shape-tool/src/json.rs:391-419 | The 32-bit accumulator, shifting out high bits, produces the bytes of the 6-bit groups |
| Base64.RoundTrip | crates/taut-shape-tool/src/json.rs:363-419 | Decoding an encoding gives the bytes back, for every byte sequence and each of the three padding cases |
| Base64.EncodedLength | crates/taut-shape-tool/src/json.rs:364-388 | Four characters for every three bytes or part of them |
| Base64.WholeChunkIs | crates/taut-shape-tool/src/json.rs:364-388 | Three bytes are encoded as the four 6-bit groups of their 24-bit number, followed by the encoding of the rest |
| Base64.LastChunkIs | crates/taut-shape-tool/src/json.rs:372-386 | A last chunk of two bytes or one is filled with zero bits and padded |
| Base64.SkippedExactly | crates/taut-shape-tool/src/json.rs:407-409 | The decoder skips `=`, space, tab, line feed, form feed and carriage return, and nothing else |
| Base64.SextetsOfOne | crates/taut-shape-tool/src/json.rs:403-409 | A character of a text is skipped, counts as its value, or spoils the text; together with `SextetsConcat` that decides every text |
| Base64.SextetsConcat | crates/taut-shape-tool/src/json.rs:403-418 | The values of a text are those of its parts, one after the other |
| Base64.ValExactly | crates/taut-shape-tool/src/json.rs:392-401 | A character has a value exactly when it is in the alphabet, namely its place there |
| Base64.AlphabetAt | crates/taut-shape-tool/src/json.rs:361-361 | The alphabet is the upper-case letters, the lower-case letters, the digits, plus and slash |
| Base64.UnpackedAt | crates/taut-shape-tool/src/json.rs:410-416 | Every decoded byte is its own eight bits of the sextets, three bytes for every four |
| Base64.RejectsExactly | crates/taut-shape-tool/src/json.rs:389-418 | Decoding fails if and only if some character is neither of the alphabet, padding nor whitespace |
| Base64.TruncationUnnoticed | crates/taut-shape-tool/src/json.rs:389-390 | Any text whose characters leave one sextet over whole groups of four is no encoding, and decodes all the same, its incomplete byte dropped |
| Base64.AccStep | crates/taut-shape-tool/src/json.rs:410-416 | The low bits of the accumulator are the last two groups whatever the shift dropped |
| JsonParser.WriteString | crates/taut-shape-tool/src/json.rs:127-143 | Pushes the quoted and escaped string |
| JsonParser.Write | crates/taut-shape-tool/src/json.rs:72-103 | Pushes the compact text, object fields in ascending key order |
| JsonParser.Parser.constructor | crates/taut-shape-tool/src/json.rs:148-166 | The parser starts at the first character |
| JsonParser.Parser.SkipWs | crates/taut-shape-tool/src/json.rs:168-176 | Skips exactly the whitespace ahead |
| JsonParser.Parser.Value | crates/taut-shape-tool/src/json.rs:178-191 | Reads the value ahead, or fails, as the function of the text ahead says |
| JsonParser.Parser.Literal | crates/taut-shape-tool/src/json.rs:193-200 | Reads `true`, `false` or `null` |
| JsonParser.Parser.Number | crates/taut-shape-tool/src/json.rs:202-214 | Takes the longest run of number characters |
| JsonParser.Parser.String | crates/taut-shape-tool/src/json.rs:216-286 | Reads a string to its closing quote |
| JsonParser.Parser.Character | crates/taut-shape-tool/src/json.rs:227-283 | Reads one character, every escape included |
| JsonParser.Parser.Unicode | crates/taut-shape-tool/src/json.rs:243-267 | A code unit or a surrogate pair; a second unit too low for the source's subtraction is told apart as a panic |
| JsonParser.Parser.Hex4 | crates/taut-shape-tool/src/json.rs:288-297 | Four hexadecimal digits, or a plus sign and three |
| JsonParser.Parser.Array | crates/taut-shape-tool/src/json.rs:299-321 | Reads an array to its closing bracket |
| JsonParser.Parser.Object | crates/taut-shape-tool/src/json.rs:323-357 | Reads an object to its closing brace, a later field replacing an earlier of the same key |
| JsonParser.Parser.Field | crates/taut-shape-tool/src/json.rs:332-343 | Reads a key, a colon and a value |
| JsonParser.ParseText | crates/taut-shape-tool/src/json.rs:148-160 | A document parses to a value exactly when it is the text of a syntax tree of the grammar with that meaning; malformed texts and the panic are told apart |
| JsonGrammar.ParsesExactly | crates/taut-shape-tool/src/json.rs:148-357 | The parser accepts exactly the grammar: a text parses to a value if and only if it is the text of some tree, with any of the four spaces between tokens and every spelling of every character, whose meaning is that value |
| JsonGrammar.TreeRead | crates/taut-shape-tool/src/json.rs:178-357 | The text of any tree is read off the front of a text that does not continue a number, as the tree's meaning |
| JsonGrammar.ValueTree | crates/taut-shape-tool/src/json.rs:178-357 | Whatever is read has a tree with that text and meaning |
| JsonGrammar.LastValueStays | crates/taut-shape-tool/src/json.rs:335-346 | Of fields with the same key the value last written stays |
| JsonLetters.SurrogatePairRead | crates/taut-shape-tool/src/json.rs:243-262 | Every scalar value from U+10000 on is read from the two escapes of its UTF-16 code units, 0xD800 plus the quotient and 0xDC00 plus the remainder of its offset by 0x400, in either case of the digits |
| JsonLetters.UnitEscapeRead | crates/taut-shape-tool/src/json.rs:263-267 | Every other scalar value is read from the escape of its code |
| JsonLetters.SimpleEscapesRead | crates/taut-shape-tool/src/json.rs:229-242 | Each of the eight short escapes is read as its character, `/`, backspace and form feed included |
| JsonLetters.Hex4Exactly | crates/taut-shape-tool/src/json.rs:288-297 | Four characters are read as a number exactly when they are hexadecimal digits of it in either case, where a plus sign may stand for the first |
| JsonLetters.LettersRead | crates/taut-shape-tool/src/json.rs:216-286 | A string in any spelling is read as its characters |
| JsonLetters.LettersOf | crates/taut-shape-tool/src/json.rs:216-286 | Whatever string is read is a spelling of the result up to the first bare quote |
| JsonPrinted.EscapesExactly | crates/taut-shape-tool/src/json.rs:127-143 | Quotes, backslashes and three control characters are written with their short escapes, the other control characters with two small hexadecimal digits, and nothing else is escaped |
| JsonPrinted.TextExactly | crates/taut-shape-tool/src/json.rs:72-103 | The text of every value: words, numbers as they are, escaped strings, and items and fields joined with commas and nothing else |
| JsonPrinted.KeysAscend | crates/taut-shape-tool/src/json.rs:85-101 | Fields are written in the order of their keys, each key once |
| JsonRoundTrip.RoundTrip | crates/taut-shape-tool/src/json.rs:72-160 | Parsing the text of a value gives the value back if and only if every number in it is a text the number reader takes |
| JsonRoundTrip.ValueRead | crates/taut-shape-tool/src/json.rs:178-191 | A printed value is read back off the front of any text that does not continue a number |
| JsonRoundTrip.StringRead | crates/taut-shape-tool/src/json.rs:127-286 | An escaped string is read back character by character |
| JsonRoundTrip.EscapeRead | crates/taut-shape-tool/src/json.rs:130-141 | Each escape is read back as its character and is never a bare quote |
| JsonRoundTrip.ParsedLexemes | crates/taut-shape-tool/src/json.rs:202-214 | Whatever the text, every number in a parsed value is one the number reader takes |
| JsonUnderflow.UnderflowsExactly | crates/taut-shape-tool/src/json.rs:246-257 | An escape makes the source's subtraction underflow if and only if a high surrogate is followed by an escaped unit below 0xDC00 |
| JsonUnderflow.LowPairExactly | crates/taut-shape-tool/src/json.rs:246-257 | Such a pair is the digits of a high surrogate, an escape, and the digits of a unit below 0xDC00 |
| JsonUnderflow.NoPanicWithoutLowPair | crates/taut-shape-tool/src/json.rs:148-160 | A text without such a pair of escapes never makes the parser panic |
| JsonUnderflow.LowPairPanics | crates/taut-shape-tool/src/json.rs:246-257 | Inside a string such a pair always does, whatever the string began with |
| JsonRoundTrip.NormalForm | crates/taut-shape-tool/src/json.rs:72-160 | A text that parses has the value of its own value printed anew |

## Left out

- The asynchronous shell, the log service and the transports: the engines are modelled as the state machines they are, one input at a time.
- The value shape (`crates/taut-shape/src/value/mod.rs`): a first-write-wins map whose order independence is an easier instance of the convergence proved here.
- The generated message codecs, the CBOR layer, the tool's command line, framing, scripts and the `*_json.rs` string mappings: thin field-by-field or enum-to-string code.
- `crates/taut-shape/src/snapshot_delta.rs` and the stored recovery policy, which no transition of the mailbox reads.
- Integer widths: positions, versions, clocks, ranks and tokens are unbounded, so the `+ 1` that could overflow after 2^63 inputs is not modelled. Byte counts of the log scan saturate at 64 bits as in the source; the base64 accumulator wraps at 32 bits as in the source.
- StreamNode.Node.ResolveAt: the byte count of one answer is unbounded where the source adds in `i64`; request limits are `i64` values.
- Strings are sequences of Unicode scalar values; UTF-8 decoding, shared buffers and allocation are not modelled. String order is by scalar values, which is the order of their UTF-8 bytes.
- Diagnostics of the text projection are values of a datatype, one constructor for each message prefix, not formatted strings, so two reports that would print alike stay apart.
- TextPhases.Project: starts from decoded bootstrap rows and decoded operation payloads; the payload parser and the encoders of `crates/taut-shape/src/crdt/text.rs` (a second small JSON reader) are not part of it.
- CrdtNode.Node.Drain: a batch is a set, as the source's vector names each identity once; the order inside a batch is not recorded because `Integrate` is proved for any.
- CrdtConvergence.Convergence: supposes that no operation was refused by the pending bound; a refused operation is lost to that replica.
- CrdtDivergence.ConvergesExactlyWhenSettled: the direction that exhibits diverging runs supposes a bound with room for all operations.
- LogSpec.DataIsHistory: the source's comments promise at least one record whenever any is available; the code sends an empty batch for `max_records = 0`, and the contract follows the code.
- Base64.RejectsExactly: the source's comment promises failure on a malformed length; the code accepts every length, and the contract follows the code.
- JsonParser.ParseText: failures are told apart only as malformed text and as the panic of the source's unchecked subtraction; the source's error texts describe the former in words. A build without overflow checks wraps where the model says panic.
- JsonParser.Parser.Unicode: the same.
- AtomNode.Node.Read: requires that the source does not panic; `AtomSpec.PanicsExactly` says when it does.
- StreamNode.Node.constructor: requires a positive capacity, which the source asserts.
- LogNode.Node.ReleaseHeld: the branch that parks a read again, and in the stream engine the one that removes a dropped held reader, are proved unreachable and have no body in the model.
- SwmrReplay.ReaderRefinesReplay: asks of the writer's inputs that mid-epoch snapshots equal the folded state; `SwmrReplay.HonestExactly` and `SwmrReplay.DishonestSnapshotSplitsReaders` show that nothing less will do.
- CrdtCatchUp.CatchUpExactly: where the answer displaces a variant the replica held back, only the sufficient direction is stated (`CrdtCatchUp.CatchUp`): the replica may integrate that variant's identity before it is displaced, depending on the order of arrival.
- Methods such as `Admit`, `Settle`, `Supersede`, `OpenIdle`, `AnswerOrPark`, `Refuse`, `TakeSnapshot`, `TakeDelta`, `TakeReset`, `Publish`, `Finish`, `RemoveStream`, `Drop`, `MoveOrPark`, `Items` and `Fields` are parts of one source function each, split so that each part has its own contract; what the SWMR and atom engines do alike is in `Mailbox.dfy` once.
