# A verified model of the trading back end's state machines

This project models the stateful core of the back end in Dafny and proves what that core is for: orders are not sent
twice, capital is not promised twice, positions are sized as large as the limits allow and no larger, portfolio limits
survive runs of approved orders, the broker and the local books agree, reasoning tags are found however a stream is
cut, a SQL script splits into the same statements when split again, and asynchronous requests and audit records are
neither confused nor lost.

`dafny verify dfyconfig.toml` checks everything.

| module | models |
|---|---|
| `ThinkTags`, `ThinkTagStreams`, `ThinkTagLabels`, `ThinkTagParser` | the incremental `<think>` parser of `backend/app/ai/streaming.py` |
| `SqlScript`, `SqlQuotes` | the statement splitter of `backend/run_migrations.py` |
| `OrderLifecycle`, `OrderOutcomes`, `OrderRegistry`, `OrderKeys`, `OrderRuns`, `OrderForgetting`, `OrderAccounts`, `OrderInterleavings`, `OrderSimulation` | the order manager and the paper broker of `backend/app/algo/execution.py` |
| `OrderReservations` | what `create_order` of `backend/app/algo/algo_service.py` does with a reservation once its order has been submitted |
| `CapitalLedger` | reservations of `backend/app/algo/capital.py` |
| `PositionSizing` | `backend/app/algo/position_sizing.py` |
| `PortfolioRisk` | the exposure loop of `backend/app/algo/algo_service.py` and the portfolio limits of `backend/app/algo/risk.py` |
| `Positions`, `Reconciliation` | `backend/app/algo/positions.py` and the position part of `backend/app/algo/reconciliation.py` |
| `InFlight` | request supersession and decision cache of `backend/app/ai/inflight.py` |
| `AuditBuffer` | the audit queue of `backend/app/ai/audit_logger.py` |
| `Conflicts`, `CandidateConflicts` | the two resolvers of `backend/app/algo/signal_fusion.py` |
| `TripleBarrier` | the labelling scan of `backend/scripts/build_ml_dataset.py` |
| `Basics`, `Text`, `Grouping` | sides, strings, and Python's dictionaries of lists, shared by the others |

Objects that the program updates in place are classes here, with methods specified by functions on values; loops are
loops. Asynchronous code is cut at its `await`s: each half of a call is one step of a state machine, any other step may
run between the halves, and the theorems quantify over every sequence of steps. `Decimal` is `real`. What a method
and the theorems share as a function is also stated apart from it, in the program's own words and numbers: the two tags
and the two labels, the characters of a dollar tag, the fields of a broker's reply, the inequality behind each refusal.

## What the code turned out to do

Some promises hold only under a condition. Each condition is stated exactly, for one step or for whole runs, and
the lemma named last in each item is an input that breaks the promise.

* Streaming. A cut changes labels exactly when it tears a tag whose head was already emitted (`ThinkTags.Torn`): a
  closing tag cut after its `<` while the pending stretch holds no other `</`, or an opening tag cut anywhere while the
  content stretch holds a stray closing tag. No later cut makes up for a torn one: a whole stream is labelled as in one
  call if and only if none of its cuts tears a tag (`ThinkTags.TornCutExample`).
* Orders. No record is ever sent twice. A client order id can be: a cancel that finds no broker id yet marks the order
  CANCELLED while its submission is still under way, pruning drops both its keys once the registry is full, and
  `create_intent` with the same id makes a second record. Ids stay unique exactly on the runs in which no
  `create_intent` finds its id's keys pruned or about to be, and an id is submitted twice exactly on the runs in which a
  submission finds another record with its id that has had its attempt (`OrderForgetting.PrunedOrderIsResent`, at every
  capacity).
* Accounts. A comment promises idempotency per account, but the bare alias answers every account. While ids are unique,
  `create_intent` answers with another account's order exactly when the id is known under another account and one of
  its two keys outlives the pruning; on runs that forget no order it never does if and only if no id is asked for by two
  accounts. `create_order` returns the same order before that, and only logs the collision
  (`OrderAccounts.SecondAccountGetsTheFirstsOrder`).
* Reservations. `create_order` releases the reservation of an order that came back rejected, cancelled, timed out or
  unknown. On every run that is exactly when the order has no broker id, which says nothing about the broker: it holds a
  fill exactly when the submission reached it, and nothing the order manager keeps tells the two apart. The order never
  gets a broker id afterwards, so no reconciliation asks about it. The live adapter reports a failed transport as a
  rejection, so this is not only a matter of time-outs; the paper broker suspends only before it books, so with it a
  submission that times out has not reached the book. A partly filled order keeps its reservation for good, since
  nothing else consumes or releases one (`OrderReservations.ReleasedOrderMayBeFilled`).
* Rejections. A broker's rejection that names no quantity, as the live adapter's do, leaves the record with its whole
  quantity as filled (`OrderOutcomes.RejectionRecordsAFill`).
* Status writes. `submit` leaves the table when the order was only CREATED, `cancel` has no status guard, and a resumed
  call leaves it only if another write to its record came between its halves. The guards are
  `OrderLifecycle.OnTable` and `OrderInterleavings.Guarded` (`OrderLifecycle.SubmitFromCreatedLeavesTable`,
  `OrderInterleavings.FillAfterCancelLeavesTable`).
* Capital. The header promises SERIALIZABLE or row locking; only the configuration row is locked, and the two sums are
  read in separate statements. Nothing in the program writes the positions table it sums, so what follows depends on
  who does. If a position is opened in the commit that consumes its reservation, and that commit falls between the two
  reads, neither counts it; if it is opened in a later commit than the consumption, nobody counts it in between. Either
  one admits twice the limit (`CapitalLedger.SettlingInTheWindowOvercommits`, `CapitalLedger.DeployingLateOvercommits`).
  Commitments never exceed the limit plus the amounts that went unseen.
* Portfolio limits. The concentration check sees the bucket an order lands in only if the order names its underlying,
  and the net check sees the net of the resulting book only if the order's notional is not negative. Both inputs are
  orders the engine itself accepts. Its only caller, `create_order`, names the underlying after the instrument or the
  symbol, so the first needs another caller. Nothing before the engine refuses a negative quantity, so the second
  passes it; with a database session the reservation that follows refuses the negative margin, without one nothing
  does (`PortfolioRisk.UnnamedOrderBreaksShare`, `PortfolioRisk.NegativeOrderBreaksNet`).
* In-flight requests. Finishing, even after having been cancelled, clears whatever is registered for the symbol. A
  request whose registration is dropped that way is no longer cancelled by its successors. Two requests of a symbol are
  live exactly from the moment one is started beside such a request, and the older one's decision can then replace the
  newer one's in the cache (`InFlight.OrphanedRequestOverlaps`).
* Audit records. As shipped, persisting a record only logs it and never suspends, so a flush runs to its end or its
  failure in one go, nothing can cancel it half-way, and nothing is lost; a failing flush repeats what it had persisted.
  The docstring announces a persist that writes to a database. With one that suspends, a flush cancelled by `stop`
  would lose the rest of its batch, because the handler does not catch cancellation
  (`AuditBuffer.CancelledFlushLosesARecord`).
* Candidate conflicts. The documentation applies a 0.5x haircut to the second kept candidate whenever at least two
  are allowed. The code applies it only when exactly two are allowed and more than two competed
  (`CandidateConflicts.HaircutIsSkipped`).
* Reconciliation compares quantity and price but not whether a position is open
  (`Reconciliation.ClosedButHeldIsHealthy`).
* A stop price of exactly zero never fires, because a zero `Decimal` is false (`Positions.ZeroStopNeverFires`).

## Model

| member | source | states |
|---|---|---|
| `ThinkTagParser.ReasoningExtractor.constructor` | backend/app/ai/streaming.py:72-74 | a fresh parser is in content mode with nothing held back |
| `ThinkTagParser.ReasoningExtractor.Process` | backend/app/ai/streaming.py:76-133 | one call, in either mode: what it emits, and what it holds back, is labelled reasoning exactly where it stands after a consumed `<think>` and before the `</think>` that follows it, and content elsewhere; a text with one thought comes out as content, reasoning, content; the results, mode and buffer are those of the value-level scan |
| `ThinkTags.ScanBuffer` | backend/app/ai/streaming.py:117-131 | what is held back is under ten characters, holds no tag, and is empty or begins with its only `<` |
| `ThinkTags.StreamLossless` | backend/app/ai/streaming.py:85-133 | over any deltas: emitted pieces with the consumed tags put back at the mode switches, then the buffer, are exactly the input, and every piece carries the label of the mode it was met in |
| `ThinkTags.CleanCut` | backend/app/ai/streaming.py:85-133 | if a cut does not tear a tag, scanning the first part and reading buffer plus rest labels every character as reading the whole does |
| `ThinkTags.TornCut` | backend/app/ai/streaming.py:117-131 | a cut that tears a tag always changes some label |
| `ThinkTags.CutIsInvisibleIffNotTorn` | backend/app/ai/streaming.py:85-133 | for every text before and after a cut: no label changes if and only if the cut does not tear a tag |
| `ThinkTags.ChunkingDoesNotMatter` | backend/app/ai/streaming.py:76-133 | however a stream without torn cuts is chunked, every character, pending ones in the current mode, is labelled as by a character-at-a-time reader of the whole |
| `ThinkTags.OneShotIsReading` | backend/app/ai/streaming.py:76-133 | one call on the whole text labels it as that reader does, for every text |
| `ThinkTags.ChunkedEqualsOneShot` | backend/app/ai/streaming.py:76-133 | if no content stretch holds a literal closing tag and no cut falls between `<` and `/think>`, chunked and one-shot parsing label every character alike |
| `ThinkTagLabels.TagsExist` | backend/app/ai/streaming.py:85-133 | every text consumes a list of tags: alternately the first `<think>` and the first `</think>` after the tag before |
| `ThinkTagLabels.TagsAreUnique` | backend/app/ai/streaming.py:85-133 | and only one such list |
| `ThinkTagLabels.LabelsMeanTags` | backend/app/ai/streaming.py:85-133 | for every text: the reader labels reasoning exactly the characters after a consumed opening tag with no consumed closing tag in between, content the others, and no character of a consumed tag |
| `ThinkTagLabels.StreamIsToldIff` | backend/app/ai/streaming.py:76-133 | for every stream and every way of cutting it: what the calls emit and hold back is labelled that way if and only if no cut tears a tag |
| `ThinkTagLabels.ThoughtIsSaid` | backend/app/ai/streaming.py:88-112 | a text with one thought and no stray tag is said as content, reasoning and content, and nothing is held back |
| `ThinkTagLabels.HeldBackIff` | backend/app/ai/streaming.py:94-131 | of a text without the expected tag, the part from its last `<` on is held back if and only if it is under ten characters and, in think mode, the text holds a `</`, in content, no `</think>` |
| `ThinkTagStreams.WrongModeCostsOneTag` | backend/app/ai/streaming.py:85-133 | for every text: reading it in the wrong mode labels at most one tag's worth of characters more than reading it in the right one |
| `ThinkTagStreams.StreamIsNoShorter` | backend/app/ai/streaming.py:76-133 | however a stream is cut, at least as many characters are labelled as in one reading: a torn tag is never won back |
| `ThinkTagStreams.TornStreamDiffers` | backend/app/ai/streaming.py:117-131 | a stream with a torn cut anywhere is mislabelled, whatever comes after |
| `ThinkTagStreams.ChunkingDoesNotMatterIff` | backend/app/ai/streaming.py:76-133 | for every stream and every way of cutting it: chunked and one-shot parsing label every character alike if and only if no cut tears a tag |
| `ThinkTags.TornCutExample` | backend/app/ai/streaming.py:118-131 | a torn cut: in think mode `<` and then `/think>` are read as reasoning where one call finds the tag |
| `SqlScript.SplitSqlStatements` | backend/run_migrations.py:18-72 | the line loop computes the statements of the script's line groups |
| `SqlQuotes.OpenTagIff` | backend/run_migrations.py:36-40 | a dollar tag is found if and only if two dollars stand with only letters, digits or underscores, or nothing, between them; it is the first such pair, with what follows it |
| `SqlQuotes.QuoteAfterIff` | backend/run_migrations.py:34-61 | after a line a quote is open if and only if it was and the line does not hold its tag, or none was and the line opens one it does not close |
| `SqlQuotes.LineEffectIff` | backend/run_migrations.py:27-66 | for every line and state, in characters: a line is skipped, kept or ends its statement exactly as its first and last non-blank characters, its dollar tags and the open quote decide |
| `SqlQuotes.QuoteAtEndIff` | backend/run_migrations.py:34-61 | a quote is open after some lines if and only if one of them opened it outside any other and none since holds its tag |
| `SqlQuotes.QuotedLinesStayTogether` | backend/run_migrations.py:34-61 | from a line that opens a quote on, in every state, no statement ends before a line that holds its tag |
| `SqlQuotes.QuotedBodyIsOneStatement` | backend/run_migrations.py:34-66 | a body between a line that opens a quote and one that closes it and ends in a semicolon is one statement, whatever it holds |
| `SqlQuotes.ScriptHoldsItsQuotes` | backend/run_migrations.py:25-70 | in every script a line of a statement that opens a quote is followed, in that statement, by one that holds its tag, unless the script ends first |
| `SqlQuotes.LinesJoinBack` | backend/run_migrations.py:25-26 | the lines joined again are the script, and none holds a newline |
| `SqlQuotes.StatementMeans` | backend/run_migrations.py:43-46 | a statement is the text of its group without the white text around it |
| `SqlScript.SplitPartitions` | backend/run_migrations.py:25-70 | the groups concatenate to exactly the kept lines in order, all but possibly the last are complete, none is blank |
| `SqlScript.TerminatedMeans` | backend/run_migrations.py:34-65 | a complete group ends in a line with a final semicolon outside every dollar quote, and no shorter prefix of it does |
| `SqlScript.PartitionIsGroups` | backend/run_migrations.py:25-70 | that partition is unique: any grouping of its kind is what the scan finds |
| `SqlScript.EffectOfStripped` | backend/run_migrations.py:27-66 | a line's effect on the scan does not depend on surrounding white space, dollar tags included |
| `SqlScript.LinesOfStatement` | backend/run_migrations.py:43-46 | the lines of a trimmed statement are the group trimmed line by line |
| `SqlScript.ResplitIsIdentity` | backend/run_migrations.py:18-72 | joining the statements of any script with newlines and splitting again gives the same statements |
| `OrderOutcomes.SubmitEnds` | backend/app/algo/execution.py:440-482 | for every outcome of a submission, in the reply's own fields: broker id, fill price, quantity, slippage against the expected price, and status, each field that is absent or does not parse included |
| `OrderOutcomes.ReconcileEnds` | backend/app/algo/execution.py:489-519 | for every outcome of a query: the status and fill the broker's answer leaves, answer by answer |
| `OrderOutcomes.CancelEnds` | backend/app/algo/execution.py:526-554 | for every outcome of a cancel: a fill wins, CANCELLED cancels, anything else reconciles |
| `OrderOutcomes.MetaIsTaken` | backend/app/algo/execution.py:423-431 | which fields the metadata of a transition leaves, up to the first that does not parse |
| `OrderOutcomes.MoveIsMade` | backend/app/algo/execution.py:415-433 | when a manual transition succeeds and what it leaves, by the sources of the status it asks for |
| `OrderOutcomes.TableReadsBackwards` | backend/app/algo/execution.py:31-54 | the table, read backwards: the statuses that lead to each status |
| `OrderOutcomes.RejectionRecordsAFill` | backend/app/algo/execution.py:453-468 | a rejection without a quantity leaves the whole quantity as filled |
| `OrderLifecycle.CallIsLegalIff` | backend/app/algo/execution.py:31-54 | a call's status writes follow edges of the table, whatever the broker answers, if and only if its guard holds: not CREATED for `submit`, a status that allows CANCEL_PENDING for a `cancel` with a broker id, a listed status for one without; `reconcile` and `transition` always do |
| `OrderLifecycle.SubmitFromCreatedLeavesTable` | backend/app/algo/execution.py:31-33 | submitting an order that is only CREATED writes a status the table does not allow, whatever the broker answers |
| `OrderLifecycle.GuardedHistoryIsLegal` | backend/app/algo/execution.py:405-554 | over every run of guarded calls the whole status history is a walk in the table |
| `OrderLifecycle.NoWayBackToUnsent` | backend/app/algo/execution.py:31-54 | no walk in the table returns to a status from which an order can be sent |
| `OrderLifecycle.ClosedIsFinal` | backend/app/algo/execution.py:53 | a walk never leaves CLOSED |
| `OrderRegistry.KeyEncodes` | backend/app/algo/execution.py:351-352 | both keys of an order name its client id |
| `OrderRegistry.EncodesOne` | backend/app/algo/execution.py:351-352 | a registry key names only one client id |
| `OrderRegistry.PrunedKeeps` | backend/app/algo/execution.py:368-375 | pruning moves no key and drops only keys of closed, rejected or cancelled records |
| `OrderKeys.KeyNamesAccount` | backend/app/algo/execution.py:351-352 | an account's key names one account and one id, and is no bare id |
| `OrderKeys.DroppedIff` | backend/app/algo/execution.py:368-375 | a key is dropped if and only if the registry is at capacity, its record is closed, rejected or cancelled, and fewer than a thousand such keys were filed before it |
| `OrderKeys.PopKeepsOrder` | backend/app/algo/execution.py:374-375 | the keys that stay keep their order |
| `OrderKeys.AddressedMeans` | backend/app/algo/execution.py:405-413 | the record under the bare id, else that of the first key whose record has the id |
| `OrderKeys.FiledMeans` | backend/app/algo/execution.py:376-396 | the account's own record, else the one under the bare id, which gains the account's key, else a new one under both; nothing else changes |
| `OrderRegistry.OrderRecord.constructor` | backend/app/algo/execution.py:58-84 | a new record is CREATED, unsent and unfilled |
| `OrderRegistry.OrderRecord.Annotate` | backend/app/algo/execution.py:424-432 | metadata is assigned in order, a null broker id included, up to the first field that does not parse |
| `OrderRegistry.OrderRecord.MoveTo` | backend/app/algo/execution.py:415-433 | staying put succeeds and changes nothing; an edge of the table is followed and the metadata applied, raising half-way at the first field that does not parse; anything else is refused and changes nothing |
| `OrderRegistry.OrderManager.constructor` | backend/app/algo/execution.py:346-349 | the registry starts empty |
| `OrderRegistry.OrderManager.ListTerminalKeys` | backend/app/algo/execution.py:370-373 | the keys of prunable records, oldest first |
| `OrderRegistry.OrderManager.PopBatch` | backend/app/algo/execution.py:374-375 | exactly the keys of the batch are removed and the order of the rest is kept |
| `OrderRegistry.OrderManager.PruneIfFull` | backend/app/algo/execution.py:368-375 | at capacity the oldest thousand prunable keys go, below it nothing does |
| `OrderRegistry.OrderManager.CreateIntent` | backend/app/algo/execution.py:354-396 | after pruning, an id already filed under either key returns that very record and gains the account key if it lacks it; otherwise a fresh record is filed under both keys |
| `OrderRegistry.OrderManager.Address` | backend/app/algo/execution.py:405-413 | the record under the bare id, else the first filed record with that id, else none |
| `OrderRegistry.OrderManager.Transition` | backend/app/algo/execution.py:405-433 | only the addressed record changes, and only along an edge; an unknown id or a missing edge is an error |
| `OrderRegistry.OrderManager.BeginSubmit` | backend/app/algo/execution.py:435-446 | refused unless CREATED or RISK_APPROVED; otherwise SUBMITTED with one more attempt |
| `OrderRegistry.OrderRecord.TakeFill` | backend/app/algo/execution.py:504-506 | a fill is assigned price first, passing over a price that is false in Python, and the failure status is written at the first field that does not parse |
| `OrderRegistry.OrderManager.ResumeSubmit` | backend/app/algo/execution.py:447-482 | the record takes the reply's broker id, price, quantity and status field by field, and as slippage the price less the expected one; TIMED_OUT on a timeout, UNKNOWN on a failure or, after what was already assigned, on a field that does not parse |
| `OrderRegistry.OrderManager.BeginReconcile` | backend/app/algo/execution.py:484-499 | asks the broker only for a timed-out, unknown or reconciling record with a broker id; without an id the record ends UNKNOWN |
| `OrderRegistry.OrderManager.ResumeReconcile` | backend/app/algo/execution.py:500-519 | the record takes the broker's final status, with its fill when filled, and is UNKNOWN otherwise or when the fill does not parse |
| `OrderRegistry.OrderManager.BeginCancel` | backend/app/algo/execution.py:521-534 | CANCELLED at once without a broker id, else CANCEL_PENDING and the broker is asked |
| `OrderRegistry.OrderManager.ResumeCancel` | backend/app/algo/execution.py:535-554 | a fill reported by the broker wins over the cancel; no answer, another status, or a fill that does not parse leaves the record RECONCILING |
| `OrderRuns.StepFrame` | backend/app/algo/execution.py:405-554 | no step adds an attempt or leads back to an unsent status except `submit`, which needs one and leaves it |
| `OrderRuns.SentOnceRun` | backend/app/algo/execution.py:405-554 | in every interleaving each record has at most one submission and one attempt, and one that has been submitted cannot be again |
| `OrderRuns.NoOrderIsResent` | backend/app/algo/execution.py:435-482 | in every interleaving of create, transition, submit, reconcile and cancel, whatever the broker answers, a record reaches the broker at most once |
| `OrderRuns.FiledRightRun` | backend/app/algo/execution.py:354-403 | on every run each key encodes its record's id and an order that never ended stays filed under both keys |
| `OrderRuns.AskAgain` | backend/app/algo/execution.py:354-396 | asking again for the id of an order that never ended finds it and changes no record, whatever the new quantity and price |
| `OrderRuns.RegistrySurvivesPruning` | backend/app/algo/execution.py:368-403 | on every run and for every capacity: keys encode ids, an order that was never closed, rejected or cancelled is found under both keys and returned by `create_intent`, and no other such order has its id |
| `OrderForgetting.ForgottenIff` | backend/app/algo/execution.py:368-385 | an order filed under both keys is forgotten, and asking for its id makes a second record, if and only if the registry is full and both its keys are in the batch the pruning drops |
| `OrderForgetting.StepKeepsIdsUniqueIff` | backend/app/algo/execution.py:354-396 | a step keeps client ids unique if and only if it does not ask for a known id whose keys are gone or go in the pruning |
| `OrderForgetting.ClientIdsAreUniqueIff` | backend/app/algo/execution.py:354-396 | on every run, for every capacity, no two records share a client id if and only if no step of the run forgets one |
| `OrderForgetting.NoClientIdIsResent` | backend/app/algo/execution.py:354-482 | so a run that forgets no order submits no client id twice |
| `OrderForgetting.StepKeepsSentOnceByIdIff` | backend/app/algo/execution.py:435-446 | a step keeps every client id submitted at most once if and only if it is not a submission that finds another record with its id and an attempt |
| `OrderForgetting.ClientIdsAreSentOnceIff` | backend/app/algo/execution.py:354-482 | on every run, for every capacity, no client id is submitted twice if and only if no submission of the run finds another record with its id and an attempt |
| `OrderForgetting.NoClientIdIsResentUnlessEnded` | backend/app/algo/execution.py:354-396 | on any run, two submissions under one client id mean that one of the two records had been closed, rejected or cancelled |
| `OrderForgetting.FileFiller` | backend/app/algo/execution.py:376-396 | below capacity a live order with a new id is filed under two new keys |
| `OrderForgetting.CancelledIsForgotten` | backend/app/algo/execution.py:368-375 | in a registry full of live orders and one cancelled one, pruning drops exactly the cancelled one's keys |
| `OrderForgetting.PrunedOrderIsResent` | backend/app/algo/execution.py:346-396 | at every capacity, that of the code included: a run that cancels an order in flight, fills the registry, and sends the same client id again |
| `OrderAccounts.FoundIs` | backend/app/algo/execution.py:376-382 | the record found is that of the asker's own key if it outlives the pruning, else that of the bare id if it does, else none, and it has the id asked for |
| `OrderAccounts.BorrowsIff` | backend/app/algo/execution.py:368-382 | while ids are unique, the record found is another account's if and only if the id is known under another account and one of the two keys outlives the pruning |
| `OrderAccounts.IdempotentPerAccountIff` | backend/app/algo/execution.py:354-396 | on every run that forgets no order, for every capacity: each `create_intent` answers with an order of the account that asks if and only if no id is asked for by two accounts |
| `OrderAccounts.SecondAccountGetsTheFirstsOrder` | backend/app/algo/execution.py:376-382 | at every capacity: a second account asking for an id, for another quantity, makes no record and gets the first one's filed under its own key |
| `OrderReservations.RunKeepsTruthful` | backend/app/algo/execution.py:435-554 | on every run of orders placed through `create_order`, failures reported as rejections and late fills included: agreement with the book, a fill in the book for every submission that reached it, and a status without a fill for every returned order without a broker id |
| `OrderReservations.ReleasedHoldsNoFillIff` | backend/app/algo/algo_service.py:917-924 | on every such run a returned submission's reservation is released if and only if its order has no broker id, and the broker holds a fill of it if and only if the submission reached the broker |
| `OrderReservations.ConsumedIsFilled` | backend/app/algo/algo_service.py:917-919 | on every such run a consumed reservation's order is filled whole in the broker's book, and the record has the book's price |
| `OrderReservations.ConsumedIff` | backend/app/algo/algo_service.py:917-924 | with no cancel under way a reservation is consumed if and only if the broker's book has the order filled, and kept if and only if it has it partly filled |
| `OrderReservations.ReleasedStaysReleased` | backend/app/algo/execution.py:484-499 | whatever follows, a released order keeps a status without a fill and gets no broker id, so a reconciliation never asks the broker about it |
| `OrderReservations.ReleasedOrderMayBeFilled` | backend/app/algo/algo_service.py:899-924 | for a time-out, a failure and a failure reported as a rejection, at every capacity: two runs that leave the same records and registry and both release the reservation, one of which leaves the whole fill at the broker |
| `OrderInterleavings.FirstHalfIsLegalIff` | backend/app/algo/execution.py:405-534 | a manual transition or the part of a call before its await keeps to the table if and only if its guard holds |
| `OrderInterleavings.ResumptionIsLegalIff` | backend/app/algo/execution.py:446-554 | a resumed call keeps to the table whatever the broker answers if and only if it finds its record SUBMITTED, RECONCILING, or CANCEL_PENDING or RECONCILING, for a submit, a query and a cancel |
| `OrderInterleavings.InterleavedHistoryIsLegal` | backend/app/algo/execution.py:405-554 | in every interleaving of guarded steps the whole status history of every record is a walk in the table |
| `OrderInterleavings.UndisturbedCallIsGuarded` | backend/app/algo/execution.py:435-554 | a call whose record nothing else writes between its halves keeps to the table whatever the broker answers |
| `OrderInterleavings.FillAfterCancelLeavesTable` | backend/app/algo/execution.py:446-529 | a run that takes a record from CANCELLED to FILLED when a submission resumes after a cancel |
| `OrderSimulation.Start` | backend/app/algo/execution.py:346-349 | a new manager represents the initial state |
| `OrderSimulation.Create` | backend/app/algo/execution.py:354-396 | `create_intent` on the manager and all its records is the creation step of the runs |
| `OrderSimulation.Transition` | backend/app/algo/execution.py:405-433 | so is `transition` a manual step, on the record it addresses, or none; it succeeds exactly when the step is enabled and, unless the status stays, the metadata parses |
| `OrderSimulation.BeginSubmit` | backend/app/algo/execution.py:435-446 | and the first half of `submit`, which raises exactly when the step is not enabled |
| `OrderSimulation.BeginReconcile` | backend/app/algo/execution.py:484-499 | and of `reconcile`, which asks the broker exactly when the step adds a call |
| `OrderSimulation.BeginCancel` | backend/app/algo/execution.py:521-534 | and of `cancel`, likewise |
| `OrderSimulation.Resume` | backend/app/algo/execution.py:446-554 | and the second half of each of the three, for every outcome of its broker call |
| `OrderRuns.PaperBroker.SubmitOrder` | backend/app/algo/execution.py:124-137 | books and answers a full fill, or half of an order of more than one |
| `OrderRuns.PaperBroker.QueryOrder` | backend/app/algo/execution.py:139-140 | answers the book's entry, UNKNOWN if there is none |
| `OrderRuns.PaperBroker.CancelOrder` | backend/app/algo/execution.py:142-150 | rejects an unknown id, answers a filled entry with its fill and leaves it, and cancels any other |
| `OrderRuns.AgreementRun` | backend/app/algo/execution.py:124-150 | every step of a run against the paper broker keeps each record with a broker id in agreement with its book entry, and each pending call in agreement with its record |
| `OrderRuns.LocalAndBrokerAgree` | backend/app/algo/execution.py:435-554 | on every such run a record of positive quantity with a broker id has the book's fill quantity, positive and at most its own, the book's fill price, when a price was expected the slippage between the two, and the book's status, which is a fill, unless a cancel of it is under way |
| `CapitalLedger.CapitalEngine.GetSnapshot` | backend/app/algo/capital.py:47-90 | available is what the limit, or three thousand without a configuration row, leaves beside deployed and reserved, never below zero, and utilisation is their share of the limit |
| `CapitalLedger.CapitalEngine.SumReserved` | backend/app/algo/capital.py:143-149 | the sum over rows still reserved |
| `CapitalLedger.CapitalEngine.SumDeployed` | backend/app/algo/capital.py:137-142 | the sum over open positions |
| `CapitalLedger.CapitalEngine.Reserve` | backend/app/algo/capital.py:92-177 | alone, a reservation is admitted if and only if it is positive, fits under the limit beside what is committed, and is within the cap per trade if there is a cap that is not zero; each refusal is given exactly under its own condition, in the order of the code; an admitted amount is added to what is committed |
| `CapitalLedger.CapitalEngine.Release` | backend/app/algo/capital.py:198-207 | gives a reserved amount back once, and refuses any other row |
| `CapitalLedger.CapitalEngine.Consume` | backend/app/algo/capital.py:209-217 | takes a reserved amount out of the reservations once, and refuses any other row |
| `CapitalLedger.OvercommitmentIsBounded` | backend/app/algo/capital.py:92-217 | in every interleaving of any number of reservations, releases, consumptions and position changes, commitments stay within the limit plus what admitted transactions could not see |
| `CapitalLedger.JudgeIff` | backend/app/algo/capital.py:106-158 | which verdict the sums read lead to, check by check |
| `CapitalLedger.AdmissionIsSafeIff` | backend/app/algo/capital.py:137-158 | an admission is safe for every amount it may let through if and only if the most it may let through, headroom or cap, is nothing or fits; without a cap in the way, if and only if the two sums it read cover what is there |
| `CapitalLedger.ReadsCoverIff` | backend/app/algo/capital.py:121-150 | a step keeps those sums covering if and only if it opens no margin beyond the limit and deploys none beyond what the lock holder has already counted |
| `CapitalLedger.OpenIsHarmlessIff` | backend/app/algo/capital.py:121-150 | with no transaction under way, a position opened by someone else is harmless if and only if its margin fits |
| `CapitalLedger.NeverOvercommitted` | backend/app/algo/capital.py:110-169 | on every run of such steps, with any number of transactions, commitments never exceed the limit |
| `CapitalLedger.AloneIsReserve` | backend/app/algo/capital.py:92-177 | an uninterrupted transaction of the interleaved model has the verdict and effect of `Reserve` and misses nothing |
| `CapitalLedger.SettlingInTheWindowOvercommits` | backend/app/algo/capital.py:137-150 | if some writer opens a position in the commit that consumes its reservation: for every limit a run that commits twice the limit, and meets the bound with equality |
| `CapitalLedger.DeployingLateOvercommits` | backend/app/algo/capital.py:209-217 | if some writer opens a position in a later commit than the consumption: for every limit a run that commits twice the limit |
| `PositionSizing.FloorBound` | backend/app/algo/position_sizing.py:56-61 | flooring a quotient gives the greatest integer within the budget, for budgets of either sign |
| `PositionSizing.AlignBound` | backend/app/algo/position_sizing.py:65-67 | aligning down to a lot loses no lot multiple |
| `PositionSizing.OneMoreLimit` | backend/app/algo/position_sizing.py:71-122 | taking the lesser of two lot-aligned bounds is optimal for both, and the name kept is of one that stops the next lot |
| `PositionSizing.Apply` | backend/app/algo/position_sizing.py:71-122 | one cap of the chain keeps the quantity optimal for all limits so far |
| `PositionSizing.ExceedsIff` | backend/app/algo/position_sizing.py:43-122 | the limits of the chain, one by one, as inequalities on the inputs: risk, capital, funds, margin, size, notional, capacity |
| `PositionSizing.OptimalIsLargest` | backend/app/algo/position_sizing.py:65-127 | the optimum of the chain is the largest whole number of lots that fits those inequalities |
| `PositionSizing.SizeByRisk` | backend/app/algo/position_sizing.py:43-68 | by risk alone: raises exactly when it divides by zero, refuses exactly when a stop is used with a non-positive multiplier, is optimal for the risk budget otherwise |
| `PositionSizing.SizePosition` | backend/app/algo/position_sizing.py:43-138 | the quantity is the largest non-negative lot multiple within the risk budget and every cap given, each an inequality on the inputs, zero if none fits, and the named cap, or the risk budget when none is named, is broken by one more lot; with a multiplier that is not positive it is zero; zero budgets, zero risk, the division by zero and the reported risk per unit come out as in the code |
| `PortfolioRisk.BuildExposure` | backend/app/algo/algo_service.py:513-552 | the aggregation loop computes the sums of the book by side, by underlying and by strategy, and its four greeks |
| `PortfolioRisk.NotionalMeans` | backend/app/algo/algo_service.py:520-524 | a position is valued at its current price, and at its average entry only without one |
| `PortfolioRisk.GreeksAreSums` | backend/app/algo/algo_service.py:536-545 | each greek of the book is the sum of the positions' own times their quantities |
| `PortfolioRisk.GrossIsConserved` | backend/app/algo/algo_service.py:524-534 | gross is long plus short, and is the sum of the buckets under either grouping |
| `PortfolioRisk.CheckConcentration` | backend/app/algo/risk.py:319-353 | the loop finds the first of the three buckets whose share, with the order in it, exceeds its limit |
| `PortfolioRisk.CheckGreeks` | backend/app/algo/risk.py:356-372 | the loop finds the first greek whose projection exceeds its limit in absolute value, a limit of zero being none |
| `PortfolioRisk.Evaluate` | backend/app/algo/risk.py:279-395 | an order is rejected for a check if and only if that check's own inequality on exposure, request and limit fails and no earlier one's does, and approved if and only if none fails |
| `PortfolioRisk.VerdictIsFirstBreach` | backend/app/algo/risk.py:291-378 | the chain reports the first of eleven inequalities that fails, percentages multiplied out |
| `PortfolioRisk.MarginIsRefusedIff` | backend/app/algo/risk.py:307-317 | with a positive total, an order that passes gross and net is rejected for margin if and only if a hundred times what it needs exceeds the limit times what it needs and has; an approved one never does |
| `PortfolioRisk.ApprovedMarginFits` | backend/app/algo/algo_service.py:591-604 | an approved order's margin, its estimate or 15 percent of its value, counted twice as the caller passes it, is within the margin limit |
| `PortfolioRisk.ProjectionIsRebuilt` | backend/app/algo/risk.py:291-304 | what the engine projects for an order is the exposure rebuilt from the book with the order in it: always for gross and the named underlying's share, and for net if and only if the order is not of negative notional |
| `PortfolioRisk.ApprovedIffStaysWithin` | backend/app/algo/risk.py:291-353 | from a book within limits an order with a named underlying, and with net unlimited or a notional that is not negative, is approved if and only if the book it leads to is within limits and the remaining checks pass |
| `PortfolioRisk.ApprovedKeepsLimitsIff` | backend/app/algo/risk.py:319-353 | any approved order leaves every other bucket within its share, so limits are kept if and only if its own bucket's share and the net are within theirs |
| `PortfolioRisk.LimitsSurviveRuns` | backend/app/algo/algo_service.py:591-604 | at fixed prices every run of approved orders with named underlyings, and with net unlimited or notionals that are not negative, keeps gross, absolute net and every underlying's share within limits |
| `PortfolioRisk.UnnamedOrderBreaksShare` | backend/app/algo/risk.py:339-353 | the name is needed: an approved order without one that breaks its bucket's share |
| `PortfolioRisk.NegativeOrderBreaksNet` | backend/app/algo/risk.py:291-304 | the sign is needed: an approved order to buy a negative quantity that breaks the net limit |
| `PortfolioRisk.EmptyBookTakesNothing` | backend/app/algo/risk.py:330-352 | with a concentration limit below 100 percent an empty book takes only orders worth nothing |
| `InFlight.Desk.constructor` | backend/app/ai/inflight.py:57-61 | a desk starts with nothing registered and nothing remembered |
| `InFlight.Desk.CheckCachedDecision` | backend/app/ai/inflight.py:77-84 | the remembered decision is served, and marked as reused where it is kept, exactly when its hash is the one asked for and it was not superseded |
| `InFlight.Desk.SetInFlight` | backend/app/ai/inflight.py:66-72 | the registered request of the symbol is cancelled and replaced, and no other request changes |
| `InFlight.Desk.Begin` | backend/app/ai/inflight.py:107-116 | a call either is served from the cache and starts nothing, or starts and registers one request |
| `InFlight.Desk.Finish` | backend/app/ai/inflight.py:118-196 | a returning call clears its symbol's registration, marks its answer superseded when cancelled or late, and remembers it when it passed and was not |
| `InFlight.Desk.Reset` | backend/app/ai/inflight.py:228-237 | forgets one symbol, or all of them when none or an empty one is given, and cancels no request |
| `InFlight.StepFrame` | backend/app/ai/inflight.py:63-196 | a step never changes a finished request, and never takes a cancellation back |
| `InFlight.ServedAndRegisteredAreCoherent` | backend/app/ai/inflight.py:63-88 | in every interleaving a served decision is that of a request for the same symbol and hash that passed in time and was never cancelled, and the registered request is the newest of its symbol, live and not cancelled |
| `InFlight.AcceptedIsServed` | backend/app/ai/inflight.py:182-184 | an accepted answer is what the next call with its context is served; any other return changes no served decision |
| `InFlight.TidyIsKeptIff` | backend/app/ai/inflight.py:74-75 | a step keeps every live request registered if and only if it does not clear a registration that is another live request's |
| `InFlight.OneLiveOnTidyRuns` | backend/app/ai/inflight.py:66-75 | on every run without such a step a symbol never has two live requests |
| `InFlight.StartLeavesOneLiveIff` | backend/app/ai/inflight.py:66-72 | starting a request leaves one of its symbol live if and only if no live request of the symbol was out of the register |
| `InFlight.StepKeepsOneLiveIff` | backend/app/ai/inflight.py:63-196 | a step keeps at most one live request for every symbol if and only if it starts none beside a live one out of the register |
| `InFlight.OneLiveIff` | backend/app/ai/inflight.py:63-196 | on every run: no symbol ever has two live requests if and only if none is started beside a live one out of the register |
| `InFlight.RememberedIffNewest` | backend/app/ai/inflight.py:148-184 | on such runs a valid answer in time is remembered if and only if no newer request for the symbol was started |
| `InFlight.OverlapIsBounded` | backend/app/ai/inflight.py:66-75 | on any run a symbol has at most one live request more than there were such steps for it |
| `InFlight.OrphanedRequestOverlaps` | backend/app/ai/inflight.py:195-196 | a run with two live requests of one symbol that ends with the older one's decision in the cache |
| `AuditBuffer.AuditLogger.constructor` | backend/app/ai/audit_logger.py:35-40 | a logger starts with an empty buffer and zero counters |
| `AuditBuffer.AuditLogger.Log` | backend/app/ai/audit_logger.py:114-124 | the record is appended and counted; at ten thousand buffered a flush is due and counted as an overflow |
| `AuditBuffer.AuditLogger.LogCorrection` | backend/app/ai/audit_logger.py:128-145 | the correction is appended and, unlike a decision, not counted |
| `AuditBuffer.AuditLogger.BeginFlush` | backend/app/ai/audit_logger.py:153-159 | a flush takes the whole buffer as its batch and leaves it empty, or does nothing when it is empty |
| `AuditBuffer.AuditLogger.PersistNext` | backend/app/ai/audit_logger.py:161-167 | the next record of the batch is stored, or the whole batch goes back in front of what was logged since |
| `AuditBuffer.AuditLogger.FlushBuffer` | backend/app/ai/audit_logger.py:153-167 | a flush that nothing interrupts stores the batch in order, or stores the part before the failure and leaves the buffer as it was |
| `AuditBuffer.EveryRecordIsAccountedFor` | backend/app/ai/audit_logger.py:114-167 | in every interleaving of logging, overlapping flushes, failures and cancellations, persists that suspend included, the copies of each record balance; it is missing if and only if cancelled flushes dropped more copies than failed ones had stored; the total counts the decisions |
| `AuditBuffer.NothingIsLost` | backend/app/ai/audit_logger.py:153-167 | with no flush cancelled or under way every record is stored or buffered, and exactly once when none failed |
| `AuditBuffer.CancelledFlushLosesARecord` | backend/app/ai/audit_logger.py:161-175 | were a persist to suspend, as the database write its docstring announces would, cancelling a flush at it leaves a logged record nowhere |
| `AuditBuffer.PersistKeepsOrder` | backend/app/ai/audit_logger.py:162-163 | while flushes do not overlap, the record stored next is the first of the log that remains |
| `AuditBuffer.SequentialRunsAreInOrder` | backend/app/ai/audit_logger.py:147-167 | on every run of non-overlapping, uncancelled flushes, failures included, what remains is the end of the log in its order and all before it is stored |
| `AuditBuffer.FlushIsAtomic` | backend/app/ai/audit_logger.py:153-186 | with a persist that never suspends, as shipped, a whole flush, failing or not, runs without a break and has the effect of `FlushBuffer` |
| `AuditBuffer.AtomicFlushesLoseNothing` | backend/app/ai/audit_logger.py:153-186 | on every run of such flushes, failures included: between calls the buffer is the end of the log in its order, every record before it is stored, and none is missing |
| `Conflicts.SortKeysAscends` | backend/app/algo/signal_fusion.py:450 | the buckets are visited once each in ascending order of their names |
| `Conflicts.StrLeMeans` | backend/app/algo/signal_fusion.py:450 | names are compared by their first different character, a beginning coming first |
| `Conflicts.BucketMeans` | backend/app/algo/signal_fusion.py:395-415 | a signal's bucket is its cleaned instrument id, else symbol, else UNKNOWN, or what the equivalence makes of its symbol, else instrument id |
| `Conflicts.TwoSignals` | backend/app/algo/signal_fusion.py:417-479 | two signals are both approved unless they share a bucket and differ in direction; then the policy decides, as stated for each |
| `Conflicts.UnlikeInstrumentsDoNotConflict` | backend/app/algo/signal_fusion.py:395-448 | signals for two instruments never conflict, whatever their directions |
| `Conflicts.Resolve` | backend/app/algo/signal_fusion.py:417-489 | the loops approve, bucket by bucket, what the policy lets through, all signals when no bucket is opposed, and raise when confidences that are missing have to be compared |
| `Conflicts.ResolutionIsLocal` | backend/app/algo/signal_fusion.py:432-489 | a call raises if and only if some bucket alone does, and otherwise approves in each bucket, in order, what resolving that bucket alone approves |
| `Conflicts.NoBucketIsTornBothWays` | backend/app/algo/signal_fusion.py:450-479 | two approved signals of one bucket have one direction, whatever the policy, and were both submitted |
| `Conflicts.WinnerOfOpposedBucket` | backend/app/algo/signal_fusion.py:455-479 | an opposed bucket yields one signal exactly under rank priority or an unequal count: of least rank, or of the majority direction and greatest confidence |
| `Grouping.GroupBy` | backend/app/algo/signal_fusion.py:434-438 | grouping keeps each group's order and the keys' order of first appearance |
| `Grouping.KeysInOrder` | backend/app/algo/signal_fusion.py:434-438 | keys come in the order in which they first appear |
| `Grouping.GroupOfMerge` | backend/app/algo/signal_fusion.py:450-479 | merging results group by group loses and mixes nothing |
| `CandidateConflicts.RankedIsAStableSort` | backend/app/algo/signal_fusion.py:531 | the ranking is a permutation by descending confidence that keeps equals in order |
| `CandidateConflicts.KeptAreTheBest` | backend/app/algo/signal_fusion.py:526-560 | a side is split into kept and dropped, and nobody dropped is more confident than anybody kept |
| `CandidateConflicts.HaircutOnlyAtExactlyTwo` | backend/app/algo/signal_fusion.py:533-548 | a kept confidence is halved, and rounded to a tenth, only for the second candidate, and only when the cap is two and more than two competed |
| `CandidateConflicts.HaircutIsSkipped` | backend/app/algo/signal_fusion.py:533-548 | two candidates under a cap of two, and any number under a cap of three, keep their confidences |
| `CandidateConflicts.HalvedMeans` | backend/app/algo/signal_fusion.py:533-538 | the haircut halves a confidence, fifty if there is none, and changes nothing else |
| `CandidateConflicts.RoundTenthMeans` | backend/app/algo/signal_fusion.py:536 | rounding takes the nearest tenth, and of two equally near ones the even |
| `CandidateConflicts.CapRaisesIff` | backend/app/algo/signal_fusion.py:526-560 | capping raises if and only if it keeps nobody of a side that has somebody, which needs a cap of zero, or one below zero that takes all away |
| `CandidateConflicts.OpposedRaisesIff` | backend/app/algo/signal_fusion.py:570-603 | opposed sides raise if and only if they do not tie and capping what is left of the winning side raises |
| `CandidateConflicts.UnlikeUnderlyingsDoNotConflict` | backend/app/algo/signal_fusion.py:510-524 | candidates on two underlyings are both approved, whatever their directions, but for one that is both call and put under a positive margin |
| `CandidateConflicts.CallAgainstPut` | backend/app/algo/signal_fusion.py:566-603 | a call and a put on one underlying: none when their confidences, fifty if missing, are less than the margin apart, else the greater |
| `CandidateConflicts.Resolve` | backend/app/algo/signal_fusion.py:491-610 | the loop approves, underlying by underlying in order of first appearance, what arbitration lets through, or raises |
| `CandidateConflicts.ArbitrationIsLocalIff` | backend/app/algo/signal_fusion.py:510-610 | a call raises if and only if some underlying does; otherwise each underlying's approvals are those of arbitrating it alone, in order, but for a lone candidate that is both call and put under a positive tie margin |
| `CandidateConflicts.PositiveCapResolves` | backend/app/algo/signal_fusion.py:526-560 | a positive cap never raises |
| `CandidateConflicts.LoneCandidate` | backend/app/algo/signal_fusion.py:564-608 | a lone candidate in company is let through, ties with itself when it is both call and put, and raises under a cap below one |
| `CandidateConflicts.CappedAndOneSided` | backend/app/algo/signal_fusion.py:564-610 | on each underlying at most the cap is approved when it is positive, and never a call beside a put |
| `CandidateConflicts.TopIsGreatest` | backend/app/algo/signal_fusion.py:572-573 | the confidence compared for a side is the greatest on it |
| `CandidateConflicts.OpposedUnderlying` | backend/app/algo/signal_fusion.py:570-603 | opposed calls and puts are all refused if and only if the best of each are less than the tie margin apart; otherwise, unless the cap raises, one survives, the most confident of all and ahead of the other side by the margin |
| `Positions.Position.constructor` | backend/app/algo/positions.py:24-47 | a position holds the fields it was given |
| `Positions.Position.RefreshPnl` | backend/app/algo/positions.py:49-54 | an open position's unrealised profit follows price, entry, quantity and side; a closed one keeps its own |
| `Positions.Position.IsStopHit` | backend/app/algo/positions.py:56-61 | true exactly for an open position with a non-zero stop that the price has reached on the losing side |
| `Positions.Position.UpdatePrice` | backend/app/algo/positions.py:112-127 | sets price and profit and, when open and trailing, tightens the stop |
| `Positions.Position.AdjustTo` | backend/app/algo/positions.py:137-142 | takes the broker's quantity and average, and closes at quantity zero |
| `Positions.PositionManager.Upsert` | backend/app/algo/positions.py:80-89 | files the position, keeping an orphan alert of the one it replaces, and touches no other |
| `Positions.PositionManager.UpdatePrice` | backend/app/algo/positions.py:112-127 | only the addressed position changes, and a missing one changes nothing |
| `Positions.PositionManager.SyncOne` | backend/app/algo/positions.py:133-150 | one broker row adjusts the position it names or opens a new one |
| `Positions.PositionManager.SyncFromBroker` | backend/app/algo/positions.py:129-150 | the loop applies the rows in order and replaces no existing object |
| `Positions.PnlMeans` | backend/app/algo/positions.py:49-54 | a long gains what the price rises above the entry, a short what it falls below, times the quantity |
| `Positions.OpenedMeans` | backend/app/algo/positions.py:144-150 | a position opened from a broker row has the row's figures, zero where they are missing, and no stop |
| `Positions.TrailingStopIsARatchet` | backend/app/algo/positions.py:112-127 | over any run of prices the stop is the tighter of the initial one and the best price less the trailing distance, for longs and shorts, and nothing but price, stop and profit changes |
| `Positions.StopFiresIff` | backend/app/algo/positions.py:56-61 | after any run the stop fires if and only if it is not zero and the last price has come back by the trailing distance from the best or crossed the initial stop |
| `Positions.ZeroStopNeverFires` | backend/app/algo/positions.py:56-58 | an open position with a stop of exactly zero is never stopped out |
| `Positions.SyncIsPointwise` | backend/app/algo/positions.py:129-150 | with distinct broker ids each position depends on its own row only, and other accounts on none |
| `Reconciliation.ReconcilePositions` | backend/app/algo/reconciliation.py:110-153 | the loops report internal ids in order, then unknown broker ids, or a single match |
| `Reconciliation.ReportIsExact` | backend/app/algo/reconciliation.py:115-149 | a finding is reported if and only if the two sides disagree in that way |
| `Reconciliation.PricesDisagreeIff` | backend/app/algo/reconciliation.py:131-139 | prices disagree when they lie more than a hundredth apart and the quantity is not zero; the magnitude is their distance |
| `Reconciliation.HealthOf` | backend/app/algo/reconciliation.py:192-198 | blocked by any blocking result, degraded by any other mismatch, healthy otherwise |
| `Reconciliation.HealthyIff` | backend/app/algo/reconciliation.py:110-198 | position health is HEALTHY if and only if quantities agree, prices agree within tolerance where quantity is not zero, and there is no open or non-zero orphan; otherwise BLOCKED |
| `Reconciliation.ClosedButHeldIsHealthy` | backend/app/algo/reconciliation.py:115-149 | a position closed here that the broker still holds in equal quantity counts as agreement |
| `Reconciliation.SyncThenReconcile` | backend/app/algo/positions.py:129-154 | with distinct, complete broker rows, reconciling right after a synchronisation reports exactly the account's open positions missing at the broker |
| `Reconciliation.HealthAfterSync` | backend/app/algo/reconciliation.py:110-198 | then health is HEALTHY if and only if the broker's list has every open position |
| `TripleBarrier.EvaluateTripleBarrier` | backend/scripts/build_ml_dataset.py:71-119 | the scan returns the label, excursions and bar count decided by the first bar that touches a barrier, and fails exactly when risk is zero |
| `TripleBarrier.LabelIsFirstTouch` | backend/scripts/build_ml_dataset.py:98-117 | the label is target if and only if some bar in the window touches the target with no stop touch up to and including it, stop if and only if one touches the stop with no target touch before it, timeout if and only if none touches either |
| `TripleBarrier.LabelOnPrices` | backend/scripts/build_ml_dataset.py:98-115 | in prices, for a call and for a put: target if some bar reaches it with no bar up to it at the stop, stop if some bar reaches it with no bar before at the target |
| `TripleBarrier.ExitIsFirstTouch` | backend/scripts/build_ml_dataset.py:91-119 | the bars to exit end at the first bar that touches a barrier, or at the end of the window |
| `TripleBarrier.RiskMeans` | backend/scripts/build_ml_dataset.py:84-86 | the risk is the distance from entry to stop, or a fifth of a percent of the entry |
| `TripleBarrier.WindowMeans` | backend/scripts/build_ml_dataset.py:91 | the window is the first bars up to the timeout, a negative timeout counting from the end |
| `TripleBarrier.ExcursionsAreExtremes` | backend/scripts/build_ml_dataset.py:86-119 | in units of risk the two excursions are the extremes over the bars to the exit, attained or zero |
| `TripleBarrier.OnlyBarsToExitMatter` | backend/scripts/build_ml_dataset.py:91-119 | windows that agree on the bars to the exit, and end together when nothing was touched, have the same outcome |
| `TripleBarrier.ReflectionKeepsOutcome` | backend/scripts/build_ml_dataset.py:84-117 | reflecting all prices about the entry turns a call into a put, and a put into a call, with the identical outcome |

## Left out

- PositionSizing.SizePosition: with a multiplier that is not positive, the name of the cap is not characterised, only the quantity, which is zero.
- CapitalLedger.SettlingInTheWindowOvercommits: the writer of the positions table is assumed, because nothing in the program writes it.
- CapitalLedger.DeployingLateOvercommits: the writer of the positions table is assumed here too.
- OrderForgetting.NoClientIdIsResent: one direction only; `OrderForgetting.ClientIdsAreSentOnceIff` is exact.
- OrderReservations.ReleasedHoldsNoFillIff: speaks of a broker that fills what reaches it; an accepted order that fills later, and the live adapter's queries and cancels, which answer UNKNOWN and CANCELLED whatever happened, are not modelled. A reservation is looked at only by its status rule: one whose order row is missing, or whose update raises, stays reserved.
- OrderRuns.LocalAndBrokerAgree: speaks of the paper broker and of runs without manual transitions, which may overwrite the broker fields.
- AuditBuffer.CancelledFlushLosesARecord: depends on a persist that suspends, which the shipped one does not.
- Conflicts.Resolve: the reason string is not modelled, only the signals approved and whether the call raises.
- CandidateConflicts.Resolve: the list of reasons for dropped candidates is not modelled.
- TripleBarrier.OnlyBarsToExitMatter: a timeout outcome also depends on where the window ends, so equal lengths are assumed there.
- PortfolioRisk.Evaluate: numbers that do not parse, on which the engine rejects, are not modelled, nor is the list of checks it records.
- Rounding: `Decimal` to 28 digits, and binary floating point in the labelling scan and in the confidences; arithmetic is exact here.
- HTTP routers, database sessions and rows, the FYERS broker, the model providers, logging and prompts: broker answers, provider outcomes and lock grants are steps with any result.
- Identifiers and clocks: random ids, fill draws and prices are parameters; timestamps are absent.
- Case folding and trimming of symbols and instrument names: symbols are taken as already normalised, or the function is a parameter.
- The text of reasons and messages, and the audit entries written beside them.
- `reserve_with_retry`, the creation of a missing capital configuration row, and the lock time-out in milliseconds; a transaction that cannot get the lock gives up.
- Trade-level risk checks.
- `reconcile_orders`, `reconcile_funds` and `reconcile_reservations`: the same comparison shape on other rows.
- `mark_closed`, `trigger_exit`, target prices and the exit engine.
- Broker position rows with neither a position id nor a symbol, and account ids containing a colon: positions are keyed by the pair.
- The aliasing of a decision object between the callers it was served to.
- Candidate objects listed twice: leaving out the winner is by position here and by identity there.
- The live entry gate, validators, regime detection, signal fusion, trigger engine, instrument master and training scripts: chains of independent checks or statistics.
