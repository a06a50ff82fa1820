# Verified models of the instrument-control libraries

This project models the four hardest parts of the repository in Dafny and proves what they are for.

* **The signal calculator** (`SignalCalculator`). It evaluates difference equations over sampled signals: a signal
  may read its inputs a declared number of samples back and ahead. The meaning of a signal is the recursive function
  `Signals.Val`; the program computes it with a topological sort, delays found by recursion, one ring buffer shared by
  all signals, and a lag of its own for each signal. The `Calculator` class is that program, and its contract says that
  runs, resets and flushes deliver exactly the rows that the meaning prescribes, once each and in order, together with
  the synchronised callbacks, each in its turn, over any sequence of epochs and with windows changed between them.
  Read off its log, the rows solve the equations of the signals.
  Files: `Signals`, `TopologicalSort`, `SignalTable`, `Delays`, `Rings`, `ResultsMatrix`, `Delivery`, `Epochs`,
  `Equations`, `Calculator`, `Sessions`.
* **The segment engine** (`SegmentExecutionEngine`). It interprets a flat list of segments with counted backward jumps,
  with segments that have no Run, and with abort segments that have the segment after them left out or attach themselves
  to it. A program of nested loops, each segment and each loop's repeat guarded by any number of abort segments, has a
  meaning of its own: the segments it starts for given decisions of its abort segments. The flat list is proved to start
  exactly those, and passes over it are proved to end. The chain of attached conditions is proved to be an "or" that is
  asked whenever the segment it hangs on is to go on, and that alone aborts it. Each extension of a segment is proved to
  return to the command that made it, once, while lists are replaced under way, and the engine to answer each request as
  the state it finds asks for. A whole experiment is accounted for by the log of its callbacks: what has been started,
  why it ended, and why it waits. The parser is proved against the byte format.
  Files: `RepeatSemantics`, `Programs`, `StaleRepeats`, `CallLog`, `Conditions`, `SegmentRun`, `SegmentTypes`,
  `SegmentExtensions`, `EngineProtocol`, `EngineRun`, `RequestReply`, `SegmentParse`, `Bytes`.
* **The extended CAN messages** (`TaCanProtocol`). Payloads of up to 1530 bytes travel in packets of eight bytes, and a
  state machine per arbitration id puts them together again. Proved: the round trip, soundness of every delivery on
  every packet stream and for every id, an exact complaint about every faulty packet, recovery after a broken message,
  and integrity of retried commands.
  Files: `CanFraming`, `CanReassembly`, `CanReceive`, `CanSend`.
* **The message queue** (`MessageQueue`). A list and a semaphore that are changed in separate steps; the steps are
  interleaved arbitrarily. File: `MessageQueue`.

## How the models are laid out

Where the program works step by step, the model does too: classes with fields that methods reassign, arrays written in
place, and loops with invariants. Each such method is proved against a function on values, and the properties are
proved about those functions and carried back by the method's contract. Proof-only state (`hist`, `registered`, `Repr`,
`chain`, `asked`) records what happened.

What the environment does is a parameter: samples are arbitrary, calculations are arbitrary pure functions of the
declared windows, callbacks of segments answer arbitrarily, packets arrive arbitrarily, and threads are scheduled
arbitrarily.

Where a claim turned out not to hold of the code, the code was kept, an input that shows it is given, and the exact
condition is proved:

* `SendExtCommandMessage` takes what it reports from a record that only an answer fills in; when the wait for the answer
  fails otherwise than by a timeout, it reports what happened to be in memory
  (`TaCanProtocol/SendCanbusMessage.cpp:507-510` and `:526`). The report is the receiver's, or a timeout, iff no wait
  fails like that (`CanSend.ReportIsTheReceiversIffNoWaitFails`); `CanSend.FailedWaitReportsMemory` is such a run.
* A packet carries no message number, so the receiver can join the beginning of one payload to the end of another when
  packets are lost in between. Two messages of one id can never be mixed up, whatever is lost, repeated or reordered, iff
  they have different numbers of packets or do not differ in two places (`CanReassembly.NeverSplicedIffStayApart`, and
  in terms of the payloads `CanReassembly.PayloadsNeverSplicedIffStayApart`); `CanReassembly.TwoMessagesCanSplice` is a
  pair that can.
* An abort segment that guards a repeat and has it left out ends the loop, but does not touch the repeat, which keeps
  what it has left (`SegmentExecutionEngine/SegmentExecutionEngine.cpp:567-595`, `RepeatSegment.cpp:100-132` there). If the
  loop is inside another one, it is entered again with too few rounds. The list starts what the program means, whatever
  its abort segments decide, iff no repeat of an inner loop is guarded (`StaleRepeats.FlatMeansProgramIff`);
  `StaleRepeats.LeftLoopIsShort` is a list of four segments that starts too few. As long as no abort segment has anything
  left out, every program is started as it is meant (`Programs.FlatRepeatsMeanUnrolledLoops`).
* The replacement of a running list keeps the books of its extensions in order iff tags that the two lists share name
  the same command: one with the same Setup and the same Cleanup (`SegmentExtensions.ImportSegmentExtensions` for the
  lists, `SegmentExtensions.HandOverAndStop` for what the application gets back, and in which Cleanup). The code does not
  check this; `SegmentExtensions.ReusedTag` is a pair of lists that breaks it.
* A signal that lists itself as an input is sorted without complaint; the sorted table can be evaluated iff there is no
  such signal (`SignalTable.SortedIsOrdered`); `SignalTable.SelfReaderSorts` is a table with one.
* The loop that changes the windows of a signal advances its index twice per round
  (`SignalCalculator/Calculator.cpp:628-638`). With an even number of inputs the assertion after the loop fails, which
  aborts the program (`inc/TaWinAssert.h:20-26`); with an odd number every second window is left as it was. A change goes
  through as asked iff the signal has an odd number of inputs and every second one keeps its window
  (`Delays.ChangeIsMadeIff`), so all changes do iff it has one input (`Delays.AnyChangeIsMadeIffOneInput`);
  `Delays.SecondWindowStays` is a change that is made in part, unnoticed.

## Model

| member | source | states |
|---|---|---|
| TopologicalSort.Sorter.HasIncomingEdges | SignalCalculator/tsort.h:132-158 | true iff some remaining edge points at the vertex |
| TopologicalSort.Sorter.HasEdges | SignalCalculator/tsort.h:190-208 | true iff any vertex has an edge left |
| TopologicalSort.Sorter.GetVertexFromEdge | SignalCalculator/tsort.h:163-185 | true iff the edge's target is a vertex |
| TopologicalSort.Sorter.Preload | SignalCalculator/tsort.h:309-321 | the work list holds exactly the vertices without incoming edges, each once |
| TopologicalSort.Sorter.RemoveEdges | SignalCalculator/tsort.h:334-353 | all edges of the vertex are gone, those of the others are not, and a vertex joins the work list exactly when its last incoming edge goes |
| TopologicalSort.Sorter.ProcessFront | SignalCalculator/tsort.h:326-354 | one vertex moves from the work list to the order, for good, or an edge to a missing vertex is found |
| TopologicalSort.Sorter.Sort | SignalCalculator/tsort.h:303-357 | it succeeds iff the graph has no cycle and no edge to a missing vertex; then the order is a permutation of the vertices in which all edges point forward, and otherwise the reason it gives is true |
| TopologicalSort.OrderedHasNoCycle | SignalCalculator/tsort.h:303-357 | a graph with a topological order has no cycle |
| TopologicalSort.LeftoverIsCyclic | SignalCalculator/tsort.h:326-356 | edges left when the work list has run dry lie behind a cycle of the original graph |
| TopologicalSort.BackwardWalkCloses | SignalCalculator/tsort.h:326-356 | in a finite set in which everybody has a predecessor, walking backwards closes a cycle |
| TopologicalSort.StuckHasPredecessor | SignalCalculator/tsort.h:326-356 | a vertex that never became ready is pointed at by another one that never did |
| TopologicalSort.NothingLeft | SignalCalculator/tsort.h:326-356 | when no edge is left, every vertex is in the order and every original edge points forward |
| SignalTable.BuildGraph | SignalCalculator/Calculator.cpp:1164-1205 | a vertex per signal, and an edge from each input to each calculation that reads it, except to itself |
| SignalTable.SortSignals | SignalCalculator/Calculator.cpp:1148-1234 | it succeeds iff the inputs have no cycle; then the calculated signals are rearranged, none lost or doubled, each after all calculations it reads |
| SignalTable.SortedIsOrdered | SignalCalculator/Calculator.cpp:1190-1234 | after a successful sort, every input has a smaller result index than its reader iff no signal reads itself |
| SignalTable.SelfReaderSorts | SignalCalculator/Calculator.cpp:1190-1234 | a signal that reads itself passes the sort, and its table is not ordered |
| SignalTable.InputIsEarlier | SignalCalculator/Calculator.cpp:1242-1361 | the cached result index of an input lies before its reader's, unless the two are the same signal |
| SignalTable.Resolve | SignalCalculator/Calculator.cpp:1242-1361 | each input's cached index is that of the signal with the input's id |
| SignalTable.TableMeansDeclarations | SignalCalculator/Calculator.cpp:1242-1361 | the value of a signal in the table is its declared calculation, on its declared windows of the signals it names |
| SignalTable.InitCalculator | SignalCalculator/Calculator.cpp:1242-1361 | a calculator ready for its first run, for the rearranged signals, iff the inputs have no cycle |
| Signals.Sanitize | SignalCalculator/Calculator.cpp:1413-1573 | the stored value is never an IEEE NaN or infinity; those become the marks and all other values stay |
| Signals.NoChainIsLonger | SignalCalculator/Calculator.cpp:680-764 | no chain of inputs has windows that sum to more than the absolute delay |
| Signals.LongestChain | SignalCalculator/Calculator.cpp:680-764 | some chain down to a signal without inputs sums to exactly the absolute delay |
| Signals.AbsDelayIsLongestPath | SignalCalculator/Calculator.cpp:680-764 | the absolute delay is the maximum of the summed windows over all chains of inputs |
| Signals.DelayThroughInput | SignalCalculator/Calculator.cpp:680-764 | the delay of an input and its window fit into the delay of the reader |
| Signals.ValueIsCalculated | SignalCalculator/Calculator.cpp:575-615 | a raw signal is its samples, and a calculated one what its calculation makes of windows whose k-th entry is the input's value k places after the first index the window allows |
| Signals.EntryIsDelay | SignalCalculator/Calculator.cpp:575-602 | a calculation that returns entry k of window i makes its signal that input, shifted by the window's reach backwards less k |
| Signals.RelDelayAttained | SignalCalculator/Calculator.cpp:653-668 | the relative delay is zero or the window of some input |
| Signals.Causality | SignalCalculator/Calculator.cpp:720-764 | the meaning of a cell does not depend on samples later than its forward delay |
| Signals.ReadsPastWarmUp | SignalCalculator/Calculator.cpp:575-602 | a signal past its warm-up looks only at cells past their warm-up, at indices that are not negative |
| Delays.FindRelativeBuffering | SignalCalculator/Calculator.cpp:653-668 | the largest window over the inputs, in either direction |
| Delays.FindAbsoluteBuffering | SignalCalculator/Calculator.cpp:680-764 | the recursion ends and yields the longest-path delay, in either direction |
| Delays.ChangeWindows | SignalCalculator/Calculator.cpp:623-645 | every other input takes its window from the list; the assertion at the end holds iff the number of inputs is odd, and the program aborts there otherwise |
| Delays.ChangeIsMadeIff | SignalCalculator/Calculator.cpp:623-645 | a given change goes through as asked iff the inputs are odd in number and every second one keeps its window |
| Delays.AnyChangeIsMadeIffOneInput | SignalCalculator/Calculator.cpp:623-645 | all changes of a signal go through as asked iff it has exactly one input |
| Delays.SecondWindowStays | SignalCalculator/Calculator.cpp:623-645 | a change of three windows that passes the check and leaves one of them as it was |
| Rings.LagFits | SignalCalculator/Calculator.cpp:1055-1067 | no signal lags further than the completed row, which is still in the ring |
| Rings.LagIsAttained | SignalCalculator/Calculator.cpp:1025-1067 | the lag is the forward delay of some signal, and the ring has exactly the rows that some signal needs, unless no signal needs any |
| Rings.BufferSuffices | SignalCalculator/CalculatorPrivate.h:213-219 | every cell a due signal may look at has been computed and not yet overwritten, with a ring sized by the windows alone and not by the sums of windows backwards |
| Rings.RingRead | SignalCalculator/Calculator.cpp:575-602 | an access to the ring inside a window yields the meaning of the input at that index, never a warm-up mark |
| Rings.RingAdvance | SignalCalculator/Calculator.cpp:1496-1516 | a stored cell replaces the only one that drops out of the ring |
| Rings.AdvancedHolds | SignalCalculator/Calculator.cpp:1477-1537 | one step of a signal, whether it computes, warms up or waits, keeps its ring equal to the last cells of the unbounded history |
| Rings.RingStable | SignalCalculator/Calculator.cpp:1413-1573 | cells that are in the ring keep their meaning when more samples come |
| Rings.CompletedRow | SignalCalculator/Calculator.cpp:1554-1570 | the row at the lag is complete in every column |
| Rings.UnwrappedIsFlushed | SignalCalculator/Calculator.cpp:794-870 | if the ring has not wrapped yet, the columns need no flushing: what was not computed still is a mark |
| Rings.MidFlushEarly | SignalCalculator/Calculator.cpp:846-853 | leaving the loop at the first signal that has not computed anything is harmless for all signals after it |
| Rings.FlushStart | SignalCalculator/Calculator.cpp:835-844 | what a lagging column holds when it is about to be flushed is already what its rows will deliver, up to the index it has reached |
| Rings.FlushStep | SignalCalculator/Calculator.cpp:835-844 | a mark written for a missing index overwrites none of the cells that are still to be delivered |
| ResultsMatrix.SlotInjective | SignalCalculator/Calculator.cpp:546-556 | two cells of the one-dimensional array are the same only for the same signal and the same row |
| ResultsMatrix.Matrix.Set | SignalCalculator/Calculator.cpp:1413-1573 | writing a cell changes that cell of that column only |
| ResultsMatrix.Matrix.Clear | SignalCalculator/Calculator.cpp:877-922 | every cell is a mark |
| ResultsMatrix.Matrix.Row | SignalCalculator/Calculator.cpp:546-556 | a row is one cell of every column |
| Calculator.Calculator.constructor | SignalCalculator/Calculator.cpp:1242-1361 | a calculator without history, sized and placed for its signals |
| Calculator.Calculator.GetInputResult | SignalCalculator/Calculator.cpp:575-602 | a read inside the window of that input yields the meaning of the input at the index asked for; one that the program's assertion lets through because another input has a larger window yields the cell of that index as long as it is still in the ring |
| Calculator.Calculator.InsideWindow | SignalCalculator/Calculator.cpp:575-602 | every index inside the window of an input passes the program's assertions, and its cell in the ring is the meaning of the input |
| Calculator.Calculator.ReadInputs | SignalCalculator/Calculator.cpp:605-615 | all a calculation can read are the meanings of its inputs in their windows |
| Calculator.Calculator.StepSignal | SignalCalculator/Calculator.cpp:1477-1538 | one calculated signal takes the one step its lag and warm-up allow |
| Calculator.Calculator.StepNext | SignalCalculator/Calculator.cpp:1477-1538 | one turn of the loop over the signals keeps what is placed and computed, and the oldest completed index among the signals so far |
| Calculator.Calculator.ComputeSignal | SignalCalculator/Calculator.cpp:1496-1516 | the cell stored is the meaning of the signal at its own index, made presentable |
| Calculator.Calculator.StepAll | SignalCalculator/Calculator.cpp:1463-1538 | all signals take their steps, and the completed index is the global index minus the lag once that is not negative |
| Calculator.Calculator.RunCalculations | SignalCalculator/Calculator.cpp:1413-1573 | a run delivers nothing while the lag is not reached and then exactly the callbacks due and the row at the lag, all cells as the meaning says; the new state is the old one with one more sample |
| Calculator.Calculator.GetResultRow | SignalCalculator/Calculator.cpp:546-556 | the row handed out is the row of the unbounded history |
| Calculator.Calculator.FlushSignal | SignalCalculator/Calculator.cpp:835-844 | the cells a signal could not compute become marks |
| Calculator.Calculator.FlushNext | SignalCalculator/Calculator.cpp:814-856 | one turn of the flush makes one more column final, or finds a signal that has computed nothing and is done with all of them |
| Calculator.Calculator.FlushColumns | SignalCalculator/Calculator.cpp:814-856 | after the columns are flushed, with or without the early exit, all rows not delivered are final; the first of them is the first row not completed |
| Calculator.Calculator.FlushIncompleteRows | SignalCalculator/Calculator.cpp:794-870 | the remaining rows are delivered in order, each followed by its callbacks |
| Calculator.Calculator.PrivateResetCalculator | SignalCalculator/Calculator.cpp:877-922 | history, warm-up and lags are as after construction, and the callbacks still waiting have been fired |
| Calculator.Calculator.ResetCalculator | SignalCalculator/Calculator.cpp:929-954 | a reset ends the epoch: it delivers what is missing and starts over |
| Calculator.Calculator.CalculateDelaysAndBuffering | SignalCalculator/Calculator.cpp:1025-1089 | every signal's delays are the longest-path delays, and the ring holds the largest window plus forward delay, plus one row |
| Calculator.Calculator.ChangeInputSignalIndicies | SignalCalculator/Calculator.cpp:961-999 | a change of the windows of a signal ends the epoch under the old windows first; every other input of that signal has its window from the list then, and all other windows, the inputs and the calculations are as they were; delays are awaited and the history is empty. If the assertion at the end fails, which is iff the number of inputs is even, that is the state in which the program aborts |
| Calculator.Calculator.CalculateDelaysAndBufferingWithReset | SignalCalculator/Calculator.cpp:1099-1127 | the calculator runs under the new windows from an empty history, and nothing is delivered twice |
| Calculator.Calculator.GetRealtimeResult | SignalCalculator/Calculator.cpp:434-485 | the newest cell the signal has computed, or a mark if it has none or its windows have just been changed |
| Calculator.Calculator.RegisterDataSyncedCallback | SignalCalculator/DataSyncedCallback.cpp:37-69 | the callback waits for the row of the current global index |
| Calculator.Calculator.SendDataSyncedCallbacks | SignalCalculator/DataSyncedCallback.cpp:117-160 | exactly the leading callbacks that are due are fired and forgotten |
| Calculator.Calculator.FlushDataSyncedCallbacks | SignalCalculator/DataSyncedCallback.cpp:166-196 | all waiting callbacks are fired and forgotten |
| Calculator.RunEpoch | SignalManagerUnitTest/UnitTestEarlyReset.cpp:100-143 | any sequence of runs and registrations followed by a reset, of any length: the program's log is the epoch's log, and the calculator is as a new one, so that the next epoch can follow |
| Sessions.ResetSends | SignalCalculator/Calculator.cpp:929-954 | a reset adds the log of the epoch it ends to those of the epochs before, and leaves nothing of it behind, under whichever windows the next epoch runs |
| Sessions.RunSession | SignalCalculator/Calculator.cpp:929-1127 | any sequence of runs, registrations, resets and changes of windows: the log is the logs of the epochs that are over, each under its own windows, and then what the epoch in progress has completed; a change leaves every other input of its signal with the window asked for, and all else as it was |
| Sessions.RecordContents | SignalCalculator/Calculator.cpp:794-954 | an epoch that is over has sent one row for each of its runs, with the values that its own windows ask for, and each of its callbacks once |
| Sessions.SessionConservation | SignalCalculator/Calculator.cpp:929-1127 | however a session is cut into epochs: as many rows as runs and each callback once, in order of registration, except for what the epoch in progress still has to send |
| Delivery.FrontIsAt | SignalCalculator/DataSyncedCallback.cpp:117-160 | stopping at the first callback that is not due fires the same ones as looking at all of them |
| Delivery.CompleteTracks | SignalCalculator/DataSyncedCallback.cpp:117-160 | delivering a completed row extends the log by that row and exactly the callbacks registered for it |
| Delivery.FlushTracks | SignalCalculator/Calculator.cpp:859-868 | so does delivering a flushed row, whose callbacks come after it instead of before it |
| Delivery.ResetTracks | SignalCalculator/DataSyncedCallback.cpp:166-196 | at the end of an epoch the log holds all its rows and all its callbacks, and nothing waits |
| Delivery.EpochLogContents | SignalCalculator/DataSyncedCallback.cpp:117-196 | in the log of an epoch, the rows are the epoch's rows in order and the callbacks are those registered, once each and in order of registration |
| Epochs.RowStable | SignalCalculator/Calculator.cpp:1554-1570 | a delivered row never changes its meaning later |
| Epochs.OpsStayOnTrack | SignalCalculator/Calculator.cpp:1413-1573 | after any runs and registrations, exactly the rows that are complete have been delivered |
| Epochs.FlushStaysOnTrack | SignalCalculator/Calculator.cpp:794-870 | the flush delivers exactly the rows in between |
| Epochs.EpochConservation | SignalCalculator/Calculator.cpp:794-954 | N runs and a reset log the rows 0 to N-1 and the registered callbacks, for every N, and leave the state a new calculator has |
| Equations.EpochDeliversEverythingOnce | SignalManagerUnitTest/UnitTestEarlyReset.cpp:100-143 | there are exactly N rows; a cell is its signal's value if its index is not below the delay backwards nor within the delay forwards of row N, and a mark otherwise; every callback fires once, in order of registration |
| Equations.RowsSolveEquations | SignalCalculator/Calculator.cpp:575-615 | in the rows of an epoch, a raw cell is the sample of its run, and a calculated cell is what the calculation makes of the delivered cells around it, those its windows name; all of them are there |
| Equations.CallbacksFireInTurn | SignalCalculator/DataSyncedCallback.cpp:117-160 | a callback registered after g of N runs fires when exactly the rows before row g are out if a run completes that row, when row g is out too if it is flushed, and after all rows if there is none |
| Equations.EpochLogInTurn | SignalCalculator/Calculator.cpp:859-868 | in the log of an epoch, each callback comes right before the row of its index if a run completes it and right after it if it is flushed |
| RepeatSemantics.ForwardSpends | SegmentExecutionEngine/SegmentExecutionEngine.cpp:443-650 | going on to a later segment lowers the measure |
| RepeatSemantics.JumpSpends | SegmentExecutionEngine/RepeatSegment.cpp:100-132 | jumping back spends one round of the repeat, which outweighs all segments and rounds before it |
| RepeatSemantics.PotBelowRadix | SegmentExecutionEngine/RepeatSegment.cpp:100-132 | the measure is a number in a mixed radix, the last repeat most significant |
| RepeatSemantics.RunSpends | SegmentExecutionEngine/SegmentExecutionEngine.cpp:443-650 | each segment started costs at least one of the measure, on any list and whatever its abort segments decide |
| RepeatSemantics.OneRunOnly | SegmentExecutionEngine/SegmentExecutionEngine.cpp:443-650 | what a list starts is determined by the decisions of its abort segments: of two runs from the same state one begins the other |
| Programs.FlattenIsValid | SegmentExecutionEngine/RepeatSegment.cpp:139-176 | every properly nested program with counts of at least one passes the repeats' validation, with or without guards, and with segments that have no Run |
| Programs.OneLoopRound | SegmentExecutionEngine/RepeatSegment.cpp:100-132 | a round of a loop is its body, the abort segments that guard its repeat, and the repeat unless they have it left out; then the next round, or what follows the loop |
| Programs.LoopRepeats | SegmentExecutionEngine/RepeatSegment.cpp:100-132 | with k rounds left, a loop runs its body and its repeat k+1 times unless an abort segment ends it before; the repeat is ready to be entered again if none did |
| Programs.FlatMeansTrace | SegmentExecutionEngine/SegmentExecutionEngine.cpp:458-649 | inside any list, a flattened program starts its segments as the program means and then goes on after it |
| Programs.FlatMeansProgram | SegmentExecutionEngine/SegmentExecutionEngine.cpp:458-649 | a whole flattened program, with fresh repeats, starts exactly what the program means for the decisions of its abort segments, whatever they are, if they cannot end an inner loop |
| Programs.QuietStarts | SegmentExecutionEngine/SegmentExecutionEngine.cpp:458-649 | as long as no abort segment has anything left out, what a program means is its loops unrolled, at any depth |
| Programs.FlatQuiet | SegmentExecutionEngine/RepeatSegment.cpp:100-132 | there the flat list does the same, inside any list and from any point of a run, and leaves all repeats as they were |
| Programs.FlatRepeatsMeanUnrolledLoops | SegmentExecutionEngine/RepeatSegment.cpp:100-132 | a whole flattened program starts exactly its unrolled loops if no abort segment has anything left out |
| StaleRepeats.FirstPass | SegmentExecutionEngine/SegmentExecutionEngine.cpp:567-595 | an abort segment can end a guarded loop early so that the program goes on as it is meant, with rounds left in the loop's repeat |
| StaleRepeats.SecondPass | SegmentExecutionEngine/RepeatSegment.cpp:100-132 | from there, the same program starts too little even if no abort segment decides anything |
| StaleRepeats.StartsTooLittle | SegmentExecutionEngine/SegmentExecutionEngine.cpp:458-649 | inside any list, every program with a guarded inner loop has a decision after which it starts less than it means |
| StaleRepeats.FlatMeansProgramIff | SegmentExecutionEngine/SegmentExecutionEngine.cpp:458-649 | for every program: its flat list starts what the program means, whatever its abort segments decide, iff no repeat of an inner loop is guarded |
| StaleRepeats.LeftLoopIsShort | SegmentExecutionEngine/RepeatSegment.cpp:100-132 | a loop of one segment and a guarded repeat inside another loop: the inner loop goes round once instead of twice the second time |
| Conditions.AttachedIff | SegmentExecutionEngine/SegmentExecutionEngine.cpp:601-616 | by the log, exactly those abort segments hang on a segment that answered "attach" and that nothing has taken off since: no segment left, no condition that objected, no skip |
| Conditions.AskingInOrder | SegmentExecutionEngine/SegmentExecutionEngine.cpp:391-439 | in every log, the conditions asked since a segment asked to be called again are those of the abort segments that hang on it, which are those right before it, nearest first |
| Conditions.LegalHeeds | SegmentExecutionEngine/SegmentExecutionEngine.cpp:496-512 | no segment goes on before all of them have been asked since it asked for that, and each has said "false" |
| Conditions.AbortedIffConditionTrue | SegmentExecutionEngine/SegmentExecutionEngine.cpp:496-512 | a segment that waits and is not skipped from outside is left aborted iff one of its conditions says "true", and goes on otherwise |
| Conditions.ErrorsEndTheLog | SegmentExecutionEngine/SegmentExecutionEngine.cpp:535-633 | nothing is called any more after an error, or after an abort segment that gives no verdict where one is asked for |
| Conditions.AnswersAreTheirs | SegmentExecutionEngine/SegmentExecutionEngine.cpp:320-384 | the answers in a log are those of the segment's Start where it was started and of its Run elsewhere |
| SegmentRun.ChainIsOr | SegmentExecutionEngine/SegmentExecutionEngine.cpp:391-439 | walking the chain is an "or": its verdict is "true" iff the first condition to object says so, and "false" iff none objects |
| SegmentRun.AskConditions | SegmentExecutionEngine/SegmentExecutionEngine.cpp:391-439 | asking the conditions of a segment that goes on, nearest first, is a sequence of callbacks the engine may make, and starts and leaves out nothing |
| SegmentRun.RunMeans | SegmentExecutionEngine/SegmentExecutionEngine.cpp:478-533 | what asking the attached conditions and then running a segment comes to: which callbacks were made, that each of them is the one to make then, that none of them is a start, and that the last one explains the answer |
| SegmentRun.RespondedMoves | SegmentExecutionEngine/SegmentExecutionEngine.cpp:535-633 | for every answer with which the engine leaves a segment, the move is one the measure accounts for, and it is the step that the list makes for that decision |
| SegmentRun.TurnHangs | SegmentExecutionEngine/SegmentExecutionEngine.cpp:535-633 | after every turn, the links hold exactly the abort segments that have attached themselves, by the log, to the segment with which the engine goes on |
| SegmentRun.WaitingHasRun | SegmentExecutionEngine/SegmentExecutionEngine.cpp:478-533 | a segment that asked to be called again can go on iff it is not a plain one without a Run; a repeat never asks |
| SegmentRun.TurnOnCourse | SegmentExecutionEngine/SegmentExecutionEngine.cpp:458-649 | whatever a turn answers, what has been started stays what the list starts for the decisions made so far |
| SegmentRun.TurnMeans | SegmentExecutionEngine/SegmentExecutionEngine.cpp:458-649 | one turn lowers the measure if the run moves on, is paid for by the budget of starts, keeps the run on course, and ends it or lets it wait only for the answer of the last callback it made or at a segment to go on with that has no Run |
| SegmentRun.MovingSpends | SegmentExecutionEngine/SegmentExecutionEngine.cpp:443-650 | every move the engine can make, forward or by a repeat, lowers the measure, also with repeats that overlap |
| SegmentRun.SpendableBoundsStarts | SegmentExecutionEngine/SegmentExecutionEngine.cpp:443-650 | the number of starts so far never exceeds the budget |
| SegmentRun.SegmentList.constructor | SegmentExecutionEngine/RepeatSegment.cpp:218-237 | a validated list stands at its first segment, all repeats with all their rounds left and no links |
| SegmentRun.SegmentList.DeleteChainedConditionals | SegmentExecutionEngine/SegmentExecutionEngine.cpp:197-205 | the walk over the links ends, and afterwards the whole list has none |
| SegmentRun.SegmentList.RunChainedConditionals | SegmentExecutionEngine/SegmentExecutionEngine.cpp:391-439 | the links are followed through abort segments only, nearest first and no further than the first to object, and the answer is the verdict of the chain |
| SegmentRun.SegmentList.StartRepeat | SegmentExecutionEngine/RepeatSegment.cpp:100-132 | a repeat with rounds left spends one and branches to its target; one without gets all its rounds back and lets the run pass |
| SegmentRun.SegmentList.StartSegment | SegmentExecutionEngine/SegmentExecutionEngine.cpp:320-351 | the current segment is started, once, which is recorded, and answers as its command does |
| SegmentRun.SegmentList.RunSegment | SegmentExecutionEngine/SegmentExecutionEngine.cpp:478-533 | a segment runs only if no attached condition is true or fails, in which case that is its answer |
| SegmentRun.SegmentList.SkipConditionals | SegmentExecutionEngine/SegmentExecutionEngine.cpp:567-595 | the whole group of abort segments is passed over, and the segment it guards too |
| SegmentRun.SegmentList.Attach | SegmentExecutionEngine/SegmentExecutionEngine.cpp:601-616 | the chain grows by the segment right before the new current one |
| SegmentRun.SegmentList.Dispatch | SegmentExecutionEngine/SegmentExecutionEngine.cpp:535-633 | for every answer: where the run goes on, whether it ends or terminates, and that the links stay a contiguous run of aborts right before the current segment, to which an abort segment that attaches itself is added in front of the next one |
| SegmentRun.SegmentList.Respond | SegmentExecutionEngine/SegmentExecutionEngine.cpp:466-533 | the callbacks of a turn are those the engine may make then, a start for a new segment and otherwise its conditions and its Run; only a repeat touches its rounds and can branch, and every answer is the one of the last callback made |
| SegmentRun.SegmentList.TakeTurn | SegmentExecutionEngine/SegmentExecutionEngine.cpp:458-649 | one turn: the callbacks made, the answer they give, and the index, outcome and rounds that the engine makes of it |
| SegmentRun.SegmentList.Advance | SegmentExecutionEngine/SegmentExecutionEngine.cpp:458-649 | one round of the loop either stops or lowers the measure, keeps all indices in range and the run on its course; it terminates only for the answer of its last callback or at a segment that asked to run on and has no Run, and it waits only for a callback that asked to be called again |
| SegmentRun.SegmentList.ExecuteSegments | SegmentExecutionEngine/SegmentExecutionEngine.cpp:443-650 | a pass ends on every validated list whatever the callbacks answer: with the end of the list iff it has run off it, with termination iff its last callback gave an answer that ends a run or the segment to go on with is a plain one without a Run, and with "continue" iff its last callback asked for that; exactly the last callback waits, no segment goes on before all abort segments that hang on it have been asked and said "false", and what has been started stays what the list starts for the decisions made so far |
| SegmentRun.SegmentList.StopActiveSegment | SegmentExecutionEngine/SegmentExecutionEngine.cpp:209-247 | stopping leaves the current segment without links |
| SegmentRun.SegmentList.SkipSegment | SegmentExecutionEngine/SegmentExecutionEngine.cpp:290-316 | skipping goes on to the next segment or ends the list, and never raises the measure |
| SegmentRun.WhyItEnds | SegmentExecutionEngine/SegmentExecutionEngine.cpp:518-533 | the reasons for which a run is terminated, spelled out: an error, a condition without a verdict, or a segment that waits and has no Run |
| SegmentRun.Drive | SegmentExecutionEngine/SegmentExecutionEngine.cpp:921-935 | any sequence of timer ticks and skips: the number of starts is bounded in advance, each tick after which the list goes on has met exactly one callback that asked to be called again, termination has its reason in the answer of the callback made last, and without skips the starts stay on course across ticks |
| CallLog.NothingInTheWay | SegmentExecutionEngine/SegmentExecutionEngine.cpp:458-649 | if every callback succeeds, a log of callbacks that the engine may make ends no run, waits for nothing and leaves nothing out |
| SegmentRun.CourseStarts | SegmentExecutionEngine/SegmentExecutionEngine.cpp:458-649 | a run on course has started exactly what its list starts for the decisions made so far, to its end if it is there |
| SegmentRun.OnCourseMeans | SegmentExecutionEngine/SegmentExecutionEngine.cpp:458-649 | so what has been started is a beginning of any trace that its list runs through for the decisions made, and all of it once the run has ended |
| SegmentRun.CourseAccounts | SegmentExecutionEngine/SegmentExecutionEngine.cpp:458-649 | for a flattened program on course that is a beginning of what the program means if no inner loop is guarded, and of its unrolled loops if nothing was left out |
| SegmentRun.RunProgram | SegmentExecutionEngine/SegmentExecutionEngine.cpp:458-649 | running a flattened program, with callbacks that answer anything: what has been started is what its list starts for the decisions its abort segments made, to the end if the run ended by itself, and a beginning, or all, of what the program means, unless an inner loop is guarded and something was left out; no segment goes on before all that hang on it have been asked and said "false"; it is terminated only by the callback made last or because the segment that asked to be called again has no Run; it is still running after some ticks only if each of them met a callback that asked to be called again; and if all callbacks succeed, one tick starts the whole unrolled program and ends |
| SegmentRun.RepeatValidate | SegmentExecutionEngine/RepeatSegment.cpp:139-176 | a repeat is accepted iff it jumps strictly back, within the list, at least once |
| SegmentExtensions.FindTag | SegmentExecutionEngine/SegmentExecutionEngine.cpp:657-691 | the segment with the tag, or a negative index iff there is none |
| SegmentExtensions.SetupAllSegments | SegmentExecutionEngine/SegmentExecutionEngine.cpp:100-122 | afterwards each segment with a Setup owns an extension that this Setup made, no other does, and nothing is owned twice, whatever the list held before |
| SegmentExtensions.CleanupAllSegments | SegmentExecutionEngine/SegmentExecutionEngine.cpp:129-151 | what every segment with a Cleanup has is given back to that Cleanup, in order, and a null for one that has nothing |
| SegmentExtensions.CleanupSettlesIffOwning | SegmentExecutionEngine/SegmentExecutionEngine.cpp:129-151 | cleaning up a list whose books are balanced settles them, each extension going back to the Cleanup that belongs to its Setup, iff each segment with a Cleanup has an extension made for it and no other segment has one |
| SegmentExtensions.MoveExtensions | SegmentExecutionEngine/SegmentExecutionEngine.cpp:709-749 | segments that stay hand their extensions over to their successors and keep none, those that go are cleaned up, and the books stay balanced |
| SegmentExtensions.MoveNext | SegmentExecutionEngine/SegmentExecutionEngine.cpp:709-749 | one segment of the old list: its extension goes to the segment with its tag, or back to the application if there is none |
| SegmentExtensions.SetupNewSegments | SegmentExecutionEngine/SegmentExecutionEngine.cpp:752-792 | exactly the segments that are new and have a Setup get an extension |
| SegmentExtensions.ImportSegmentExtensions | SegmentExecutionEngine/SegmentExecutionEngine.cpp:698-793 | nothing is lost, given back twice or given to another command's Cleanup; the old list has let go of whatever it shares; the new list is left fit to run iff shared tags name the same command |
| SegmentExtensions.HandOverAndStop | SegmentExecutionEngine/SegmentExecutionEngine.cpp:698-793 | after a replacement and the cleanup of the new list, every extension has been given back once, in the Cleanup that belongs to its Setup, and nothing else, iff shared tags name the same command |
| SegmentExtensions.ReusedTag | SegmentExecutionEngine/SegmentExecutionEngine.cpp:698-793 | two lists that use one tag for two commands, for which this fails though each alone is in order |
| SegmentExtensions.BalancedMeansCleanedOnce | SegmentExecutionEngine/SegmentExecutionEngine.cpp:129-151 | balanced books with nothing held mean that every extension handed out was given back exactly once, and no null ever |
| SegmentExtensions.HeldMeansLive | SegmentExecutionEngine/SegmentExecutionEngine.cpp:698-793 | an extension held by a running list is held by one segment only and has not been given back |
| EngineProtocol.Engine.Begin | SegmentExecutionEngine/SegmentExecutionEngine.cpp:874-915 | the list is the only one in use, stands at its first segment and owns its extensions |
| EngineProtocol.Engine.Release | SegmentExecutionEngine/SegmentExecutionEngine.cpp:940-1003 | the active list is free again, no list is in use, and one end of the run is reported |
| EngineProtocol.Engine.Finish | SegmentExecutionEngine/SegmentExecutionEngine.cpp:940-1003 | no list is in use, all extensions are back, and one end of the run is reported |
| EngineProtocol.Engine.FindNewSegmentIndex | SegmentExecutionEngine/SegmentExecutionEngine.cpp:657-691 | where the current segment is in the new list, if it is there |
| EngineProtocol.Engine.Replace | SegmentExecutionEngine/SegmentExecutionEngine.cpp:1021-1034 | the new list alone is in use, and shared segments keep their extensions |
| EngineProtocol.Engine.SwitchTo | SegmentExecutionEngine/SegmentExecutionEngine.cpp:1021-1034 | the new list is the only one in use and is known from now on, and the old one is free and stands nowhere |
| EngineProtocol.Engine.Modify | SegmentExecutionEngine/SegmentExecutionEngine.cpp:1010-1037 | the run goes on at the same segment of the new list, or, if that was deleted, nothing changes and the request is refused |
| EngineProtocol.Engine.Handle | SegmentExecutionEngine/SegmentExecutionEngine.cpp:869-1073 | what every message does in either state; exactly the messages somebody waits for are answered, once; the list in use is the active one iff a run is under way |
| EngineProtocol.DeliverStart | SegmentExecutionEngine/SegmentExecutionEngine.cpp:874-915 | a start, waited for or not, is answered with success and seen by the application iff no list runs; then the list of the handle runs, from its first segment |
| EngineProtocol.DeliverPass | SegmentExecutionEngine/SegmentExecutionEngine.cpp:921-935 | a tick or a skip runs the segments of a running list and leaves it in use, at the index that they answer, and is refused or ignored otherwise |
| EngineProtocol.DeliverStop | SegmentExecutionEngine/SegmentExecutionEngine.cpp:940-1003 | a stop is seen by the application iff a list runs, as an end or a termination according to who sent it and how the last pass ended |
| EngineProtocol.DeliverReplacement | SegmentExecutionEngine/SegmentExecutionEngine.cpp:1010-1037 | a replacement is accepted iff a list runs whose current segment is in it; the run goes on at that segment, and the application sees nothing |
| EngineProtocol.Serve | SegmentExecutionEngine/SegmentExecutionEngine.cpp:850-1074 | one call on any list known by then: its answer, what the application sees of it and what the next call finds are those that the state it finds asks for; the list that a start makes run is the one of its handle, and a replacement becomes a list that can be started later |
| EngineProtocol.TickAndStop | SegmentExecutionEngine/SegmentExecutionEngine.cpp:921-1003 | a tick, and the stop the engine sends to itself after it: the run goes on iff the pass does, and its end is reported as what the pass found |
| EngineProtocol.IdleMeansSettled | SegmentExecutionEngine/SegmentExecutionEngine.cpp:940-1003 | when no list runs, the application has got back every extension it has handed out, once and in the Cleanup that belongs to its Setup |
| EngineProtocol.SuccessIsStart | SegmentExecutionEngine/SegmentExecutionEngine.cpp:874-915 | a request to start a list is answered with success iff the application sees a start |
| EngineProtocol.RunEngine | SegmentExecutionEngine/SegmentExecutionEngine.cpp:850-1074 | over any sequence of calls, on lists known at the start and on those that came out of replacements: each call is answered as the state it finds asks for and leaves the state the next one finds, which says which list runs and at which segment; the application has seen exactly the starts and ends that follow from that, these alternate, and whenever no list runs every extension has been given back exactly once |
| EngineRun.RunTick | SegmentExecutionEngine/SegmentExecutionEngine.cpp:921-935 | a tick of a program under way either waits, on course and with one more callback that asked to be called again, or has come to the end of what its list starts, or was terminated for a reason that its log of callbacks shows |
| EngineRun.RunTicks | SegmentExecutionEngine/SegmentExecutionEngine.cpp:921-1003 | ticks of a running list: the engine goes on iff the segments do, at their index, and reports one end of the kind the segments came to, which the log of callbacks explains |
| EngineRun.RunExperiment | SegmentExecutionEngine/SegmentExecutionEngine.cpp:869-1003 | a whole experiment: one start, one end; what has been started by then is what the list starts for the decisions its abort segments made, all of it if it ended by itself, and what the program means unless an inner loop is guarded and something was left out; a termination has its reason in the log of its callbacks, which holds only callbacks the engine may make at that point, with the answers given, and in which no segment goes on before all that hang on it have been asked; every extension is back once by then; and one tick starts the whole unrolled program and ends if all callbacks succeed |
| RequestReply.NextMatched | SegmentExecutionEngine/SegmentExecutionEngine.cpp:15-92 | each step keeps answers and reads in line with the requests: the engine answers the oldest request it has not answered, and a status is read only after it was written |
| RequestReply.NextOnePlace | SegmentExecutionEngine/SegmentExecutionEngine.cpp:15-92 | a request under way is in exactly one place: queued, being handled, answered but not posted, or posted |
| RequestReply.NextOwnKind | SegmentExecutionEngine/SegmentExecutionEngine.cpp:15-92 | whatever is under way is of the kind the caller waits for |
| RequestReply.EachReadsItsOwnReply | SegmentExecutionEngine/SegmentExecutionEngine.cpp:15-92 | under any interleaving, the i-th status read is read by the thread that sent the i-th request and is the engine's answer to that request; none is answered twice |
| RequestReply.NobodyWaitsForever | SegmentExecutionEngine/SegmentExecutionEngine.cpp:15-92 | a waiting caller has been posted or the engine thread still has work to do |
| RequestReply.RequestIsServed | SegmentExecutionEngine/SegmentExecutionEngine.cpp:15-92 | whatever has happened before, at rest a thread can lock and ask, and once the engine has answered it reads the status that was written for it; then all is at rest again |
| SegmentParse.EncodeLayout | SegmentTest/SegmentTest.cpp:23-44 | the bytes of a segment are the four letters of the magic word, its id and its tag, each in four bytes with the lowest first, and then the data |
| SegmentParse.EncodeAllSplit | SegmentTest/SegmentTest.cpp:50-76 | a list can be cut between any two segments: its bytes are those of the first part and then those of the second |
| SegmentParse.DecodeEncode | SegmentExecutionEngine/ParseSegmentList.cpp:272-330 | the segment at the front of a buffer is read as it was written, whatever follows |
| SegmentParse.ParseOne | SegmentExecutionEngine/ParseSegmentList.cpp:189-374 | reading a registered segment with a new tag and then the rest is reading the rest with that segment read |
| SegmentParse.RoundTrip | SegmentExecutionEngine/ParseSegmentList.cpp:272-354 | registered segments with distinct tags come back as they were |
| SegmentParse.FirstRepeatIsReported | SegmentExecutionEngine/ParseSegmentList.cpp:110-136 | the first segment whose tag repeats an earlier one is the one reported, whatever follows it |
| SegmentParse.UnknownIsReported | SegmentExecutionEngine/ParseSegmentList.cpp:272-284 | a segment that is not one, or of a command nobody registered, is reported with its index |
| SegmentParse.ParseExplained | SegmentExecutionEngine/ParseSegmentList.cpp:272-354 | whatever the parser answers is true of the buffer: it is the encoding of what was read, up to its end or to the reported segment |
| SegmentParse.ReadOneMore | SegmentExecutionEngine/ParseSegmentList.cpp:272-354 | one turn of the parsing loop does what the parse does at the front of the rest of the buffer |
| SegmentParse.AcceptsExactlyEncodings | SegmentExecutionEngine/ParseSegmentList.cpp:189-374 | a buffer is read as given segments iff it is their encoding and they are registered with distinct tags |
| SegmentParse.FindSegmentCommand | SegmentExecutionEngine/ParseSegmentList.cpp:80-102 | the command whose segment comes next, iff there is one; it reads no further than it has to |
| SegmentParse.CheckForDuplicateSegmentIds | SegmentExecutionEngine/ParseSegmentList.cpp:110-136 | true iff the last tag occurs earlier |
| SegmentParse.ValidateAllSegments | SegmentExecutionEngine/ParseSegmentList.cpp:144-184 | the first segment that objects is reported, and the list stands iff none does |
| SegmentParse.SeCreateSegmentList | SegmentExecutionEngine/ParseSegmentList.cpp:189-374 | the loop computes the parse and then the verdict of the segments' own checks |
| CanFraming.NumPackets | TaCanProtocol/SendCanbusMessage.cpp:332-377 | as few packets as hold the payload, one for an empty payload, and at most 255 |
| CanFraming.FragmentIsMessage | TaCanProtocol/SendCanbusMessage.cpp:302-380 | the packets of a payload are numbered 1 to k of k, all but the last are full, and together they carry the payload |
| CanReassembly.NextReachable | TaCanProtocol/ReceiveCanbusMessage.cpp:155-363 | a buffer is idle or holds the packets 1 to cur of a message of more packets, six bytes each |
| CanReassembly.ComplaintsAreExact | TaCanProtocol/ReceiveCanbusMessage.cpp:209-350 | each of the five complaints is made iff the packet has that fault; a packet without fault is taken in, or completes the message if it is the last |
| CanReassembly.SlotMovesOn | TaCanProtocol/ReceiveCanbusMessage.cpp:209-350 | a packet that is taken in extends the buffer by its bytes, and after any other the buffer is idle |
| CanReassembly.EachPacketCounts | TaCanProtocol/ReceiveCanbusMessage.cpp:209-350 | on every stream, the packets taken in, the deliveries and the complaints add up to the packets |
| CanReassembly.SlotSoundness | TaCanProtocol/ReceiveCanbusMessage.cpp:155-363 | on every stream, what a buffer holds is the payload of the last packets received |
| CanReassembly.DeliverySoundness | TaCanProtocol/ReceiveCanbusMessage.cpp:209-350 | every delivery on every stream is the payload of consecutive packets 1 to k of k |
| CanReassembly.DeliveriesComeFrom | TaCanProtocol/ReceiveCanbusMessage.cpp:209-350 | the deliveries of a stream are the payloads of runs of packets 1 to k of k, in order and without a packet in common, and none of them is part of what the buffer still holds |
| CanReassembly.IdleDelivers | TaCanProtocol/ReceiveCanbusMessage.cpp:209-350 | an idle buffer delivers a complete message once, at its last packet, without complaint, and is idle again |
| CanReassembly.RoundTrip | TaCanProtocol/SendCanbusMessage.cpp:302-380 | every payload of up to 1530 bytes arrives as it was sent, once |
| CanReassembly.BusyLoses | TaCanProtocol/ReceiveCanbusMessage.cpp:209-260 | a buffer in the middle of another message loses a complete message but is idle after its first packet |
| CanReassembly.Resynchronises | TaCanProtocol/ReceiveCanbusMessage.cpp:209-350 | from any reachable state, all of a series of messages are delivered intact, except the first if the buffer was busy |
| CanReassembly.PartStep | TaCanProtocol/ReceiveCanbusMessage.cpp:433-578 | a buffer that only ever sees packets of one message holds a beginning of it, in whatever order they come |
| CanReassembly.RetryIntegrity | TaCanProtocol/ReceiveCanbusMessage.cpp:433-578 | under loss, duplication and reordering of one message's packets, every delivery is that message |
| CanReassembly.NeverSplicedIffStayApart | TaCanProtocol/ReceiveCanbusMessage.cpp:209-350 | for any two messages: on every stream drawn from both, under loss, duplication and reordering, every delivery is one of the two, iff their packet counts differ or of any two places they agree in one |
| CanReassembly.PayloadsNeverSplicedIffStayApart | TaCanProtocol/ReceiveCanbusMessage.cpp:209-350 | the same condition on the payloads, six bytes at a time, which a sender can check |
| CanReassembly.TwoMessagesCanSplice | TaCanProtocol/ReceiveCanbusMessage.cpp:209-350 | a stream on which half of one payload and half of another are delivered as one |
| CanReceive.ReceiveStruct.Reassemble | TaCanProtocol/ReceiveCanbusMessage.cpp:209-350 | the buffer, written in place, does one step of the state machine |
| CanReceive.Receiver.Add | TaCanProtocol/ReceiveCanbusMessage.cpp:160-208 | a new id gets an idle buffer of its own, and the others keep theirs |
| CanReceive.Receiver.Update | TaCanProtocol/ReceiveCanbusMessage.cpp:155-363 | a packet changes the buffer of its id only |
| CanReceive.Receiver.Receive | TaCanProtocol/ReceiveCanbusMessage.cpp:367-591 | a packet is ignored, or moves the buffer of its id one step and is reported: deliveries, complaints, and one answer per command that was delivered |
| CanReceive.ReactionAnswered | TaCanProtocol/ReceiveCanbusMessage.cpp:455-591 | the events of one packet hold an acknowledgement iff a command was completed and the application took it, a refusal iff it was completed and not taken, and no other answer |
| CanReceive.EachCommandAnsweredOnce | TaCanProtocol/ReceiveCanbusMessage.cpp:455-591 | in the events of any stream, each delivered command is followed at once by one answer to its id, and each answer follows such a delivery |
| CanReceive.SlotsAreIndependent | TaCanProtocol/ReceiveCanbusMessage.cpp:155-363 | after any interleaving, the buffer of an id is as if only its own packets had come |
| CanReceive.IdsAreIndependent | TaCanProtocol/ReceiveCanbusMessage.cpp:155-363 | so are the deliveries of an id, and every command delivered has been answered |
| CanReceive.DeliveredWasSent | TaCanProtocol/ReceiveCanbusMessage.cpp:155-363 | whatever else is on the bus, what is delivered for an id comes from complete messages of that id alone: packets 1 to k of k that follow each other among those of the id, the messages in order and no packet in two of them |
| CanReceive.FaultsAreReported | TaCanProtocol/ReceiveCanbusMessage.cpp:209-350 | on every stream, a packet that is not ignored is followed at once by the one complaint that says what is wrong with it, iff something is; and it makes nothing visible iff it is ignored or taken in |
| CanReceive.NothingVanishes | TaCanProtocol/ReceiveCanbusMessage.cpp:155-363 | for every id, the packets taken in, the payloads delivered and the complaints about that id add up to its packets |
| CanSend.SendPackets | TaCanProtocol/SendCanbusMessage.cpp:332-377 | the packets written are the first ones of the payload's packets, up to the first write that fails |
| CanSend.SendExtAnnouncementMessage | TaCanProtocol/SendCanbusMessage.cpp:302-380 | success iff all writes succeed, and then all packets were sent once; too long a payload is refused unsent |
| CanSend.SendFullPackets | TaCanProtocol/SendCanbusMessage.cpp:332-350 | the loop over the full packets writes them in order up to the first write that fails |
| CanSend.SendUntilAnswered | TaCanProtocol/SendCanbusMessage.cpp:440-526 | the loop of attempts: how many there are, what they have written, and the code left behind by the last wait |
| CanSend.SendExtCommandMessage | TaCanProtocol/SendCanbusMessage.cpp:384-545 | what is sent is the payload's packets, over and over until the first wait that does not time out, at most three times; "failed" is answered only for the first write that fails, in the attempt counted last and after all earlier waits timed out, "timeout" iff all three waits timed out, and otherwise what the wait after the last attempt brought is reported |
| CanSend.RepeatedIs | TaCanProtocol/SendCanbusMessage.cpp:440-518 | so many attempts are so many times the packets of the payload, packet i of each being packet i of the payload |
| CanSend.RetriesMeaning | TaCanProtocol/SendCanbusMessage.cpp:498-518 | all waits before the last one timed out, and the last one did not unless the retries are used up |
| CanSend.RetriesEnd | TaCanProtocol/SendCanbusMessage.cpp:498-518 | the retries are used up iff all three waits time out, and otherwise the loop ends at the one wait that is the first not to |
| CanSend.ReportIsTheReceiversIffNoWaitFails | TaCanProtocol/SendCanbusMessage.cpp:507-535 | what is reported does not depend on uninitialised memory iff the wait that ends the loop did not fail |
| CanSend.FailedWaitReportsMemory | TaCanProtocol/SendCanbusMessage.cpp:507-535 | a run in which it does: the first wait fails, and whatever memory holds is reported |
| CanSend.TimeoutReportNeedsEqualLimits | TaCanProtocol/SendCanbusMessage.cpp:503-535 | the loop and the report have a constant each, both 3 (`inc/canbus_bits.h:96` and `:109`); for any two values, timeouts would be reported exactly iff they are equal |
| CanSend.CommandIntegrity | TaCanProtocol/SendCanbusMessage.cpp:440-518 | whatever part of the attempts gets through, the receiver delivers only the command's payload |
| MessageQueue.NextCounted | MessageQueue/MessageQueue.cpp:130-172 | every queued message is counted once: by the semaphore, by a producer about to post it, or by a consumer about to pop it |
| MessageQueue.NothingLostOrReordered | MessageQueue/MessageQueue.cpp:130-247 | under any interleaving nobody pops an empty list, and popped and queued messages together are the pushed ones in order |
| MessageQueue.AtRestWaitsIffEmpty | MessageQueue/MessageQueue.cpp:226-247 | between operations, a consumer is let through iff a message is queued |
| MessageQueue.NoMessageIsStranded | MessageQueue/MessageQueue.cpp:130-247 | while a message is queued, some thread can go on or a newcomer is let through |
| MessageQueue.MessageGetsThrough | MessageQueue/MessageQueue.cpp:130-247 | whatever has happened before, on an empty queue the message that one thread queues is the one that the next thread to wait gets |
| MessageQueue.NapsFillTimeout | MessageQueue/MessageQueue.cpp:196-223 | the naps of a wait for nothing add up to the timeout exactly, and none is longer than 20 ms |
| MessageQueue.NapsAre | MessageQueue/MessageQueue.cpp:196-223 | the naps are as many of 20 ms as fit, then one of 10 and one of 5 if they fit, and what is over |
| MessageQueue.Queue.TimedWait | MessageQueue/MessageQueue.cpp:196-231 | the wait ends; it gives up only after the whole timeout with nothing there, and otherwise stops at the first look that finds a message |
| MessageQueue.WaitAmongOthers | MessageQueue/MessageQueue.cpp:196-231 | the same wait with any other producers and consumers at work between its looks: it is let through at the first look that finds something left for it, and then takes the oldest message; it gives up only after the whole timeout, every look in vain |
| MessageQueue.Queue.QueueMessage | MessageQueue/MessageQueue.cpp:130-172 | the message is the last of the queue |
| MessageQueue.Queue.DequeueMessage | MessageQueue/MessageQueue.cpp:176-271 | the oldest message is taken, with its id and as much of its data as fits, or nothing came in time and nothing changes |
| MessageQueue.CopyOut | MessageQueue/MessageQueue.cpp:249-265 | the buffer holds as much of the data as fits, the rest of it is untouched, and the length says how much |

## Left out

- Delays.ChangeWindows: asks for a list of the same inputs, as the program's assertions do for those it looks at; the sentinel after the list is not modelled.
- Sessions.RunSession: takes only changes of windows that do not abort the program, and puts each into force at once.
- SignalTable.InitCalculator: assumes that every input id is registered, that ids are distinct and that no signal lists itself; with one that does, the program goes on into a recursion over the delays that does not end.
- CanSend.SendExtCommandMessage: what memory holds when a wait fails is the parameter `memory`; a null pointer for the data is not modelled.
- CanReceive.Receiver.Receive: an arbitration id is a record of its fields; its bit layout, the matching of acknowledgements with waiting senders and the error counters are not modelled, and announcements and commands share one model of the state machine that the source has twice.
- SegmentRun.SegmentList.ExecuteSegments: claims about the links are about fresh lists; when a list ends on an attaching abort segment its last link stays behind, and the contract says so.
- SegmentRun.SegmentList.StartSegment: leaves out the Lock, Unlock and logging callbacks around Start.
- SegmentRun.SegmentList.RunSegment: leaves out the Stop callback of a segment that an attached condition ends.
- SegmentRun.SegmentList.StopActiveSegment: leaves out the Stop callback of the current segment.
- EngineProtocol.Engine.Handle: the outcome of a pass over the segments is a parameter; `EngineRun` supplies it from `SegmentRun` for lists that are not replaced under way. A replacement is taken only while the current index is inside the list; the program reads past the list if one arrives between the end of the list and the stop that the engine sends to itself. That stop carries no run, so no claim is made that it ends the run that sent it, unless it is handled next as in `EngineProtocol.TickAndStop`.
- EngineProtocol.RunEngine: assumes that Setup answers with a fresh value and never with null, that each command has both a Setup and the Cleanup that belongs to it or neither, and that a tag names the same command in all lists; it stops at the first replacement that comes too late in the sense of the line before. Where a pass over the segments leaves the run is a parameter here.
- EngineProtocol.Engine.Finish: does not stop the current segment first, so its Stop callback is left out.
- EngineProtocol.Engine.Replace: leaves out the Modify callback of the segment that goes on.
- SegmentParse.SeCreateSegmentList: asks for a buffer that ends where a segment ends; the program does not compare the remaining length with the segment's.
- SegmentParse.FindSegmentCommand: asks for a buffer that holds a header; the program reads past a shorter one.
- MessageQueue.Queue.TimedWait: only producers act during this wait; `MessageQueue.WaitAmongOthers` has consumers too.
- MessageQueue.Queue.DequeueMessage: the wait without a timeout blocks, so it appears only in the step model; interrupted waits are not modelled.
- Vertices of the graph and their edge lists are a map from the vertex to its edges, and calculated signals are records in a sequence rather than objects, so aliasing between them is not modelled. A segment list has two models, one for what it runs and one for what its segments own; `EngineRun` joins them for the run of one list, and a replacement under way exists only in the second.
- Windows are not negative, and calculations look only into the windows they declare.
- What a replaced list does to the counts of a repeat whose count has changed, and to conditions attached to the old list.
- Synchronised callbacks that register or unregister callbacks themselves, and `SmUnregisterDataSyncedCallback`.
- Repeats whose condition comes from outside (`SegmentHelpers/ISegmentRepeatUntil.cpp`), which need not end, and the searches of `SegmentExecutionEngine/FindSegments.cpp`.
- Locks around the segment callbacks, thread priorities, real time, failing memory allocation, floating-point arithmetic and overflow of the global index.
- The CAN driver, the read thread, sockets and the instrument interface, logging, GPIO, timers, the data store, system events and the work queue: they pass data on and keep no state that the properties above depend on.
