# A verified model of the tutoring engine's core

The repository plans what a learner studies next, keeps a running estimate of what they know,
cuts their sources into retrievable chunks, and stores all of that so that a crash, a late
event or two answers at once do no harm. This project models that logic in Dafny and proves
what holds of it: over every input, and for the parts with state over every run.
`dafny verify dfyconfig.toml` checks the whole project.

## What is modelled

**The plan** (`Prerequisites`, `TopoSort`, `PlanSteps` to `PlanOutcome`, `PlanAccounts`). Stored
prerequisite edges are filtered until they have no cycle, the targets are closed backwards, and the closure
is sorted by Kahn's algorithm with a total tiebreak. `ReviseSteps` follows `revise_steps` pass
by pass (closing, dropping, inserting, reviews, stable sort, numbering, activation, hints) and
is proved equal to one composed function, `Revised`. On that function rest the invariant, the
exact set of open detours and their places, the fixed point, and the theorems over runs of
revisions and decisions, with the horizon that lets deferred components in under a cap.
`PlanAccounts` says of every step of a revised plan where it comes from and, if it was closed,
why and with which outcome.

**The chunker** (`Text` to `ChunkCoverage`, with `Words` and `Patterns`). Normalising, segmenting
by line rules, folding
short blocks into prose, windowing with overlap and boundary search, and splitting oversized
blocks into parts that repeat their frame. The loops carry the source's offsets; a piece's
place in the text is part of every coverage statement. Segmenting is proved for any line
recognisers whatever, the later stages for any under which a line of nothing but line breaks is
prose; the repository's own recognisers are written out, shown to be such, and said to match
what `Patterns` says of the characters of a line. `Words` says what normalising does to words
and lines.

**Mastery** (`Estimates`, `Evidence`, `Passing`, `MasteryRow`, `MasteryRuns`, `HeadStarts`,
`MasteryStore`). The event log is the truth and the state row a cache. What the log implies is
defined from the log alone; each write is an action on one component; the theorems say that
every run of actions, in whatever order they are logged, leaves row and log in agreement, but
for transfer, whose exact condition is given. The class `Store` performs the writes in
place, several components at a time and in the source's order, and each method is proved to be
exactly those actions on the components it names and nothing elsewhere.

**Concurrent answers** (`Locks`, `ConcurrentAnswers`). A transition system of any number of
transactions that look, insert if absent, reread under lock, write and commit or abort, with row
locks held to the end. It is proved for any work done in ascending row order, and then applied
to `record_observation`, down to what every committed row is in terms of its own log.

**Ingestion** (`Ingestion`, `IngestionRun`). Committed state is a value and the commits of a run
a sequence; crashing is keeping a beginning of it. The class `Worker` performs the stages with
uncommitted work beside committed state, and its commits are shown to be that sequence.

**Smaller cores.** The estimator's arithmetic over the reals (`Tracer`, `Rollup`), the 64-column
SimHash (`SimHash`), the merge of study notes under an arbitrary model reply (`NoteDistill`), and
the alert transition log (`AlertHistory`).

## Where the code and its promises differ

The model follows the code; each of these has a concrete instance or an exact condition.

- The horizon says deferred components come after those planned, but `build_initial_steps`
  numbers the arrivals from zero again and the revision sorts by that number, so an arrival can
  be taught before components that were open already, its own prerequisites among them. Of an
  open step and an arrival the arrival comes first exactly when its new number is below the
  step's place (`TaughtFirstExactlyWhen`, `PrerequisitesFirstExactlyWhen`,
  `ExtensionInOrderExactlyWhen`), so some order is wrong whenever two are open
  (`OpenStepsAreOvertaken`); one revision after a chain of four was generated, the last component
  is taught before the third (`ExtensionOutOfOrder`, `PrerequisiteOvertaken`). What does hold is
  that no component is planned before its prerequisites are (`GeneratePlan`), and that the plan
  so stored is in every other respect as a revision leaves it (`ExtendedIsSettled`,
  `ExtendIsCurrent`).
- An offer made for a component without an open new step is inserted and then dropped by the very
  next revision (`OfferSurvivesExactlyWhenAimed`, with an instance in `OfferIsDropped`). Runs are
  therefore taken with offers aimed at open new steps, which is how the planning service makes
  them.
- `_mark_evidence` relies on more evidence never undoing a shown transfer. In the order observed it
  cannot (`TransferStays`); an attempt that was observed earlier but logged later can
  (`TransferUndoneExactlyWhen`). A late self-rating can even make a transfer out of a success
  that was none. A self-rating does not mark the row, so after either the row says what the log
  does not (`RatingAgreesExactlyWhen`, with instances of both kinds in `LateRatingUndoesTransfer`
  and `LateRatingMakesTransfer`). Nothing else can put transfer and log apart
  (`ActAgreesExactlyWhen`), the next answer puts them right, and estimate, retention and
  achievement are never affected (`EveryRunReplays`).
- Learner-written atoms that share an id are restored from one of them; the others are lost
  (`SharedIdLosesOne`, `MergeKeepsLearnersExactlyWhen`).
- A run that starts at extraction does not look at rows already staged. With stale ones it publishes
  them (`StartingOverIsRightExactlyWhen`, `StaleRowIsPublished`); the service's reset deletes
  them first.

## Model

| member | source | states |
|---|---|---|
| Prerequisites.Reaches | app/learning/prerequisites.py:94-106 | the stack search answers yes exactly when a path of kept edges leads from start to goal, and it ends although a node can be stacked twice |
| Prerequisites.Acyclic | app/learning/prerequisites.py:109-139 | the loop returns the kept and the dropped edges of the specification, and what it keeps has no cycle |
| Prerequisites.KeptIsAcyclic | app/learning/prerequisites.py:109-139 | no cycle survives in the kept edges of any edge list |
| Prerequisites.KeptPrefixStable | app/learning/prerequisites.py:109-139 | the edges kept of a beginning of the list are a beginning of the edges kept of the whole |
| Prerequisites.KeptDroppedPartition | app/learning/prerequisites.py:109-139 | kept and dropped together are the input, counted with repetition, and each keeps the input's order |
| Prerequisites.DroppedExactlyWhenClosing | app/learning/prerequisites.py:128-138 | the i-th edge is dropped exactly when it closes a cycle against the edges kept before it |
| Prerequisites.KeptIsMaximal | app/learning/prerequisites.py:109-139 | putting any dropped edge back into the final kept list makes a cycle |
| Prerequisites.WholeExactlyWhenAcyclic | app/learning/prerequisites.py:109-139 | the input comes back whole exactly when it has no cycle |
| TopoSort.TopoSort | app/learning/lesson_plan.py:226-274 | the loop over indegrees emits, at every step, the smallest free node, or reports what is left |
| TopoSort.OrdersExactlyWhenPossible | app/learning/lesson_plan.py:226-274 | an order is returned exactly when the edges inside the set admit one at all |
| TopoSort.ResultIsLexLeast | app/learning/lesson_plan.py:238-274 | with distinct keys the order returned is lexicographically least among all orders that respect the edges |
| TopoSort.ResultIsUnique | app/learning/lesson_plan.py:226-274 | two edge lists with the same edges, whatever their order and repetitions, give the same result, leftovers included |
| TopoSort.NextIsSmallest | app/learning/lesson_plan.py:247-274 | in terms of tiebreaks and ids only: whatever else could have come next has no smaller tiebreak, is unknown where the emitted one is known, and among unknown ones has no smaller id |
| TopoSort.WithoutEdgesAscends | app/learning/lesson_plan.py:247-274 | components without edges among them come out in ascending tiebreak, known before unknown, these by id |
| TopoSort.LeftoversAscend | app/learning/lesson_plan.py:204-223 | what is reported as left over stands in the same order |
| TopoSort.DistinctExactlyWhen | app/learning/lesson_plan.py:238-246 | the keys are distinct exactly when no two known components share a tiebreak |
| TopoSort.StuckIsLargest | app/learning/lesson_plan.py:204-274 | the leftovers are the largest set of nodes each of which has an in-set prerequisite in that set |
| TopoSort.SupportGivesCycle | app/learning/lesson_plan.py:204-223 | any such nonempty set of leftovers lies on a real cycle of the edges |
| TopoSort.NeverCyclic | app/services/lesson_plan.py:479-490 | after the cycle-closing edges are dropped the sort never raises |
| TopoSort.PrerequisiteClosure | app/learning/lesson_plan.py:187-201 | the queue collects exactly the nodes from which some target can be reached |
| TopoSort.PlanObjective | app/services/lesson_plan.py:479-490 | dropping, closing and sorting in that order gives each component of the closure once, after all its kept prerequisites, in the least such order |
| TopoSort.ObjectivePrefixIsClosed | app/services/lesson_plan.py:487-490 | every beginning of the objective holds the kept prerequisites of what it holds |
| PlanRevision.ReviseSteps | app/learning/lesson_plan.py:510-771 | the passes in the source's order compute the specification `Revised`, on which the theorems below rest |
| PlanRevision.ApplyEvidence | app/learning/lesson_plan.py:605-620 | the closing loop marks mastered steps and detours and disproved ones, as the per-step rule says, and leaves closed steps alone |
| PlanRevision.InsertDetours | app/learning/lesson_plan.py:638-685 | the triggers are taken one after another, each seeing the detours the earlier ones opened |
| PlanRevision.RefreshReviews | app/learning/lesson_plan.py:687-710 | reviews no longer due are closed and one review is added for each due component not covered |
| PlanRevision.AddMissing | app/learning/lesson_plan.py:696-710 | a component due twice gets one review |
| PlanRevision.Reactivated | app/learning/lesson_plan.py:740-746 | whatever was active before, the first teachable step and no other is active after |
| PlanAccounts.EveryStepIsAccountedFor | app/learning/lesson_plan.py:605-771 | each step of a revised plan is a closed step as it was, an open one closed for a reason that holds and with the outcome that reason has (mastered, or disproved for one taken, opened, not external and not mastered), an open one still open with only place, hints and active mark changed, a detour opened for one of the triggers, or a review of a due component |
| PlanAccounts.WhatCanCloseIsClosed | app/learning/lesson_plan.py:605-694 | and the other way: whatever open step the evidence gives a reason to close is in the revised plan, closed, with the outcome of that reason |
| Sorting.StableSortUnique | app/learning/lesson_plan.py:736-736 | any sorted arrangement that leaves elements with equal keys as they stood is the one computed here, so the model does not depend on the sorting algorithm |
| Sorting.StableSortIsStable | app/learning/lesson_plan.py:736-736 | the sort leaves elements with equal keys in the order they stood |
| PlanInvariants.RevisionEstablishes | app/learning/lesson_plan.py:593-771 | from any plan with a sound core: order is position, exactly one step is active when any is open and it is the first teachable one, no component is new twice or in two open detours or reviews, outcomes and start times fit the status, every offer has its open new step, and the open reviews are exactly the due ones |
| PlanInvariants.RevisionKeepsCore | app/learning/lesson_plan.py:593-771 | the part of the invariant that does not mention targets survives even a misaimed trigger |
| PlanInvariants.DecisionKeeps | app/learning/lesson_plan.py:774-803 | accepting or skipping a detour keeps the whole plan invariant |
| PlanInvariants.ExtendedKeepsCore | app/services/lesson_plan.py:677-684 | appending bare steps for components not yet planned keeps the core |
| PlanOutcome.OpenDetoursExactlyWhen | app/learning/lesson_plan.py:605-685 | after a revision a detour to a component is open exactly when one was and goes on, or a trigger asked for one that counts |
| PlanOutcome.RevisedIsInTeachingOrder | app/learning/lesson_plan.py:712-738 | taken detours stand before due reviews, these in due order before all else that is open, closed steps last; between an offer and the step it is for there are only offers for the same step; new steps may share an order, as they do after an extension, as long as only the foremost of them has offers |
| PlanRevision.DecideDetour | app/learning/lesson_plan.py:774-803 | the decision is refused exactly when no open detour to the component exists, or on accepting one that is not an offer |
| PlanOutcome.DecisionIsGivenOnce | app/learning/lesson_plan.py:774-803 | one open detour is answered and no other step touched; afterwards nothing is left to accept, and something to skip only if the answer was to accept |
| PlanFixpoint.RevisedIsSettled | app/learning/lesson_plan.py:593-771 | a revised plan is one every pass of a revision leaves alone, whether or not new steps shared an order before |
| PlanFixpoint.SettledIsFixed | app/learning/lesson_plan.py:593-771 | revising such a plan on the same evidence returns it unchanged |
| PlanFixpoint.RevisingTwiceIsRevisingOnce | app/learning/lesson_plan.py:593-771 | a second revision on the same evidence and without a trigger changes nothing, steps, order, active step and hints included |
| PlanFixpoint.ExtendedIsSettled | app/services/lesson_plan.py:676-695 | the plan stored after an extension, whose arrivals are numbered from zero again, is left alone by a further revision on the same evidence |
| PlanFixpoint.OfferSurvivesExactlyWhenAimed | app/learning/lesson_plan.py:622-682 | an offer just inserted survives the next revision exactly when it was made for an open new step that the evidence does not finish |
| PlanOutcome.OfferIsDropped | app/learning/lesson_plan.py:622-682 | an instance: in a plan for one component an offer for another is inserted by one revision and gone after the next |
| PlanFixpoint.OpenNewIsOld | app/learning/lesson_plan.py:605-636 | a revision opens no new step: each one left open was open before and is not mastered |
| PlanHistory.ClosedStepsStay | app/learning/lesson_plan.py:605-771 | each closed step is there after the revision as often as before, only its order changed |
| PlanHistory.HistoryIsKept | app/learning/lesson_plan.py:593-803 | through any sequence of revisions, extensions and decisions each closed step stays with its status, outcome, hints and stamps, as often as it was there |
| PlanHorizon.RevisedNewSteps | app/learning/lesson_plan.py:712-738 | the open new steps after a revision are the unmastered ones before it, stably sorted by their old order |
| PlanHorizon.RevisionKeepsTeachingOrder | app/learning/lesson_plan.py:712-738 | in a plan whose order is its position a revision never swaps two open new steps |
| PlanHorizon.ExtensionInOrderExactlyWhen | app/services/lesson_plan.py:671-695 | the components a revision brings in are taught after the open ones exactly when no open unmastered step stands further back than the renumbered arrival's position |
| PlanHorizon.TaughtFirstExactlyWhen | app/services/lesson_plan.py:671-695 | an open unmastered step is taught before an arriving one exactly when its place in the plan is at most the arrival's new number, and after it otherwise |
| PlanOrder.PrerequisitesFirstExactlyWhen | app/services/lesson_plan.py:671-695 | every arrival is taught after its open kept prerequisites exactly when none of them stands further back than the arrival's number |
| PlanOrder.OpenStepsAreOvertaken | app/services/lesson_plan.py:671-695 | with two unmastered steps open and an unmastered arrival the teaching order is never the objective's |
| PlanOrder.ExtensionOutOfOrder | app/services/lesson_plan.py:671-695 | an instance from generation on: four components under a cap of three, then the first mastered; the plan stored next does not teach the remaining three in the objective's order |
| PlanOrder.PrerequisiteOvertaken | app/services/lesson_plan.py:671-695 | the same instance with the four in a chain of kept edges: the last component is taught before the third, its own prerequisite |
| PlanRuns.ExtensionKeepsWindow | app/learning/lesson_plan.py:486-507 | the planned components stay a beginning of the objective, exactly as far as the room under the cap allows |
| PlanRuns.ActKeeps | app/services/lesson_plan.py:602-700 | one revision or decision keeps invariant, window and cap, never defers more, and defers strictly less when an open new step was finished; one that revises leaves the plan current, as below, and one that raises leaves it as it was |
| PlanRuns.MasteredIsNotTaught | app/services/lesson_plan.py:671-695 | once the plan is extended no open new step is for a component that the evidence masters or that arrived mastered |
| PlanRuns.DetoursSurviveExtension | app/services/lesson_plan.py:681-695 | a taken detour the revision leaves open, to a disproved component as well, is still open after the extension unless its component arrived mastered |
| PlanRuns.GeneratedWindowed | app/services/lesson_plan.py:487-514 | a generated plan is sound and current and holds as much of the objective's beginning as the cap allows |
| PlanRuns.EveryReachablePlanIsSound | app/services/lesson_plan.py:500-695 | every plan reached from a generated one by any legal run of revisions and decisions satisfies invariant, window and cap, has exactly its first teachable step active, has open reviews for exactly the due components of the latest evidence, stands in teaching order, and in each open step carries the checks and teaching parameters that evidence asks for |
| PlanRuns.ExtendIsCurrent | app/services/lesson_plan.py:671-695 | pulling deferred components in keeps a revised plan's active step, due reviews and teaching order right |
| PlanRuns.EveryReachablePlanSettles | app/learning/lesson_plan.py:593-771 | revising twice is revising once on every reachable plan, whatever the evidence |
| PlanRuns.ApplyingTwiceIsApplyingOnce | app/services/lesson_plan.py:602-700 | the whole revision, horizon extension included, changes nothing the second time on the same evidence, as long as no component it pulled in was found mastered already |
| PlanRuns.WholeObjectiveIsPlanned | app/learning/lesson_plan.py:486-507 | if open new steps keep finishing, the whole objective is planned after at most as many steps as there are deferred components |
| PlanOrder.PlannedHoldsPrerequisites | app/services/lesson_plan.py:487-491 | no component is planned without its kept prerequisites being planned |
| PlanOrder.GeneratePlan | app/services/lesson_plan.py:482-514 | filtering, closing, sorting and taking the first window gives a plan that, whatever legal run follows, never holds a component without its kept prerequisites |
| Text.RFindIsLast | app/rag/chunking.py:202-214 | the search backwards returns the last occurrence lying wholly in the range, or minus one when there is none |
| Text.LinesAreLines | app/rag/structure.py:75-78 | splitting with line ends kept gives nonempty lines with at most one line break, at the end |
| Text.JoinOfSplit | app/rag/chunking.py:153-158 | joining a text's lines with line breaks gives back the text |
| Windows.CutBounds | app/rag/chunking.py:202-214 | a cut is the window's end or lies beyond its middle, so it always makes progress |
| Windows.NextStartBounds | app/rag/chunking.py:238-254 | each start strictly advances, is never past the window's end, and the pull-back to a line start costs less than one extra overlap |
| Windows.CutFallsOnBoundary | app/rag/chunking.py:202-214 | the cut is behind the last blank line if that lies past the middle, otherwise behind the last line break that does, otherwise behind the last space that does, otherwise at the end |
| Windows.NextStartsAtLine | app/rag/chunking.py:238-254 | the next start is one overlap before the end, pulled back behind the last line break within one more overlap if there is one |
| Windows.MakeWindows | app/rag/chunking.py:217-235 | the loop ends for any size and overlap and emits the trimmed nonblank windows of the specification with their offsets |
| Windows.RawIsChained | app/rag/chunking.py:217-254 | windows start at the beginning, reach the end, are at most `size` long and never leave a gap |
| Windows.RawSteps | app/rag/chunking.py:217-235 | each window ends at its cut or the text's end and the next starts where the overlap says |
| Windows.TrimmedIs | app/rag/chunking.py:224-231 | a piece is its window without line breaks at the front and white space at the end, nothing else |
| Windows.SpanIsRetrievableWhole | app/rag/chunking.py:217-254 | with twice the overlap within the size, any span of at most `overlap` characters beginning and ending in non-whitespace lies whole in one emitted piece |
| Windows.EveryCharIsEmitted | app/rag/chunking.py:217-235 | every non-whitespace character is in some piece, for any overlap |
| Windows.PiecesAreCut | app/rag/chunking.py:224-231 | a piece is at most `size` long, not blank, and stands in the text at or after its offset with only line breaks skipped |
| Structure.SegmentText | app/rag/structure.py:74-121 | the scan with its line counter, offset and pending prose computes the segments of the specification, for any line rules |
| Structure.MakeBlock | app/rag/structure.py:89-114 | the block's segment and the line after it, with a table's header and rule line or a fence's opening and closing line |
| Structure.SegmentsRestoreText | app/rag/structure.py:74-121 | the segments concatenate back to the text and each starts where the one before it ended |
| Structure.BlockClosesFirst | app/rag/structure.py:52-71 | a block runs to the first line that closes it, to the last line if none does |
| Structure.TableTakesRows | app/rag/structure.py:100-114 | a table begins where two rows follow each other and nothing is opened, takes every row there is, and its header is its first line with the separator if that is its second |
| Patterns.OpensExactlyWhen | app/rag/structure.py:20-71 | a line opens a block exactly when, indentation aside, it begins with one of two fences, two dollars, a backslash and bracket, or the beginning of a listed environment, starred or not |
| Patterns.FenceExactlyWhen | app/rag/structure.py:52-63 | a fence never closes on its own line, and the lines that close it are those beginning with the same fence |
| Patterns.DisplayOpens | app/rag/structure.py:38-44 | dollars are closed by dollars and brackets by brackets, on the same line behind the opener or anywhere on a later one |
| Patterns.EnvironmentOpens | app/rag/structure.py:45-49 | an environment is closed by the end of that very environment, the star included, wherever it stands |
| Patterns.TableLinesExactlyWhen | app/rag/structure.py:21-22 | a row begins with a pipe; a separator has only pipes, colons, dashes and spaces behind it, and at least one |
| Structure.PythonRulesOk | app/rag/structure.py:38-71 | the recognisers meet the one condition put on line rules: a line of nothing but line breaks opens no block, closes none and is no table row |
| SegmentFrames.BlocksAreFramed | app/rag/structure.py:89-114 | what a block carries as its opening lines and closing line stands at the ends of its text |
| BlockFrame.FrameFits | app/rag/chunking.py:185-199 | the repeated head and tail are the beginning and the end of the block, with the body lines between them; if no line is between them, they are together longer than the block and are given up |
| BlockFrame.LineAt | app/rag/chunking.py:158-163 | the running offset of a body line is where that line stands in the text |
| Cuts.CutBody | app/rag/chunking.py:158-163 | each body line is cut into pieces of at most `room` characters at their own offsets |
| Cuts.CutLinesTile | app/rag/chunking.py:158-163 | the pieces lie end to end over the body, a line break between two lines and nothing between two cuts of one line |
| Packing.Pack | app/rag/chunking.py:164-173 | pieces are packed in order into nonempty parts that fit the room, each filled until the next piece would not fit |
| Packing.PackingIsUnique | app/rag/chunking.py:164-173 | there is only one such packing |
| BlockParts.SplitBlock | app/rag/chunking.py:155-182 | an oversized block becomes numbered parts of the packing, each with head and tail |
| BlockParts.BlockPieces | app/rag/chunking.py:148-182 | a block within the cap is one chunk, any other is split |
| BlockParts.BodiesTile | app/rag/chunking.py:164-182 | the bodies of the parts, like the pieces they are made of, lie end to end over the block's body |
| BlockParts.PartsAreSelfContained | app/rag/chunking.py:155-182 | every part is within the cap, carries the block's head and tail, is numbered among its parts and has half the cap or more left for its body |
| BlockParts.PartsRepeatOwnLines | app/rag/chunking.py:155-199 | each part repeats the block's own header, or its opening and closing line, when these leave half the cap, and nothing otherwise |
| BlockParts.PartsRestoreBlock | app/rag/chunking.py:155-182 | taking head and tail off every part and rejoining the bodies restores the block |
| Normalizing.NormalizeText | app/rag/chunking.py:79-97 | the line loop computes the specification |
| Normalizing.NormalizeKeepsContent | app/rag/chunking.py:65-97 | no character other than white space and NUL is lost, added or moved |
| Normalizing.NormalLineKeepsLayout | app/rag/chunking.py:65-94 | a line keeps its indentation and its tab-separated columns, and ends in no white space; a blank line becomes empty |
| Words.NormalLineKeepsWords | app/rag/chunking.py:65-94 | a line keeps its words, in order; between two of them stands one space if the line had no tab there and otherwise exactly its tabs |
| Words.NormalizeKeepsLines | app/rag/chunking.py:79-97 | the text keeps its nonempty lines, each normalised, in order, and of the line breaks between two of them at most two |
| Normalizing.NormalizedHasNoBlankRuns | app/rag/chunking.py:97-97 | at most one blank line stands between two lines, none at either end |
| Folding.Runs | app/rag/chunking.py:130-145 | the loop folds short blocks and prose into runs as specified |
| Folding.FoldingKeepsText | app/rag/chunking.py:130-145 | the runs lie end to end over the same text with correct offsets |
| Folding.FoldingLeavesLongBlocks | app/rag/chunking.py:130-145 | blocks longer than `size` pass through unchanged and in order, and no two prose runs stand side by side |
| Folding.FoldingKeepsLongBlocks | app/rag/chunking.py:130-145 | the blocks that stand alone after folding are exactly the long ones before it, unchanged and in order |
| Folding.StandsAloneExactlyWhen | app/rag/chunking.py:130-145 | a block is found again exactly when, the line breaks around it aside, it is longer than a chunk |
| Chunking.FoldedSegments | app/rag/chunking.py:111-116 | segmenting and folding any text gives runs that lie over it end to end, each ready to be chunked |
| ProseCoverage.ProseHolds | app/rag/chunking.py:117-123 | each non-whitespace character of a prose run is in one of the run's chunks, which stands in the text over it at its recorded start or behind the line breaks that follow |
| BlockCoverage.BlockHolds | app/rag/chunking.py:148-182 | each non-whitespace character of a block is in the block's one chunk, or in one of its parts: among the part's own lines at its recorded start, or in the head or tail of that same block, which the part repeats |
| Chunking.BlockStaysWhole | app/rag/chunking.py:148-154 | a block of up to four chunk sizes is one chunk, a longer one has only numbered parts |
| Chunking.ChunkText | app/rag/chunking.py:100-127 | the chunks of one normalised text are those of its runs, windows of prose or a block whole or in parts, in order |
| Chunking.ChunkUnits | app/rag/chunking.py:100-127 | the output is a chunking of each unit's normalised text, in the units' order, each chunk under its unit's locator and method |
| ChunkCoverage.EveryCharIsChunked | app/rag/chunking.py:100-199 | every non-whitespace character of the normalised text is in some chunk as a chunk of the very segment the character lies in, whole or as a part of that block |
| ChunkCoverage.ChunksAreBounded | app/rag/chunking.py:100-199 | prose chunks are at most `size` long and not blank, block chunks at most four times `size` |
| ChunkCoverage.UnitsAreKeptApart | app/rag/chunking.py:100-127 | of any number of units each non-whitespace character is in a chunk carrying that unit's locator, and every chunk is a bounded one of some unit |
| Evidence.RetentionMeans | app/learning/mastery.py:1517-1528 | retention is shown exactly when two distinct unaided answers exist and two unaided answers lie at least the gap apart |
| Evidence.TransferMeans | app/learning/mastery.py:1642-1709 | transfer is shown exactly when an unaided answer was right, some attempt came before it, and every attempt that did was set in another setting |
| Evidence.UnaidedMoves | app/learning/mastery.py:1547-1618 | an answer without hint, repetition or teaching moves the latest unaided answer forward and no other does |
| Evidence.AssistedShowsNothing | app/learning/mastery.py:1547-1709 | an answer with a hint, asked again or after teaching shows no retention and no transfer, nor does a wrong one transfer |
| Evidence.RetentionStays | app/learning/mastery.py:432-464 | no further event, late ones included, withdraws retention |
| Evidence.TransferStays | app/learning/mastery.py:1642-1709 | no further event observed in order withdraws transfer |
| Evidence.OnlyAnswersShowRetention | app/learning/mastery.py:1547-1618 | self-ratings, seeds and head starts change nothing about retention or the latest unaided answer |
| Evidence.OnlyAnswersShowTransfer | app/learning/mastery.py:1642-1709 | nor, observed in order, about transfer |
| Evidence.TransferUndoneExactlyWhen | app/learning/mastery.py:1642-1709 | an event withdraws transfer exactly when it is an earlier attempt in the setting of every answer that showed it and it neither shows transfer itself nor puts another success beyond the first setting |
| Passing.PassedSince | app/learning/mastery.py:1311-1370 | the loop over all rows, newest first, confirms exactly the components with enough distinct questions passed since their latest failure |
| Passing.RunMeans | app/learning/mastery.py:1346-1370 | a question counts exactly when it was passed, counted, and nothing since was failed |
| Passing.RunOverLog | app/learning/mastery.py:1346-1370 | said of the answers since the head start, read latest first: a question counts exactly when one about it was given alone and without teaching, and it and all read before it reached the mark |
| Passing.LatestComesFirst | app/learning/mastery.py:1346-1370 | the answers are read latest observed first, each as often as it was given |
| Passing.LaterRowFirst | app/learning/mastery.py:1346-1370 | of two answers observed at once the one logged later is read first |
| MasteryRuns.EveryRunReplays | app/learning/mastery.py:411-887 | after every run of answers, ratings, placements, head starts, withdrawals and markings, in whatever order they are logged, a row's ability, uncertainty and last answer are the fold of its own log, its latest unaided answer and retention are what the log implies, and it is achieved only with retention shown and never while provisional |
| MasteryRuns.ActKeeps | app/learning/mastery.py:411-887 | each single write, whenever it was observed, keeps row and log in that agreement |
| MasteryRuns.AnswerFoldsItsFields | app/learning/mastery.py:592-622 | field by field: the estimate decayed over the days since the last answer, none for a first or an earlier one, and updated by the answer's score, difficulty and share; the new card and date; the answer's time |
| MasteryRuns.AnswerAchievesExactlyWhen | app/learning/mastery.py:389-464 | an answer achieves exactly when the estimate it leaves is two deviations clear of the bar, nothing borrowed is unconfirmed and retention is shown; milestones first seen carry its time and earlier ones theirs |
| MasteryRow.ConfirmedExactlyWhen | app/learning/mastery.py:666-685 | a head start is confirmed exactly when enough questions count among the answers since it was given, one at least |
| MasteryRuns.ActAgreesExactlyWhen | app/learning/mastery.py:432-663 | a write leaves the transfer flag in agreement with the log exactly when it is not a rating that undoes or makes a transfer; no other kind of write can put them apart, however late it is logged |
| MasteryRuns.EveryRunIsSound | app/learning/mastery.py:432-663 | if attempts are logged in the order observed, the transfer flag too is what the log implies after every run |
| MasteryRuns.NothingIsWithdrawn | app/learning/mastery.py:432-464 | retention, achievement and having been answered, once recorded, stay with their date whatever is logged late; transfer does if it is logged in the order observed |
| MasteryRuns.EveryAchievementIsEarned | app/learning/mastery.py:389-429 | an achievement held after any run, in any order, was set by one answer of that run, at its time, which left the bar reached, retention shown and nothing borrowed unconfirmed, and it has kept that date since |
| MasteryRuns.RatingAgreesExactlyWhen | app/learning/mastery.py:546-590 | after a rating logged in any order a row that agreed in all its milestones still does exactly when, transfer having been shown, some showing survives the rating or the rating uncovers a success, or, transfer not having been shown, it uncovers none |
| MasteryRuns.TransferAfterRating | app/learning/mastery.py:1642-1709 | after a rating logged in any order transfer is shown exactly when an earlier showing survives it or it puts a success beyond the first setting |
| MasteryRuns.LateRatingUndoesTransfer | app/learning/mastery.py:443-445 | a rating logged late, for an earlier attempt in the second setting, makes the log no longer imply the transfer it implied |
| MasteryRuns.LateRatingMakesTransfer | app/learning/mastery.py:443-445 | a rating logged late, for an attempt before the only success and in another setting, makes a transfer the row does not record |
| MasteryRuns.DueMatchesLog | app/learning/mastery.py:995-1022 | the retention check read from the row is the one the log implies, in whatever order it was logged, and is never due before it could count |
| MasteryRuns.RetentionDueExactlyWhen | app/learning/mastery.py:995-1022 | a check is due exactly when something was shown unaided, retention was not, and the probe interval or the scheduler's date has passed with the gap; it is dated at the earlier of the two |
| HeadStarts.BestHeadStartWins | app/learning/mastery.py:789-857 | of any number of offers in any order an unanswered component stands on one no other beats conservatively, and a head start is only given up for a better one |
| HeadStarts.OfferOrderDoesNotMatter | app/learning/mastery.py:789-857 | the same offers in another order leave an equally good standing, and to an answered component exactly the one it had |
| HeadStarts.RevokingUndoesTheHeadStart | app/learning/mastery.py:860-887 | withdrawing the link a component stands on leaves it as if nothing had been known; withdrawing any other changes nothing; milestones and schedule stay |
| MasteryStore.Store.GetOrCreate | app/learning/mastery.py:212-247 | the row is the stored one or a fresh one, and no other row changes |
| MasteryStore.Store.FoldTags | app/learning/mastery.py:546-656 | the loop over the ordered tags folds one event into each tagged component and no other |
| MasteryStore.Store.ConfirmTransfers | app/learning/mastery.py:666-685 | each provisional row is confirmed exactly when its own looks show the run of passes |
| MasteryStore.Store.RecordAchievements | app/learning/mastery.py:389-429 | each row is stamped exactly when it has reached the bar, is not provisional and shows retention |
| MasteryStore.Store.MarkEvidence | app/learning/mastery.py:432-464 | each row's three milestones become what its log implies |
| MasteryStore.Store.RecordObservation | app/learning/mastery.py:467-663 | each tagged component's log grows by one event with the component's own score, its share of the weight, its credit and its kind, and its row becomes what one action of the component model makes of it; no other component is touched; every row that was the replay of its log still is, whatever the observation's time |
| MasteryStore.ActionLogs | app/learning/mastery.py:546-620 | the event one tag logs holds the component's own score where it was judged apart, the tag's part of the total weight, a credit of one over one plus hints and prior attempts, and every other field as observed |
| MasteryStore.SharesAddUp | app/learning/mastery.py:540-552 | the shares of an observation's tags add up to one |
| MasteryStore.Store.RecordInOrder | app/learning/mastery.py:467-663 | observed in order it keeps every component of the store sound, transfer included |
| MasteryStore.Store.SeedPrior | app/learning/mastery.py:738-786 | a placement is taken exactly when there is no row |
| MasteryStore.Store.SeedTransfer | app/learning/mastery.py:789-857 | a head start is taken exactly when the source has answers and the target has none and nothing as good |
| MasteryStore.CarriedIs | app/learning/mastery.py:789-857 | a head start has the source's decayed ability and is never more certain than the source now is or the floor |
| MasteryStore.Store.RevokeTransfer | app/learning/mastery.py:860-887 | withdrawal succeeds exactly when the target stands on that source and has no answers |
| MasteryStore.Store.MarkMissing | app/learning/mastery.py:952-968 | each unmarked row is marked and every other one left |
| MasteryStore.Store.RetentionChecks | app/learning/mastery.py:995-1022 | the due checks of the rows, each once, soonest first |
| MasteryStore.ChecksAreTheLogs | app/learning/mastery.py:995-1022 | for rows after any run, in any order, the list read from the rows is the list computed from the logs |
| MasteryStore.ConfirmedByRun | app/learning/mastery.py:666-685 | confirming many components in one query confirms each as alone |
| MasteryStore.OrderIsDistinct | app/learning/mastery.py:540-552 | the sorted tags are the same tags, each component once |
| Locks.StepKeeps | app/learning/mastery.py:212-247 | every step of every transaction keeps the locking invariant: a held row is held by an active transaction that has been through it, and what that transaction has for it is its change to the committed value |
| Locks.NeverDeadlocked | app/learning/mastery.py:544-552 | while any transaction is active some transaction can move |
| Locks.StepsEnd | app/learning/mastery.py:544-552 | each step lowers what is left to do, so every run ends |
| Locks.CommitIsAlone | app/learning/mastery.py:212-247 | what a transaction commits is what it would have written running alone on the rows at its commit |
| Locks.EveryRunIsSerial | app/learning/mastery.py:544-552 | after any run the rows are those of the committed transactions run one by one in commit order, the create-if-absent race included |
| Locks.SerialPreserves | app/learning/mastery.py:544-552 | what every transaction keeps true of each row is true of all rows after any serial run |
| ConcurrentAnswers.ProgramAscends | app/learning/mastery.py:544-552 | an observation takes its rows in strictly ascending order |
| ConcurrentAnswers.ProgramTakesTags | app/learning/mastery.py:540-552 | and exactly those of its tags |
| ConcurrentAnswers.ConcurrentAnswersAreSerial | app/learning/mastery.py:467-663 | any number of observations at once end as a serial run and never deadlock |
| ConcurrentAnswers.EveryRowReplays | app/learning/mastery.py:533-663 | however many observations are in flight, whatever their times and commit order, every committed row is the replay of its own log with the retention and achievement the log implies |
| ConcurrentAnswers.AppliedIsRecorded | app/learning/mastery.py:546-663 | what a transaction writes to a row is the action the store's own method performs |
| IngestionRun.EmbedInBatches | app/rag/pipeline.py:73-117 | vectors come back for all texts, in order, exactly when every batch is answered; the usage is what was billed either way, and that of every text when all are answered |
| IngestionRun.BatchesAreTexts | app/rag/pipeline.py:93-105 | batches are nonempty, at most the size, all but the last of that size, and together the texts in order |
| Ingestion.RaisesExactlyWhen | app/rag/pipeline.py:225-310 | a run raises exactly when an extraction to be kept is too large, or a saved one has no chunks or too many, and then commits nothing more |
| IngestionRun.Worker.Extract | app/rag/pipeline.py:225-287 | the commits of the extract stage are those of the specification, and every error leaves the committed state alone |
| IngestionRun.Worker.EmbedWindow | app/rag/pipeline.py:311-337 | a window is committed whole or not at all |
| IngestionRun.Worker.EmbedStage | app/rag/pipeline.py:290-337 | the window loop commits the specification's states one by one until nothing is missing, an error is raised or the provider fails |
| IngestionRun.Worker.Publish | app/rag/pipeline.py:356-388 | publication is one commit |
| IngestionRun.Worker.Supersede | app/rag/pipeline.py:418-450 | live chunks that are cited are kept but retired, the others deleted; the first count is that of the cited live ones and both add up to the live ones |
| IngestionRun.Worker.Run | app/rag/pipeline.py:194-222 | a run leaves a beginning of the specification's commits and, unless the provider failed, its end state and outcome |
| Ingestion.CommitsAreProgress | app/rag/pipeline.py:194-222 | each commit leaves less to do |
| Ingestion.TodoIsMissing | app/rag/pipeline.py:300-310 | what is still to be embedded is exactly the ordinals not staged, ascending |
| Ingestion.NeverEmbeddedAgain | app/rag/pipeline.py:305-337 | a window adds only ordinals that were missing and leaves every staged row as it is |
| Ingestion.EmbedFinishes | app/rag/pipeline.py:290-388 | from any staged subset embedding ends with every ordinal staged and published |
| Ingestion.RunsEndRight | app/rag/pipeline.py:194-388 | from a source with nothing staged, or one at the embed stage with fitting rows, and within the limits, the run ends without error, nothing staged, and chunk i of the saved text live under ordinal i with its own vector |
| Ingestion.FinishedChunksAreTheTexts | app/rag/pipeline.py:290-388 | said of the rows: every live chunk of a finished run has an ordinal of the text, that text and its own vector; each ordinal has exactly one; what was live before is retired or gone |
| Ingestion.DuplicateAnswersNothing | app/rag/pipeline.py:259-287 | a source another one says the same as finishes as a duplicate with no live chunk of its own, cited ones keeping their text |
| Ingestion.ResumingFinishesTheSame | app/rag/pipeline.py:217-222 | resuming at any commit of a run ends as the uninterrupted run does |
| Ingestion.EveryResumptionFinishesTheSame | app/rag/pipeline.py:217-222 | so does any number of interruptions one after another |
| Ingestion.WhollyOldOrNew | app/rag/pipeline.py:356-388 | at every commit the live chunks are wholly the old ones, wholly the new ones, or none because the source is a duplicate |
| Ingestion.CitedKeepTheirText | app/rag/pipeline.py:418-450 | every chunk cited at publication, and every one already retired, is there with its text and ordinal at every later commit |
| Ingestion.PublishedRightExactlyWhen | app/rag/pipeline.py:300-337 | embedding and publishing give the right chunks exactly when every row already staged is the right row for its ordinal |
| Ingestion.StartingOverIsRightExactlyWhen | app/rag/pipeline.py:217-222 | starting over with rows still staged gives the right chunks exactly when they fit the new text |
| Ingestion.StaleRowIsPublished | app/rag/pipeline.py:217-222 | an instance: one row of an earlier text still staged is published instead of the new text |
| Tracer.WrongAnswerNeverHelps | app/learning/tracer.py:130-139 | an entirely wrong answer never raises `ability - 2*uncertainty`, for any prior uncertainty up to one and the cap, any difficulty and any weight up to one, the floor clamp included |
| Tracer.EvidenceWidensExactlyBelowFloor | app/learning/tracer.py:130-139 | evidence widens the uncertainty exactly when the prior is below the floor, and the result is within floor and cap |
| Tracer.AbilityFollowsScore | app/learning/tracer.py:130-139 | ability rises exactly when the score is above what was expected, and falls exactly when below |
| Tracer.ExpectationFollows | app/learning/tracer.py:130-139 | what is expected rises with ability and falls with difficulty, for any logistic that rises |
| Tracer.AnswerAddsPrecision | app/learning/tracer.py:130-139 | an answer adds its weight times expectation times its complement to the precision held before, moves ability by the variance left times weight times surprise, and between the clamps leaves an uncertainty whose square is that variance |
| Tracer.DecayAddsUp | app/learning/tracer.py:141-143 | decaying over a and then b days equals decaying over their sum, cap included |
| Tracer.DecayWidens | app/learning/tracer.py:141-143 | decay never narrows the uncertainty, never passes the cap and leaves ability alone |
| Tracer.DecayGrowsVariance | app/learning/tracer.py:141-143 | the variance grows by the squared volatility for each day, until the cap |
| Rollup.AbilityAmongChildren | app/learning/tracer.py:173-196 | an aggregate's ability lies between the smallest and the largest of its children's |
| Rollup.TwoChildrenBalance | app/learning/tracer.py:173-196 | each of two children pulls by its weight over its squared uncertainty: what is left to each, times that, is the same |
| Rollup.CertaintyPulls | app/learning/tracer.py:173-196 | equally weighted, the more certain of two children is the nearer to their aggregate, and only it |
| Rollup.OneChildIsItself | app/learning/tracer.py:173-196 | the aggregate of one child is that child |
| Rollup.SubjectIsFlat | app/learning/mastery.py:1408-1419 | components to topics to a subject, weighted by count, gives the uncertainty of one flat aggregate |
| SimHash.Simhash | app/rag/simhash.py:42-64 | counting distinct shingles, adding weighted votes and reading signs gives the hash of the shingle list |
| SimHash.Count | app/rag/simhash.py:44-51 | the counts are the multiplicities |
| SimHash.ShinglesAre | app/rag/simhash.py:31-39 | the shingles of four words or more are the stretches of four consecutive words, one from each place; fewer words are one shingle, none none |
| SimHash.BitIsMajority | app/rag/simhash.py:42-64 | a bit is set exactly when more shingles have it set in their digests than not |
| SimHash.HashOfMultiset | app/rag/simhash.py:42-64 | the hash depends only on the multiset of shingles |
| SimHash.OneWordMovesColumns | app/rag/simhash.py:31-64 | replacing one word moves every column by at most twice the shingle length |
| SimHash.EditsMoveColumns | app/rag/simhash.py:31-64 | k replacements move every column by at most k times as much |
| SimHash.EditsMoveHash | app/rag/simhash.py:42-69 | so the distance is at most the number of columns that close to zero |
| SimHash.DistanceIsMetric | app/rag/simhash.py:67-69 | distance is zero exactly on equal hashes, symmetric, and obeys the triangle inequality |
| NoteDistill.Distill | app/learning/note_distill.py:258-318 | one merge, reply arbitrary: nothing parsed, no change, a learner atom dropped, or the merged atoms |
| NoteDistill.MergeHoldsReply | app/learning/note_distill.py:258-318 | the atoms not offered come first, verbatim; then, for each atom of the reply in order, the learner's stored one where the id is that of one, and otherwise the reply's text with its permitted tags, no learner authorship, the lineage of the last stored atom of its id and every citation that resolves |
| NoteDistill.RejectedExactlyWhen | app/learning/note_distill.py:233-318 | a merge is refused exactly when the reply is unusable or leaves out a learner atom it was offered |
| NoteDistill.CarryLearnerAtoms | app/learning/note_distill.py:233-255 | the loop refuses a reply that lacks a learner atom and otherwise restores each one in its place |
| NoteDistill.ResolveProvenance | app/learning/note_distill.py:133-153 | the loop adds each cited reference that resolves and is not there yet |
| NoteDistill.PrepareAtoms | app/learning/note_distill.py:306-313 | every drafted atom gets validated tags, resolved evidence and no invented learner authorship |
| NoteDistill.EvidenceOnlyGrows | app/learning/note_distill.py:133-153 | evidence keeps what it had, in order, and gains only supplied references not already among it |
| NoteDistill.MergeKeepsLearnersExactlyWhen | app/learning/note_distill.py:217-318 | a merge leaves the set of learner atoms as it was exactly when every offered one is the last of its id or is settled as well |
| NoteDistill.LearnersSurviveEveryMerge | app/learning/note_distill.py:217-318 | if atoms sharing an id are equal, any number of merges with any replies leaves the learner atoms, text, tags and evidence, unchanged |
| NoteDistill.MergeKeepsLineage | app/learning/note_distill.py:284-318 | the settled beginning is carried verbatim, and the evidence of every later atom that is not the learner's grows from its prior atom's by supplied references only, none twice |
| NoteDistill.SharedIdLosesOne | app/learning/note_distill.py:217-255 | two learner atoms with one id: an accepted reply keeps only one of them |
| AlertHistory.History.Record | app/services/alert_history.py:49-86 | the loop over sorted conditions logs exactly the changed ones and returns started before resolved |
| AlertHistory.StatesAreLatest | app/services/alert_history.py:29-46 | the current state of a condition is its latest row, and there is one exactly when it has a row |
| AlertHistory.LatestIsEvaluated | app/services/alert_history.py:49-86 | after a report each evaluated condition is as evaluated and every other one's rows are untouched |
| AlertHistory.RowSaysWhatFired | app/services/alert_history.py:49-86 | a condition is evaluated exactly when it was checked or fires; the one row a report may add to it carries an alert of that name from the report if it fires, the last of them, and none if it stopped |
| AlertHistory.ChangedInOrder | app/services/alert_history.py:49-86 | what started, and what stopped, is told in ascending order, each condition once |
| AlertHistory.EveryLogAlternates | app/services/alert_history.py:49-86 | over any sequence of reports each condition's rows alternate, beginning with fired, and the latest is the state last found |
| AlertHistory.RecordingTwiceWritesOnce | app/services/alert_history.py:49-86 | recording the same report again writes nothing |

## Left out

- TopoSort.PlanObjective: takes the edges as already local to the subject; mapping foreign prerequisites through links is not modelled.
- Structure.PythonRulesOk: the recognisers are written out on strings in place of the regular expressions, and blank space is a fixed set of characters, not all of Unicode's.
- ChunkCoverage.EveryCharIsChunked: speaks of the normalised text; a prose chunk's recorded start is that of its raw window, so the chunk stands there or after the line breaks that follow, as in the code.
- Chunking.ChunkText: a chunk size of zero, which no caller asks for, is excluded.
- Tracer.WrongAnswerNeverHelps: over real numbers; rounding is not modelled, and the logistic and the square root are any functions with values strictly between zero and one and with squares that give the argument back.
- MasteryRuns.EveryRunIsSound: transfer is stated for attempts logged in the order observed, because it is false otherwise (`ActAgreesExactlyWhen` says exactly when); everything else holds in any order (`EveryRunReplays`).
- MasteryRuns.EveryRunReplays: an item's setting never changes during a run; times are whole microseconds and all in one zone.
- MasteryStore.Store.RecordObservation: the estimator, the scheduler and the settings of items are parameters; events are appended to one log for each component.
- Locks.EveryRunIsSerial: row locks and create-if-absent are the only isolation; deadlock detection, lock timeouts and the database's snapshots are not part of the model.
- PlanRuns.EveryReachablePlanIsSound: mastery, due reviews, guidance and external prerequisites are arbitrary at each revision, and the choice of a detour to propose is arbitrary among open new steps.
- IngestionRun.Worker.Run: a source whose stage says it is being tagged is excluded, as its caller never hands it over; leases, attempts, statuses and usage accounting are left out.
- Ingestion.RunsEndRight: provenance, pipeline version and embedding space are constants of a run and are not carried on the rows.
- SimHash.Simhash: the digest of a shingle is any 64-bit function, words come already split, and the hash is its 64 bits rather than a number; hexadecimal storage is left out.
- NoteDistill.Distill: the reply is any list of drafts, a declared non-change or something that does not parse; new ids are any function of the place.
- AlertHistory.History.Record: values, messages and times on a row are one payload; the history query is left out.
- Name resolution of prerequisites (`resolve`, `index_by_name`, `normalise`): text matching with a first-wins table.
- `prerequisite_detour`, the selection of objectives and the profile heuristics: chains of thresholds without state.
- Every call to a language model, prompts and the parsing of replies: replies are arbitrary inputs.
- SQL, sessions and the vector and full-text indexes: rows are maps and sequences, a commit is atomic.
- The scheduler's internals: a card and a due date come from an arbitrary function.
- Folding of dialects in search text, OCR, audio, fetching, accounts and configuration: input and output.
- Administrative visits, deletion of items and changes of an item's setting: they write other events or change what the log is read by.
- Checks of transfer that are due, queries about recent struggle and failure kinds, and detour records: reads over the log with no state of their own.
- Tagging and retagging of chunks: it changes no text, ordinal or vector.
