# Verified model of the document validation service

The service takes an uploaded document, queues a validation run, lets a worker find the fields the document must
have, drives a small state machine to a verdict of pass, fail or error, and adds a redlined revision and a diagram of
the process the document describes.  This project models the parts whose behaviour the code decides by itself and
proves what they promise, for all inputs and, where several processes act, for all interleavings.  Where the code does
something else than its documentation says, the model follows the code, a lemma shows an input on which the documented
claim fails, and another says exactly when it holds.

| files | what they cover |
|---|---|
| `Text.dfy` | optional values; stripping, searching, splitting and joining text as Python does |
| `MachineText.dfy`, `HeadingForm.dfy`, `RowForm.dfy`, `Hierarchy.dfy` | reading a machine from text with a stack of heading levels; the heading and the row pattern; the forest this builds |
| `Hoisting.dfy`, `Determinism.dfy`, `Reachability.dfy` | moving exits from a child to its composite; what this does to handled events, dead ends, guards and conflicts, and reachability |
| `RoundTrip.dfy`, `VerificationCopy.dfy` | printing the hoisted machine and reading it again; the copy the verifier sees |
| `Diagram.dfy` | the nested diagram |
| `Redline.dfy`, `RedlineTree.dfy`, `RedlineView.dfy` | the three cleaning passes, their meaning on redlines, and the page's own parser |
| `Splitter.dfy`, `Revision.dfy` | cutting a document into chunks, revising them, and the document that comes out |
| `Lifecycle.dfy`, `Completion.dfy`, `Budget.dfy`, `Storage.dfy` | runs, queue and workers; which runs can still get a result; the daily token budget; the shared objects behind both |
| `ContractMachine.dfy`, `Bridge.dfy` | the machine that decides the verdict; running machines behind a cache and a snapshot store |
| `Extraction.dfy`, `Pipeline.dfy`, `Verdicts.dfy`, `Validation.dfy` | required fields; one validation on the bridge's objects; its report told by what parser, model and extractor answered; the whole of it with its rows |

Loops and objects of the original are methods, loops and classes here, each proved equal to a function of its inputs or
of the old state; the theorems are about those functions.  The queue, the workers and the budget are also state
machines over atomic steps, since their promises are about interleavings.

## What the proofs found

- `_normalize_for_verification` rewrites exits in a single pass, so that none is left that ORCA does not accept.  It
  achieves that exactly when every exit leaves one level of nesting only (`OnePassSufficesIff`, `OnePassMayNotSuffice`).
- It is said to move each transition from a child to the outside of its composite.  It also moves those to a state deeper
  inside the composite, and no others (`CrossingIff`, `InnerMoveLifted`); under the two-level rule there are none.
- It promises that no state is falsely unreachable, and reachability equivalence.  With three levels a state can be
  falsely unreachable (`FalselyUnreachable`), and with two an unreachable state can become reachable
  (`EquivalenceFails`).  For machines of any depth `NormalizerKeepsReachableIff` and `ReachabilityEquivalentIff` say
  exactly when the two claims hold; if every exit leaves one level only, the first always holds and the second exactly
  when every exit of a reachable composite leads somewhere reachable (`NearExitsEquivalentIff`).
- It promises that determinism is unchanged.  Sibling exits on one event become a conflict, a choice between guards that
  exclude each other becomes one because the guard cells are erased, and a real conflict can disappear
  (`DeterminismCanBeLost`, `GuardedChoiceLost`, `ConflictCanBeHidden`).  `DeterminismUnchangedIff` is the exact
  condition, for deterministic and other machines, with any guards.
- It promises that deadlock and completeness are unchanged.  A sibling that handles nothing is no longer seen to be a
  dead end (`DeadlockCanBeHidden`).  The exact conditions are `DeadEndsUnchangedIff` and `HandledUnchangedIff`.
- Cleaning a redline accepts all changes exactly when no outermost deletion leaks text that follows an inner deletion
  (`CleanAcceptsIff`), also where the text has braces of its own, as long as no opening brace stands before, and no
  closing one after, a dash, a plus or a marker.  Where one does, the result can itself be a marker
  (`CleanCanLeaveMarker`); for every text, cleaning changes nothing exactly when no marker occurs in it
  (`CleanFixesIff`).
- The page shows what the download contains exactly when every visible insertion holds only text (`PageAgreesIff`).
- After an exception while reading or extracting, a run's stored final state is `error` although its machine still waits
  where it started (`FinalStateIsMachinesIff`).  A classifier call refused by the budget is such an exception and turns the verdict
  into error; the rule that a model failure never blocks the verdict covers only the calls made after it.
- A classifier answer that is not JSON asks for no field, so every readable document passes on it (`BadAnswerPasses`).
- A context brought to a machine that exists already is lost by a restart if it says anything new and no transition is
  taken before (`LateContextLost`, `SendCoherentIff`).  A restart is invisible to every later call exactly when every
  cached machine is stored as it is (`RestartInvisibleIff`).
- A submitted run without a result can still get one if and only if it is neither lost nor ended (`CompletableIff`): a
  request dropped between its commit and its push, a crash or an exception leaves a run without a result for ever.
- The two reads of a poll are not one: a result may be reported under a status read before it, but never a terminal
  status without a result (`PollIsNeverEmptyHanded`).

## Model

| member | source | states |
|---|---|---|
| MachineText.ParseMachine | backend/orca/document_fsm.py:22-55 | the parser's loop with its stack of open headings returns exactly the declared states, each under the nearest enclosing heading, and the accepted rows in order |
| MachineText.PopClosed | backend/orca/document_fsm.py:33-34 | the inner loop pops exactly the entries at or below the new heading's level and keeps the rest in order |
| MachineText.OpenLevelsIncrease | backend/orca/document_fsm.py:27-48 | the levels on the stack are strictly increasing |
| MachineText.TopEncloses | backend/orca/document_fsm.py:33-35 | after the pops, the top of the stack is the nearest earlier heading of strictly smaller level, and the stack is empty if there is none |
| MachineText.OpenAfterHeading | backend/orca/document_fsm.py:33-48 | pushing the new heading after the pops keeps the stack equal to the headings no later heading has closed |
| MachineText.HeadingIsNoRow | backend/orca/document_fsm.py:30-54 | no line is both a state heading and a transition row |
| HeadingForm.HeadingIff | backend/orca/document_fsm.py:30-30 | a line is accepted with a level, a name and an annotation if and only if it is hashes, `state`, an identifier and possibly a bracketed annotation, with the whitespace the pattern allows |
| HeadingForm.AnnotationFlags | backend/orca/document_fsm.py:44-47 | a state is initial, or final, exactly when its annotation holds that word somewhere; each mark alone sets its own flag and no other |
| RowForm.RowIff | backend/orca/document_fsm.py:50-54 | a line is accepted as a transition if and only if it is a bar, at least four cells with bars between them, a bar and whitespace, without an arrow, and its stripped first, second and fourth cell are source, event and target, the source being non-empty, not the header word and not only rule characters; guard, action and further cells may be anything |
| Text.SplitLinesConcat | backend/orca/document_fsm.py:24-24 | splitting into lines distributes over concatenation after a line break, unless a carriage return would meet a line feed |
| Text.SplitLinesLaws | backend/orca/document_fsm.py:24-24 | the laws that determine the lines of a text, with a carriage return and a line feed as one break |
| Hierarchy.ParentIsNearestSmaller | backend/orca/document_fsm.py:29-48 | for any sequence of headings each declares a state with its own id and marks, whose parent is the nearest earlier state of strictly smaller level; it has none exactly when all earlier levels are at least its own |
| Hierarchy.ParentOfIsLast | backend/orca/document_fsm.py:121-122 | a state's parent is that of its last declaration, and an undeclared id has none |
| Hierarchy.ParsedParentsFirst | backend/orca/document_fsm.py:29-48 | every parent is declared before its child |
| Hierarchy.ParsedIsForest | backend/orca/document_fsm.py:29-48 | with unique ids the parent relation has no cycle, and chains of parents end |
| Hierarchy.ParsedDepth | backend/orca/document_fsm.py:29-48 | with unique ids a machine is nested less deeply than it has states |
| Hoisting.HoistTransitions | backend/orca/document_fsm.py:124-132 | the loop with its `seen` set yields each lifted transition once, where it first occurs |
| Options.FirstOccurrencesInOrder | backend/orca/document_fsm.py:124-132 | what the `seen` set keeps is in the order of first occurrence |
| Hoisting.CrossingIff | backend/orca/document_fsm.py:126-129 | a transition is moved to the parent of its source if and only if its target is outside that composite or deeper inside it than its children |
| Hoisting.TwoLevelsOnlyExits | backend/orca/document_fsm.py:112-113 | under the two-level rule exactly the transitions to the outside are moved |
| Hoisting.InnerMoveLifted | backend/orca/document_fsm.py:112-113 | a three-level machine in which a transition that stays inside its composite is moved |
| Hoisting.ClimbsEachPass | backend/orca/document_fsm.py:124-132 | a transition that still crosses after n passes has climbed exactly n levels from the source of an original one |
| Hoisting.PassesSuffice | backend/orca/document_fsm.py:121-132 | on any forest, as many passes as the nesting is deep leave no crossing transition |
| Hoisting.OnePassSufficesIff | backend/orca/document_fsm.py:118-132 | the single pass leaves no crossing transition if and only if every exit ends where the parent of its composite would keep it |
| Hoisting.HoistedAgainIff | backend/orca/document_fsm.py:118-132 | the rewrite is idempotent on a machine if and only if every exit leaves one level only, names declared as their own parent set apart |
| Hoisting.TwoLevelsOnePass | backend/llm/together.py:176-177 | the two-level rule the model is told to follow implies that condition, so one pass suffices and a second changes nothing |
| Hoisting.OnePassMayNotSuffice | backend/orca/document_fsm.py:124-132 | a three-level machine on which the single pass leaves a crossing transition |
| Hoisting.HoistingKeepsHandled | backend/orca/document_fsm.py:112-116 | at any depth no state loses an event it handles itself or through an ancestor |
| Hoisting.HandlesAfterIff | backend/orca/document_fsm.py:112-116 | after hoisting a state handles exactly what it handled before and the events on which children of its own or of its ancestors exit |
| Hoisting.HandledUnchangedIff | backend/orca/document_fsm.py:112-116 | completeness: the handled events are unchanged if and only if each composite already handled the events its children exit on |
| Hoisting.DeadEndAfterIff | backend/orca/document_fsm.py:112-116 | a dead end stays one if and only if no child of its own or of its ancestors has an exit, and no state becomes one |
| Hoisting.DeadEndsUnchangedIff | backend/orca/document_fsm.py:112-116 | deadlock: the dead ends are unchanged if and only if no state at or below the composite of an exit is a dead end |
| Hoisting.StaysDeterministicIff | backend/orca/document_fsm.py:112-116 | without guards, a deterministic machine stays so if and only if the exits merged onto a composite agree with each other and with its own; the full condition is that of `Determinism.DeterminismUnchangedIff` |
| Hoisting.DeterminismCanBeLost | backend/orca/document_fsm.py:112-116 | a machine that becomes nondeterministic, against the documentation |
| Hoisting.DeadlockCanBeHidden | backend/orca/document_fsm.py:112-116 | a dead end that is no longer seen, against the documentation |
| Determinism.CopyDeterministicIff | backend/orca/document_fsm.py:112-138 | whatever the guards were, the copy is deterministic if and only if no two rows that share lifted source and event have different targets |
| Determinism.DeterminismUnchangedIff | backend/orca/document_fsm.py:112-116 | for every machine with its guards, determinism is unchanged if and only if it is deterministic and no two rows clash in the copy, or it is not and some two still do |
| Determinism.ConflictStaysVisible | backend/orca/document_fsm.py:112-116 | a conflict between rows that are both exits or both not is still one in the copy |
| Determinism.ConflictCanBeHidden | backend/orca/document_fsm.py:112-116 | a machine with a conflict whose copy has none, against the documentation |
| Determinism.GuardedChoiceLost | backend/orca/document_fsm.py:134-138 | a choice between two guards that exclude each other becomes a conflict, against the documentation |
| Determinism.GuardedRowIff | backend/orca/document_fsm.py:50-54 | a row is read with its guard if and only if it has the form of a row and the guard is its third cell, stripped |
| Determinism.CopyGuards | backend/orca/document_fsm.py:50-54 | the rows read in a well-laid-out document's copy, with their guard cells, are the hoisted rows without guards |
| Determinism.CopyDeterminismIff | backend/orca/document_fsm.py:111-138 | from text to text: the verifier sees the document's own determinism if and only if that condition holds |
| Reachability.RepeatedPassesKeepRuns | backend/orca/document_fsm.py:112-132 | at any depth every run of the original is, event for event and state for state, a run of the machine hoisted as often as it is deep |
| Reachability.HoistingKeepsRuns | backend/orca/document_fsm.py:112-132 | if every exit leaves one level only, every run of the original is, event for event and state for state, a run of the copy the single pass makes, crossing edges ignored |
| Reachability.NormalizerKeepsReachableIff | backend/orca/document_fsm.py:112-132 | for every machine, no state is falsely unreachable in the copy if and only if the exits that leave more than one level lead where the copy gets without them |
| Reachability.NormalizerKeepsReachable | backend/orca/document_fsm.py:112-132 | if every exit leaves one level only, every state reachable in the original is reachable in the copy as ORCA reads it |
| Reachability.FalselyUnreachable | backend/orca/document_fsm.py:112-116 | a three-level machine with a reachable state the copy cannot reach, against the documentation |
| Reachability.ReachabilityEquivalentIff | backend/orca/document_fsm.py:112-116 | for every machine, original and copy reach the same states if and only if that holds and the other exits owned by children of reachable composites lead somewhere reachable |
| Reachability.NearExitsEquivalentIff | backend/orca/document_fsm.py:112-116 | if every exit leaves one level only, the two reach the same states if and only if every exit of a reachable composite leads somewhere reachable |
| Reachability.OwnersReachableSuffice | backend/orca/document_fsm.py:112-116 | at any depth the copy adds no state if each child owning an exit is reachable as soon as its composite is; they then reach the same states if and only if the copy loses none |
| Reachability.EquivalenceFails | backend/orca/document_fsm.py:112-116 | a two-level machine in which hoisting makes an unreachable state reachable |
| RoundTrip.NormalizeForVerification | backend/orca/document_fsm.py:111-138 | a flat machine's text is returned as it is; a nested one becomes its stripped head, the table header and the hoisted rows |
| RoundTrip.FlatUnchanged | backend/orca/document_fsm.py:118-120 | a text in which no heading is below an earlier one is returned as it is |
| RoundTrip.HeadEndsAtMarker | backend/orca/document_fsm.py:134-134 | the part kept ends where the marker first occurs, or is the whole text |
| RoundTrip.NormalizedLines | backend/orca/document_fsm.py:134-138 | the copy line by line: the stripped head, an empty line, the marker, the table's header and rule, and a row for each hoisted transition |
| RoundTrip.RowCells | backend/orca/document_fsm.py:137-137 | a printed row has five cells: source, event, an empty guard, target and an empty action |
| RoundTrip.RowReadsBack | backend/orca/document_fsm.py:50-54 | a printed row reads back as its transition, unless its source is called like the header, and is never a heading |
| RoundTrip.PrintedAccepted | backend/orca/document_fsm.py:134-138 | every matcher finds in the printed text what it finds in the head and then what it finds in the new rows |
| RoundTrip.ReadingTheNormalized | backend/orca/document_fsm.py:134-138 | what any nested machine's copy reads as: states and rows of the part before the marker, then the hoisted rows less those named like the header |
| RoundTrip.ReadsBackIff | backend/orca/document_fsm.py:118-138 | when states precede a line-start marker the copy has the same states, and exactly the hoisted transitions if and only if no row precedes the marker and no exit was lifted onto a composite named like the header |
| VerificationCopy.CopyIsHoisted | backend/orca/document_fsm.py:111-138 | a well-laid-out document's copy is its hoisted machine |
| VerificationCopy.CopyVerdict | backend/orca/document_fsm.py:112-116 | from text to text, at any depth: exactly when no state is falsely unreachable in the copy, and exactly when the copy reaches the same states |
| VerificationCopy.CopyVerdictNear | backend/orca/document_fsm.py:112-116 | from text to text: if every exit leaves one level only, nothing is falsely unreachable, and nothing is added exactly under the reachability condition |
| Diagram.BuildMermaid | backend/orca/document_fsm.py:58-108 | no diagram without states; otherwise every lookup succeeds and the lines are exactly those of the diagram in the emitter's order, boxes sorted |
| Diagram.BuildDiagram | backend/orca/document_fsm.py:63-108 | on declared parents the emitted lines are, in order, the header, the top-level labels and marks, one box for each composite by id, and the remaining edges; read back they hold the expected content |
| Diagram.GroupChildren | backend/orca/document_fsm.py:64-68 | the children of each composite in order, each composite listed once |
| Diagram.SortTransitions | backend/orca/document_fsm.py:71-75 | the transitions at home in each box, in order, and the rest |
| Diagram.EmitTop | backend/orca/document_fsm.py:80-90 | the header, then the labels of top-level leaves, then the marks of top-level states, each in parsed order |
| Diagram.EmitBoxes | backend/orca/document_fsm.py:92-105 | the boxes of the composites, one after the other in the given order |
| Diagram.EmitBox | backend/orca/document_fsm.py:94-105 | one box: its title, its children's labels, their marks, its own edges, each in parsed order |
| Diagram.LexLeIff | backend/orca/document_fsm.py:92-92 | the order of the boxes: one id is before another if it is a beginning of it or has the smaller character where they first differ |
| Diagram.DiagramContent | backend/orca/document_fsm.py:80-107 | the ordered lines, read back with the box each stands in, hold every label, mark and edge once, in its own box |
| Diagram.ContentComplete | backend/orca/document_fsm.py:81-107 | what is emitted inside and outside the boxes together is everything, once |
| Diagram.EdgesConserved | backend/orca/document_fsm.py:71-75 | emitted edges are a permutation of the transitions, and an edge is in a composite's box exactly when both its ends are children of it |
| Diagram.LabelsInTheirBox | backend/orca/document_fsm.py:81-96 | with unique ids each child is declared once, in its parent's box and nowhere else |
| Diagram.MarksInTheirBox | backend/orca/document_fsm.py:85-102 | a start mark stands in a state's own box once for each declaration as initial and an end mark for each as final, and nowhere else |
| Redline.CutFindsToken | backend/export/redline.py:8-9 | a lazy wildcard up to a marker stops at the first such token |
| Redline.SubIsPairTok | backend/export/redline.py:13-17 | a substitution pass over text is a pass over its tokens |
| Redline.StripLeavesChars | backend/export/redline.py:18-18 | the last pass leaves exactly the plain characters |
| Redline.CleanIsVisible | backend/export/redline.py:13-18 | on every text in which no opening brace of its own stands before, and no closing one after, a dash, plus or marker, markers balanced or not, cleaning leaves exactly the characters outside removed stretches |
| Redline.CleanLeavesNoMarker | backend/export/redline.py:13-18 | the result of such a cleaning holds no marker, so cleaning it again changes nothing |
| Redline.CleanFixesIff | backend/export/redline.py:13-18 | for every text, cleaning leaves it as it is if and only if no marker occurs in it, and cleaning twice is cleaning once if and only if none occurs in the result |
| Redline.CleanLeavesNoBrace | backend/export/redline.py:13-18 | where braces occur only in markers, no brace is left at all |
| RedlineTree.CleanTree | backend/export/redline.py:13-18 | what cleaning the print of any redline tree yields, deletions inside deletions and braces of the text included; no marker is left |
| RedlineTree.CleanTreeNoBrace | backend/export/redline.py:13-18 | where the text has no brace of its own, none is left |
| RedlineTree.CleanAcceptsIff | backend/export/redline.py:3-4 | cleaning is accepting all changes if and only if no outermost deletion leaks text behind an inner one; the accepted text is always in the result, in order |
| RedlineTree.CleanIsAcceptAll | backend/export/redline.py:3-4 | with insertions at any depth and no nested deletion the download is the accepted text without markers |
| RedlineTree.CleanDistributes | backend/export/redline.py:13-18 | cleaning distributes over putting redlines next to each other |
| RedlineTree.CleanCanLeaveMarker | backend/export/redline.py:13-18 | a text whose cleaning is a marker, so that cleaning it again changes it |
| RedlineView.ViewIsViewTok | web/app/page.tsx:41-62 | the page's split and match on text is its reading of the tokens |
| RedlineView.PageAgreesIff | web/app/page.tsx:41-62 | page and download show the same text if and only if every insertion outside removed stretches is flat |
| RedlineView.FlatRedlineAgrees | web/app/page.tsx:41-62 | for a flat redline the page shows, in order, exactly the accepted text that is downloaded |
| RedlineView.SpansAreTok | web/app/page.tsx:41-62 | every span the page makes of the text, with its mark and text, is that of its tokens |
| RedlineView.FlatRedlineRendered | web/app/page.tsx:41-62 | a flat redline is rendered exactly as read off its tree: every removed, added and plain text with its own mark, in order |
| Splitter.SplitIntoChunks | backend/llm/together.py:206-223 | the loop ends for every positive `max_chars` and returns the greedy split |
| Splitter.ProgressIff | backend/llm/together.py:210-220 | the loop body makes progress if and only if `max_chars` is positive |
| Splitter.BreakPrefers | backend/llm/together.py:211-218 | a paragraph boundary in the second half of the window is preferred to a line boundary, and that to a word boundary |
| Splitter.BreakIsLast | backend/llm/together.py:211-219 | the cut is the last paragraph boundary of the window's second half, else the last line boundary, else the last word boundary, else the window's end |
| Splitter.ChunkEndsAtBreak | backend/llm/together.py:210-220 | every chunk but the last is the next window of the remaining text, cut there |
| Splitter.CutInsideWord | backend/llm/together.py:211-219 | a cut lands on a non-whitespace character only if the window's second half has no space and no line feed |
| Splitter.SplitConserves | backend/llm/together.py:206-223 | the stripped input is the chunks in order with only whitespace between them; chunks start visibly, are at most `max_chars` long and all but the last at least half of it; all-whitespace text, and only that, comes back as it is |
| Splitter.ChunksKeepNonSpace | backend/llm/together.py:206-223 | the non-whitespace characters survive in order |
| Splitter.ManyChunksNeedText | backend/llm/together.py:210-220 | n + 1 chunks need more than n half windows of text |
| Splitter.FewChunksHoldLittle | backend/llm/together.py:210-220 | n chunks hold at most n windows of visible text |
| Splitter.TruncationThresholds | backend/llm/together.py:202-264 | up to 48,000 characters are never truncated, more than 96,000 visible ones always |
| Revision.ReviseContract | backend/llm/together.py:258-272 | the loop over the first twelve chunks, the note and the additions assemble to the specified document |
| Revision.CleanOfStripped | backend/llm/together.py:235-240 | stripping a redline before cleaning changes only outer whitespace |
| Revision.CleanOfJoin | backend/llm/together.py:265-265 | cleaning joined redlines joins the cleaned ones |
| Revision.DownloadIsCleanedParts | backend/llm/together.py:258-272 | end to end, with hypotheses on the replies only: if the stripped replies about the first twelve chunks and about the missing clauses are redlines, the cleaned revision is, up to outer whitespace, what is left of each non-empty one, the note exactly if there are more than twelve chunks, and what is left of the additions, with blank lines between |
| Revision.DownloadIsAccepted | backend/llm/together.py:258-272 | if moreover no deletion is inside another, it is the accepted text of every reply |
| Revision.UnchangedComesBack | backend/llm/together.py:258-272 | if the reviser changes nothing, text of at most twelve chunks that holds no marker keeps exactly its non-whitespace characters, braces included |
| Lifecycle.StepMoves | backend/pipeline/worker.py:29-50 | every step moves each run between places and creates one only at its submission |
| Lifecycle.StepKeepsInv | backend/pipeline/worker.py:20-50 | every submit, push, pop, read, claim, store, release and crash keeps the whole invariant |
| Lifecycle.ExactlyOnePlace | backend/pipeline/worker.py:29-50 | in every interleaving each submitted run is in exactly one of: waiting for its push, queued, held, unclaimed, in work, ending, finished, lost |
| Lifecycle.BoundedWork | backend/pipeline/worker.py:31-50 | free permits, the main loop's permit and live tasks add up to the concurrency; pops follow pushes; a crash loses at most that many runs |
| Lifecycle.FifoKept | backend/queue.py:25-39 | every step keeps the pops in the order of the pushes |
| Lifecycle.ClaimNeverRaces | backend/pipeline/validate.py:39-49 | the read a task is about to claim on is still true: its run is queued |
| Lifecycle.NoRace | backend/pipeline/validate.py:39-49 | in every interleaving a claim meets a queued row and a result meets no earlier one, without any lock |
| Lifecycle.StoreRows | backend/pipeline/validate.py:122-136 | storing a running run's result meets no earlier result and keeps rows, documents and results in agreement |
| Lifecycle.LifecycleTheorem | backend/pipeline/validate.py:122-136 | over every system run statuses only go queued, running, done or failed; the document's equals its run's; a result exists exactly when the status is terminal and never changes; done means pass or fail; each run is claimed at most once |
| Completion.ReadDecides | backend/pipeline/validate.py:39-49 | reading a queued row enables the claim of its run and nothing else; reading any other row, or none, ends the task |
| Completion.ReadLeadsToClaim | backend/pipeline/validate.py:39-49 | in every reachable state a task that is about to read can claim its run next |
| Completion.CompletableIff | backend/pipeline/worker.py:29-50 | in every reachable state with a worker that has a slot, a submitted run without a result can still be brought to one, and to any verdict, if and only if it is neither lost nor ended |
| Completion.FreshRunCompletes | backend/pipeline/validate.py:36-136 | for every concurrency with a positive entry, fresh run and document and verdict, some execution stores the verdict, sets both statuses accordingly, claims the run once and finishes it |
| Lifecycle.PollIsNeverEmptyHanded | backend/api/documents.py:86-108 | between its two reads a poll never meets a terminal status without a result |
| Lifecycle.CallsInFlightBounded | backend/pipeline/worker.py:31-48 | all workers together run at most the sum of their concurrencies |
| Storage.RunQueue.Enqueue | backend/queue.py:25-26 | pushes on the left and keeps first-in first-out |
| Storage.RunQueue.Dequeue | backend/queue.py:29-39 | pops the oldest run, or nothing exactly when the list is empty |
| Storage.Tables.Submit | backend/api/documents.py:51-63 | a new document and its run, both queued, with everything else unchanged |
| Storage.Tables.Claim | backend/pipeline/validate.py:39-49 | claims exactly the runs that are there and queued, and otherwise changes nothing |
| Storage.Tables.Finish | backend/pipeline/validate.py:122-136 | stores the result and both status columns of a claimed run |
| Storage.Tables.Poll | backend/api/documents.py:86-108 | answers a verdict exactly when the status is terminal |
| Storage.TokenCounter.CheckBudget | backend/llm/budget.py:33-44 | refuses exactly when there is a budget, the counter can be read and it has reached the budget |
| Storage.TokenCounter.RecordUsage | backend/llm/budget.py:47-55 | adds a positive number of tokens to its day, if the counter can be written, and touches no other day |
| Storage.TokenCounter.Chat | backend/llm/together.py:29-47 | check, call and record by a single caller, over a change of day and store failures: what is recorded, and that the usage of one day stays below the budget plus one call |
| Budget.StepKeepsInv | backend/llm/budget.py:33-55 | every check, call, record, failure and midnight keeps the bound on each day's usage and what may still be added to it |
| Budget.CallerStep | backend/llm/budget.py:33-55 | one caller's step keeps the bound for one day |
| Budget.MidnightStep | backend/llm/budget.py:29-30 | a new day starts within its own bound, whatever is still in flight |
| Budget.UsageBounded | backend/llm/budget.py:33-55 | in every interleaving a day's usage stays below the budget plus one call for each concurrent caller and each check that failed open |
| Budget.UsageWithoutFailures | backend/llm/budget.py:33-55 | without store failures the usage never exceeds B - 1 + C*M |
| Budget.BoundIsTight | backend/llm/budget.py:33-55 | for every budget, number of callers and call size, a run without store failures that reaches the bound |
| Budget.NoBudgetNoLimit | backend/llm/budget.py:35-36 | with a budget of zero or less any usage is reached, even by one caller and without store failures |
| ContractMachine.TableIs | machines/contract_validation.orca.md:36-53 | the first matching row of the table is the chosen transition in every state, for every event and context |
| ContractMachine.FinalAbsorbs | machines/contract_validation.orca.md:27-34 | final states absorb every event |
| ContractMachine.NextKeepsVerdict | backend/orca/actions/contract_actions.py:13-43 | every transition keeps verdict, reasons and state in agreement |
| ContractMachine.ActedKeeps | backend/orca/actions/contract_actions.py:13-43 | an action leaves every key it does not write as it is |
| ContractMachine.ExtractedIs | backend/orca/actions/contract_actions.py:13-24 | each folded key takes the payload's value if there is one and keeps its own otherwise; the missing fields are always replaced |
| ContractMachine.AfterKeeps | backend/orca/actions/contract_actions.py:13-43 | what a machine was created with, such as document and owner, stays in its context through every sequence of events |
| ContractMachine.CountDecides | machines/contract_validation.orca.md:44-53 | no missing field, or no count at all, is valid, a positive count invalid, and on anything else the event is not taken |
| ContractMachine.InvalidNames | backend/orca/actions/contract_actions.py:33-37 | a machine found invalid names the missing fields its context lists, or those of the payload if it lists none, and gives the general reason if neither does |
| ContractMachine.ReasonNames | backend/orca/actions/contract_actions.py:36-36 | the words of a reason |
| ContractMachine.FailureErrs | backend/orca/actions/contract_actions.py:40-43 | a timeout or failure ends the machine in error, with the message it brings or the general one |
| ContractMachine.VerdictAlwaysIsState | machines/contract_validation.orca.md:36-53 | over every event sequence the machine is in valid, invalid or error exactly when the verdict is pass, fail or error, and then stays |
| Bridge.Machine.RecordExtracted | backend/orca/actions/contract_actions.py:13-24 | the loop folds the known keys of the payload into the context in place |
| Bridge.Machine.RecordInvalid | backend/orca/actions/contract_actions.py:33-37 | writes the fail verdict and one reason for each missing field |
| Bridge.Machine.LoadOrStart | backend/orca/bridge.py:48-48 | resumes exactly the stored snapshot, or stays at the start |
| Bridge.Machine.Send | backend/orca/bridge.py:65-65 | takes the first matching row, applies its action and stores a snapshot exactly when a transition was taken |
| Bridge.Store.Save | backend/orca/persistence.py:24-41 | updates the run's row or inserts one, and no other |
| Bridge.Store.Exists | backend/orca/persistence.py:50-51 | whether the run has a row |
| Bridge.OrcaBridge.GetOrCreateMachine | backend/orca/bridge.py:27-54 | the cached, resumed or new machine, or the error, and the whole cache and store afterwards |
| Bridge.OrcaBridge.SendEvent | backend/orca/bridge.py:56-72 | the machine's reply and the whole cache and store afterwards |
| Bridge.OrcaBridge.Shutdown | backend/orca/bridge.py:74-77 | forgets every machine and nothing stored |
| Bridge.LookupCoherentIff | backend/orca/bridge.py:27-54 | a lookup keeps cache and store in agreement if and only if it creates the machine or brings a context that adds nothing |
| Bridge.SendCoherentIff | backend/orca/bridge.py:56-72 | a send keeps them in agreement if and only if that holds or some row of the table matches the machine with the context added |
| Bridge.SendRefines | backend/orca/bridge.py:56-72 | a send on agreeing cache and store answers and stores what a plain map of machines does |
| Bridge.RestartInvisibleIff | backend/orca/bridge.py:1-6 | no sequence of later calls tells a restart from no restart if and only if every cached machine is stored as it is |
| Bridge.BridgeStandsForMap | backend/orca/bridge.py:27-77 | whatever contexts calls bring and whenever they bring them, the bridge answers as one that never restarts, as long as each crash finds cache and store in agreement |
| Bridge.BridgeRefinesPlainMap | backend/orca/bridge.py:1-6 | for every call sequence that brings contexts only at creation, with crashes anywhere, every state, context, verdict and error is that of a bridge that never restarts |
| Bridge.LateContextLost | backend/orca/bridge.py:30-32 | a new context brought to an existing machine is lost by a restart |
| Extraction.FoldItems | backend/llm/together.py:113-117 | the loop folds the answer's items into the dictionary of fields |
| Extraction.CleanNameIff | backend/llm/together.py:115-115 | a name is the raw one without the whitespace around it, cut to 64 characters |
| Extraction.FoldedIsLast | backend/llm/together.py:113-117 | the dictionary holds each non-empty clean name once, with the flag of its last item |
| Extraction.FoldedInOrder | backend/llm/together.py:113-117 | the dictionary keeps the names in the order in which the answer first gave them |
| Extraction.MissingIs | backend/llm/together.py:118-118 | nothing is missing exactly when every field is there, and the missing names are exactly the absent fields |
| Extraction.MissingConcat | backend/llm/together.py:118-118 | the missing names are read off the fields one by one, in their order |
| Extraction.MergeCoreFields | backend/ocr/extract.py:66-76 | the loop merges the detected core fields into the answer's |
| Extraction.MergedKeepsAndCompletes | backend/ocr/extract.py:66-76 | merging keeps every field of the answer in front, and leaves no core field out |
| Extraction.MergedIs | backend/ocr/extract.py:66-76 | the merged fields are the answer's and exactly the core fields it has no name for |
| Extraction.MergedInOrder | backend/ocr/extract.py:66-76 | the merged dictionary is the answer's, followed by the core fields it has no name for, in their order |
| Pipeline.FindFields | backend/pipeline/validate.py:57-82 | which fields, which error or which exception a document leads to |
| Pipeline.RunMachine | backend/pipeline/validate.py:53-88 | driving the bridge's own objects stores and reports exactly where the events lead the machine, and after an exception the error with its message |
| Pipeline.FlagsRecorded | backend/orca/actions/contract_actions.py:17-23 | with the deterministic extractor the context holds a flag of one or zero for each core field |
| Pipeline.MachineKnowsItsDocument | backend/pipeline/validate.py:58-60 | wherever a validation ends, its machine still knows its document, its owner and, as tenant, the owner |
| Pipeline.MachineDecides | backend/pipeline/validate.py:78-85 | on any fields the machine ends valid with no reasons if all are there, and otherwise invalid, naming the absent ones |
| Pipeline.VerdictIsAllPresent | backend/pipeline/validate.py:59-88 | error exactly for exceptions and unreadable documents, with the reason; pass exactly when every field is there; fail reasons name exactly the absent fields in order |
| Pipeline.ContractPassHasCore | backend/pipeline/validate.py:70-77 | a contract-like document that passes has all five core fields |
| Pipeline.AnsweredPassIff | backend/pipeline/validate.py:67-77 | in terms of the model's answer alone: it passes if and only if no name's last item says absent and, if its type, cut to 128 characters, is that of a contract, each core field is mentioned or found in the text |
| Pipeline.BadAnswerPasses | backend/llm/together.py:109-112 | every readable document passes on an answer that is not JSON |
| Pipeline.FinalStateIsMachinesIff | backend/pipeline/validate.py:82-88 | the reported final state is the machine's own if and only if reading and extracting raised no exception |
| Verdicts.ReadableIff | backend/ocr/result.py:14-16 | a document is readable if and only if there was no error and some character of its text is visible |
| Verdicts.ContractLikeIff | backend/ocr/extract.py:55-63 | a type is that of a contract if and only if its lower-cased text contains one of the eleven listed words |
| Verdicts.AnsweredType | backend/llm/together.py:120-120 | the reported type is the answer's own, cut to 128 characters, and `document` if it gives none |
| Verdicts.AnsweredFieldsAre | backend/pipeline/validate.py:67-77 | the reported fields are each name of the answer with its last flag and, for a contract, each core field the answer does not name as the text shows it |
| Verdicts.AnsweredFieldsInOrder | backend/pipeline/validate.py:67-77 | their order: the answer's names as first given, then the core fields in theirs |
| Verdicts.AnsweredContractHasCore | backend/pipeline/validate.py:70-77 | a document whose answered type is that of a contract passes only with all five core fields present |
| Verdicts.ExtractedReport | backend/pipeline/validate.py:77-81 | without a model the report is that of a contract with the five core fields as found in the text, and passes exactly when all are |
| Verdicts.ErrorReport | backend/pipeline/validate.py:59-88 | the verdict is error exactly when the parser, the model or the extractor raised or the document is unreadable, with that exception's message or the parser's error as its reason |
| Verdicts.FinalStateNames | backend/pipeline/validate.py:82-88 | pass, fail and error are reported with the final states valid, invalid and error |
| Validation.RunValidation | backend/pipeline/validate.py:36-136 | a run that is missing or claimed is left alone with everything else; a queued one is claimed, driven through its machine and stored |
| Validation.StoredVerdictIsAllPresent | backend/pipeline/validate.py:122-136 | end to end: the stored result is pass, fail or error exactly when all fields are there, one is not, or the document could not be judged; statuses follow; a second validation would change nothing |
| Validation.ValidatedOnlyAdvances | backend/pipeline/validate.py:1-5 | a whole validation only moves statuses on, keeps every result and touches no other run |

## Left out

- MachineText.ParseMachine: the states it returns have no label.
- State labels and `_humanize` (backend/orca/document_fsm.py:17-19, 36-45): cosmetic; a diagram line carries the id in place of the label, and lines are structured values, not strings.
- The subprocess calls to the ORCA verifier and the boot gate: external; ORCA's reading is modelled as reachability with crossing edges ignored.
- Transition priority of inner states over outer ones: reachability says what some run may reach.
- Guards inside document machines decide determinism only, through a relation that says which guards can hold together, in which two empty guards can; reachability, dead ends and handled events ignore them.
- An empty id as parent: the heading pattern never accepts one, so the source's truth test of `parent` is the presence of a parent.
- Model calls, prompts and JSON decoding: replies are parameters, and any exception they raise is one with a message.
- Trimming code fences off a model's machine and repairing its first line (backend/llm/together.py:190-199): the normalizer and the diagram take any text.
- Document parsing and OCR: the parsed text or its error is a parameter.
- Extraction.Detected: the regular expressions of the five core fields are an uninterpreted predicate on the lower-cased text, and lower-casing covers ASCII only.
- Pipeline.RunMachine: the document type is `contract`, the only one an upload is accepted for, so the bridge's unknown-type error does not occur in it; and an exception raised by the bridge itself, as when a snapshot cannot be stored after the machine has moved on, is not among its cases.
- The AI layer of `run_validation` after the verdict (backend/pipeline/validate.py:90-120): its statuses follow from which of three calls raises; the revision itself is modelled.
- `WORKER_CONCURRENCY` runs and model calls as real tasks: the worker's main loop never ends, so it is a state machine of atomic steps; a transaction, a push and a pop are each one step.
- Internals of SQLAlchemy and Redis, except that a transaction is atomic, a pop either delivers or does not, and a run's result row is unique.
- The in-process BackgroundTasks path and runs started by hand: at-most-once delivery is that of the Redis list.
- Crashes of Redis or of the database are not steps of the protocol; run and document ids are fresh numbers.
- Validation.RunValidation: reasons, fields, timestamps and the error column of the stored rows are in the report, not in the row model, which keeps verdict and statuses.
- Storage.Tables.Poll: the run and its result are read in one step; what can happen between the two reads is the subject of `Lifecycle.PollIsNeverEmptyHanded`.
- Redlines whose plain text has an opening brace before, or a closing one after, a dash, plus or marker: what cleaning makes of them is known only by an example, and exactly when cleaning changes a text.
- Bridge.Store.Save: the columns for machine name and current state, which are copies of what the snapshot says.
- Bridge.OrcaBridge.GetOrCreateMachine: no two calls on one bridge overlap; each is one step.
- Context and payload values other than numbers, text, lists of texts and null, and `orca_runtime_python` beyond taking the first matching row whose guard holds, applying its action, saving after a taken transition and resuming from a snapshot.
- Negative `max_chars`, which no caller passes.
- A transition's error inside a guard or action: the guards compare the count the pipeline always stores as a number; on any other value no row is taken.
- A model call that fails after its check is a caller that gives up and adds nothing; keys of the counter expire only after their day is over.
- Authentication, health checks, visits, blob storage, the docx export, migrations and the rest of the web page.
