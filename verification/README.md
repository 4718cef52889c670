# Marginal: a verified model of its pure cores

Marginal is a block-based, collaborative notebook. This project models the
parts of it that are pure algorithms and proves the laws they rely on:

- **The page** (`services/documentcore`). A page is one flat slice of rows in
  depth-first order, changed by six kinds of op. `Forests.dfy` and
  `ForestAlgebra.dfy` give the tree the slice stands for, `Operations.dfy` the
  six ops on that tree with the law of inverses, `RowLaws.dfy` the same ops by rows
  alone: what each asks, what it leaves and why it is refused. `Positions.dfy` and
  `Pages.dfy` are the slice code and its refinement of the tree, `Histories.dfy` undo
  and redo over whole runs, `Limits.dfy` the concrete pages on which the code
  keeps less than its comments say.
- **The browser's copy** (`web/src/collab/useCollabPage.ts`). `CollabClient.dfy`
  is the same index logic over an id array and a map, refining the same tree.
- **Inline marks** (`services/documentcore/inline.go`). `Marks.dfy`: mark lists
  as sets of covered offsets, with one canonical list for each set.
- **The paste compiler** (`services/mdc`). `Lexers.dfy`, `Lines.dfy`, `Trims.dfy`,
  `Inlines.dfy`, `Utf8.dfy`, `InlineUtf8.dfy`, `Nestings.dfy`, `Lowerings.dfy`,
  `Outlines.dfy`, `Replays.dfy` and `Compiles.dfy`: text to tokens, tokens to rows,
  rows to ops, ops back to rows, and the same ops on a page. What comes out is also
  stated from the bytes and tokens alone: `LineLaws.dfy` and `Pastes.dfy` what a line
  and a written source are lexed to, `Readings.dfy` what a line's markup reads as,
  `Characters.dfy` UTF-8 and white space by code points, `Nestings.dfy` which list each
  item belongs to, `Prose.dfy` what the rows hold of the lines, `Reports.dfy` when a
  reported number is a line, `PageReplays.dfy` when a replay builds what a page builds.
- **The network simulator** (`services/netsim`). `Transforms.dfy` is operational
  transform on plain offsets, `Merges.dfy` what a transformed op does to each character,
  `Deletes.dfy` the rollback of one delete,
  `Simulations.dfy` the client and server steps with prediction and rollback, as a
  state machine over every delivery order, `Divergences.dfy` runs that end apart,
  `Stacks.dfy` two pending inserts under a foreign one, `Arrivals.dfy` and `Schedules.dfy`
  confirmations that arrive out of order.
- **Graph algorithms** (`services/graphalgo`). `Graphs.dfy`, `Tarjans.dfy` and
  `Components.dfy` (strongly connected components), `Toposorts.dfy` (Kahn's
  order, what it cannot place, levels), `Cycles.dfy` (three-colour search),
  `Gf2.dfy` (rank by elimination over GF(2)).
- **Text diff** (`services/textdiff`). `TextDiffs.dfy`: the LCS table, the walk
  back and the script.
- **The semantic index** (`services/semantic`). `HnswNets.dfy`, `HnswSearches.dfy`,
  `HnswInserts.dfy` and `HnswIndexes.dfy`: the layered neighbour graph, insertion
  and search over an opaque similarity; `HnswLimits.dfy`: an index
  that loses a link and with it an element.

Code that changes state in place is a class or a method with loops, proved
against a function or predicate on values; the laws are lemmas about those.

## Where the code and its comments disagree

The model follows the code.

- `operation.go:15-19` asks that the inverse of every accepted op gives the page
  back. `Operations.InverseLaw` proves exactly when it does: a delete's
  tombstone must equal the block (the code compares only parent and
  predecessor), and a block under a list item must itself be a list or a
  paragraph when its kind is changed or it is moved or deleted. The second part
  can fail because `SetBlockKind` may turn a container that already holds other
  children into a list item; `Limits.AcceptedOpWithRefusedInverse` is such a
  page, reached by accepted ops.
- `page.go:267-268` says a rejected op leaves the page unchanged. A `MoveBlock`
  refused for its target has already cut its subtree out of the shared slice,
  which then ends in zero rows (`Limits.RefusedMoveLosesRows`). Every other
  rejection leaves the page alone (`Pages.Page.Apply`).
- `lower.go:14-16` calls lowering total. The pass ends exactly on the token lists
  whose code lines and fence closes all follow a fence open
  (`Lowerings.EndsExactlyWhenFenced`); on any other it comes to a token it never
  leaves. The lexer produces only such lists (`Lexers.Lex`). The branch for a
  deeper item with no item above it (`lower.go:151-153`) is modelled, but no call
  from `lowerList` reaches it.
- `compile.go:15` calls the number of a report a 1-based line, but `lower.go:22-25`
  counts steps of the loop: a paragraph of two lines is one
  (`Reports.ReportCountsSteps`). An unclosed fence is reported at no more than its
  line, and at its line exactly when no two tokens before it are taken in one step:
  no two lines of one paragraph, quote or list, and no fence with a line of code or
  a close (`Reports.ReportedLineExactly`).
- `mdc/inline.go:120-122` says a mark over nothing must not be representable. One
  comes out exactly when reading comes to stand at `[[]]`, or at `[](` with a `)`
  after it (`Inlines.EmptyMarkExactly`).
- `documentcore/inline.go:138` says a mark over nothing is dropped. Normalising
  drops it exactly when it lies on or at the edge of a mark of its kind over some
  byte, and keeps it otherwise (`Marks.CanonicalUnlessStranded`,
  `Marks.EmptyLinkStays`).
- `tree.go:81-82` says a replay rebuilds a tree exactly as a fresh page would. An insert
  with neither parent nor predecessor goes first on a page and last in a replay, so of the
  inserts a page accepts a replay builds the page exactly when every one but the first
  names a parent or a predecessor (`PageReplays.ReplayIsPageExactly`);
  `PageReplays.SecondFirstBlock` is two that do not. The compiler emits none such.
- `ot.go:73-75` specifies `Invert` against the text before the op; rollback
  passes the text after it. `Transforms.RollbackExactness` proves when the two
  agree: always for inserts, for deletes only when the removed text repeats.
- `sim.go:66-68` says replicas must converge with transform on. With one op
  outstanding per client, a run keeps every client on the log it has seen exactly
  when no delivery exposes what undoing a pending delete got wrong
  (`Simulations.ConsistentExactly`); which foreign ops do is `Deletes.RedoneExactly`.
  Runs of inserts always converge (`Simulations.InsertsAreHarmless`,
  `Simulations.EveryRunConverges`). One delete and an insert behind it already end
  apart for good (`Divergences.OneDeleteDiverges`), and so do inserts with two of
  one author's ops outstanding (`Divergences.TwoOutstandingDiverge`), because
  `sim.go:394-399` moves every pending op over the same incoming op. One such step
  under two pending inserts is right exactly unless the foreign insert goes behind the
  first and only so behind the second, and the second does not commute with the text it
  is then pushed over (`Stacks.ConfirmUnderTwoExactly`).
- `sim.go:276-278` says a confirmation that arrives out of order is held; the
  code drops it from the queue, and `sim.go:295-303` offers again only what had not
  arrived by the end. A client ends with the whole log exactly when the log's
  entries, in order, are a subsequence of all it is offered
  (`Arrivals.WholeLogExactly`). Where the second confirmation takes one tick and the
  first, sent a tick before it, three, the second is lost for good
  (`Arrivals.OvertakenIsDropped`).
- `toposort.go:9-15` says `ok` is false exactly when there is a cycle. It is
  also false when a page is listed twice (`Toposorts.OkMeansAcyclic`), as for the one
  page of `Toposorts.ListedTwiceIsNotOk`.
- `scc.go:15-18` says the sort fails exactly when some component has more than one
  page. It also fails for a page that links to itself
  (`Cycles.AcyclicMeansAllAlone`, `Cycles.SelfLinkIsCycle`).
- `hnsw.go:137-139` calls connections bidirectional. A neighbour chosen for a new
  element links back when its list has room. A full list loses the new element exactly
  when that is, of the elements the pruning passes over for going in no new direction,
  the last in rank (`HnswInserts.WayBackLostExactly`); the nearest is never lost
  (`HnswInserts.NearestIsKept`). After six insertions of unit vectors with two
  neighbours each, the sixth page links to the hub, the hub does not link back, and the
  page is out of reach (`HnswLimits.WayBackDropped`).
- `hnsw.go:216-221` says a search gives k elements that pass the filter, or every one
  that exists. It gives that many exactly when its start reaches that many
  (`HnswIndexes.FullAnswerExactly`); in the index above, a search for six of its six
  pages gives fewer (`HnswLimits.FewerThanAsked`). When it returns fewer than asked for
  it gives every one its start reaches (`HnswIndexes.SearchIsExhaustive`), and that is
  the exact answer exactly when the start reaches the first elements of it
  (`HnswIndexes.ExactWhenReached`).

## Model

| member | source | states |
|---|---|---|
| Blocks.LessIsTotal | services/netsim/ot.go:101-105 | the tie-break between two different names orders them one way and not the other |
| Blocks.LessExactly | services/netsim/ot.go:101-105 | one name is before another exactly when it ends, or has the smaller byte, at the first place where they differ |
| Forests.SubtreeIsRun | services/documentcore/page.go:8-14 | a block and all its descendants are one contiguous run of the slice, and taking the subtree out removes exactly that run |
| Forests.ParentIsEarlier | services/documentcore/page.go:8-14 | every parent stands earlier in the slice than its child, so walking up parents ends |
| Forests.ParentLinksClosed | services/documentcore/page.go:179-196 | a block is below another exactly when its parent is that block or below it |
| Forests.ChildrenHaveParent | services/documentcore/page.go:8-14 | the children of a node are exactly the rows that name it as parent |
| Forests.InsertIsSplice | services/documentcore/page.go:234-260 | placing a tree under a parent and after a sibling is splicing its rows in at one index, after all the sibling's descendants |
| ForestAlgebra.InsertPlaces | services/documentcore/page.go:234-260 | an inserted tree has the parent and predecessor asked for, and removing it gives the old tree back |
| Positions.SubtreePositions | services/documentcore/page.go:198-209 | a row is in a subtree exactly when its index lies between the root's index and the subtree's end |
| Positions.PrevIsNearest | services/documentcore/page.go:154-168 | the preceding sibling is the nearest earlier row with the same parent |
| Positions.PasteSubtree | services/documentcore/page.go:371-387 | a whole-subtree move on the tree is the run of rows spliced in at the target with only its first row reparented |
| Positions.RowsDetermineForest | services/documentcore/page.go:8-14 | the rows determine the tree: two trees with the same rows are the same |
| Operations.StepKeepsWellFormed | services/documentcore/page.go:267-271 | an accepted op leaves distinct ids and only containers with children |
| Operations.StepKeepsListRule | services/documentcore/page.go:307-329 | every accepted op keeps the list-item rule, except that a change of kind keeps it exactly when the existing children fit the new kind |
| Operations.ListRuleMeansFit | services/documentcore/page.go:211-232 | while the list-item rule holds, no accepted op concerns a block that its parent would refuse |
| Operations.InvertTwice | services/documentcore/operation.go:38-157 | inverting an inverse gives the op itself |
| Operations.UndoInsert | services/documentcore/operation.go:38-43 | the inverse of an accepted insert is accepted and gives back the page |
| Operations.UndoDelete | services/documentcore/operation.go:67-75 | the inverse of an accepted delete gives back the page exactly when the tombstone is the block and the block fits its parent |
| Operations.UndoKind | services/documentcore/operation.go:97-99 | the inverse of an accepted change of kind gives back the page exactly when the old kind fits the parent |
| Operations.UndoContent | services/documentcore/operation.go:113-115 | the inverse of an accepted change of content gives back the page |
| Operations.UndoMove | services/documentcore/operation.go:155-157 | the inverse of an accepted subtree move gives back the page exactly when the block fits its old parent |
| Operations.InverseLaw | services/documentcore/operation.go:15-20 | for all six ops on every well-formed page: the inverse of an accepted op gives back exactly the page, if and only if the tombstone is exact and the block fits its parent |
| RowLaws.StepOnRows | services/documentcore/page.go:271-393 | by the rows alone, for all six ops: an op is accepted exactly when its block, parent and predecessor stand in the rows as it says and the container and list-item rules allow it; title and rows are then exactly those before with the one row spliced in, cut out or given its new kind or content, or the one run moved and its first row reparented |
| RowLaws.InsertOnRows | services/documentcore/page.go:273-287 | an insert is accepted exactly when its id is new, its parent may hold it and its predecessor is a child of that parent; its row then stands right behind all of the predecessor's rows, or its parent's row, or first |
| RowLaws.DeleteOnRows | services/documentcore/page.go:289-305 | a delete is accepted exactly when the row stands under the parent and behind the predecessor recorded and no row names it as parent; that row alone is then gone |
| RowLaws.KindOnRows | services/documentcore/page.go:307-329 | a change of kind is accepted exactly when the row has the old kind, the new one is a container or no row is below, and a list item above takes it; that row alone then has the new kind |
| RowLaws.ContentOnRows | services/documentcore/page.go:331-340 | a change of content is accepted exactly when the row with the id holds the old content; that row alone then holds the new |
| RowLaws.MoveOnRows | services/documentcore/page.go:349-388 | a move is accepted exactly when the row stands as recorded, its new parent is not among the rows of its subtree and may hold it, and the target names a place among the other rows; the subtree's rows then stand there together, only the first reparented |
| RowLaws.StepRefused | services/documentcore/page.go:271-393 | a refused op gives the error of the first check that fails on the rows, with the ids, parents and predecessors found there |
| RowLaws.RunExactly | services/documentcore/page.go:198-209 | a block's subtree is the rows from it up to the first whose parent is not among them |
| Pages.FindBlock | services/documentcore/page.go:131-138 | finds a row with the id, or says there is none |
| Pages.BlockIndex | services/documentcore/page.go:146-152 | the map holds the index of every id in the slice and no other |
| Pages.PredecessorOf | services/documentcore/page.go:160-168 | the backward scan finds the preceding sibling in the tree |
| Pages.IsDescendant | services/documentcore/page.go:181-196 | the walk up parents ends, and answers whether the block is strictly below the other |
| Pages.SubtreeEnd | services/documentcore/page.go:202-209 | the scan ends just past the subtree |
| Pages.ValidateParent | services/documentcore/page.go:216-232 | which error, if any, a parent gives for a child of this tag |
| Pages.InsertIndexAfterInParent | services/documentcore/page.go:241-260 | the errors of a bad place, and otherwise the index where that place is in the tree |
| Pages.Page.constructor | services/documentcore/page.go:21-23 | a new page is the empty tree |
| Pages.Page.Apply | services/documentcore/page.go:271-393 | an op is accepted exactly when the rows allow it, and title and rows are then what it says; a refused op gives the first failing check's error and leaves the page unchanged, except a move refused for its target, whose rows are cut and ended with zero rows; all of it is also the op on the tree |
| Pages.Page.ApplyInsert | services/documentcore/page.go:273-287 | insert on the slice is insert on the tree; an error changes nothing |
| Pages.Page.ApplyDelete | services/documentcore/page.go:289-305 | delete on the slice is removal from the tree; an error changes nothing |
| Pages.Page.ApplyKind | services/documentcore/page.go:307-329 | a change of kind relabels one node; an error changes nothing |
| Pages.Page.ApplyContent | services/documentcore/page.go:331-340 | a change of content relabels one node; an error changes nothing |
| Pages.Page.ApplyMove | services/documentcore/page.go:349-388 | the slice move is the subtree move on the tree; an error before the cut changes nothing |
| Pages.Page.CutAndInsert | services/documentcore/page.go:378-388 | after the cut, the target resolved against the rest gives the moved page, or the error and a slice ending in zero rows |
| Limits.ReachableIsWellFormed | services/documentcore/page.go:8-14 | any run of accepted ops keeps the page a well-formed forest |
| Limits.AcceptedOpWithRefusedInverse | services/documentcore/page.go:315-327 | three accepted ops from an empty page reach one where an accepted op has a refused inverse |
| Limits.CutKeepsPageOnlyForZeroTail | services/documentcore/page.go:380-385 | the cut slice equals the old one exactly when the moved block is the last row and is the zero row |
| Limits.RefusedMoveLosesRows | services/documentcore/page.go:380-385 | a concrete move that is refused and loses the moved paragraph |
| Limits.CarefulRunIsLegal | services/documentcore/operation.go:15-20 | checks a caller can make before each op keep every op of the whole run undoable |
| Histories.UndoMovesBack | services/documentcore/history.go:49-63 | undo goes back exactly one page of the recorded path, and redo then restores page and stacks |
| Histories.RedoMovesForward | services/documentcore/history.go:67-81 | redo goes forward exactly one page of the recorded path, and undo then restores page and stacks |
| Histories.DoExtendsPath | services/documentcore/history.go:27-45 | a new op forgets the pages ahead and, past the depth, the oldest one |
| Histories.RunStaysOnPath | services/documentcore/history.go:3-45 | any interleaving of ops, undos and redos stays on a recorded path, and undo plus redo depth never exceeds maxDepth |
| Histories.UndosThenRedos | services/documentcore/history.go:47-81 | n undos then n redos restore the page and both stacks |
| Histories.EveryRunCanUndoAndRedo | services/documentcore/history.go:3-6 | at the end of every run from a new page the next undo and redo are accepted and take each other back |
| Histories.History.Record | services/documentcore/history.go:27-45 | the stack after recording: newest maxDepth ops, redo cleared, nothing at depth zero or less |
| Histories.History.UndoLast | services/documentcore/history.go:49-63 | page and stacks take the session's undo step; or an error leaves both stacks as they were and the page too, except for a refused move that cuts first, whose slice is described exactly |
| Histories.History.RedoLast | services/documentcore/history.go:67-81 | page and stacks take the session's redo step; or an error leaves both stacks as they were and the page too, except for a refused move that cuts first, whose slice is described exactly |
| CollabClient.PredecessorOf | web/src/collab/useCollabPage.ts:182-189 | over ids and a map, the same preceding sibling as the page's |
| CollabClient.IsDescendant | web/src/collab/useCollabPage.ts:191-198 | the walk ends and answers the same question as the page's |
| CollabClient.SubtreeEndIndex | web/src/collab/useCollabPage.ts:202-206 | the index just past the subtree, 0 for an id that is not there |
| CollabClient.InsertIndexAfterInParent | web/src/collab/useCollabPage.ts:212-219 | the index of a place the page would accept; the end for a parent that is not there, the start for a sibling that is not |
| CollabClient.CollabPage.ApplyStructural | web/src/collab/useCollabPage.ts:371-423 | a client that shows the page before an op the page accepts shows, id by id and field by field, the rows after it, for all six ops |
| CollabClient.CollabPage.ReplayMove | web/src/collab/useCollabPage.ts:403-419 | a subtree move on the client mirrors the subtree move on the page |
| CollabClient.WithoutOne | web/src/collab/useCollabPage.ts:380-388 | filtering an id out of the order cuts exactly its position |
| Marks.CoverDeterminesMarks | services/documentcore/inline.go:131-138 | two lists in order, without marks over nothing, that cover the same offsets for every kind are equal |
| Marks.ExtentDeterminesMarks | services/documentcore/inline.go:297-301 | two normalised lists that reach the same places and bytes for every kind are equal, so normalising is idempotent |
| Marks.CanonicalUnlessStranded | services/documentcore/inline.go:131-138 | the normalised list has no mark over nothing exactly when each one given lies on or at the edge of a mark of its kind over some byte |
| Marks.EmptyLinkStays | services/documentcore/inline.go:138 | an empty link away from any other outlives normalising |
| Marks.AddOrderIsIrrelevant | services/documentcore/inline.go:228-231 | adding two marks in either order gives the same list |
| Marks.RemoveUndoesAdd | services/documentcore/inline.go:245-281 | removing an added range gives the old list back exactly when none of the range was covered before |
| Marks.KindOrderIsTotal | services/documentcore/inline.go:329-346 | the tie order on kinds is total |
| Marks.MarkOrderExactly | services/documentcore/inline.go:329-346 | marks stand by start, then in the order bold, italic, strike, code, link, page link, highlight, then by the first differing byte of the url, then by page |
| Marks.BeforeIsTransitive | services/documentcore/inline.go:329-346 | the sort order on marks is transitive |
| Marks.MergeRuns | services/documentcore/inline.go:313-327 | merging one kind's runs keeps the places and bytes they reach and leaves gaps between them |
| Marks.SortedIsOrderly | services/documentcore/inline.go:131-138 | merged runs of every kind, sorted, are the one normalised list of the same places and bytes |
| Marks.InlineContent.Normalise | services/documentcore/inline.go:297-348 | the marks reach the same places and bytes, whatever marks were given, and are the normalised list of them unless one given ended before it started |
| Marks.InlineContent.AddMark | services/documentcore/inline.go:205-243 | for a range over some text with both ends between characters coverage becomes the union with it, without error, in a normalised list unless a mark was inverted; an empty range inside the text changes nothing without error, and any other is the error of the first offset that is wrong and no change |
| Marks.InlineContent.RemoveMark | services/documentcore/inline.go:249-282 | for such a range coverage becomes the difference with it, and of every mark of the kind that reaches into it exactly the places and bytes before and behind it stay; an empty range inside the text changes nothing without error, and any other is the error of the first offset that is wrong and no change |
| Marks.GoodRangeOnUtf8 | services/documentcore/inline.go:220-226 | on well-formed UTF-8 the ranges that are marked are exactly those that start and end where characters do |
| Marks.InlineContent.MarksAt | services/documentcore/inline.go:284-295 | the kinds of the marks that cover an offset, mark by mark |
| Marks.KindsAtCover | services/documentcore/inline.go:284-295 | a kind is listed exactly when it covers the offset |
| Marks.KindsAtInOrder | services/documentcore/inline.go:284-286 | of normalised marks each kind is listed once, in the order of the marks |
| Marks.Subtract | services/documentcore/inline.go:258-278 | trimming, splitting and dropping remove exactly the range from the kind |
| Lexers.SplitLinesKeepingEnds | services/mdc/lex.go:176-192 | the lines concatenate to the source, and each but the last ends at its only newline |
| Lexers.TokensTile | services/mdc/lex.go:90-93 | the tokens' spans tile the source without gap or overlap |
| Lexers.TokensFenced | services/mdc/lex.go:94-123 | code text and fence closes come only after a fence open |
| Lexers.Lex | services/mdc/lex.go:94-171 | one token a line, decided by the line and the number of fence lines before it, tiling the source, with fences well nested |
| Pastes.WrittenPasteLexes | services/mdc/lex.go:94-171 | a source written line by line, fences with their languages and code included, is lexed to one token a line, of the kind and with the fields it was written for |
| Pastes.SplitOnce | services/mdc/lex.go:176-192 | there is one way to split a source so that each line but the last ends at its only newline |
| Lines.WrittenLineReadsBack | services/mdc/lex.go:94-171 | a heading, quote, item, task, divider or plain line written out is given back by the classifier, with level, indent, box and text, and opens no fence |
| LineLaws.ClassifiedExactly | services/mdc/lex.go:123-166 | every line outside a fence is what its bytes say: a rule, a heading, a quote, a task, an item of either kind with its indent, or else prose |
| LineLaws.FenceExactly | services/mdc/lex.go:107-120 | a line is a fence exactly when it starts with three backticks or tildes, and its language is what follows all of those |
| LineLaws.LineEndsGo | services/mdc/lex.go:104 | all carriage returns and newlines at the end of a line are taken off, and nothing else |
| Lines.LeadingIndent | services/mdc/lex.go:260-273 | two columns of leading white space a level, a tab counting for two |
| Lines.CountLeading | services/mdc/lex.go:213-218 | how many bytes of a class a line starts with |
| Trims.TrimCutsSpace | services/mdc/inline.go:91 | trimming takes white space off both ends, all of it and nothing else |
| Characters.SpaceExactly | services/mdc/inline.go:91 | what is trimmed off are the encodings of Unicode's white space characters and nothing else |
| Utf8.ValidCut | services/mdc/inline.go:64-67 | valid UTF-8 may be cut before any byte below 0x80 |
| Utf8.ValidJoin | services/mdc/inline.go:64-67 | joining valid pieces is valid |
| Utf8.BoundaryExactly | services/documentcore/inline.go:220-226 | in well-formed UTF-8 a character ends exactly at the end and before every byte that continues none |
| Characters.ValidExactly | services/mdc/inline.go:64-67 | well-formed texts are exactly the encodings of code points that are no surrogates |
| Inlines.ParseInline | services/mdc/inline.go:77-146 | the loop reads the line as the sequence of pieces: page link, link, first pair that closes, or literal byte |
| Readings.ParsedIsReading | services/mdc/inline.go:77-146 | a line has exactly the text and marks it reads as from the left: at each place a page link before a link before the first listed pair that closes behind something, each up to the first occurrence of what closes it, giving its body with a mark over it; any other byte as itself |
| Readings.MarkedExactly | services/mdc/inline.go:82-136 | a marked piece is read at a place exactly when a page link, a link or a pair stands there, by prefixes and first occurrences, whatever its body holds |
| Readings.LiteralExactly | services/mdc/inline.go:69-71 | a byte is read as itself exactly when it starts no page link and no link, and no marker starting there occurs again behind something |
| Inlines.TextIsThinnedSource | services/mdc/inline.go:60-62 | the text is the source with bytes only deleted |
| Inlines.PiecesCoverSource | services/mdc/inline.go:60-62 | the pieces put back together are the source |
| Inlines.MarksInOrder | services/mdc/inline.go:60-62 | marks are in order, disjoint and inside the text |
| Inlines.ReadsBackWhatIsWritten | services/mdc/inline.go:77-161 | a line written from pieces whose bodies hold no markers is read back as those pieces |
| Inlines.NoMarkersNoMarks | services/mdc/inline.go:69-71 | a line without markers is its own text, without marks |
| Inlines.EmptyMarkExactly | services/mdc/inline.go:120-125 | a mark over nothing comes out exactly when reading comes to stand at an empty page link, or at an empty link closed later |
| Inlines.EmptyPageLink | services/mdc/inline.go:85-96 | an empty page link is a mark over nothing |
| Inlines.LinkRead | services/mdc/inline.go:151-161 | a written link is parsed to its text and url |
| InlineUtf8.CharactersAreKept | services/mdc/inline.go:64-67 | on valid UTF-8 the text is valid and every mark starts and ends between characters |
| Outlines.DepthFirstIsForest | services/mdc/compile.go:144-145 | rows in which each parent is still open are the flattening of a forest |
| Outlines.ForestIsDepthFirst | services/mdc/compile.go:144-145 | and the flattening of a forest has that shape |
| Outlines.DescendsIsBelow | services/mdc/tree.go:147-154 | walking up parents answers whether a row is below another in the forest |
| Lowerings.Lower | services/mdc/lower.go:17-98 | on fenced tokens lowering ends, with exactly the rows the tokens stand for, numbered depth-first and obeying the list grammar, and the reports of the unclosed fences |
| Lowerings.EndsExactlyWhenFenced | services/mdc/lower.go:14-23 | the pass gets through a token list exactly when every code line and fence close in it follows a fence open |
| Lowerings.NothingIsLost | services/mdc/lower.go:14-16 | the rows hold exactly what the tokens say, in order |
| Prose.RowsTell | services/mdc/lower.go:17-98 | the rows hold, in order, one body for each heading, divider, fence, list token and run of paragraph or quote lines, quoted prose and items under another block and the rest at the top; each line of a run stands in its text at its own offset, right behind a space or in code a newline unless it is the first, and code cut at its newlines gives back its lines |
| Prose.JoinIsLaidOut | services/mdc/lower.go:60-92 | joined lines stand each at the sum of the earlier lengths plus their number, with one separator before every line but the first and no other bytes |
| Prose.CutJoined | services/mdc/lower.go:60 | joined lines that hold no separator are given back by cutting at every separator |
| Lowerings.UnclosedIsReported | services/mdc/lower.go:49-55 | something is reported exactly when a fence is never closed |
| Reports.ReportCountsSteps | services/mdc/lower.go:22-25 | the reported number counts steps: a fence after a paragraph of two lines is reported at 2 |
| Reports.ReportedLineExactly | services/mdc/lower.go:22-55 | an unclosed fence is reported at no more than its line, and at its line exactly when no two tokens before it are taken in one step |
| Reports.OnlyFencesAreReported | services/mdc/lower.go:49-55 | every reported number is that of an unclosed fence |
| Nestings.TokenIsNested | services/mdc/lower.go:5-12 | every list token becomes an item of a list of its own kind, which stands under the token's owner |
| Nestings.SameListExactly | services/mdc/lower.go:123-164 | two tokens are on one list exactly when they agree in indent and kind and every token between them is deeper or agrees as well |
| Nestings.OwnerIsLessIndented | services/mdc/lower.go:123-129 | the owner is the item of the nearest earlier token that is less indented, or none |
| Lowerings.Lowerer.LowerListAt | services/mdc/lower.go:134-164 | a list takes the tokens up to the first that is no list token, is shallower, or is of another kind on its level, and appends exactly the rows they stand for, nesting included |
| Lowerings.Lowerer.LowerDeeper | services/mdc/lower.go:146-156 | a deeper token starts a list under the last item of the open list, and the open list goes on after it |
| Lowerings.Lowerer.LastChildOf | services/mdc/lower.go:166-173 | the last emitted child of a row |
| Lowerings.Lowerer.Emit | services/mdc/lower.go:105-110 | appends one row with the next number |
| Lowerings.NumberedIsDepthFirst | services/mdc/lower.go:105-110 | rows numbered as emitted, each under an open parent, are in depth-first order |
| Lowerings.FenceRun | services/mdc/lower.go:39-64 | a fence run ends past every fenced token, and closes unless the input ends inside it |
| Replays.Emit | services/mdc/compile.go:146-169 | each row's op names its parent and the last earlier row with that parent |
| Replays.Replay | services/mdc/tree.go:88-145 | the loop over a map and an order of ids is the replay function, errors included |
| Replays.DescendsLoop | services/mdc/tree.go:147-154 | the walk through the map ends and answers as on the rows inserted so far |
| Replays.ReplayUndoesEmit | services/mdc/compile.go:138-145 | replaying the ops emitted from depth-first rows succeeds and gives back the rows |
| Replays.PageAcceptsEmitted | services/documentcore/page.go:273-287 | a page accepts every emitted insert, container and list-item rules included, and reaches the tree of the rows |
| PageReplays.ReplayIsPageExactly | services/mdc/tree.go:81-145 | of the inserts a page accepts a replay builds the page's rows exactly when every one but the first names a parent or a predecessor |
| PageReplays.SecondFirstBlock | services/mdc/tree.go:105-130 | two inserts without parent and predecessor stand in the one order on a page and in the other in a replay |
| PageReplays.ReplayFailsExactly | services/mdc/tree.go:92-119 | a replay fails exactly at the first op that is no insert, inserts a block again, or names a parent or predecessor no earlier op inserted, with that error |
| Compiles.Compile | services/mdc/compile.go:68-113 | for every source the tokens are the lexer's, the tree is what they stand for, and replaying the ops gives the tree back |
| Compiles.TreesEqual | services/mdc/tree.go:51-79 | reports equality exactly, and the first row that differs |
| Compiles.PageAgreesWithReplay | services/mdc/tree.go:81-87 | folding the ops on an empty page and replaying them give the same rows |
| Transforms.InverseUndoes | services/netsim/ot.go:73-86 | inverting against the text before an in-range op undoes it |
| Transforms.RollbackExactness | services/netsim/sim.go:387-389 | inverting against the text after the op undoes it exactly for inserts and for deletes of text that repeats right after |
| Deletes.RedoneExactly | services/netsim/sim.go:385-400 | undoing a pending delete against the text after it, applying a foreign op and deleting again gives the document with both, if and only if enough text follows the delete, or the foreign op adds nothing behind it, or deletes all behind it from a place where the text repeats |
| Transforms.BothOrdersMeet | services/netsim/ot.go:99-177 | two in-range ops meet in either order, if and only if they are not tied inserts by one actor whose texts do not commute |
| Transforms.TiedMeet | services/netsim/ot.go:108-114 | tied inserts by one actor meet exactly when their texts commute |
| Transforms.TransformInRange | services/netsim/ot.go:106-177 | a transformed op is in range after the other |
| Merges.TransformMerges | services/netsim/ot.go:88-177 | a transformed op after the other leaves every character that neither deletes and every inserted text where it stood, except one strictly inside what the other deletes; at one place the smaller name's text comes first |
| Transforms.OrdersMeetOverLog | services/netsim/sim.go:245-253 | the law lifted to one op against a whole log by others, with the result in range |
| Simulations.Replica.ApplyConfirmed | services/netsim/sim.go:371-401 | the in-place confirmation is the confirmation function |
| Simulations.Replica.ConfirmMine | services/netsim/sim.go:374-384 | its own op coming home |
| Simulations.Replica.ConfirmTheirs | services/netsim/sim.go:385-400 | undo all, apply theirs, redo ours |
| Simulations.Replica.Rebuild | services/netsim/sim.go:405-417 | undo all and mine, apply the confirmed op, redo the rest |
| Simulations.ConfirmCounts | services/netsim/sim.go:371-401 | a confirmation counts one seen, one confirmed where it is the client's own, and one rollback exactly where something is pending and it is not its own unmoved |
| Simulations.CountersBalance | services/netsim/sim.go:216-288 | through every run, in turn or not, what a client predicted is what is pending plus what was confirmed |
| Simulations.TypeKeepsSound | services/netsim/sim.go:217-234 | typing in range with nothing outstanding, insert or delete, keeps the invariant |
| Simulations.AcceptKeepsSound | services/netsim/sim.go:236-263 | the server accepting any op in flight keeps the invariant |
| Simulations.DeliverKeepsSound | services/netsim/sim.go:265-283 | a client taking its next log entry keeps the invariant where the delivery is harmless |
| Simulations.DeliverKeepsPrefixExactly | services/netsim/sim.go:371-401 | a delivery leaves its client on the next document, its own op moved past the entry, exactly when it is harmless: the entry is its own, or its pending op is an insert, or the entry survives its delete |
| Simulations.AcceptedMeetsAuthor | services/netsim/sim.go:245-253 | the op the server logs is the author's op carried over what the author had not seen |
| Simulations.OwnOpComesHome | services/netsim/sim.go:371-384 | the log entry with the pending op's id is its own op, equal to its pending copy |
| Simulations.RunsStaySound | services/netsim/sim.go:216-288 | every run of harmless deliveries keeps the invariant, transform on or off |
| Simulations.ConsistentExactly | services/netsim/sim.go:216-288 | a run with one op outstanding per client keeps every client prefix-consistent throughout, if and only if all its deliveries are harmless |
| Simulations.InsertsAreHarmless | services/netsim/sim.go:216-288 | in a run without deletes every delivery is harmless |
| Simulations.SettledClientsAgree | services/netsim/sim.go:331-341 | a client with nothing pending and the whole log seen shows the server text |
| Simulations.EveryRunConverges | services/netsim/sim.go:216-349 | in every such run each client's text is its pending op on the replay of what it has seen, and settled clients equal the server's replay |
| Divergences.TwoOutstandingDiverge | services/netsim/sim.go:394-399 | a run of inserts from the start, never more than two ops of one author outstanding, transform on, leaves that author settled on another text than the server's |
| Divergences.OneDeleteDiverges | services/netsim/sim.go:387-393 | a run from the start, one op outstanding each, with one harmful delivery leaves the delete's author settled on another text than the server's |
| Stacks.ConfirmUnderTwoExactly | services/netsim/sim.go:385-400 | a foreign insert under two pending ones leaves the client on the text with all three in place, exactly unless the foreign one goes behind the first and only so behind the second, and the second does not commute with the stretch it is pushed over |
| Stacks.MovedAlikeExactly | services/netsim/sim.go:394-399 | moving the second of two stacked inserts over the foreign op itself, and not over what that becomes past the first, is right exactly under that condition |
| Arrivals.Receive | services/netsim/sim.go:265-303 | the receiving loop and the four last passes offer the client exactly what has arrived tick by tick, then four times what still waits |
| Schedules.OfferedByTheClock | services/netsim/sim.go:265-303 | a client is offered each confirmation in the tick it arrives, or is sent when that is later, in the order sent, and four times over those that arrive after the last |
| Arrivals.WholeLogExactly | services/netsim/sim.go:290-303 | a client ends with the whole log confirmed exactly when the log's entries, in order, are a subsequence of what it is offered |
| Arrivals.TakesLogPrefix | services/netsim/sim.go:276-280 | whatever the order of arrival, a client takes the log's first entries in the log's order |
| Arrivals.OvertakenIsDropped | services/netsim/sim.go:275-280 | on a wire that delivers nothing in the tick it was sent: when the second confirmation overtakes the first, both have arrived and the client never sees the second |
| Graphs.BuildAdjacency | services/graphalgo/graph.go:46-61 | every out-edge as often as it is listed, and every link at both its ends |
| Tarjans.Tarjan.StrongConnect | services/graphalgo/scc.go:50-87 | a visit keeps the search invariant; the node is closed with its whole component, or on the stack with a lowlink it reaches and that bounds its links |
| Tarjans.Tarjan.Close | services/graphalgo/scc.go:75-86 | popping down to the node numbers exactly the top of the stack |
| Tarjans.TopIsComponent | services/graphalgo/scc.go:75-86 | when the lowlink is the node's own number, the top of the stack is exactly its strongly connected component |
| Tarjans.LowerAnchor | services/graphalgo/scc.go:59-73 | with a lower lowlink the node reaches a running visit below it |
| Components.StronglyConnected | services/graphalgo/scc.go:28-96 | two nodes share a number exactly when each reaches the other, and numbers are in order of smallest member without gaps |
| Components.RelabelBySmallestMember | services/graphalgo/scc.go:102-123 | renumbering keeps who shares a component and orders the numbers by smallest member |
| Components.NumberingIsUnique | services/graphalgo/scc.go:22-27 | one partition has one such numbering |
| Components.OrderIsIrrelevant | services/graphalgo/scc.go:22-27 | the result depends only on which nodes and edges there are, in whatever order |
| Components.AloneUnlessOnCycle | services/graphalgo/scc.go:15-20 | a component has more than one node exactly when a link leads from the node to another that leads back |
| Toposorts.TopologicalSort | services/graphalgo/toposort.go:26-71 | each page placed is the least one whose prerequisites are placed, until none is left |
| Toposorts.Release | services/graphalgo/toposort.go:59-66 | the counts and the ready list after a page is placed |
| Toposorts.UnplacedIsTangled | services/graphalgo/toposort.go:73-76 | the unplaced pages are exactly those on a cycle or downstream of one |
| Toposorts.SortsExactlyAcyclic | services/graphalgo/toposort.go:8-15 | the result is a reading order exactly when there is no cycle |
| Toposorts.OkMeansAcyclic | services/graphalgo/toposort.go:70 | success is reported exactly when there is no cycle and no page is listed twice |
| Toposorts.ListedTwiceIsNotOk | services/graphalgo/toposort.go:9-15 | one page listed twice: no cycle, one page placed, and not ok |
| Toposorts.LeastOrder | services/graphalgo/toposort.go:17-19 | of all reading orders the result is the lexicographically first |
| Toposorts.Unplaced | services/graphalgo/toposort.go:77-90 | the pages not in the order, ascending |
| Toposorts.Layers | services/graphalgo/toposort.go:104-138 | for any order of distinct pages with every link among them forward: each page is on the level of its longest chain of placed prerequisites, levels keep the order, the last one is used; an empty order gives one empty level |
| Toposorts.GreedyDepth | services/graphalgo/toposort.go:92-99 | for the order the sort gives, that chain is the longest in the whole graph |
| Cycles.DetectCycle | services/graphalgo/cycles.go:26-63 | a closed walk through distinct pages, or nothing when there is no cycle |
| Cycles.Finder.Visit | services/graphalgo/cycles.go:33-53 | a visit finds a closed walk or finishes the node and all it leads to |
| Cycles.Finder.ClosedCycleFrom | services/graphalgo/cycles.go:68-78 | the stack from the target on, closed, is a closed walk |
| Cycles.SettledAcyclic | services/graphalgo/cycles.go:18-25 | finished nodes lie on no cycle |
| Cycles.AcyclicMeansAllAlone | services/graphalgo/scc.go:15-20 | there is no cycle exactly when every component is one page and no page links to itself |
| Cycles.SelfLinkIsCycle | services/graphalgo/scc.go:15-18 | one page that links to itself: a cycle, and every component is one page |
| Cycles.NoCycleMeansSortable | services/graphalgo/toposort.go:21-25 | no cycle is reported exactly when every page can be placed |
| Gf2.Gf2Rank | services/graphalgo/betti.go:152-183 | the result is the size of a largest independent set of the input rows as far as the given column, and their span has two to that power elements |
| Gf2.FrontOfNarrow | services/graphalgo/betti.go:130-150 | rows without ones past that column are taken whole |
| Gf2.SwapKeepsSpan | services/graphalgo/betti.go:174 | swapping rows keeps the span |
| Gf2.EliminateKeepsSpan | services/graphalgo/betti.go:175-179 | adding the pivot row to others keeps the span |
| Gf2.EliminateKeepsForm | services/graphalgo/betti.go:163-181 | each pivot column has a one in its own row and nowhere else, and lower rows are zero in the columns done |
| Gf2.ReducedFormGivesRank | services/graphalgo/betti.go:152-155 | in the final form the pivots count the rank |
| Gf2.PivotRowsIndependent | services/graphalgo/betti.go:163-181 | the pivot rows are independent |
| TextDiffs.LcsTable | services/textdiff/textdiff.go:29-46 | each cell is the length for its two prefixes |
| TextDiffs.LcsBounds | services/textdiff/textdiff.go:25-28 | no common subsequence is longer than the cell says |
| TextDiffs.TracebackWithPath | services/textdiff/textdiff.go:97-123 | the loop gives the walk's script and the cells it visits |
| TextDiffs.Diff | services/textdiff/textdiff.go:125-131 | the script turns the old tokens into the new, keeps a longest common subsequence, and no script that does so is shorter |
| TextDiffs.ScriptProjects | services/textdiff/textdiff.go:57-61 | dropping the insertions gives the old tokens, dropping the deletions the new ones |
| TextDiffs.ScriptKeepsMost | services/textdiff/textdiff.go:67-71 | the kept tokens are a longest common subsequence |
| TextDiffs.ScriptIsShortest | services/textdiff/textdiff.go:67-71 | no script with the same projections has fewer steps |
| TextDiffs.DeletionsComeFirst | services/textdiff/textdiff.go:71-77 | between an insertion and a later deletion something is kept, so each run of changes has its deletions first |
| HnswNets.GreedyStep | services/semantic/hnsw.go:173-190 | the walk ends at an element of the layer reachable from the start that no neighbour of it beats |
| HnswNets.WalkEndsNearest | services/semantic/hnsw.go:169-190 | the element the walk ends at, which is determined by its start, is reachable and no neighbour of it is nearer |
| HnswNets.DescentIsGreedy | services/semantic/hnsw.go:128-134 | the descent goes down one layer after the other, on each to an element it reaches there that no neighbour of it beats |
| HnswNets.RankingIsUnique | services/semantic/hnsw.go:276-281 | a set of elements has one ranked list |
| HnswSearches.SearchLayer | services/semantic/hnsw.go:222-287 | what is kept is allowed and reachable, everything seen and allowed but not kept is no nearer than what is kept, everything seen is expanded or no nearer than what is kept, and the result is ranked |
| HnswSearches.StopIsSound | services/semantic/hnsw.go:246-251 | at the stopping rule every open element is beyond everything kept |
| HnswSearches.UnfilledSearchIsExhaustive | services/semantic/hnsw.go:211-221 | a search that keeps fewer than its width, or has room for every element, keeps exactly the allowed reachable elements |
| HnswInserts.SelectNeighbours | services/semantic/hnsw.go:299-355 | out of the ranked candidates those in a new direction, then the nearest others, up to the cap |
| HnswInserts.SelectedInTwoPasses | services/semantic/hnsw.go:299-355 | of the candidates exactly those are taken first that are no closer to any taken before them than to the query, while there is room; the rest of the places go to the nearest of the others |
| HnswInserts.SelectedNeighbours | services/semantic/hnsw.go:336-354 | candidates each once, m of them or all of them |
| HnswInserts.SpreadIsDiverse | services/semantic/hnsw.go:289-298 | each neighbour of the first pass is closer to the query than to any chosen before it |
| HnswInserts.PruningDropsExactly | services/semantic/hnsw.go:299-355 | pruning a list that is one over its cap drops exactly the element that is last in rank of those not in a new direction |
| HnswInserts.NearestIsKept | services/semantic/hnsw.go:299-355 | the element nearer than every other candidate is always selected |
| HnswIndexes.Index.Add | services/semantic/hnsw.go:112-160 | for any level drawn: the graph after is the old one with the new element joined to each of its layers from the top shared one down, each from where the one above led, the top one from the greedy descent; the new element is on its layers and all others on theirs, lists stay sound and within their caps, the entry is on the top layer; a known id changes nothing |
| HnswIndexes.Index.Connect | services/semantic/hnsw.go:143-150 | the new element lists the selected ones, each of them is linked back, and all other lists are as before |
| HnswIndexes.Index.LinkBack | services/semantic/hnsw.go:145-149 | the list becomes the old one with the way back added, or what pruning selects of that when it is over the cap; no other list changes |
| HnswIndexes.Index.JoinLayer | services/semantic/hnsw.go:140-153 | a layer's list of the new element is what the selection picks from what the search on that layer found, and the walk goes on from the nearest found |
| HnswInserts.NewElementIsLinked | services/semantic/hnsw.go:136-150 | with a positive cap a new element has a neighbour on every layer it shares |
| HnswInserts.WayBackKept | services/semantic/hnsw.go:144-149 | a chosen neighbour lists the new element exactly when its list had room, or pruning kept the new element |
| HnswInserts.WayBackLostExactly | services/semantic/hnsw.go:144-149 | a chosen neighbour with a full list does not list the new element exactly when that is last in rank of those its pruning passes over |
| HnswLimits.WayBackDropped | services/semantic/hnsw.go:137-149 | six insertions after which the sixth page links to the hub, the hub does not link back, and no way leads from the entry to the sixth page |
| HnswLimits.PagesAreUnit | services/semantic/hnsw.go:104-107 | the vectors of those six pages are unit vectors, so that their dot product is their cosine |
| HnswIndexes.Index.Search | services/semantic/hnsw.go:385-431 | at most k results with their similarities, none of them the excluded page, each accepted by the filter, the more similar first; the first k of what the best-first search of the bottom layer keeps from where the greedy descent from the entry ends |
| HnswIndexes.FullAnswerExactly | services/semantic/hnsw.go:216-221 | a search returns k elements that pass the filter, or every one there is, exactly when its start reaches that many |
| HnswLimits.FewerThanAsked | services/semantic/hnsw.go:390-431 | an index of six pages where a search for all six, with room for six, returns fewer |
| HnswIndexes.SearchIsExhaustive | services/semantic/hnsw.go:211-221 | a search that returns fewer than k, or whose width covers the index, answers with the first k of all allowed elements its start reaches |
| HnswIndexes.Index.Exact | services/semantic/hnsw.go:435-456 | at most k results with their similarities, none of them the excluded page, each accepted by the filter, the more similar first; every other page the filter accepts is there, unless k better ones are |
| HnswIndexes.ExactWhenReached | services/semantic/hnsw.go:390-456 | the answer from what is reached is the exact scan's exactly when the start reaches each of the first k allowed elements |

## Left out

- Compiles.Compile: takes the line classifier, the fence test and the inline parser as functions, so it holds for any of them; `Lines.Markdown` is the lexer's own. Timings, counts and divergences in the result are left out.
- Lowerings.Lower: the reports are the numbers given, without their messages.
- Simulations.EveryRunConverges: one outstanding op per client, in range, and without transform inserts only; with more outstanding the code can diverge; for two pending inserts and one foreign insert `Stacks` says when a step goes wrong, and which whole runs do is not decided here. Each run is any order of typing, accepting and delivering; that everything is delivered in the end is not claimed, because the wire may lose messages.
- Simulations.ConsistentExactly: the same runs.
- Simulations.RunsStaySound: the same runs.
- Simulations.TypeKeepsSound: typing while nothing of that author's is outstanding, for the same reason; without transform inserts only.
- Deletes.RedoneExactly: with transform on; without it a foreign delete can also push a pending op out of range, and the runs without transform are runs of inserts.
- Arrivals.Receive: one client; every message is offered to each client in turn, and taking it touches only that client. The ticks a packet takes are parameters.
- Pages.Page.Apply: reports which error, not its message.
- Marks.InlineContent.AddMark: offsets are not negative; the code would fault on a negative one.
- Marks.InlineContent.RemoveMark: the same.
- HnswIndexes.Index.Exact: k is not negative; the code would fault on a negative one.
- Marks.InlineContent.Normalise: a mark that ends before it starts reaches nothing; which of such marks stay, and so whether the list is then in order, is not said.
- Components.StronglyConnected: every edge joins listed pages, as the graph's own contract says.
- Toposorts.TopologicalSort: the same.
- Cycles.DetectCycle: the same.
- Gf2.Gf2Rank: the enumeration of edges and triangles and the other Betti numbers are not modelled.
- HnswIndexes.Index.Add: M and the construction width are not negative; the level is a parameter, so the random draw and its cap of 16 are not modelled; the similarity is an opaque function to the reals.
- HnswIndexes.Index.Search: comparison counts, hops and recall are not modelled.
- HnswSearches.SearchLayer: with a width of 0 some entry must pass the filter, because the code faults where it has nothing to compare with; the two heaps are sets from which the first element in the heap's order is taken.
- Inlines.ParseInline: reads bytes; a title's white space is trimmed as its UTF-8 encodings.
- Ids are numbers: UUIDs, the compiler's `b0`, `b1`, ... and page ids in their string order. The empty parent string of the compiler is no parent.
- The compiler's rows use the page's kinds and content; the two packages spell the page-link tag differently, which only matters to JSON.
- Sorting is a library call in the original; here it is a small insertion sort or selection, used only through its contract.
- JSON, logging, wire timing, loss and jitter, the random generator, the Merkle, LSM and causality drawings, the intent check, rope boundaries on the client, connected components, shortest paths, centrality and layout are not part of this model.
