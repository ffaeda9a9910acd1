# Verified models of diffmantic's algorithms

diffmantic compares two versions of a source file by their syntax trees. This project models the algorithms at its
centre in Dafny and proves what they promise. `dafny verify dfyconfig.toml` checks all of it.

## What is modelled

**Edit scripts** (`Trees`, `Mapping`, `ScriptSpec`, `ScriptSteps`, `AlignSteps`, `KeptChildren`, `MoveCount`,
`MoveBound`, `Ledger`, `WorkingCopy`, `DeepCopy`, `Traversal`, `ChildLcs`, `Deletion`, `EditScript`, `Generate`). The
generator copies the source tree, walks the target breadth-first, and edits the copy in place while it records Insert,
Update, Move and Delete. The copy is a heap of `CNode` objects; `Rep` says which tree value it represents at every
moment. `Replay` runs a script on a tree value and refuses any action that names a missing node, points past a child
list, deletes a node with children, or leaves something that is not a tree. The main result is `GenerateEditScript`:
under any one-to-one mapping that pairs the two roots, the script replays, every prefix of it to a tree, and ends in the
target. One claim about it is false as it is usually put: the labels arrive only up to the root. A matched root is never
updated, and `LabelsArrive` gives the exact condition, that both roots carry the same label. `RootKeepsLabel` shows two
files for which they do not. The parsers label leaves only, so such roots come from a direct call. The children of a
container that stay are a heaviest common subsequence. With weights between 100 and 130 that is nearly a longest one:
exactly a longest one as long as at most four children could stay, and at least ten thirteenths of it in general
(`NearLongest`). Beyond four it need not be a longest one (`LongerLoses`). `FewestMoves` adds this up over the whole
script and compares it with every other sequence of actions that reaches the same target under the same mapping and
deletes no paired node: none leaves more than thirteen paired nodes unmoved for every ten that the generated script
leaves, and none that leaves at most four in each ordered container has fewer moves.

**Line alignment** (`Gotoh`, `GotohDense`, `GotohTables`, `GridRows`, `DenseAlign`, `BandedAlign`, `Anchors`,
`Patience`, `Grid`, `LoneMatch`, `GridLimits`, `Stationary`). The three-layer table of affine gaps includes its
sentinel, -1000000. `DenseExact` gives the exact reach of that sentinel. The dense route is optimal for every line score
in [-1000, 65] just while a gap has at most 499,986 source and 499,987 target lines. Beyond, a table of lines that all
score -1000 makes the traceback leave the gap; a gap of one line against 499,988 to 1,000,000 target lines is small
enough to take the dense route. In the model such a traceback has no result. The grid is shown, for files of any size,
to list every line of both files once and in order on all routes, or to have no result because the traceback of a dense
gap has left it. For which gaps that cannot happen is again stated exactly, for gaps (`GapExact`) and for files with
given anchors (`GridExact`). A gap of more than 1,000,000 cells is divided, so it may have one line more on either side
than a dense one, or a single line against any number; one that is larger still fails for texts whose line diff has a
single match, in front of which lies a dense gap beyond the bound.

**Sequence, word and line diff** (`SeqDiff`, `SeqTrim`, `WordTokens`, `WordOps`, `WordDiff`, `Compaction`,
`LineMatching`, `LineDiff`). The weighted alignment on reused memory is shown to be heaviest, with its tie-break that
jumps columns. Trimming is shown to lose nothing. The word diff marks exactly what a longest common subsequence leaves.
The line diff is specified route by route, including the pass that slides groups of changed lines: the relation `Passed`
says where each group goes, is shown to have one outcome, and to keep the text of the unchanged lines.

**Tree edit distance** (`ForestDistance`, `TreeMappings`, `ZhangShasha`, `ZsShape`, `ZsBacktrack`, `ZsTrees`, `ZsRun`,
`ZsAccept`). The recursively defined forest distance is shown to be the least cost of a mapping that keeps order and
ancestry. The table step computes it if the tree distances off the leftmost paths are right, and the traceback then
reads a cheapest such mapping back. The documentation of the recovery promises optimal mappings
(`internal/engine/zs.go:9-10`), but the run starts from the outermost key roots, whose inner distances are still zero
then. `Recover` says what comes of it. The mapping is complete and keeps order and ancestry for any two trees. It is a
cheapest one, for all costs, exactly when one tree is a path and the other has nothing but chains off its leftmost path.
Of that mapping, `RunZSRecovery` adds to the node mapping exactly the pairs whose nodes were free.

**Concurrent pipelines** (`Workers`, `JobPipeline`, `StreamReader`, `StreamPipeline`). Both pipelines are step relations
over all interleavings of their goroutines, with bounded channels, permits, and cancellation or failure of the output at
any point. `EveryRun` states safety, absence of deadlock and an upper bound on the number of steps for each. The reader
of a patch stream is a class over its chunk buffer, its queue and its current file; the input is conserved, and which
files are diffed is fixed by `Progressed`.

**Move chains, tree index, spans** (`MoveChains`, `Isomorphic`, `TreeIndex`, `TreeQueries`, `Spans`). The longest and
then heaviest chain of moves and the peeling of groups; the pairing of isomorphic subtrees; the preorder and postorder
index against plain walks; the sweep that resolves overlapping spans, and the cursor over its result.

`Lists` and `Flat` hold facts about lists and about tables kept in flat arrays, `Numbers` the least and the greatest of
two and three.

## How to read the model

A heuristic that the algorithms only consult is a parameter, and the theorems hold for any value of it: the line score
(any function into [-1000, 65]), the score of a boundary, trimming of blanks, punctuation, decoding of runes, hashes,
rename costs, types and roles that may be paired, colours of moves, what fetching blobs and rendering come to. Offsets
are unbounded integers, except that the weight of a moved node wraps at 32 bits as the subtraction of two unsigned
offsets does. Each loop that updates tables or buffers is a method proved against a specification function or relation,
about which the lemmas speak.

## Model

| member | source | states |
|---|---|---|
| `Generator.GenerateEditScript` | internal/actions/chawathe.go:12-25 | the script, replayed on the source tree, is accepted action by action and gives the target: its parents, its child lists (in order, or as multisets below unordered containers), its labels but for a paired root's; unmatched target nodes are inserted once, unmatched source nodes deleted once after their children, renamed ones updated once, nothing moved twice; in every container the paired children that keep their parent and are not moved are all such children if it is unordered, and nearly as many as any that stand in order if it is ordered; without a target exactly the source nodes are deleted |
| `Generator.FewestMoves` | internal/actions/chawathe.go:132-246 | measured against any other sequence of actions that turns the source into the target and deletes no paired node: the nodes it leaves unmoved are at most thirteen for every ten that the generated script leaves; and it has no fewer moves at all if it leaves at most four children unmoved in each ordered container |
| `MoveBounds.NearlyFewest` | internal/actions/chawathe.go:286-360 | the same bound on untouched nodes for any sequence of actions that leads to the target, moving and deleting what it likes: what is true container by container adds up over the tree |
| `MoveBounds.ReplayUndisturbs` | internal/actions/chawathe.go:132-246 | whatever a script does, the nodes that it neither moves nor deletes keep their parent and their order among themselves |
| `MoveBounds.StayIsUntouched` | internal/actions/chawathe.go:132-246 | when every node has been visited, the nodes that the script leaves alone are exactly the children kept by their containers |
| `MoveBounds.MovesVisit` | internal/actions/chawathe.go:162-232 | a visit moves the partner of a node whose parent differs in the two files, and the children of that node that keep their parent and are not kept in place; no other visit moves them |
| `MoveCounts.FewIsStatic` | internal/actions/chawathe.go:286-360 | the children that are at home when their container is aligned, and the order they then have, are those of the source file, although earlier visits have taken nodes away |
| `ScriptSpec.LabelsArrive` | internal/actions/chawathe.go:197-208 | the replayed labels are all those of the target if and only if a paired root carries the same label in both files, because the root is never updated |
| `ScriptSpec.RootKeepsLabel` | internal/actions/chawathe.go:197-208 | two one-node files whose paired roots differ in label: however the script ends in the target, the root still shows the label of the source |
| `ScriptSpec.Arrival` | internal/actions/chawathe.go:234-243 | once every target node is visited and aligned and the doomed nodes are gone, nothing but the target is left |
| `ScriptSpec.InvIsTree` | internal/actions/chawathe.go:162-232 | the working structure is a tree after every step: no node comes to hang below itself |
| `ScriptSpec.InvStep` | internal/actions/chawathe.go:162-232 | a visit keeps the invariant: visited nodes hang and read as the target says, all others as in the source |
| `ScriptSpec.SlotKeepsOrder` | internal/actions/chawathe.go:248-281 | a child put at the position that the nearest in-order left sibling gives leaves the in-order children sorted |
| `ScriptSteps.InsertEffect` | internal/actions/chawathe.go:173-195 | the Insert that is recorded replays to the working tree it leaves, and keeps tree, labels and sibling order |
| `ScriptSteps.StayEffect` | internal/actions/chawathe.go:196-227 | a matched node that hangs where it should only has its label brought up to date |
| `ScriptSteps.RootEffect` | internal/actions/chawathe.go:197-198 | a matched root keeps its place and its own label |
| `AlignSteps.AlignedState` | internal/actions/chawathe.go:286-360 | when the last child of a container is aligned, its children at home are exactly the marked ones and stand in order |
| `AlignSteps.ReadyIsSome` | internal/actions/chawathe.go:335-340 | while children are moved one by one, the siblings findPos may use are exactly those aligned so far |
| `Trees.ReplayPrefix` | internal/actions/chawathe.go:132-246 | every prefix of a script that replays to a tree replays to a tree |
| `Ledgers.LedgerInsert` | internal/actions/chawathe.go:186-191 | inserting an unmatched node keeps the account of inserts, updates and moves |
| `Ledgers.LedgerUpdate` | internal/actions/chawathe.go:201-208 | an Update is recorded exactly when the label differs, and never twice for one node |
| `Ledgers.LedgerMove` | internal/actions/chawathe.go:210-225 | a node is moved only while it is unmarked, hence at most once |
| `EditScripts.ChawatheState.FindPos` | internal/actions/chawathe.go:255-281 | the position is one past the partner of the nearest in-order left sibling, or 0 |
| `EditScripts.ChawatheState.InsertPartner` | internal/actions/chawathe.go:173-195 | the new node is created, paired, recorded and hung, and the state invariant holds again |
| `EditScripts.ChawatheState.VisitMatched` | internal/actions/chawathe.go:196-227 | a matched node is renamed and moved as needed; the script still replays to the working tree |
| `EditScripts.ChawatheState.AlignOne` | internal/actions/chawathe.go:335-357 | one misaligned child is taken out, its slot found and the child put back; the script still replays to the working tree |
| `EditScripts.ChawatheState.AlignChildren` | internal/actions/chawathe.go:286-360 | after the alignment of a container its children are in the order of the target (or left as they are if unordered) and marked so; the script goes on with one Move for each child at home outside a kept set, and of any children that stood in order already at least ten for every thirteen are kept, all of them if there were at most four |
| `EditScripts.ChawatheState.Visit` | internal/actions/chawathe.go:162-232 | one visit of the breadth-first pass keeps the whole state invariant, visits exactly one more node, and moves its partner only if the parents differ, and of its children that keep their parent all but a set nearly as large as any in order |
| `Generator.VisitAll` | internal/actions/chawathe.go:162-232 | the breadth-first pass visits every target node |
| `Generator.Finish` | internal/actions/chawathe.go:234-245 | deleting what is left over completes the transformation |
| `Generator.CopySource` | internal/actions/chawathe.go:78-108 | the working copy under the fake root represents the source tree exactly |
| `Generator.StartPairing` | internal/actions/chawathe.go:78-108 | the pairing maps start as the mapping restricted to copied nodes |
| `DeepCopies.DeepCopy` | internal/actions/chawathe.go:110-130 | every node of a subtree is copied once, with its label, its children in order and its parent |
| `Deletion.DeleteUnpaired` | internal/actions/chawathe.go:234-243 | the unpaired nodes are deleted in post-order, each once and each when its children are gone; the script still replays |
| `WorkingCopy.InsertChild` | internal/actions/chawathe.go:471-486 | the child ends at the clamped position below its new parent and is gone from its old one |
| `WorkingCopy.DeleteChild` | internal/actions/chawathe.go:488-497 | the child leaves the list and loses its parent pointer, or nothing changes if it was not there |
| `WorkingCopy.Rehang` | internal/actions/chawathe.go:471-486 | insertChild on a node that hangs elsewhere, on the heap, does what Attach after Detach does on the represented tree |
| `WorkingCopy.Unhang` | internal/actions/chawathe.go:488-497 | deleteChild, on the heap, does what Detach does on the represented tree |
| `Traversal.PostOrder` | internal/actions/chawathe.go:43-61 | the post-order lists the subtree, each node once and after its children |
| `Traversal.LevelOrder` | internal/treesitter/ast.go:362-380 | the breadth-first order: every node once, the root first, never a node before one nearer to the root, in a level as the parents stand in theirs, left siblings first |
| `ChildLcs.Align` | internal/actions/chawathe.go:367-463 | the children that stay form a common subsequence that no other one outweighs |
| `ChildLcs.ChainBound` | internal/actions/chawathe.go:418-446 | with a one-to-one pairing the recurrence that always takes a match bounds every common subsequence |
| `ChildLcs.Trace` | internal/actions/chawathe.go:448-462 | the forward walk collects exactly the value of the table |
| `EditScripts.ChawatheState.Score` | internal/actions/chawathe.go:420-441 | every kept pair is worth between 100 and 130 |
| `ChildLcs.NearLongest` | internal/actions/chawathe.go:418-446 | with such weights the heaviest common subsequence has at least ten pairs for every thirteen of any other, and as many as any that has at most four |
| `ChildLcs.LongerLoses` | internal/actions/chawathe.go:418-446 | length does not come first: when five children move behind four that stay, and five move before them, every heaviest common subsequence is the four, although five that moved together would do |
| `KeptChildren.KeptNearMost` | internal/actions/chawathe.go:326-333 | no set of children that already stands in the order of the target is much larger than the one kept |
| `Mappings.Mapping.Add` | internal/engine/mapping.go:53-85 | the two maps stay inverse, whoever held the target loses it, everything else keeps its pair, and the ordered list follows |
| `Mappings.Mapping.Remove` | internal/engine/mapping.go:108-119 | one pair goes, all others stay in order |
| `Mappings.Mapping.RemoveSet` | internal/engine/mapping.go:122-136 | a batch of source nodes is unpaired, all other pairs stay in order |
| `Isomorphic.AddIsomorphicPairs` | internal/engine/mapping.go:151-159 | the pairs of two subtrees are added parents first, none below nodes with different numbers of children |
| `Isomorphic.PairedByPosition` | internal/engine/mapping.go:149-159 | two subtrees of the same shape end up paired position by position in preorder, whatever was paired before |
| `Gotoh.CostBound` | internal/serialize/align.go:944-989 | no alignment within the filled cells scores above the best value of its cell, for any line score and any sizes |
| `Gotoh.TraceRight` | internal/serialize/align.go:991-1062 | if every step of the traceback is worth the difference of its cells, it lists each line once and collects the value of the corner |
| `GotohDense.DenseOptimal` | internal/serialize/align.go:924-1062 | the dense route emits an alignment of the gap with the greatest affine-gap score, at most 499,986 source and 499,987 target lines |
| `GotohDense.DenseExact` | internal/serialize/align.go:18-22 | the exact bound of the sentinel: the dense route is optimal for all line scores in [-1000, 65], and also stays in the gap for all of them, if and only if the gap has at most 499,986 source and 499,987 target lines |
| `GotohDense.UnlikeLost` | internal/serialize/align.go:991-1062 | beyond the bound the traceback leaves the gap for every score that is -1000 throughout |
| `GotohDense.LostInRow` | internal/serialize/align.go:991-1062 | beyond the bound on source lines the traceback runs off the table |
| `GotohDense.LostInColumn` | internal/serialize/align.go:991-1062 | beyond the bound on target lines the traceback runs off the table |
| `GotohTables.FillCell` | internal/serialize/align.go:968-988 | one cell of the flat buffer gets the three values of the recurrence and no other cell changes |
| `DenseAlign.DPBuffer` | internal/serialize/align.go:907-922 | the buffer has room enough; it is the pooled one whenever there is one that is large enough for a request of at most 262,144 cells, otherwise a new one, which replaces the pooled one only for such a request |
| `DenseAlign.FillDense` | internal/serialize/align.go:938-989 | the whole table is right whatever the reused buffer held |
| `DenseAlign.Walk` | internal/serialize/align.go:991-1062 | the traceback emits exactly the rows of the route, and has no result just when the route leaves the gap |
| `DenseAlign.AlignDense` | internal/serialize/align.go:924-1062 | for gaps of any size the grid grows by rows that list every line of the gap once and in order, or there is no result because the traceback leaves the gap; within the bound no other alignment of the gap scores higher |
| `GridRows.EmittedCovers` | internal/serialize/align.go:1008-1062 | the rows of an alignment list its lines once and in order, with no empty row |
| `BandedAlign.BandConnected` | internal/serialize/align.go:1226-1234 | every row of the band lies in the table and meets the row before; the last one reaches the corner |
| `BandedAlign.BandFloor` | internal/serialize/align.go:1083-1141 | no filled cell of the band is worth less than opening a gap at every step, so the sentinel never wins there |
| `BandedAlign.BandedOptimal` | internal/serialize/align.go:1064-1224 | the banded traceback stays in the gap and no alignment within the band scores higher |
| `BandedAlign.AlignBanded` | internal/serialize/align.go:1064-1224 | every line once and in order; best of all alignments when the banded route meets an edge of the band and the dense one takes over, best within the band otherwise |
| `Grid.AlignGap` | internal/serialize/align.go:836-905 | for gaps of any size, on the one-sided, dense, banded and divided routes, the grid grows by rows that list each line of the gap once, or a traceback of the gap or of one of its parts has left it; on the dense route within the bound by a best alignment; the recursion ends |
| `Grid.DivideGap` | internal/serialize/align.go:862-899 | a gap too large for a table is divided at the matches of its line diff, each of which becomes an anchor, or lists its source lines first when there is none |
| `Grid.AlignAround` | internal/serialize/align.go:878-888 | a gap divided at sub-anchors is listed completely and in order |
| `Grid.EmitGrid` | internal/serialize/align.go:813-832 | for files of any size the grid lists every source and every target line once and in order, without an empty row, and every anchor faces its partner, or a traceback of one of the gaps has left it |
| `LoneMatch.LoneDiff` | internal/engine/linediff.go:11-38 | the line diff of two long texts that share one line, deep inside both, is that pair and nothing else |
| `GridLimits.DenseLost` | internal/serialize/align.go:901-903 | a dense gap beyond the bound whose lines all score -1000 has no result |
| `GridLimits.LongAgainstOne` | internal/serialize/align.go:813-832 | a file of 499,987 lines against one of a single line, all scored -1000, has no grid |
| `GridLimits.GapExact` | internal/serialize/align.go:836-905 | a gap always has a result if and only if its sides fit: a dense one is within the bound; one of more than 1,000,000 cells has a single line on a side or at most 499,987 source and 499,988 target lines |
| `GridLimits.FitGrid` | internal/serialize/align.go:813-832 | the grid is complete when every gap between neighbouring anchors fits, however long the files are |
| `GridLimits.GridExact` | internal/serialize/align.go:813-832 | the exact condition for given lengths and anchors: the grid is complete for all lines and all scores if and only if every gap between neighbouring anchors fits |
| `Anchors.FilterMonotonic` | internal/serialize/align.go:754-811 | a longest chain among the candidates that increases strictly on both sides |
| `Anchors.MergeAnchors` | internal/serialize/align.go:711-752 | the merge increases strictly on both sides, keeps every primary anchor, and drops a secondary one only when it conflicts with one that is kept |
| `Patience.LongestByPlacing` | internal/engine/linediff.go:102-141 | the longest chain that rises strictly |
| `Patience.LongestBySkipping` | internal/serialize/align.go:772-811 | the same when values that already end a pile are passed over |
| `Patience.PlaceKeeps` | internal/engine/linediff.go:112-131 | placing a value keeps pile ends rising and ranks exact |
| `Patience.ChainBound` | internal/engine/linediff.go:102-141 | no rising chain is longer than the number of piles |
| `Stationary.StationaryIndex.CrossesIn` | internal/serialize/align.go:581-605 | two lookups answer whether some stationary statement lies before on one side and after on the other |
| `Stationary.NewStationaryIndex` | internal/serialize/align.go:547-579 | the index holds the statements in order with running maxima and minima, or is absent when there are none |
| `Stationary.Crosses` | internal/serialize/align.go:581-605 | with or without an index the answer is exact |
| `SeqDiff.ChainBound` | internal/engine/seqdiff.go:149-159 | no chain of positive pairs outweighs the table |
| `SeqDiff.SeqScratch.EnsureDP` | internal/engine/seqdiff.go:61-70 | the cells asked for are zero whatever the scratch held |
| `SeqDiff.SeqScratch.Release` | internal/engine/seqdiff.go:44-53 | a scratch goes back without matches, and with its table unless that has grown past 262,144 cells |
| `SeqDiff.SeqScratch.Closest` | internal/engine/seqdiff.go:166-180 | the diagonal tie-break picks, of all partners that lose no weight, the one nearest the diagonal, and of two as near the later |
| `SeqDiff.SeqScratch.AlignWeighted` | internal/engine/seqdiff.go:139-193 | strictly increasing pairs of positive weight that no other chain outweighs, with either tie-break and on any reused scratch |
| `SeqDiff.SeqScratch.AlignUniform` | internal/engine/seqdiff.go:127-134 | a longest common subsequence |
| `SeqTrim.TrimPrefix` | internal/engine/seqdiff.go:73-80 | the longest common prefix |
| `SeqTrim.TrimSuffix` | internal/engine/seqdiff.go:83-94 | the longest common suffix that leaves the prefix alone |
| `SeqTrim.TrimBounds` | internal/engine/seqdiff.go:97-101 | both ends are trimmed as far as they agree |
| `SeqTrim.CombineMatches` | internal/engine/seqdiff.go:111-123 | prefix, shifted middle and suffix, appended in this order |
| `SeqTrim.TrimKeepsLongest` | internal/engine/seqdiff.go:73-123 | a longest common subsequence of the middles, with the trimmed ends, is one of the whole sequences |
| `WordTokens.Tokenize` | internal/engine/worddiff.go:99-149 | the tokens of the line, refused exactly when there are more than the budget |
| `WordTokens.TokensPartition` | internal/engine/worddiff.go:99-149 | the tokens cut the line into consecutive non-empty pieces |
| `WordTokens.TokensAreRuns` | internal/engine/worddiff.go:99-149 | the tokens are the only way to cut the line into single other runes and runs of word runes or of blanks that could not be longer |
| `WordTokens.HashHarmless` | internal/engine/worddiff.go:151-153 | comparing hashes first changes no answer |
| `WordOps.SlotsUncover` | internal/engine/worddiff.go:275-322 | the operations mark ordered disjoint ranges and leave exactly the kept tokens uncovered |
| `WordDiff.DiffsPartitions` | internal/engine/worddiff.go:158-325 | what the operations leave unmarked spells the same string on both lines |
| `WordDiff.TrimmedSlots` | internal/engine/worddiff.go:216-239 | when only the trimmed ends are kept, there is one slot, the middle |
| `WordDiff.WordDiffScratch.Diff` | internal/engine/worddiff.go:158-325 | within the budget the kept tokens are a longest common subsequence of the full token lists; the operations are the slots between them; over the budget the whole lines are replaced |
| `WordDiff.WordDiffScratch.EmitSlots` | internal/engine/worddiff.go:253-322 | one operation for each slot that has tokens |
| `Compaction.SlideKeeps` | internal/engine/linediff.go:294-303 | a group slid up or down over repeating lines leaves the text of the unchanged lines as it was |
| `Compaction.PassedKeeps` | internal/engine/linediff.go:242-306 | whichever slides score best, a pass keeps the exact text sequence of the unchanged lines |
| `Compaction.PassedUnique` | internal/engine/linediff.go:242-306 | the outcome of a pass is determined |
| `Compaction.ChangedCount` | internal/engine/linediff.go:242-306 | the unchanged and the changed lines add up, so a pass keeps their number |
| `Compaction.CompactChanges` | internal/engine/linediff.go:242-306 | each group goes to the first best place it can slide to, in order, and the pass ends |
| `Compaction.Target` | internal/engine/linediff.go:261-292 | the best of all places the group can stand at, and where it stands unless another one reads better |
| `LineMatching.MarkedPairs` | internal/engine/linediff.go:219-237 | a matching pairs the k-th unchanged line of one side with the k-th of the other |
| `LineDiff.AlignLineWindow` | internal/engine/linediff.go:61-96 | a window is matched by a heaviest chain, or left alone when it is empty or too large; lines paired agree after trimming |
| `LineDiff.UniquePairs` | internal/engine/linediff.go:150-173 | exactly the lines that are unique on both sides, in order |
| `LineDiff.UniqueAnchors` | internal/engine/linediff.go:166-175 | as many unique lines as can stand together |
| `LineDiff.LineDiffPatience` | internal/engine/linediff.go:143-193 | the windows between the unique lines are aligned one by one and the anchors entered; the result is a matching |
| `LineDiff.CompactLineDiff` | internal/engine/linediff.go:195-240 | a matching again, of the same texts in the same order, with the groups where the passes put them |
| `LineDiff.LineDiff` | internal/engine/linediff.go:11-38 | on every route an in-range matching, strictly increasing on both sides, whose lines agree after trimming; and it is what full trimming, the alignment of the middle by its route and compaction give |
| `ForestDistance.SubAdditive` | internal/engine/zs.go:99-132 | forests solved in two parts never cost less than together |
| `ForestDistance.SplitTree` | internal/engine/zs.go:123-129 | off the leftmost paths the distance of two subtrees may stand for keeping both last roots |
| `TreeMappings.MappingBound` | internal/engine/zs.go:99-132 | no mapping that keeps order and ancestry costs less than the forest distance |
| `TreeMappings.BestMapping` | internal/engine/zs.go:99-132 | some such mapping costs exactly that |
| `ZhangShasha.ForestDist` | internal/engine/zs.go:99-132 | from any table the step leaves the forest distances of all prefixes, and the tree distances on the two leftmost paths, that the recurrence yields with the distances the table held off these paths; it touches no other tree distance |
| `ForestDistance.RightGuess` | internal/engine/zs.go:99-132 | where these were right, what the step leaves is the forest distance |
| `ZsBacktrack.Backtrack` | internal/engine/zs.go:134-192 | from any table the mapping read back mentions every node of both trees exactly once and keeps order and ancestry, and reading never gets stuck; from right tree distances no such mapping costs less |
| `ZsBacktrack.ReadTree` | internal/engine/zs.go:151-188 | one pair of subtrees is read completely and what is left gets smaller |
| `ZsShape.KeepMatch` | internal/engine/zs.go:159-165 | matching two last nodes on the leftmost paths agrees with every pair matched before |
| `ZsShape.KeepLater` | internal/engine/zs.go:166-173 | two subtrees left for later keep out of the way of everything matched before |
| `ZsTrees.ComputeLLD` | internal/engine/zs.go:53-67 | the leftmost leaf below a node is where its subtree starts in postorder |
| `ZsTrees.StartsNest` | internal/engine/zs.go:53-67 | the starts nest, as the table step needs, and the whole tree starts at zero |
| `ZsTrees.ComputeKeyRoots` | internal/engine/zs.go:69-80 | the highest node above each leftmost leaf, in descending order |
| `ZsRun.FillTables` | internal/engine/zs.go:33-37 | the run over all key roots leaves, for every pair of subtrees, what the recurrence yields with zero for all pairs inside them off their leftmost paths, since the outer key roots come first |
| `ZsRun.SimpleRight` | internal/engine/zs.go:33-37 | these are the tree distances wherever the reading needs them if one tree is a path and the other has nothing but chains off its leftmost path |
| `ZsRun.TwoLeaves` | internal/engine/zs.go:33-37 | the smallest other case, two roots with two leaves each: with no two nodes alike the run takes a leaf and the other root to be at most two apart, and they are four |
| `ZsRun.AdverseUnread` | internal/engine/zs.go:134-192 | for all other shapes there are costs of 0 and 1000 with which the reading passes by the only pair of nodes that is alike |
| `ZsRun.Recover` | internal/engine/zs.go:10-39 | the whole run on any two trees: the mapping is complete and in shape; it is a cheapest one for all costs if and only if the shapes are simple, the other direction shown by the costs of AdverseUnread; for any shape it is one under costs for which the tables are right off the leftmost paths |
| `ZsAccept.RunZSRecovery` | internal/engine/zs.go:12-51 | the pairs added to the node mapping are exactly those of the edit mapping whose types and roles agree and whose nodes were both unpaired before the call, in the order of the edit mapping, behind all the pairs there were, which stay |
| `ZsAccept.AsFree` | internal/engine/zs.go:41-50 | the test on the mapping as it has grown so far is the test on the mapping before the call, since no two pairs of the edit mapping share a node |
| `JobPipeline.EveryRun` | cmd/concurrent.go:117-241 | over every interleaving, writes are attempted in job order for a prefix of the jobs, at most the permitted number of jobs is in flight, no run is longer than a fixed bound, and a run that cannot go on has stopped everything and, unless the pager quit or the output broke, consumed every job exactly once |
| `JobPipeline.StepKeeps` | cmd/concurrent.go:160-238 | every step keeps the invariant of feeder, workers, writer and channels |
| `JobPipeline.BoundedInFlight` | cmd/concurrent.go:127-135 | permits bound the jobs in flight and the channels |
| `JobPipeline.NeverStuck` | cmd/concurrent.go:160-240 | until everything has stopped some step can be taken without waiting for the user |
| `JobPipeline.StepWorks` | cmd/concurrent.go:117-241 | every step leaves less to do, so no run goes on forever |
| `StreamReader.Reader.Read` | internal/streamdiff/stream.go:295-509 | the queued items, each diff expanded to its own lines, spell exactly the input, and the diffs are exactly the complete files whose blobs can be had |
| `StreamReader.Reader.ReadLine` | internal/streamdiff/stream.go:409-499 | one line goes to exactly one place and moves the current file on as its header says |
| `StreamReader.Reader.FlushCurrent` | internal/streamdiff/stream.go:323-389 | the current file becomes an item if its blobs can be had, and raw text otherwise |
| `StreamReader.Reader.WriteString` | internal/streamdiff/stream.go:96-102 | text is batched and sent once the chunk is full |
| `StreamReader.Reader.KeepLine` | internal/streamdiff/stream.go:459-492 | a file that grows over 50000 lines is passed on as raw text from then on |
| `StreamReader.FilesInPieces` | internal/streamdiff/stream.go:409-492 | every file that is diffed names both paths and both blobs and stands in the input in one piece that starts at its own header line |
| `StreamPipeline.EveryRun` | internal/streamdiff/stream.go:161-515 | over every interleaving, with cancellation, a failing input and a failing output at any point: the output is the front of the texts of the items in order; the permits held are the files queued or at the flusher and at most one at the reader, never above 16; no run is longer than a fixed bound; a run that cannot go on by itself has stopped everything, and unless it was broken off it has written every item |
| `StreamPipeline.StepKeeps` | internal/streamdiff/stream.go:211-509 | every step keeps the invariant of reader, workers, flusher and queues |
| `StreamPipeline.RoomForJob` | internal/streamdiff/stream.go:366-380 | with a permit in hand, handing a file to the workers never blocks |
| `StreamPipeline.NeverStuck` | internal/streamdiff/stream.go:211-509 | until everything has stopped some step can be taken without the user, the input or the output breaking the run off |
| `StreamPipeline.StepWorks` | internal/streamdiff/stream.go:211-509 | every step leaves less to do |
| `StreamPipeline.UnchangedIsInput` | internal/streamdiff/stream.go:163-530 | with every file passed on as its own lines, a finished run of any number of workers has written what the items expand to |
| `StreamPipeline.Stream` | internal/streamdiff/stream.go:163-530 | the reader and the pipeline together: after the lines are read, every finished run of any number of workers that was not broken off has written exactly the input |
| `MoveChains.ExtractLis` | internal/postprocess/grouping.go:258-309 | a chain that rises in source and destination, of greatest length and, among those, greatest weight |
| `MoveChains.ChainBound` | internal/postprocess/grouping.go:278-292 | no chain ending at an item beats the table |
| `MoveChains.Peel` | internal/postprocess/grouping.go:207-225 | each group is the best chain of what the groups before it left and has at least two items; groups are disjoint, and no two items left over could have shared one |
| `Spans.PartitionLineSpans` | internal/serialize/spans.go:584-709 | disjoint spans over exactly the columns of the input, each column painted as the best span that covers it decides, in its colour where spans overlap and always for moves; spans that do not overlap keep theirs |
| `Spans.WinnerIsLeast` | internal/serialize/spans.go:641-667 | the deciding span covers the columns, and no covering span is better by length in the tree, width and priority |
| `Spans.MoveOverIsLeast` | internal/serialize/spans.go:641-649 | the move that gives a segment its colour is a move that covers the columns, and no other such move is shorter in the tree; there is none only if no move covers them |
| `Spans.SegmentDecides` | internal/serialize/spans.go:633-667 | between two neighbouring boundaries every column is decided alike |
| `Spans.Coalesce` | internal/serialize/spans.go:690-708 | joining neighbouring segments changes no column |
| `Spans.SortRight` | internal/serialize/spans.go:244-250 | sorting by start puts disjoint spans in sequence |
| `Spans.RenderedAsDecided` | internal/renderutil/cursor.go:22-53 | what a column is rendered as, partitioned and sorted, is what its best covering span decides, colour included except for a moved and updated span among spans that do not overlap |
| `Spans.SpanCursor.ActionAt` | internal/renderutil/cursor.go:22-31 | on columns that do not decrease the cursor finds what a plain scan finds |
| `TreeQueries.Index.EnsureIndex` | internal/treesitter/ast_index.go:26-80 | after the three passes positions, sizes, postorder starts and leaf positions are those of the tree; when the tree is indexed already, a call on any of its nodes leaves it as it is |
| `TreeQueries.Index.Contains` | internal/treesitter/ast_index.go:83-96 | the interval test answers whether climbing by parents meets the node |
| `TreeQueries.Index.FrequencyInSubtree` | internal/treesitter/ast_index.go:99-125 | two binary searches count the leaves with a label as a walk does |
| `TreeQueries.Index.PreOrderOf` | internal/treesitter/ast.go:292-309 | the slice of the index is the recursive preorder |
| `TreeQueries.Index.DescendantsOf` | internal/treesitter/ast.go:226-244 | the slice of the index is the recursive list of descendants |
| `TreeQueries.Index.PostOrderOf` | internal/treesitter/ast.go:272-289 | the slice of the index is the recursive postorder |
| `TreeQueries.Index.LeafLabels` | internal/treesitter/ast.go:247-269 | the counts of exactly the non-empty labels of the leaves |
| `TreeQueries.LeafStretch` | internal/treesitter/ast_index.go:103-112 | the leaves of a subtree are the positions between the start and the end of its stretch |
| `TreeIndex.StartsRight` | internal/treesitter/ast_index.go:59-70 | the noted starts are those of the subtrees in the postorder |
| `TreeIndex.BelowInOrder` | internal/treesitter/ast_index.go:82-96 | lying below a node and being listed in its preorder are the same |

## Left out

- Edit scripts whose roots are not paired with each other: deletes are collected below the copied source root only, so the replay theorem needs the root pair.
- A nil mapping, which is taken as an empty one (`internal/actions/chawathe.go:19-21`), is the empty mapping here.
- Isomorphic.PairedByPosition: is about subtrees of the same shape; that equal hashes mean equal shapes is not modelled.
- BandedAlign.AlignBanded: when the banded route keeps clear of the edges of the band, best within the band, not overall. The float band bounds of `internal/serialize/align.go:1226-1234` are the integer floor and ceiling of i*n/m.
- Grid.AlignGap: a traceback that leaves its gap is no result; what the source does then, reading outside its table, is not modelled.
- Grid.EmitGrid: the shortcut of AlignLines for an empty file (`internal/serialize/align.go:56-70`), which drops the single empty line, is not part of it.
- The recursion of `alignGapGotoh` is bounded by the gap itself, not by a counter; stack depth is not modelled.
- ZsRun.Recover: float costs are integers, as all of them are small whole numbers. For shapes that are not simple it gives costs for which the mapping is too dear and costs for which it is not, not exactly which are which.
- SeqDiff.SeqScratch.AlignWeighted: says that the result is heaviest, not which of several heaviest ones it is; `Closest` states the tie-break of one step. That the returned slice is overwritten by the next call is not modelled, since sequences are values here.
- MoveChains.Peel: the choice of the pool (containers, grouping parents, handing groups down to blocks, `internal/postprocess/grouping.go:92-205` and `226-255`) is left out.
- Spans.PartitionLineSpans: spans that do not overlap keep whatever colour they had, moves excepted, so the colour of a moved and updated one among them is the caller's.
- Spans before the partition: collecting, merging and delimiter handling of `internal/serialize/spans.go:60-242`.
- JobPipeline.EveryRun: the two ways an output can fail, writing and rendering, are one outcome; messages to standard error are left out. Fairness of the scheduler is not needed, since every run is finite.
- StreamPipeline.EveryRun: which error is returned is left out, and so is an inactive reader, which has read a prefix of the lines, to which `StreamReader.Reader.Read` applies. A read that never returns holds up the reader only; the reader then never takes a step.
- StreamReader.Reader.Read: parsing of paths and object names is a parameter, and so is whether blobs can be fetched.
- TreeQueries.Index.EnsureIndex: syntax trivia are left out, and so is a call on a tree of which only a subtree has been indexed. `Leaves` treats flattened literals differently with and without an index and is left out.
- The pools from which scratch buffers are drawn, capacities that only save time, and the stack buffers for small tables.
- Matching heuristics (top-down, bottom-up, recovery, move detection, similarity scores), tree-sitter and language rules, rendering, colours and badges, JSON, git, pager, command line: no clean specification, or plumbing.
