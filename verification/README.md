# Verification of the Markdown, index, commit and wire cores

This project models, in Dafny, the parts of the Rust core that every other layer relies on, and proves what those parts promise.

**The Markdown parser and its span map.** `BuilderModel` is the parser's stack machine as a function, one step per event of the Markdown parser, building the AST and registering block spans in one pass. `Builders.Builder` is the same machine as a class whose methods update its fields in place, proved equal to the function step by step. `Documents` gives an independent, recursive account of what a document means; the machine is proved to compute it on exactly the documents that meet two stated conditions. A code span there has at least one character, as section 6.1 of the CommonMark specification has it. `SpanMaps.SpanMap` and `SpanMapBuilders.SpanMapBuilder` are the span map and its construction as classes: resolving rendered offsets and UTF-16 carets to source bytes, applying buffered edits in place of a reparse, collecting and sorting children and measuring rendered lengths. What is proved about them holds for all event streams of the stated class, all coherent maps and all edit sequences.

**Path-restricted commits.** `CommitProtocol` is a state machine in which any number of calls of `commit_paths` and foreign moves of `HEAD` interleave step by step, the files on disk changing meanwhile. `GitTrees` is the tree editor and `GitIndex.IndexFile` the refresh of the staging index afterwards.

**The derived index.** `IndexTables` holds the tables with their cascades, `IndexConnection.Connection` the statements and transactions, with a fault that may strike any statement, `IndexViews` and `IndexRuns` what an index shows and how runs of operations change it. `BundleWalk` is the directory walk, `WorkspaceTree` the sidebar query; `BundleTheorems` joins the two ends, and `ScanMeanings` says what is listed of the file tree itself.

**The wire codec and the schema.** `WireFormat`/`WireCodec` model the recursive encoding of the AST as functions and as a serializer and a deserializer with a cursor. `Schema.Database` models opening a database of any version and shape.

A text is a sequence of Unicode scalar values; byte offsets, UTF-8 and UTF-16 lengths are computed from it (`Text`, `Utf8`, `Utf16`), and `ByteSlices` ties the views together: ranges of the text are ranges of its bytes. A Rust string is no longer than `isize::MAX` bytes; where that bound matters it is a precondition, and under it no shift of a span saturates. The Rust standard library's sorts are `Sorting.Sort`, stable and specified by order and permutation. Rust values held inside a structure (`RunAccum`, `LinkFrame`, `Frame`, a `Vec` of them) are values held in fields that the methods reassign.

A *coherent* map (`Spans.Coherent`) has distinct, parent-closed paths, non-empty spans on character boundaries, children inside their parents, siblings disjoint and in path order, children listed in order, containers measured as their children joined by newlines, and every leaf's runs tiling its rendered text, in order and inside the block, reading it where they are interpolable. A set of *stale* paths names the leaves whose runs may be out of date since they were typed into; they must still lie near their block. A *laid-out* map (`Spans.Laid`) is the same but for spans that may be empty, as those of leaves emptied by an edit are.

A *well-nested* stream (`Nesting.WellNested`) has matching starts and ends with nested ranges, siblings that do not overlap, and text where text may stand. A *clean* stream (`CleanStreams.Clean`) also keeps clear of three shapes for which the builder does not keep document order: bare item text still waiting when something other than a list begins, a link or image that renders text of its own around an image's, and rendered text after an image in a heading. `CleanLimits` has a source for each; `CleanDocuments` says of a document's own structure and ranges what makes its events clean.

Where the repository's own comments say more than the code does, the model follows the code, and the exact condition is a theorem:

- `commit_paths` documents that a commit differs from its parent only at or under the named paths. A file standing where a named path needs a directory is replaced as well: `GitTrees.OnlyNamedPathsDiffer` says exactly when the documented statement holds. The staging index keeps the entry of such a file: `GitIndex.IndexFollowsCommit`. `GitTrees.FileAboveDisplaced` and `GitIndex.DisplacedStaysInIndex` have the file `a` and the staged `a/b`.
- A name that is a directory counts as gone, so naming `a/b` and then `a` commits a tree without `a/b`, whose bytes were read and are on disk still: `CommitProtocol.DirectoryNamedLosesFile`. `CommitProtocol.CommittedMeans` says what a commit holds for names nested in any way, and `CommitProtocol.NothingMeansMatching` when there is nothing to commit.
- `refresh_index_entries` looks entries up by binary search while it appends. `GitIndex.RefreshIsRight` is exact: the index comes out right if and only if every lookup finds what is there. Tracked names before new ones always do; `GitIndex.NewBeforeTrackedDuplicates` shows the other order leaving a path in the index twice.
- A buffered edit to the empty text leaves an empty span: `BufferedEdit.EmptyEditBreaksCoherence` is exact. Typing into the empty leaf again moves whatever starts where it does, which is wrong for what stands before or around it: `BufferedEdit.ClearOrMisplaced` and, for whole sessions, `EditSession.LaidExactly` are exact, and `EditAlgebra.EmptiedLeavesSwap` shows two emptied neighbours changing places.
- A collapsed selection between two runs with markup between them is rejected: `ResolveTheorems.CollapsedSelection` says on the map exactly when, and `ResolveTheorems.CaretBeforeBoldRejected` is an example.
- A heading or paragraph that begins while an item's bare text waits drops that text, and a rule or a code block overtakes it; only a list leaves it in its place. `DocumentTheorems.WaitingTextKept` is exact for one block, and `DocumentTheorems.DocumentMeans` for whole documents: one of its two conditions is that the document is *tight*, that is, only lists follow bare text still waiting.
- A file written again with the same bytes keeps its old modification time in the index: `IndexRuns.SessionEqualsRebuild` bounds the notes this concerns by those whose last write left their bytes as they were, and says of each note exactly when its row differs from a rebuild's.
- Styles are plain switches, so closing an emphasis inside one of the same kind ends both: `*a *b* c*` ends in plain text (`DocumentLimits.NestedEmphasisEnds`), while `*a *b**` loses nothing (`DocumentLimits.NestedEmphasisLast`). `DocumentTheorems.StyleRestoredExactly` is exact for the style in force, and the other condition of `DocumentTheorems.DocumentMeans` is that styles are *kept*: `Documents.Kept` asks, piece by piece, that nothing shown follows such an end inside the enclosing style.
- The codec casts lengths to 32 bits: `WireTheorems.RoundTripsExactly` says exactly which values survive.

## Model

| member | source | states |
|---|---|---|
| Spans.LocalImpliesPlaced | rust/src/markdown/spans.rs:742-815 | the check made between parents, children and neighbouring siblings places every two blocks of the document: ancestors contain descendants, earlier blocks end before later ones start |
| Spans.PlacedImpliesLocal | rust/src/markdown/spans.rs:742-815 | and conversely |
| BufferedEdit.EditExactly | rust/src/markdown/spans.rs:481-510 | every block after a clear buffered edit, empty spans allowed, exactly: the leaf and what contains it grow by the difference, later blocks and their runs move by it, earlier blocks stay; no shift saturates |
| BufferedEdit.EditReads | rust/src/markdown/spans.rs:481-510 | once the replacement is spliced over the returned range, the edited leaf reads the replacement, an ancestor its old text with that splice, every other block byte for byte what it read |
| BufferedEdit.EditRunReads | rust/src/markdown/spans.rs:493-507 | so do the runs of every other leaf whose runs are up to date |
| BufferedEdit.EditRunsFit | rust/src/markdown/spans.rs:493-507 | such a leaf's runs still tile its rendered text, in order, inside its block, and read it where interpolable |
| BufferedEdit.EditKeepsLayout | rust/src/markdown/spans.rs:481-510 | a clear edit to any text, the empty one included, leaves the map laid out over the spliced text, the edited leaf's own runs aside |
| BufferedEdit.ClearOrMisplaced | rust/src/markdown/spans.rs:493-507 | and only a clear edit does: the map stays laid out if and only if the leaf is not empty, or stays empty, or nothing before or around it starts where it does |
| BufferedEdit.EditKeepsCoherence | rust/src/markdown/spans.rs:481-510 | an edit of a coherent map to non-empty text leaves it coherent, the edited leaf's own runs aside |
| BufferedEdit.EmptyEditBreaksCoherence | rust/src/markdown/spans.rs:481-510 | the map stays coherent if and only if the replacement is not empty |
| EditSession.StepRefused | rust/src/markdown/spans.rs:481-487 | an edit of an unknown path or a container is refused with text and map unchanged |
| EditSession.StepAccepted | rust/src/markdown/spans.rs:481-510 | an edit of a registered leaf, in any laid-out map, is the splice over its span together with the edited map |
| EditSession.StepKeeps | rust/src/markdown/spans.rs:481-510 | one edit to any text, accepted or refused, that is clear keeps the layout and the block tree and changes what exactly one leaf reads |
| EditSession.LaidExactly | rust/src/markdown/spans.rs:481-510 | over every sequence of edits the map is laid out throughout if and only if every edit is clear when its turn comes |
| EditSession.RunKeeps | rust/src/markdown/spans.rs:481-510 | over every such sequence, empty texts included, every leaf reads what was last typed into it, or what it read at the start, and only the typed leaves' runs are stale |
| EditSession.RunCoherent | rust/src/markdown/spans.rs:481-510 | from a coherent map, edits to non-empty texts are always clear and keep it coherent |
| EditAlgebra.LastEditWins | rust/src/markdown/spans.rs:481-510 | two edits of one leaf leave what the second alone leaves if and only if the second is clear, as it is whenever the first text was not empty |
| EditAlgebra.TypingBackRestores | rust/src/markdown/spans.rs:481-510 | after any edit, typing a clear text of the old byte length restores the map exactly, stale runs included, and typing the old text back the whole document |
| EditAlgebra.EditsCommute | rust/src/markdown/spans.rs:481-510 | clear edits of two different leaves, empty spans and texts allowed, leave the same text in either order, and the same document if and only if each is still clear after the other, as both are when neither text is empty |
| EditAlgebra.EmptiedLeavesSwap | rust/src/markdown/spans.rs:493-507 | on a coherent map, two adjacent leaves emptied and retyped, the second first, end up with their texts exchanged |
| Resolve.ContainerResolves | rust/src/markdown/spans.rs:356-417 | a container hands an offset inside its rendered text to exactly one child, at the offset less what the earlier children and newlines take |
| ResolveMeanings.ResolvesWhereItMust | rust/src/markdown/spans.rs:356-417 | an offset of any block, leaf or container, that falls in a leaf: at a run's start it lands between the source before that run and the run's own; inside an interpolable run, at the byte after exactly as many of the run's characters; inside any other, on the run's whole source; at the very end, behind the last run |
| ResolveMeanings.SelectedSource | rust/src/markdown/spans.rs:527-538 | a selection inside one interpolable run, made in whatever blocks around its leaf, selects exactly the run's source text between the same two characters |
| SelectedText.SelectionReadsItself | rust/src/markdown/spans.rs:527-538 | on every clean stream, a selection inside one interpolable run, made through any block above it that is registered whole: the source it resolves to reads exactly the rendered characters selected |
| SelectedText.JoinedPieces | rust/src/markdown/spans.rs:690-710 | what is rendered of several nodes is each node's text, in order, at its offset, with one newline before the next, and nothing else |
| ResolveTheorems.ResolvesExactly | rust/src/markdown/spans.rs:287-295 | an offset in a registered block resolves if and only if it is at most the rendered length |
| ResolveTheorems.ResolvesInSpan | rust/src/markdown/spans.rs:356-417 | both ends of a resolution lie in the block's span, on character boundaries, and strictly inside no non-interpolable run of the whole map |
| ResolveTheorems.ResolveMonotone | rust/src/markdown/spans.rs:191-214 | within a leaf or a container both ends are monotone in the offset, and an earlier offset starts no later than a later one ends |
| ResolveTheorems.EarlierResolvesEarlier | rust/src/markdown/spans.rs:191-214 | the same across blocks, in path order: both ends are monotone, and an earlier start precedes a later end |
| ResolveTheorems.ForwardSelection | rust/src/markdown/spans.rs:527-538 | a strictly forward selection is never rejected; its range lies between the first block's start and the last one's end and is a piece of the text |
| ResolveTheorems.CollapsedSelection | rust/src/markdown/spans.rs:527-538 | a collapsed selection is rejected if and only if, in the leaf its offset falls in, two runs meet at that offset with source between them that neither covers |
| ResolveTheorems.CaretBeforeBoldRejected | rust/src/markdown/spans.rs:527-538 | the caret after the first letter of `a**b**`, over its coherent map, is rejected |
| Utf16.ScalarOffset | rust/src/markdown/spans.rs:543-560 | succeeds exactly on scalar boundaries and inverts the count of code units |
| Utf16.ByteOffset | rust/src/markdown/spans.rs:562-574 | succeeds on exactly the same offsets, with the byte at which the same scalar starts |
| Utf16.FailsInsidePairs | rust/src/markdown/spans.rs:543-574 | the offsets within the text that fail are those between the halves of a surrogate pair (section 2.1 of RFC 2781) |
| Utf16.UnitsNameScalars | rust/src/markdown/spans.rs:543-560 | a code-unit offset names one scalar position |
| Utf16.DecodeEncode | rust/src/markdown/spans.rs:543-560 | the code units of a text, surrogate pairs as section 2.1 of RFC 2781 makes them, read back as that text |
| Utf16.UnitsAreCounted | rust/src/markdown/spans.rs:543-560 | and the offsets all these contracts count in are positions among those code units |
| ByteSlices.GetIsSlice | rust/src/markdown/spans.rs:258-262 | reading a range of the text, as every span is read, succeeds exactly when both its ends are between scalars of the UTF-8 bytes, and reads exactly the bytes in it |
| ByteSlices.SpliceIsSplice | rust/src/markdown/spans.rs:444-458 | splicing a text over a range, as the caller of a buffered edit does, replaces exactly the bytes in it |
| SpanMaps.SpanMap.Block | rust/src/markdown/spans.rs:248-251 | the span registered for a path, found exactly when one is |
| SpanMaps.SpanMap.BlockSource | rust/src/markdown/spans.rs:258-262 | the raw text a registered block was parsed from |
| SpanMaps.SpanMap.ApplyBufferedEdit | rust/src/markdown/spans.rs:481-510 | the loop over the blocks leaves exactly the edited map and returns the leaf's old span, or refuses and changes nothing |
| SpanMaps.SpanMap.ResolveOffset | rust/src/markdown/spans.rs:287-295 | resolves a registered path as the specification does and an unknown one to nothing |
| SpanMaps.SpanMap.ResolveAt | rust/src/markdown/spans.rs:356-417 | the loops over runs and children compute the resolution that `ResolveMeanings.ResolvesWhereItMust` places; the recursion ends |
| SpanMaps.SpanMap.ResolveLeafAt | rust/src/markdown/spans.rs:331-354 | likewise for the leaf an offset falls in |
| SpanMaps.SpanMap.ResolveRange | rust/src/markdown/spans.rs:527-538 | the range between two resolutions, or nothing |
| SpanMaps.SpanMap.ResolveUtf16Caret | rust/src/markdown/spans.rs:306-329 | answers exactly for a top-level block of the known rendered length and a caret between scalars; the leaf is under that block, resolves as `resolve_offset` does, and the caret returned converts back to that very byte |
| SpanMapBuilders.SpanMapBuilder.PushBlock | rust/src/markdown/spans.rs:585-599 | appends a block measured by its runs |
| SpanMapBuilders.SpanMapBuilder.IndexPaths | rust/src/markdown/spans.rs:606-611 | every path leads to its block's index and no other path is known |
| SpanMapBuilders.SpanMapBuilder.CollectChildren | rust/src/markdown/spans.rs:613-621 | every block lists exactly the blocks one component deeper, whatever order they were pushed in |
| SpanMapBuilders.SpanMapBuilder.SortChildren | rust/src/markdown/spans.rs:622-634 | in strictly ascending order of their last component |
| SpanMapBuilders.SpanMapBuilder.ComputeLengths | rust/src/markdown/spans.rs:636-651 | deepest first, every container measures its children joined by one newline, at every depth |
| SpanMapBuilders.SpanMapBuilder.Finish | rust/src/markdown/spans.rs:605-658 | over any push order of distinct paths: same blocks, children as above, lengths as above |
| Inlines.MergeAdjacentTextRuns | rust/src/markdown/parser.rs:835-855 | the loop that extends the last run computes the specified merge |
| Inlines.ProcessKeepsStyles | rust/src/markdown/parser.rs:813-855 | processing keeps every character with its style and its enclosing links, in order |
| Inlines.ProcessKeepsText | rust/src/markdown/parser.rs:813-833 | and so the rendered text |
| Inlines.ProcessMerges | rust/src/markdown/parser.rs:835-855 | afterwards no two neighbouring runs share a style, at any depth |
| RunCounts.HandleCounts | rust/src/markdown/parser.rs:303-320 | every event keeps pending runs and pending text in step, whatever came before, and each pending run says rightly whether the source reads it |
| RunCounts.StreamCounts | rust/src/markdown/parser.rs:183-194 | at every step of any stream, well-nested or not: pending runs render the pending text, each open link counts its content, each registered leaf's runs tile its rendered text; a run is interpolable if and only if it is no link's or image's and its source reads exactly the text it covers |
| Registrations.EventRegisters | rust/src/markdown/parser.rs:405-503 | which spans each event of a clean stream registers, in order, from that event's own range: containers, code blocks, rules and images have their tag's or event's; so has a heading or paragraph, unless an image was hoisted out of it, and then, like text outside any, what its runs span; a heading's images follow it |
| Registrations.EventRuns | rust/src/markdown/parser.rs:669-680 | whatever a text, code or break event or a link renders is one more pending run over the event's own range, a link's over the whole link and never interpolable; inside a link it is only counted there |
| Registrations.CodeRuns | rust/src/markdown/parser.rs:517-521 | text in a code block is added to its code as it is, as one more run over the event's range, interpolable if and only if the source reads it |
| BlockTree.AttachTree | rust/src/markdown/parser.rs:730-774 | attaching a node, registered or not, keeps every registered path leading to its node |
| BlockTree.CloseTree | rust/src/markdown/parser.rs:439-481 | closing a container whose path was fixed when it opened moves its children under the attached node at their same paths |
| BlockPaths.HandleSound | rust/src/markdown/parser.rs:303-503 | one event of a well-nested stream keeps paths distinct, parent-closed and leading to their nodes |
| BlockPaths.EveryPathLeadsToItsNode | rust/src/markdown/parser.rs:711-781 | for every well-nested stream registered paths are distinct, their parents are registered, and each walks the finished AST to exactly the node registered with it |
| CleanStreams.CleanIsWellNested | rust/src/markdown/parser.rs:322-370 | a clean stream is well-nested |
| SpanOrderFlags.StepConsistent | rust/src/markdown/parser.rs:595-667 | frames, open links, deferred images and pending text are what the open tags say, after every event |
| SpanOrderStream.StepLayout | rust/src/markdown/parser.rs:303-503 | after every event of a clean stream the registered and pending spans are ordered and disjoint, hoisted images included |
| SpanOrderStream.StepGeo | rust/src/markdown/parser.rs:303-503 | the whole invariant is kept by every event of a clean stream |
| SpanOrderStream.CleanStreamInOrder | rust/src/markdown/parser.rs:595-667 | at the end of a clean stream every registered span is a non-empty piece of the source holding its runs, ancestors contain descendants, and earlier blocks end before later ones start |
| CleanMaps.CleanStreamsAreCoherent | rust/src/markdown/spans.rs:742-815 | for every clean stream the finished map is coherent, with no stale runs |
| CleanMaps.ChildrenAreKids | rust/src/markdown/spans.rs:613-634 | where a subtree is wholly registered, a block's children are its node's children, in order |
| CleanMaps.LengthsMeasureText | rust/src/markdown/spans.rs:670-710 | and its rendered length is that of its node's rendered text |
| CleanMaps.StreamLengths | rust/src/markdown/spans.rs:670-727 | for every well-nested stream: each block leads to a node, and measures its rendered text wherever its subtree is wholly registered |
| CleanLimits.TextAfterImageInHeading | rust/src/markdown/parser.rs:795-811 | the events of `# ![a](u) b`, text after an image in a heading, register spans out of order |
| CleanLimits.RuleOvertakesItemText | rust/src/markdown/parser.rs:303-320 | so do those of an item whose bare text a rule follows |
| CleanLimits.LinkAroundImage | rust/src/markdown/parser.rs:553-593 | and those of `[a![b](c)d](u)`, a link that renders text around an image |
| CleanDocuments.PieceClean | rust/src/markdown/parser.rs:505-659 | inline content whose ranges nest in order, with images and text kept apart, has clean events wherever it may stand |
| CleanDocuments.BlockClean | rust/src/markdown/parser.rs:322-503 | so has every block, with or without bare text waiting before it |
| CleanDocuments.DocumentIsClean | rust/src/markdown/parser.rs:292-301 | every document laid out in the source within the three limits has clean events |
| DocumentPieces.PieceAfter | rust/src/markdown/parser.rs:505-659 | the events of any inline piece, in any style, take in exactly its runs in the styles in force, its links, and its images cut out of the text or deferred in a heading; afterwards just the styles it opened are over |
| DocumentPieces.PiecesAfter | rust/src/markdown/parser.rs:505-688 | so do the events of any inline content |
| DocumentStyles.AllKeptBuilt | rust/src/markdown/parser.rs:398-400 | content that keeps its styles is built, bit for bit, as it is meant |
| DocumentStyles.AllReadsKept | rust/src/markdown/parser.rs:498-500 | and only such content shows every character in its style |
| DocumentStyles.AltMeans | rust/src/markdown/parser.rs:599-607 | an image's alternative text is the text, code and breaks of its content, at any depth of styles, without what is inside links and images |
| Events.TrimCuts | rust/src/markdown/parser.rs:374-380 | trimming a fence's info string takes whitespace off both ends, all of it, and nothing else |
| DocumentTheorems.HeadingDid | rust/src/markdown/parser.rs:408-422 | a heading becomes one heading with all its text as built, followed by its images in order, which is what it means if and only if its content keeps its styles |
| DocumentTheorems.ParagraphDid | rust/src/markdown/parser.rs:423-438 | a paragraph becomes its text as built, cut at its images, nothing when it renders nothing, which is what it means if and only if its content keeps its styles |
| DocumentTheorems.PartsRun | rust/src/markdown/parser.rs:463-482 | any item's content attaches at most as many nodes as it means; exactly what it means if it is tight and keeps its styles and the right text waited before it, and only if it is tight and keeps its styles and that text reads right |
| DocumentTheorems.BlockRuns | rust/src/markdown/parser.rs:322-503 | what every block attaches and leaves waiting, with or without text waiting before it; with none it attaches what it means if and only if it is tight and keeps its styles at every depth |
| DocumentTheorems.DocumentMeans | rust/src/markdown/parser.rs:292-301 | for every document, whatever its ranges, the AST built from its events is what the document means by recursion over its structure if and only if it is tight and keeps its styles at every depth; nothing is left open |
| DocumentTheorems.StyleRestoredExactly | rust/src/markdown/parser.rs:498-500 | any piece gives back the style in force before it if and only if it opens none of the styles in force, at any depth |
| DocumentLimits.NestedEmphasisEnds | rust/src/markdown/parser.rs:498-500 | the AST of `*a *b* c*` ends in a plain run where the document means an italic one |
| DocumentLimits.NestedEmphasisLast | rust/src/markdown/parser.rs:498-500 | the AST of `*a *b**` is what it means |
| DocumentTheorems.WaitingTextDropped | rust/src/markdown/parser.rs:328-335 | any heading or paragraph drops the bare text waiting in its item, and attaches what it means if and only if it keeps its styles |
| DocumentTheorems.WaitingTextOvertaken | rust/src/markdown/parser.rs:303-320 | a rule or a code block is attached ahead of such text |
| DocumentTheorems.WaitingTextKept | rust/src/markdown/parser.rs:328-350 | any block leaves the bare text waiting in its item in its place and comes out as it means if and only if it is tight and keeps its styles, and there is no such text or the block is a list |
| CleanDocuments.DocumentParses | rust/src/markdown/parser.rs:292-301 | for every document laid out in the source within the three limits the finished map is coherent and leads to nodes of the AST, which is what the document means if and only if it is tight and keeps its styles |
| Builders.Builder.Emit | rust/src/markdown/parser.rs:674-680 | adds a run, or counts it in the innermost open link |
| Builders.Builder.Append | rust/src/markdown/parser.rs:682-688 | adds an inline element to the innermost open link or the pending text |
| Builders.Builder.Text | rust/src/markdown/parser.rs:505-525 | text in front matter, in code and elsewhere, as the specified step, whose runs `RunCounts.StreamCounts` and `Registrations.EventRuns` describe |
| Builders.Builder.EndLink | rust/src/markdown/parser.rs:553-593 | a link with one atomic run, or nothing at all when it renders nothing |
| Builders.Builder.EndImage | rust/src/markdown/parser.rs:595-659 | an image hoisted after the flushed text, or deferred in a heading |
| Builders.Builder.Drain | rust/src/markdown/parser.rs:663-667 | deferred images in their order |
| Builders.Builder.Flush | rust/src/markdown/parser.rs:711-720 | pending text becomes a paragraph spanning its runs |
| Builders.Builder.InnermostContainer | rust/src/markdown/parser.rs:723-727 | the innermost frame that holds blocks |
| Builders.Builder.PathHere | rust/src/markdown/parser.rs:730-744 | the path of the next block attached |
| Builders.Builder.AttachNode | rust/src/markdown/parser.rs:746-757 | attaches to that frame or to the root |
| Builders.Builder.Start | rust/src/markdown/parser.rs:322-403 | every start tag, as the specified step |
| Builders.Builder.End | rust/src/markdown/parser.rs:405-503 | every end tag, as the specified step |
| Builders.Builder.HandleEvent | rust/src/markdown/parser.rs:303-320 | every event, as the specified step |
| Builders.Builder.Consume | rust/src/markdown/parser.rs:292-301 | a whole stream: the specified AST, the finished map of the specified registrations, and the range of the last front matter begun, if any was |
| FrontMatter.FrontIsLast | rust/src/markdown/parser.rs:324-327 | after any stream the front matter is the last metadata block's range, if there was one |
| Builders.Parse | rust/src/markdown/parser.rs:102-112 | on every well-nested stream each block of the map leads to a node of the AST and measures it where wholly registered; on every clean one the map is coherent |
| SlashPaths.AtOrUnderIsComponentwise | rust/src/git/operations.rs:748-756 | the byte test recognises exactly the paths whose components begin with the removed path's |
| GitTrees.UntouchedKept | rust/src/git/operations.rs:429-468 | a path no edit reaches keeps its entry |
| GitTrees.LastEditDecides | rust/src/git/operations.rs:531-556 | the last edit that reaches a path decides it |
| GitTrees.SeparateHold | rust/src/git/operations.rs:429-468 | with separate names, each named path holds exactly what was staged for it and nothing is left beneath it |
| GitTrees.ApplyPrefixFree | rust/src/git/operations.rs:531-556 | editing keeps a tree a tree: no file stands above another entry |
| GitTrees.NothingToCommit | rust/src/git/operations.rs:558-564 | edits of any names, nested in one another or not, change nothing if and only if, wherever an edit is the last to reach, the tree already is as it leaves it |
| GitTrees.SeparateNothing | rust/src/git/operations.rs:558-564 | with separate names on a real tree that is every named path matching what was found on disk |
| GitTrees.OnlyNamedPathsDiffer | rust/src/git/operations.rs:429-468 | the edited tree differs only at or under named paths if and only if no unnamed file stands where a staged file needs a directory |
| GitTrees.FileAboveDisplaced | rust/src/git/operations.rs:531-544 | staging `a/b` where the tree has the file `a` takes `a` away unnamed |
| CommitProtocol.HeadMovesOnlyByLanding | rust/src/git/operations.rs:503-597 | at any moment of any interleaving `HEAD` moves only by a foreign move or by a call landing one commit on top of what `HEAD` was at that moment |
| CommitProtocol.StaleFails | rust/src/git/operations.rs:566-587 | a call that comes to land on a stale snapshot has failed for good: in every later state of every run it reports failure and none of its steps has ever moved `HEAD` |
| CommitProtocol.VanishedFails | rust/src/git/operations.rs:533-535 | so has a call that comes to read a file which is gone by then: a vanished file is never taken for a removal |
| CommitProtocol.LandsAtMostOnce | rust/src/git/operations.rs:503-597 | over a whole run a call lands at most once, and has done so exactly when it reports a commit or failed refreshing the index afterwards |
| CommitProtocol.NothingRevertedSilently | rust/src/git/operations.rs:503-597 | whenever a path of `HEAD` changes between two moments, in between somebody else moved `HEAD` or a call landed that named the path, something above it, or a file now standing where the path was |
| CommitProtocol.NoCommitLost | rust/src/git/operations.rs:503-597 | without foreign moves every landed commit stays in `HEAD`'s history |
| CommitProtocol.StagedWasRead | rust/src/git/operations.rs:530-556 | everything staged was on disk at that path with those bytes, and then or later, while the call ran, with that mode, or was absent there at some moment of the run |
| CommitProtocol.CommittedMeans | rust/src/git/operations.rs:429-468 | every commit that landed, whatever its call reports afterwards and however its names nest: everything staged was read during the run, bytes and mode, each path some edit reaches is as the last such edit leaves it, every other path is the parent's; with separate names it holds at each named path the bytes and the mode read there, or nothing where the path was gone |
| QuietCommit.QuietCall | rust/src/git/operations.rs:503-597 | a call nobody disturbs, whatever its names: on top of `HEAD` lands a commit with `HEAD`'s tree and every named path as it is on disk, bytes and executable bit, in the order named, or nothing is committed if that changes nothing; nothing else in the world moves |
| CommitProtocol.NothingMeansMatching | rust/src/git/operations.rs:558-564 | a call with any names reports nothing to commit only if its snapshot already was as its last edits leave it; with separate names on a real tree, only if every named path was what it found on disk |
| CommitProtocol.MatchingCommitsNothing | rust/src/git/operations.rs:558-564 | and reports it, when it has read everything, if and only if that is so |
| CommitProtocol.DirectoryNamedLosesFile | rust/src/git/operations.rs:530-556 | naming `a/b` and then its directory `a`, on a disk nobody touches, lands a commit that has lost the file |
| GitIndex.SearchFinds | rust/src/git/operations.rs:717 | the binary search misses no entry of a sorted index |
| GitIndex.StageOneAt | rust/src/git/operations.rs:706-731 | staging one file whose lookup hits replaces its unconflicted entry or adds one, and changes nothing else |
| GitIndex.IndexFile.RemoveEntries | rust/src/git/operations.rs:690-704 | removes what is at or under removed paths and the conflict stages of staged ones |
| GitIndex.IndexFile.Refresh | rust/src/git/operations.rs:666-741 | the loops compute the specified refresh and drop the tree cache |
| GitIndex.RefreshIsRight | rust/src/git/operations.rs:612-741 | with separate names the refreshed index is sorted and right at every key (one unconflicted entry with the committed id and mode and the old flags less intent-to-add at a staged path, nothing at or under a removed one, every other entry unchanged) if and only if every lookup finds what is there; otherwise a path is in it twice |
| GitIndex.TrackedFirstRefreshes | rust/src/git/operations.rs:706-734 | naming tracked paths before new ones, which a caller can see to, makes every lookup hit |
| GitIndex.IndexFollowsCommit | rust/src/git/operations.rs:612-665 | an index that agreed with the parent agrees with the commit at a path if and only if the commit did not displace a file there |
| GitIndex.DisplacedStaysInIndex | rust/src/git/operations.rs:612-665 | after `a/b` took the place of the file `a` the index still has `a` |
| GitIndex.NewBeforeTrackedDuplicates | rust/src/git/operations.rs:706-734 | a new name before a tracked one leaves a path in the index twice |
| IndexTables.RemoveLinked | rust/src/index/mod.rs:376-394 | removing a note keeps notes and full-text rows in bijection and links owned |
| IndexTables.InsertLinked | rust/src/index/mod.rs:261-305 | so does inserting a new one |
| IndexTables.RewriteLinked | rust/src/index/incremental.rs:128-144 | so does rewriting one |
| IndexTables.RebuildLinked | rust/src/index/scan.rs:97-135 | so does rebuilding a workspace |
| IndexTables.RewriteOthers | rust/src/index/incremental.rs:128-144 | rewriting a note leaves every row of other workspaces as it was |
| IndexTables.RebuildOthers | rust/src/index/scan.rs:97-135 | so does rebuilding |
| IndexViews.RewriteShows | rust/src/index/incremental.rs:128-144 | rewriting one note replaces that note's row, column by column, its title and text in full-text search and its links, and adds the directories it lies in |
| IndexViews.RebuildShows | rust/src/index/scan.rs:97-135 | a rebuild leaves exactly the scanned bundle's rows, column by column, whatever was there before |
| IndexViews.ShownTwiceIsSame | rust/src/index/scan.rs:97-135 | two indexes that show the same content are the same up to full-text row ids |
| IndexRuns.RunLinked | rust/src/index/mod.rs:355-394 | over any run of inserts, removals, rewrites and rebuilds in any workspaces the mapping stays a bijection: no orphan text |
| IndexRuns.RunIsolated | rust/src/index/mod.rs:355-394 | a run that never names a workspace leaves all its rows as they were |
| IndexRuns.ShowsFiles | rust/src/index/mod.rs:261-305 | an index that shows a bundle says of every file, column by column, what reading its bytes yields: its path, title, lookup key, conformance, hash and time, its text for search, and its links |
| IndexRuns.IndexNoteShows | rust/src/index/incremental.rs:53-72 | after one file is created or changed, indexing it leaves exactly the rows of the new bundle, what reading its bytes yields in every column, modification times included; after one is written again with the same bytes, exactly the rows there were |
| IndexRuns.NoticedInStep | rust/src/index/incremental.rs:53-72 | what the index notices of a session is the bundle on disk, but for the modification times of the files whose last write left their bytes as they were |
| IndexRuns.SessionShows | rust/src/index/incremental.rs:53-72 | any number of writes indexed one by one leaves exactly the rows of the bundle noticed |
| IndexRuns.SessionEqualsRebuild | rust/src/index/incremental.rs:53-72 | which are those a rebuild of the final bundle gives from any state, but for those modification times; a note's row is the same in both if and only if the time last noticed is the file's |
| IndexConnection.Connection.PurgeNoteText | rust/src/index/mod.rs:355-362 | deletes the full-text row a note's mapping names |
| IndexConnection.Connection.RemoveNoteRows | rust/src/index/mod.rs:383-394 | text first, then the note with its cascades |
| IndexConnection.Connection.InsertNoteRows | rust/src/index/mod.rs:261-305 | note, text under a new row id, mapping and links, as `IndexViews.RewriteShows` spells them out, or failure on a note already there and without the workspace |
| IndexConnection.Connection.RecordDirectories | rust/src/index/mod.rs:322-342 | the loop up the path records the directory and every ancestor |
| IndexConnection.Connection.Begin | rust/src/index/mod.rs:419-430 | a transaction is owned exactly when none was open |
| IndexConnection.Connection.End | rust/src/index/mod.rs:419-430 | an owned transaction commits what went well and otherwise restores the tables |
| IndexConnection.Connection.WriteNoteRows | rust/src/index/incremental.rs:128-144 | rewrites one note; a failure at any statement of an owned transaction leaves the tables as they were |
| IndexConnection.Connection.ClearWorkspace | rust/src/index/scan.rs:103-114 | deletes a workspace's text, notes and directories |
| IndexConnection.Connection.WriteScannedBundle | rust/src/index/scan.rs:97-135 | rebuilds a workspace and counts its notes; a failure at any statement of an owned transaction leaves the tables as they were |
| IndexConnection.Connection.IndexNote | rust/src/index/incremental.rs:53-72 | not found; unchanged, exactly when the stored hash is the file's, with untouched tables; or updated to the specified tables; a failure in its own transaction changes nothing |
| BundleWalk.WalkDir | rust/src/index/scan.rs:273-316 | the recursion pushes exactly the listed directories and notes, in listing order |
| BundleWalk.WalkBundle | rust/src/index/scan.rs:263-271 | both lists sorted by bytes |
| BundleTheorems.ScanIsExact | rust/src/index/scan.rs:263-316 | the scan lists exactly the visible directories and visible, unreserved Markdown files of the file tree, each once, in byte order |
| ScanMeanings.WhatIsListed | rust/src/index/scan.rs:273-316 | said of the file tree itself: a path from the root is listed as a directory if and only if it leads to one and no name on it begins with a dot; as a note if and only if it leads to a file, likewise in sight, whose name ends in `.md` and is neither `index.md` nor `log.md` |
| ScanMeanings.WhatIsListedIsThere | rust/src/index/scan.rs:273-316 | and nothing is listed that is not there |
| ByteOrder.LessIsByteOrder | rust/src/index/scan.rs:267-269 | the order both lists are sorted in is that of their UTF-8 bytes: the smaller byte at the first difference, or the end, comes first |
| BundleTheorems.ScanBundle | rust/src/index/scan.rs:73-87 | the scanned directories are exactly the visible ones, in byte order, and the scanned notes exactly the readable notes of the file tree, each once and derived from its own bytes |
| BundleTheorems.ScannedAncestors | rust/src/index/scan.rs:273-316 | a scanned bundle has every ancestor of every note and directory |
| BundleTheorems.RecordedIsChain | rust/src/index/mod.rs:322-349 | the directories recorded for a note are exactly those above it |
| BundleTheorems.ChangeKeepsAncestors | rust/src/index/incremental.rs:128-144 | writing a note keeps directories closed under ancestors |
| BundleTheorems.TreeShowsBundle | rust/src/index/query.rs:347-428 | over an index that shows a bundle, the sidebar has every note and every directory exactly once beneath exactly its ancestors, and nothing else |
| BundleTheorems.SessionTree | rust/src/index/query.rs:347-428 | the same after any session of incremental writes |
| WorkspaceTree.GroupDirs | rust/src/index/query.rs:364-368 | groups directory rows by the directory that contains them, in row order |
| WorkspaceTree.GroupNotes | rust/src/index/query.rs:370-377 | likewise for notes |
| WorkspaceTree.BuildTreeLevel | rust/src/index/query.rs:382-428 | the recursive method builds the specified level; it ends |
| WorkspaceTree.WorkspaceTreeOf | rust/src/index/query.rs:347-380 | so does the query as a whole |
| TreeTheorems.TreeLists | rust/src/index/query.rs:382-428 | over any rows, the tree lists once, beneath its own ancestor chain, exactly each row all of whose ancestors have rows |
| TreeTheorems.OrderDoesNotMatter | rust/src/index/query.rs:347-428 | the tree does not depend on the order in which the rows come |
| TreeOrder.LevelArranged | rust/src/index/query.rs:382-428 | at every depth, over any rows: directories before notes, each in the order of their lower-cased names and then of their paths, and every directory named by the last part of its path, right under the one that holds it |
| Utf8.DecodeEncode | rust/src/frb_generated.rs:1687-1693 | a string's UTF-8 decodes to the string |
| Utf8.EncodeDecode | rust/src/frb_generated.rs:1687-1693 | bytes that decode are the encoding of what they decode to |
| Utf8.EncodedLength | rust/src/markdown/spans.rs:562-574 | the byte length the span map counts in is the length of the UTF-8 encoding |
| WireLayout.CharBits | rust/src/frb_generated.rs:3371-3376 | how many bytes each scalar value takes, what each begins with and which bits they carry, as the table of section 3 of RFC 3629 has it |
| WireLayout.I32Bytes | rust/src/frb_generated.rs:3543-3548 | two's complement, in either byte order |
| WireLayout.RunBytes | rust/src/frb_generated.rs:3975-3984 | a text run is its tag, its text and its four switches in this order |
| WireLayout.LinkBytes | rust/src/frb_generated.rs:3565-3593 | the bytes of both kinds of link |
| WireLayout.TextBytes | rust/src/frb_generated.rs:3451-3509 | the bytes of a heading, a paragraph and a rule |
| WireLayout.LeafBytes | rust/src/frb_generated.rs:3451-3509 | the bytes of code blocks, with a language and without, and of an image |
| WireLayout.ContainerBytes | rust/src/frb_generated.rs:3451-3509 | the bytes of lists, items and quotes around a rule |
| WireLayout.SuggestionBytes | rust/src/frb_generated.rs:3451-3509 | the bytes of a suggestion, with a base and without |
| WireLayout.UnknownTags | rust/src/frb_generated.rs:1774-1853 | any other tag cannot be read |
| WireLayout.BadLengths | rust/src/frb_generated.rs:1687-1693 | nor can a negative length, a string longer than what is left, or bytes that are not UTF-8 |
| WireTheorems.NodeBack | rust/src/frb_generated.rs:3451-3509 | decoding an AST value's encoding followed by any bytes returns the value and exactly those bytes |
| WireTheorems.RoundTripsExactly | rust/src/frb_generated.rs:1774-1853 | if and only if all its vectors and strings are shorter than 2^31 and its heading levels are bytes |
| WireTheorems.DecodedNode | rust/src/frb_generated.rs:1774-1853 | whatever decodes is such a value |
| WireTheorems.DecodedAgain | rust/src/frb_generated.rs:1774-1853 | and decodes again from its own encoding |
| WireTheorems.Unambiguous | rust/src/frb_generated.rs:3451-3509 | no encoding begins another value's |
| WireCodec.Serializer.WriteInline | rust/src/frb_generated.rs:3565-3593 | appends an inline element's encoding |
| WireCodec.Serializer.WriteNode | rust/src/frb_generated.rs:3451-3509 | appends a node's encoding, through the mutual recursion |
| WireCodec.Serializer.WriteNodes | rust/src/frb_generated.rs:3703-3711 | length first, then each node |
| WireCodec.Serializer.WriteInlines | rust/src/frb_generated.rs:3723-3731 | likewise for inline elements |
| WireCodec.Deserializer.ReadInline | rust/src/frb_generated.rs:1926-1960 | reads what the specification decodes from the bytes left, and moves the cursor past exactly it |
| WireCodec.Deserializer.ReadNode | rust/src/frb_generated.rs:1774-1853 | likewise for a node |
| WireCodec.Deserializer.ReadNodes | rust/src/frb_generated.rs:2096-2106 | likewise for a vector of nodes |
| WireCodec.Deserializer.ReadInlines | rust/src/frb_generated.rs:2122-2134 | likewise for inline elements |
| WireCodec.Deserializer.ReadOptNodes | rust/src/frb_generated.rs:2343-2354 | likewise for an optional vector of nodes |
| WireCodec.SendAcross | rust/src/frb_generated.rs:2096-2106 | an AST written and read back is the AST, with no byte left over |
| Schema.Database.ExecuteSchema | rust/src/db/connection.rs:219-223 | a batch creates what is missing statement by statement and stops at the first failure |
| Schema.SchemaObjects | rust/src/db/schema.sql:59-287 | the batch leaves each of these tables, with exactly these columns where it was missing and as it was where it was there, and all three indexes |
| Schema.Database.RecoverVersionZero | rust/src/db/connection.rs:139-172 | a version-zero file that was barely begun, or has a notes table with the columns of either version, is brought to version 2; anything else, and any failure, leaves the database as it was |
| Schema.Database.MigrateV1 | rust/src/db/connection.rs:228-267 | version 1 is migrated wholly or not at all |
| Schema.Database.InitSchema | rust/src/db/connection.rs:116-132 | from versions 0 and 1 a run reaches the specified database or changes nothing, under any statement failure |
| Schema.InitializedMeans | rust/src/db/connection.rs:116-172 | a completed run from versions 0 and 1 is at version 2 with every schema object, every note and link row kept; from version 1, or a version-zero file with version 1's columns, every lookup key is folded from its title, otherwise every key is kept |
| Schema.SecondRun | rust/src/db/connection.rs:116-132 | a second run changes nothing |
| Schema.LaterVersionsKept | rust/src/db/connection.rs:116-132 | nor does a run on a later version with all its objects |
| Schema.VersionZeroRecognised | rust/src/db/connection.rs:139-172 | an undisturbed version-zero run succeeds if and only if every missing index of the other tables can be created and there is no notes table and at most the workspaces table, or notes has all eight columns of version 2, or all seven of version 1 and no lookup key |
| Schema.VersionOneMigrates | rust/src/db/connection.rs:228-267 | an undisturbed migration from version 1 succeeds if and only if the notes table has the columns it reads and not yet the one it adds, under the same condition |

## Left out

- CleanMaps.CleanStreamsAreCoherent: one direction; each limit has a source that goes wrong beyond it, but a condition on streams equivalent to a coherent map is not given, since some streams that drop text are coherent all the same.
- EditAlgebra.EditsCommute: each of the two edits is clear on its own; one that is not leaves a map that is not laid out, by `BufferedEdit.ClearOrMisplaced`.
- Builders.Parse: events with their ranges and texts, tags with classified link targets and fence infos are inputs; the Markdown parser that produces them, link classification and front matter's YAML are not modelled.
- IndexConnection.Connection.InsertNoteRows: a failure inside a caller's own transaction leaves what the statements before it wrote, as the source does; undoing it is the caller's rollback.
- IndexRuns.IndexNoteShows: the content hash is a function assumed injective, and deriving a note from its bytes is a given function; statistics refreshes, drafts, ranking and snippets are not modelled.
- CommitProtocol.CommittedMeans: blobs are their contents and modes; object storage, signatures, messages and reference logs are not modelled, and a commit is its tree, parent and time.
- GitIndex.IndexFile.Refresh: building an index file from the tree when none exists, stat data, flags other than intent-to-add and index extensions other than the tree cache are not modelled.
- WorkspaceTree.WorkspaceTreeOf: needs that no directory row has an empty id, without which the source's recursion does not end; scanned and incrementally written bundles are proved to have none. Case folding is a parameter.
- WireCodec.Deserializer.ReadNodes: a large positive length is read element by element; allocation failure before that is not modelled. A panic is a failed read.
- Schema.Database.InitSchema: for later versions the batch is not in a transaction, so a failure keeps the objects created before it; the contract says so. Full-text shadow tables are not modelled, and the columns of a row that no step reads are one value.
- A reparse after a buffered edit, `splice.rs`, session snapshots, workspace lifecycle and persistence, bootstrap and the sync scheduler.
- `git push`, `pull`, `clone` and their credentials and error classification; OAuth and key storage; the user interface and its generated wrappers.
- Aliasing between structures held in the builder's fields: the source owns them by value.
