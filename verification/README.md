# Scripture Forge: a verified model of its document conversions and real-time server

Scripture Forge edits Bible books that Paratext holds as USX, an XML format. This project models the code that
moves a book between its formats and the parts of the real-time server whose behaviour spans many steps, and proves
what that code is for.

- **USX and chapter deltas.** `DeltaUsxMapper` walks a book and writes one rich-text delta for each chapter; later it
  reads deltas back into nodes and splices them into the book. `ChapterWalk`, `DeltaReading` and `Splicing` say what
  each step does to the walk's state, the reader's stack and the document; `ChapterDeltas`, `DeltaReader` and
  `UsxSplicer` are the same code with its objects and loops, each method proved to do exactly that. `Grammar` says of
  what books are made and which runs of loose nodes (text, notes, verses and the like outside any paragraph) come back.
  `InlineRoundTrip`, `BlockRoundTrip`, `ImpliedRoundTrip`, `BlockEvents`, `SectionReading`, `OrderedMerge` and
  `BookRoundTrip` lead to the main theorem: a book taken apart and spliced together again is the same book exactly if
  what is replaced has only such runs. `VersePlaces` says which paragraphs may hold verses, `ValidityMarks` which ops
  are marked as invalid, `InsertedOps` what the walk only ever adds, `CompactDeltas` that no two of its ops could be
  one, `TableChildren` what it passes over, `NestedParas` what becomes of paragraphs in a note and `EditedDeltas` of ops
  that only an editor writes. `LastVerses` is about the verse number each delta carries, `StackHeight` about why reading
  does not throw, `UnstyledParas` about when the walk does, and `CounterExamples` has whole inputs on which the laws
  fail. `SegmentRuns`, `SegmentLabels`, `SegmentNames` and `References` say which ops carry which segment reference,
  when references are unique and how they are spelled and numbered.
- **USX and USJ.** `UsjConversion` and `UsjConverter` are the two converters. `UsxNormalisation` proves that USX to USJ
  and back is an explicit normalisation that loses no text but that of dropped milestones. `UsjIdentity` proves that
  USJ to USX and back is the identity exactly on normal forms. `UsjVocabulary` is about names, their order and the root.
- **The activity log.** `ActivityLogging` is the bounded queue with its asynchronous flush as a state machine over
  every interleaving. `ActivityRuns` proves what holds in every run, `ActivityLimits` how far the queue can grow, and
  `ActivityLogger` is the class.
- **The real-time server.** `QueryCheck` is the operator check of client queries, `OpValidator` the schema check of
  submitted ops, `Migrations` the paged migration runner.
- **The resource monitor.** `ResourceUsage` and `ResourceMonitor` are its keyed totals and its count of fetches in
  flight.

`Wrappers`, `Decimal`, `UsxNodes`, `Delta` and `UsjModel` hold shared data types, and `DecimalForm` says which strings
are integers. `dafny verify dfyconfig.toml` checks everything.

## How the model stands to the code

Code that changes things step by step is modelled twice: as a function from state to state, about which the theorems
are stated, and as methods on objects with the source's loops, each of whose contracts is such a function. The table
lists the theorems and, of the methods, the outermost: the methods beneath them, one for each step of the source, are
proved in the same way. What both forms use, such as which styles hold verses, which text is ignorable or which types a
value suits, is characterised by a theorem of its own, and the main theorems are stated by that characterisation. An
exception is a `None`, a `Fault` or a `Failure`.

Some things the proofs brought out:

- `ToUsx` indexes past its array when the last delta's number lies between two chapters of the book;
  `OrderedMerge.SplicingMerges` has the exact condition and `CounterExamples.OverrunBetweenChapters` an input.
- A line break or a chapter that carries a `char` while a table is open makes `ProcessDelta` throw, and so does the line
  break of another row's cell that carries two (`StackHeight.LineBreakAfterTable`, `StackHeight.ChapterAfterTable`,
  `StackHeight.CellAfterRow`, `CounterExamples.CellThenCharThrows`).
- A book does not always come back. The schema allows text, notes, verses and unmatched elements at the top level. A run
  of them that asks for no line break becomes the beginning of the next paragraph, any run before a table that of the
  first cell (if that is a `cell` element), and a run before the first chapter is put behind it. `RowEnded` hands back
  the nodes that follow a table, but two of its callers ignore them, so that a run is lost between a table and the first
  chapter, or at the end if it asks for no line break; text at the end of a run after a table puts the run before the
  table. `Grammar.RunStands` says which runs are left, and `BookRoundTrip.RoundTripExactly` that a book comes back
  exactly if every section that is replaced has no others. `CounterExamples.LooseAfterTableLost` and
  `CounterExamples.TextAfterTableSwapped` are books that do not.
- Loose nodes after a paragraph that may hold verse text carry on its reference, so that the ops with that reference are
  not contiguous; `SegmentLabels.DeltasAreLabelled` and `SegmentNames.SegmentsOfDelta` say exactly when that happens,
  and `SegmentLabels.LooseTextRepeats` shows it for any such paragraph and loose text.
- Names of attributes aside (see the end), the walk throws on a paragraph without a style where no reference is current,
  and nowhere else (`UnstyledParas.ThrowsExactly`, `UnstyledParas.UnstyledParaThrows`).
- The comment at `src/RealtimeServer/common/realtime-server.ts:639` says that the validator goes on with the next op.
  The `continue` there goes on with the next step of the same path, and so does a successful check: a path may go past
  a leaf and on to one of its siblings, any number of times. `OpValidator.AcceptedInParts` says exactly what is
  accepted, and `OpValidator.PathPastLeafAccepted` is an example.
- The activity log's limit bounds the entries that wait, not the notices: while writes fail, each further call leaves
  one more line (`ActivityLimits.QueueOutgrowsLimit`). `ActivityLimits.LimitExceededExactly` says which events exceed
  the limit, `ActivityLimits.QueueBoundedByFailures` by how much it can be exceeded, and
  `ActivityLimits.LimitExceededByFailures` that this much is reached.
- A collection whose stored version is above the target has its version set back while its documents stay as they
  are (`Migrations.Database.MigrateIfNecessary`, `Migrations.VersionSetBack`).
- Usage keys join names with `|`. With client identifiers that hold none, as ShareDB's are taken to, the keys of query
  runs are unambiguous; `ResourceUsage.SharedExactly` says of the other keys which ones are.
- The documentation of `ToChapterDeltas` promises a delta for each chapter. A chapter whose number is not an integer
  has none; `ToUsx` then leaves that chapter as it is.

## Model

| member | source | states |
|---|---|---|
| `BookRoundTrip.RoundTripExactly` | tools/Roundtrip/Program.cs:191-219 | For every book whose nodes are of the grammar, loose nodes anywhere, and whose chapter numbers rise: splicing the book's own deltas into it gives the book back node for node if and only if the first chapter has a number and every section that is numbered and valid has only runs of loose nodes that stand. The condition is read off the nodes and their validation results. |
| `BookRoundTrip.WholeBookRoundTrip` | tools/Roundtrip/Program.cs:191-219 | So a book whose runs all stand comes back, whatever validation says of its nodes. |
| `BookRoundTrip.ValidRoundTrip` | tools/Roundtrip/Program.cs:191-219 | And one without validation errors or misplaced verses comes back if and only if its first chapter has a number and its runs stand. |
| `BookRoundTrip.DeltasAccount` | src/SIL.XForge.Scripture/Services/DeltaUsxMapper.cs:204-318 | For every book of the grammar the walk succeeds, and each numbered section has a delta that is valid exactly if the section's nodes and, after the first chapter, the last `book` are (no validation error, and no verse anywhere below a `para` or `book` whose style is not a listed one, with or without a level digit, nor empty), has a book op exactly if the section has a `book`, and read on its own gives the section's nodes if its runs stand, and otherwise throws or gives no more nodes and not the same. |
| `VersePlaces.VerseStyles` | src/SIL.XForge.Scripture/Services/DeltaUsxMapper.cs:168-177 | A paragraph may hold verse text exactly if it has no style, an empty one, one of the listed paragraph, poetry and list styles, or one of these followed by one digit, where no listed style ends in a digit. |
| `VersePlaces.MisplacedVerses` | src/SIL.XForge.Scripture/Services/DeltaUsxMapper.cs:491-497 | A paragraph counts as misplacing a verse exactly if its style is none of these and a verse is among the nodes below it, at any depth. |
| `ValidityMarks.ChildMarks` | src/SIL.XForge.Scripture/Services/DeltaUsxMapper.cs:549-575 | For one top-level node of the grammar, in any state of the walk and with any validation results: the ends of blocks that it adds are marked as invalid in order exactly as the nodes say (a paragraph also for a misplaced verse, a cell also for its row and its table), and some inline op is marked exactly if an invalid inline element shows in one of its ops. |
| `BookRoundTrip.DeltasDescribeSections` | src/SIL.XForge.Scripture/Services/DeltaUsxMapper.cs:204-318 | In a book whose runs stand, each numbered section (introduction with the first chapter, then one per chapter) has a delta that, read on its own, gives exactly that section's nodes. |
| `BookRoundTrip.MergeWithItself` | src/SIL.XForge.Scripture/Services/DeltaUsxMapper.cs:582-679 | Merging a book with its own readable deltas never makes it longer, and leaves it as it was if and only if every section that is replaced comes back. |
| `SectionReading.SectionRead` | src/SIL.XForge.Scripture/Services/DeltaUsxMapper.cs:719-908 | For every section, from any point of the walk on: its delta is read as exactly its nodes if all its runs of loose nodes stand; if not, reading throws, or gives no more nodes than the section had, and not the same ones. |
| `SectionReading.ChildUnderway` | src/SIL.XForge.Scripture/Services/DeltaUsxMapper.cs:719-908 | One more top-level node, whatever waits before it: as long as the runs stand the reader has exactly the nodes so far, and once one does not, harm is done that no later node undoes. |
| `LastVerses.DeltasKnowLastVerse` | src/SIL.XForge.Scripture/Services/DeltaUsxMapper.cs:138-155 | For every book of the grammar, whether it comes back or not, each delta's last verse is the number of the last verse element of its section whose number can be read, notes left aside, and 0 without one. |
| `LastVerses.VerseNumberRead` | src/SIL.XForge.Scripture/Services/DeltaUsxMapper.cs:32-33 | What is captured of a verse number is exactly the run of digits, preceded by no digit, after which come no more than one letter or underscore and one line break: of a bridge the last number, without its letter. |
| `LastVerses.VerseSeenExactly` | src/SIL.XForge.Scripture/Services/DeltaUsxMapper.cs:138-155 | After a verse the last verse is the number captured, or the whole number attribute read as one if nothing is, or unchanged if that is no number. |
| `DecimalForm.ParsedExactly` | src/SIL.XForge.Scripture/Services/DeltaUsxMapper.cs:440-456 | A string is read as an integer exactly if it is white space, at most one sign, zeros, the digits of the number and white space, for a number of 32 bits. |
| `OrderedMerge.SplicingMerges` | src/SIL.XForge.Scripture/Services/DeltaUsxMapper.cs:582-679 | With rising numbers on both sides, for any deltas but none: a single empty delta leaves the book as it is; otherwise, with the first delta matching the first section, the index-driven splice equals an independently defined ordered merge, and succeeds exactly if every valid delta can be read and the last delta's number is a section's or above all of them, and else throws. |
| `OrderedMerge.EmptyDeltaKeepsBook` | src/SIL.XForge.Scripture/Services/DeltaUsxMapper.cs:591-610 | For every book whatsoever, with chapters or without, and whatever the delta's number and validity: a single delta without ops gives the book back. |
| `OrderedMerge.SpliceIsMerge` | src/SIL.XForge.Scripture/Services/DeltaUsxMapper.cs:611-671 | The same from the middle of the loop: what is left to splice, given the visited part of the current section, is the merge of what is left. |
| `OrderedMerge.SuccessReadsAll` | src/SIL.XForge.Scripture/Services/DeltaUsxMapper.cs:617-678 | From any point of the loop, a splice that succeeds has read every valid delta that was left, in whatever order the numbers are. |
| `CounterExamples.OverrunBetweenChapters` | src/SIL.XForge.Scripture/Services/DeltaUsxMapper.cs:631-639 | A book with chapters 1 and 3 and deltas for 1 and 2, whatever the deltas hold: `ToUsx` throws. |
| `InlineRoundTrip.InlinesRoundTrip` | src/SIL.XForge.Scripture/Services/DeltaUsxMapper.cs:365-391 | Text, refs, verses, embeds and `char` trees of any depth, flattened into ops and read back inside any surrounding formatting, come back as the same nodes; neighbouring `char` elements with equal attributes stay apart because each has an identifier of its own. |
| `InlineRoundTrip.CharRoundTrip` | src/SIL.XForge.Scripture/Services/DeltaUsxMapper.cs:740-760 | One `char` element, with or without children, is one element again on reading. |
| `InlineRoundTrip.ContentsRoundTrip` | src/SIL.XForge.Scripture/Services/DeltaUsxMapper.cs:886-893 | The delta inside a note or other embed describes the embed's children. |
| `InlineRoundTrip.RunChars` | src/SIL.XForge.Scripture/Services/DeltaUsxMapper.cs:735-760 | After reading any ops the open characters are those of the last op. |
| `DeltaReading.CharsClosedStops` | src/SIL.XForge.Scripture/Services/DeltaUsxMapper.cs:753-754 | Closing leaves the longest run of open characters that is outermost in the op's characters too. |
| `ImpliedRoundTrip.LooseNext` | src/SIL.XForge.Scripture/Services/DeltaUsxMapper.cs:293-312 | Text, verses, notes and other inline nodes at the top level are collected in order while they wait for a line break. |
| `ImpliedRoundTrip.ImpliedDone` | src/SIL.XForge.Scripture/Services/DeltaUsxMapper.cs:240-245 | The bare line break that ends loose nodes, whether it is an op of its own or merged into the text before it, puts them behind the blocks so far, in order, or, merged while a table is open, before that table. |
| `ImpliedRoundTrip.PendingFinished` | src/SIL.XForge.Scripture/Services/DeltaUsxMapper.cs:900-908 | At the end of a delta, loose nodes without a line break come last, but behind an open table they are lost. |
| `BlockEvents.ParaMeetsLoose` | src/SIL.XForge.Scripture/Services/DeltaUsxMapper.cs:235-262 | Loose nodes before a `para` or `book` stand before it if they asked for a line break, with that order changed only as said; otherwise they are no nodes of their own any more but the block's beginning. |
| `BlockEvents.TableJoined` | src/SIL.XForge.Scripture/Services/DeltaUsxMapper.cs:778-806 | Loose nodes before a table become the beginning of its first cell; if that is not a `cell` element, reading throws. |
| `BlockEvents.ChapterMeetsLoose` | src/SIL.XForge.Scripture/Services/DeltaUsxMapper.cs:867-877 | Loose nodes before the first chapter are dropped behind an open table, and otherwise wait on behind the chapter. |
| `BlockEvents.JoinedInlines` | src/SIL.XForge.Scripture/Services/DeltaUsxMapper.cs:365-391 | Loose nodes and the inline nodes that follow them are read as one list, also where the last of the ones and the first of the others run together into one op. |
| `CounterExamples.LooseAfterTableLost` | src/SIL.XForge.Scripture/Services/DeltaUsxMapper.cs:867-873 | For every table, loose node and first chapter in this order, the book made of them comes back without the loose node. |
| `CounterExamples.TextAfterTableSwapped` | src/SIL.XForge.Scripture/Services/DeltaUsxMapper.cs:808-825 | For every table and text in this order, the book made of them comes back with the text in front. |
| `BlockRoundTrip.ParaRoundTrip` | src/SIL.XForge.Scripture/Services/DeltaUsxMapper.cs:833-839 | A `para` or `book`, with whatever was open before it, is read back as one block after the earlier ones. |
| `BlockRoundTrip.CellRoundTrip` | src/SIL.XForge.Scripture/Services/DeltaUsxMapper.cs:778-806 | A cell is read back into the row its numbers name, whether it continues a row, starts a row or starts a table after other blocks or another table. |
| `BlockRoundTrip.RowsRoundTrip` | src/SIL.XForge.Scripture/Services/DeltaUsxMapper.cs:793-797 | The rows of a table come back in order, each with its own cells. |
| `BlockRoundTrip.TableRoundTrip` | src/SIL.XForge.Scripture/Services/DeltaUsxMapper.cs:393-422 | A table, also directly after another one, is read back as one more block. |
| `NestedParas.NestedParasRoundTrip` | src/SIL.XForge.Scripture/Services/DeltaUsxMapper.cs:348-352 | Paragraphs inside a note or other embed, each with inline nodes, come back as these paragraphs, in order. |
| `TableChildren.TextBetweenCells` | src/SIL.XForge.Scripture/Services/DeltaUsxMapper.cs:399-418 | Text between the cells of a row changes nothing, not even the numbers of the cells. |
| `TableChildren.NodesBetweenRows` | src/SIL.XForge.Scripture/Services/DeltaUsxMapper.cs:399-420 | Nor does anything between rows change anything. |
| `EditedDeltas.ParagraphsRead` | src/SIL.XForge.Scripture/Services/DeltaUsxMapper.cs:833-839 | An op with several line breaks of a paragraph, which an editor writes, gives that many copies of it, each with everything that waited. |
| `EditedDeltas.ImpliedParagraphRead` | src/SIL.XForge.Scripture/Services/DeltaUsxMapper.cs:808-825 | Plain text that ends in a line break, however many it holds, is one text without any and closes what waited as an implied paragraph. |
| `EditedDeltas.BreaksRemoved` | src/SIL.XForge.Scripture/Services/DeltaUsxMapper.cs:810-816 | Exactly its line breaks go. |
| `EditedDeltas.RowlessCellThrows` | src/SIL.XForge.Scripture/Services/DeltaUsxMapper.cs:783-797 | While a table is open, a cell that names no row makes reading throw, and so does any cell after one that named none. |
| `StackHeight.RunHeight` | src/SIL.XForge.Scripture/Services/DeltaUsxMapper.cs:728-806 | After every op of a delta whose line breaks and chapters carry no `char` and whose cells name table, row and cell, the stack of unfinished lists is as high as the open characters plus three with a table open and one otherwise. |
| `StackHeight.ReadingSucceeds` | src/SIL.XForge.Scripture/Services/DeltaUsxMapper.cs:868-908 | Such a delta can always be read: no pop of an empty stack and no table in a wrong place, in the delta or in any embed. |
| `StackHeight.LineBreakAfterTable` | src/SIL.XForge.Scripture/Services/DeltaUsxMapper.cs:991-1004 | A delta that leaves a table open, followed by a line break outside the table, cannot be read, whatever comes after it, if the line break carries a `char`; it can be read if not. |
| `StackHeight.ChapterAfterTable` | src/SIL.XForge.Scripture/Services/DeltaUsxMapper.cs:867-877 | The same for a chapter. |
| `StackHeight.CellAfterRow` | src/SIL.XForge.Scripture/Services/DeltaUsxMapper.cs:787-806 | The line break of another row's cell makes the delta unreadable if it carries two `char`s, and leaves it readable if none. |
| `UnstyledParas.ThrowsExactly` | src/SIL.XForge.Scripture/Services/DeltaUsxMapper.cs:246-264 | For every list of nodes whatsoever, and names of attributes aside, the walk throws if and only if some top-level `para` or `book` without a style stands where no reference is current, which is read off the nodes. |
| `UnstyledParas.StyledNeverThrows` | src/SIL.XForge.Scripture/Services/DeltaUsxMapper.cs:246-264 | With a style on each of them there is no such place. |
| `UnstyledParas.UnstyledParaThrows` | src/SIL.XForge.Scripture/Services/DeltaUsxMapper.cs:535-540 | The book of one paragraph without a style makes the walk throw. |
| `CounterExamples.CellThenCharThrows` | src/SIL.XForge.Scripture/Services/DeltaUsxMapper.cs:768-773 | A delta of one cell can be read; followed by a line break with a `char` it cannot. |
| `SegmentLabels.DeltasAreLabelled` | src/SIL.XForge.Scripture/Services/DeltaUsxMapper.cs:246-264 | For every book of the grammar, and every section of it that comes back: the runs of ops of the section's delta are the references the section issues, one each and in that order, if each run of loose nodes begins where no reference is current; if not, there are more runs than references and some reference has two. A blank stands alone in either case. |
| `SegmentLabels.LooseTextRepeats` | src/SIL.XForge.Scripture/Services/DeltaUsxMapper.cs:293-312 | For every paragraph that may hold verse text and every loose text, verse or note after it, the delta of the book made of the two has two runs with one reference. |
| `SegmentRuns.InlinesSegments` | src/SIL.XForge.Scripture/Services/DeltaUsxMapper.cs:506-532 | Within a segment every op carries the current reference, each verse starts the next one, and a segment that received nothing is given a blank. |
| `References.CellsNumbered` | src/SIL.XForge.Scripture/Services/DeltaUsxMapper.cs:393-420 | The references that a table issues for cells are exactly those with the table's number in the book, one more than before it, and each cell's row and place, both from one on. |
| `References.ParagraphsNumbered` | src/SIL.XForge.Scripture/Services/DeltaUsxMapper.cs:534-539 | In a section the paragraphs of each key are numbered from one on, in order. |
| `References.CellSpelled` | src/SIL.XForge.Scripture/Services/DeltaUsxMapper.cs:396-404 | Taken apart, a cell's reference is the word and the numbers of table, row and cell, in this order; so are the identifiers of tables and rows. |
| `References.ParaSpelled` | src/SIL.XForge.Scripture/Services/DeltaUsxMapper.cs:246-264 | Taken apart, a paragraph's reference is the style and the number, behind a slash and the reference it continues if there is one. |
| `References.VerseSpelled` | src/SIL.XForge.Scripture/Services/DeltaUsxMapper.cs:458-464 | A verse makes a reference current that, taken apart, is the word, the chapter and the number of the verse, either of which may be missing. |
| `SegmentNames.RefInjective` | src/SIL.XForge.Scripture/Services/DeltaUsxMapper.cs:534-539 | References of different paragraphs, verses and cells are different strings when styles and chapter numbers contain neither `_` nor `/` and verse numbers no `/`. |
| `SegmentNames.ReferencesDistinct` | src/SIL.XForge.Scripture/Services/DeltaUsxMapper.cs:246-264 | The references of a section are pairwise distinct exactly when its verses are. |
| `SegmentNames.SegmentsOfDelta` | src/SIL.XForge.Scripture/Services/DeltaUsxMapper.cs:503-534 | In the delta of a section that comes back, with distinct verses, the ops with one reference are contiguous for every reference if and only if each run of loose nodes begins where no reference is current; then a `blank` is the only op with its reference. |
| `RichText.Delta.Insert` | src/SIL.XForge/Realtime/RichText/Delta.cs:270-320 | Appends an op, drops empty text, and merges text into a last text op with equal attributes. |
| `CompactDeltas.AppendedUnits` | src/SIL.XForge/Realtime/RichText/Delta.cs:270-320 | Inserting an op adds what it says, character by character with its formatting, at the end of what the delta says, whether it is dropped, merged or added. |
| `CompactDeltas.CompactUnique` | src/SIL.XForge/Realtime/RichText/Delta.cs:270-320 | A delta without empty texts and without neighbouring texts of equal formatting is determined by what it says. |
| `CompactDeltas.DeltasCompact` | src/SIL.XForge.Scripture/Services/DeltaUsxMapper.cs:204-318 | For every list of nodes whatsoever, each chapter delta of the book is of that kind. |
| `ChapterDeltas.BuildChapterDeltas` | src/SIL.XForge.Scripture/Services/DeltaUsxMapper.cs:204-318 | The whole walk, with its classes and loops, computes the chapter deltas that the theorems speak of. |
| `DeltaReader.ReadDelta` | src/SIL.XForge.Scripture/Services/DeltaUsxMapper.cs:719-908 | The reading loop over stack and lists computes the reading function of the theorems, and fails exactly where that faults. |
| `UsxSplicer.ApplyDeltas` | src/SIL.XForge.Scripture/Services/DeltaUsxMapper.cs:582-697 | The editing loop over a copied document computes the splice of the theorems. |
| `UsxNormalisation.UsxComesBackNormal` | src/SIL.Converters.Usj/UsxToUsj.cs:87-220 | USX to USJ to USX is, for every document, an explicit normalisation under a fresh version 3.0 root; it throws exactly when some attribute is called `content` in any case. |
| `UsxNormalisation.ElementNormal` | src/SIL.Converters.Usj/UsjToUsx.cs:98-177 | The same for one element, and it is left out exactly if it is a verse or chapter with an `eid`. |
| `UsxNormalisation.ConvertedIffReadable` | src/SIL.Converters.Usj/UsxToUsj.cs:129-146 | Conversion of an element fails exactly on an attribute called `content` in it or below it. |
| `UsxNormalisation.IgnorableExactly` | src/SIL.Converters.Usj/UsxToUsj.cs:83-85 | Text is ignorable exactly if all its characters are tabulators, line feeds, carriage returns and blanks and it is not a single blank. |
| `UsxNormalisation.NormalKeepsWords` | src/SIL.Converters.Usj/UsxToUsj.cs:148-188 | With no adjacent text nodes, normalising keeps, in order, every text that holds any other character than these, and every single blank that is text, also after a dropped milestone; only text inside dropped elements goes. |
| `UsxNormalisation.AttributesNormal` | src/SIL.Converters.Usj/UsjToUsx.cs:98-135 | Attributes come back as the known ones in a fixed order followed by the unknown ones; `vid` and `status` are gone. |
| `UsjIdentity.UsjComesBack` | src/SIL.Converters.Usj/UsjToUsx.cs:78-92 | USJ to USX to USJ is the identity exactly on documents of type USJ 3.1 without extension data whose contents are in normal form. |
| `UsjIdentity.MarkerComesBack` | src/SIL.Converters.Usj/UsxToUsj.cs:87-203 | A marker comes back exactly if its type, extension data and contents are normal. |
| `UsjIdentity.ItemsComeBack` | src/SIL.Converters.Usj/UsxToUsj.cs:148-194 | A list comes back exactly if no string is ignorable in front or follows another string, and no marker is an end of verse or chapter. |
| `UsjIdentity.AttributesComeBack` | src/SIL.Converters.Usj/UsjToUsx.cs:98-135 | Type, marker, properties and extension data survive exactly if the type is prefixed as a table part should be and the extension data are strings under names that are neither properties nor dropped. |
| `UsjIdentity.TypeComesBack` | src/SIL.Converters.Usj/UsjToUsx.cs:157-157 | Removing and restoring the table prefix is the identity exactly on row and cell with it and everything else without it. |
| `UsjIdentity.AttributesUnique` | src/SIL.Converters.Usj/UsjToUsx.cs:116-136 | No attribute is written twice. |
| `UsjVocabulary.AttributeOf` | src/SIL.Converters.Usj/UsjToUsx.cs:98-135 | For every name, what attribute an element gets: a string of the extension data under that name (but `type`, `marker` and `content`) counts most, then the property or marker of that name, and else there is none. |
| `UsjVocabulary.AttributesInOrder` | src/SIL.Converters.Usj/UsjToUsx.cs:100-114 | The order in which a marker that has every property writes them, name by name. |
| `UsjVocabulary.TypeGiven` | src/SIL.Converters.Usj/UsxToUsj.cs:87-146 | An element's type in USJ is what the last attribute called `type` in any case says, or else its name, with the table prefix for rows and cells alone. |
| `UsjVocabulary.LowerExactly` | src/SIL.Converters.Usj/UsxToUsj.cs:129-146 | Property names are compared in lower case, letter by letter of the alphabet. |
| `UsjVocabulary.StripFrom` | src/SIL.Converters.Usj/UsjToUsx.cs:157-157 | From a type the table prefix is removed where it first occurs and then from what is behind it. |
| `UsjVocabulary.RootKept` | src/SIL.Converters.Usj/UsxToUsj.cs:205-220 | Whatever the root is called, the document is USJ 3.1; its extension data are the root's attributes but type, version and the dropped ones; its contents are null exactly if there are none and the root is not of type `usx`. |
| `UsjConverter.ConvertDocument` | src/SIL.Converters.Usj/UsxToUsj.cs:205-220 | The same for the root, or for no document. |
| `UsjConverter.ConvertUsj` | src/SIL.Converters.Usj/UsjToUsx.cs:78-92 | The whole conversion back. |
| `ActivityRuns.EveryRun` | src/RealtimeServer/common/activity-logger.ts:86-145 | In every interleaving of log calls, completions and failures: one flush at most; file followed by queue holds the accepted entries in order; accepted entries, noticed drops and unnoticed drops add up to the calls; the queue holds at most 10000 entries; an idle logger whose last flush succeeded holds nothing but the count of unserialisable entries since. |
| `ActivityRuns.LinesOnlyGrow` | src/RealtimeServer/common/activity-logger.ts:118-121 | Between any two moments of a run the file, and the file followed by the queue, are only extended at the end. |
| `ActivityRuns.AcceptedOnce` | src/RealtimeServer/common/activity-logger.ts:94-98 | A call's entry is in file or queue exactly if the call was accepted, and then once. |
| `ActivityRuns.FlushDrains` | src/RealtimeServer/common/activity-logger.ts:115-122 | With no more calls and no failure, what is under way ends idle with every line in the file. |
| `ActivityLimits.QueueOutgrowsLimit` | src/RealtimeServer/common/activity-logger.ts:135-145 | For any number of calls, each of which finds writing to fail, there is one more line in the queue: the limit does not bound the notices. |
| `ActivityLimits.LimitExceededExactly` | src/RealtimeServer/common/activity-logger.ts:94-117 | In every run, a queue within its limit exceeds it at the next event exactly if that is a serialisable call that starts a flush, with the directory made, while the queue is full or would be with the call's entry and a drop is unnoticed, or the making of the directory for a full queue with an unnoticed drop. |
| `ActivityLimits.QueueBoundedByFailures` | src/RealtimeServer/common/activity-logger.ts:115-128 | In every run the queue holds at most the limit, one line for each flush that failed since lines were last written, and one more. |
| `ActivityLimits.LimitExceededByFailures` | src/RealtimeServer/common/activity-logger.ts:94-128 | For any number of failed flushes there is a run in which the queue holds exactly that many lines. |
| `ActivityLogger.Perform` | src/RealtimeServer/common/activity-logger.ts:86-130 | Any next event keeps the object on a run of the state machine, and so in the invariant. |
| `QueryCheck.PassesIffAllAllowed` | src/RealtimeServer/common/realtime-server.ts:47-95 | A query passes exactly when, along every path into it, each operator is in the set allowed where it stands; what a value is, query, list of queries, condition or neither, follows from the path. |
| `QueryCheck.RefusalNamesFirst` | src/RealtimeServer/common/realtime-server.ts:47-95 | A refusal names an operator that occurs, is not allowed there, and is the first such in document order. |
| `QueryCheck.ExistenceQueryShape` | src/RealtimeServer/common/realtime-server.ts:101-127 | The existence query is recognised exactly in its one shape, in any order of members. |
| `QueryCheck.ExistenceQueryPasses` | src/RealtimeServer/common/realtime-server.ts:101-127 | Every existence query passes the operator check. |
| `OpValidator.ScanMeaning` | src/RealtimeServer/common/realtime-server.ts:565-708 | For every schema and path: a path that does not go past a leaf is accepted exactly when the recursive resolver finds a schema for it that admits the value; one that does resolves to nothing, and is accepted when the leaf admits the value and the rest is accepted among the leaf's siblings. |
| `OpValidator.FitsExactly` | src/RealtimeServer/common/realtime-server.ts:645-702 | The check of a value says exactly whether the schema admits what the op puts in place: the value of `li`, without it that of `oi`, without either that of `na`. A value suits the types of its kind, five for numbers; for strings an enumeration decides alone and else a pattern; an object schema asks the library; a type that is not known admits all. |
| `OpValidator.TypeAdmits` | src/RealtimeServer/common/realtime-server.ts:670-702 | A schema of one such type, without pattern and enumeration, admits just the values of that kind. |
| `OpValidator.AcceptedInParts` | src/RealtimeServer/common/realtime-server.ts:565-708 | A path is accepted if and only if it is empty or made of parts: each but the last leads to a leaf, the next one starts among that leaf's siblings, the last leads to some schema, and what each of them leads to admits the value. |
| `OpValidator.PathPastLeafAccepted` | src/RealtimeServer/common/realtime-server.ts:616-641 | A concrete path that leads nowhere and is accepted. |
| `OpValidator.ValidateOp` | src/RealtimeServer/common/realtime-server.ts:565-708 | The loop accepts an op whose path does not go past a leaf exactly if the path leads to a schema and that admits the value. |
| `OpValidator.ValidateOps` | src/RealtimeServer/common/realtime-server.ts:561-708 | A list is accepted exactly when each of its ops is. |
| `Migrations.CheckedList` | src/RealtimeServer/common/migration.ts:42-53 | Returns the list exactly if versions count up from one and each name has its version's digits at some place, and otherwise points at the first offender. |
| `Migrations.DocService.constructor` | src/RealtimeServer/common/services/doc-service.ts:63-70 | A list that passed is registered gaplessly, and its length is the schema version. |
| `Migrations.NothingMissing` | src/RealtimeServer/common/services/doc-service.ts:87-93 | With a well-numbered list registered every due migration is found, so that a collection's migration succeeds exactly if no document refuses one. |
| `Migrations.NewCollection` | src/RealtimeServer/common/realtime-server.ts:920-927 | A collection for which no version is stored gets, in each document, the migrations from version one to the target, in order. |
| `Migrations.Database.MigratePage` | src/RealtimeServer/common/realtime-server.ts:939-948 | One migration of a page: whatever the order of completion, each document of the page that accepts it receives it once, and no other. |
| `Migrations.Database.MigrateCollection` | src/RealtimeServer/common/realtime-server.ts:928-962 | Paging ends; it succeeds exactly if every document accepts every due migration, and then each has received those from the stored version plus one to the target once and in order; otherwise each has received a first part of them. |
| `Migrations.Database.MigrateIfNecessary` | src/RealtimeServer/common/realtime-server.ts:914-968 | Collections are done one by one up to the first failure; a stored version is the target only where all documents are done, and nothing else is touched. |
| `ResourceUsage.UsageConserved` | src/RealtimeServer/common/resource-monitor.ts:693-760 | In every run of records and reports, for every key: the rows reported and the one still held add up, figure by figure, to the number of events recorded with that key and the plain sums of their documents, bytes and milliseconds, and the largest size over the rows is that over the events. |
| `ResourceUsage.ReportsAreWindows` | src/RealtimeServer/common/resource-monitor.ts:693-760 | Each report has a row for exactly the keys that were recorded since the report before it, with the number of the key's events, the plain sums of what they measured, and the largest size, which one of them has and none exceeds; what is held is the same of the open window. |
| `ResourceUsage.WindowsHoldAll` | src/RealtimeServer/common/resource-monitor.ts:711-757 | The windows together hold every recorded event once and in order. |
| `ResourceUsage.TwoPartKeysDiffer` | src/RealtimeServer/common/resource-monitor.ts:583-583 | With client identifiers free of the separator, keys of query runs tell client and collection apart, whatever the collection is called. |
| `ResourceUsage.PlainKeysDiffer` | src/RealtimeServer/common/resource-monitor.ts:526-526 | With the collection's name free of it as well, keys with a third part tell all three apart. |
| `ResourceUsage.SharedExactly` | src/RealtimeServer/common/resource-monitor.ts:526-526 | For a client identifier free of the separator, a row with a third part can be shared with another event of such a client exactly if its collection or third part holds a separator. |
| `ResourceMonitor.Monitor.BeginFetchOperation` | src/RealtimeServer/common/resource-monitor.ts:488-509 | The count stays the number of fetches in flight. |
| `ResourceMonitor.Monitor.EndFetchOperation` | src/RealtimeServer/common/resource-monitor.ts:617-625 | The count stays the number of fetches in flight, so the clamp at zero never acts; an unknown operation changes nothing. |
| `Migrations.VersionSetBack` | src/RealtimeServer/common/realtime-server.ts:927-962 | With a target below the stored version, being done means that the documents are as they were. |
| `ResourceMonitor.Monitor.RecordSnapshotRead` | src/RealtimeServer/common/resource-monitor.ts:517-534 | If enabled, a run of the table of reads goes on with one more read, of so many documents and the plain sum of their bytes. |
| `ResourceMonitor.Monitor.RecordOpLoaded` | src/RealtimeServer/common/resource-monitor.ts:551-571 | The same for an op and its size, which may be the largest. |
| `ResourceMonitor.Monitor.RecordQueryRun` | src/RealtimeServer/common/resource-monitor.ts:581-590 | The same for a query. |
| `ResourceMonitor.Monitor.RecordQueryPolled` | src/RealtimeServer/common/resource-monitor.ts:598-615 | The same for a poll and its duration. |
| `ResourceMonitor.Monitor.RecordUsageDiagnostics` | src/RealtimeServer/common/resource-monitor.ts:693-760 | The runs of all four tables go on with a report. |

## Left out

- Schema validation is a library call. Its results are givens of every document: a flag on each element and one on
  each top-level node. A text node that is reported on its own is not modelled, nor is `IsDeltaValid`.
- BookRoundTrip.RoundTripExactly: speaks of books whose integer chapter numbers rise; with others, which delta replaces
  which section depends on their order, as in `OrderedMerge.SplicingMerges`.
- SegmentLabels.DeltasAreLabelled: speaks of sections that come back; a verse just before a table or the first chapter
  may have no op at all.
- The grammar has no `id`, `invalid` or `contents` attributes and no `cid` on a `char`: the mapper uses those names
  itself. Rows carry `style="tr"` alone, as the schema demands.
- ChapterDeltas.BuildChapterDeltas: does not throw, as the source does, where an attribute has a name that the mapper
  adds, `id` on a table or `contents` on an element with children.
- ResourceUsage.UsageConserved: durations are real numbers, whose sums do not depend on the order in which windows are
  added; JavaScript's floating-point sums do.
- Delta attributes are one record instead of an open JSON object. Several properties on one op are read in a fixed
  order, a property holding null counts as absent, and values that are not strings, retain and delete ops, XML
  namespaces and the order of XML attributes are left out of the delta part.
- Digits and letters at the end of a style or a verse number are ASCII.
- Identifiers from the guid service are successive numbers, so that no two are equal; so are the identifiers of fetch
  operations.
- Exceptions of `ToUsx` other than those for no deltas and for an invalid first chapter are one error; messages,
  logging and reporting are left out.
- The USJ objects are values once they are complete; drafts under construction are objects. Comments, processing
  instructions, names that XML does not allow, the `XDocument` form of the conversion and JSON reading and writing are
  left out. Upper case means ASCII upper case.
- The text of log lines, timestamps and process numbers are left out; a line is the number of its call or its count.
  An append is atomic.
- Member names that JavaScript objects inherit, pattern properties, regular expressions and Ajv are left out of the
  op validator; matching a pattern and conforming to a schema are parameters.
- A query's members come in the order in which they are enumerated. The rules that decide who may run a query are left
  out.
- Documents neither appear nor go during a migration, and what a migration does to a document is its entry in the
  document's history. After a failure, the documents of the page that accept the migration still receive it.
- The order of rows in a usage report and the user recorded with a row are left out, as are the heap, connection, agent
  and pubsub measurements.
- UsjIdentity.UsjComesBack: speaks of markers whose properties are the known ones and whose extension data have one
  value per name, because a dictionary has no other.
- SegmentNames.ReferencesDistinct: asks for styles and chapter numbers without `_` and `/` and verse numbers without
  `/`, because references are joined with these.
- Access rules, authentication, synchronisation with Paratext, drafting, the web client and all other services are left
  out: they are plumbing around the code modelled here or calls to services that cannot be seen.
