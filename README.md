# RedReader markdown: block-level parse and table cells

This project models the block-level half of RedReader's comment markdown
renderer in Dafny. The renderer lives in the package
`org.quantumbadger.redreader.reddit.prepared.markdown`.

- **`MarkdownParser.parse`**: takes lines that are already classified and
  merges them into paragraphs. Soft-wrapped TEXT lines are joined. A line
  with two trailing spaces ends its paragraph. An EMPTY line flushes the
  accumulator, and a block line (bullet, quote, header ...) starts a new
  paragraph. A TABLE_DELIMITER line under an accumulator that passes
  `isValidTableDelimiter` turns into a whole table at once. The accumulator
  is the header and the following lines that contain a pipe are the rows.
  Each merged line is then tokenized with the last kept paragraph as its
  parent.
- **`isValidTableDelimiter` and `countCharInString`**: the delimiter test,
  and proofs of the test cases of `MarkdownParserTest.testTableRegex`.
- **`MarkdownTableLine`**: the table line and its shared, mutable
  `List<Integer>` of row ends (`RowEndList`, a class). Modelled members are
  its three constructors, `createTable`, `normalizeTable`,
  `getRowEndIndices` and `tokenize`.
- **`MarkdownParagraphGroup`**: `getGravity`, the column alignment read from
  the delimiter row. Also the string work the TABLE case of the view builder
  does before it creates any view: it cuts the header, delimiter and body
  rows out of the table's text by the row ends, strips the outer pipes,
  splits on `|`, and trims the cells.

Files and modules:

- `wrappers.dfy`: `Option`.
- `span.dfy` (`Spans`): `CharArrSubstring` as a view `Span(arr, start, length)`
  of a shared buffer.
- `java_strings.dfy` (`JavaStrings`): `String.contains`, `trim`, and `split`
  on a one-character pattern, with their laws.
- `markdown_line.dfy` (`MarkdownLines`): the line and paragraph records.
- `markdown_table_line.dfy` (`MarkdownTableLines`): `MarkdownTableLine`.
- `markdown_parser.dfy` (`MarkdownParser`): the merge machine. `Step`, `Run`
  and `Merge` are its reference definition, and the imperative
  `MergeLines`, `BuildTable`, `TakeTableRows` and `Parse` are proved equal to
  it.
- `markdown_parser_test.dfy` (`MarkdownParserTest`): the delimiter test cases.
- `markdown_paragraph_group.dfy` (`MarkdownParagraphGroup`): alignment and
  cell splitting. The functions `Alignment` and `TableOf` are the reference
  definitions, and the methods `GetGravity`, `SplitTable`, `BodyRows`,
  `BodyRow`, `HeaderCells` and `FillCells` follow the source's loops and are
  proved equal to them.

Java exceptions are modelled as the result `None`. The cases are:

- `charAt` on an empty string;
- `List.get` past the end;
- a `CharArrSubstring` view that leaves its buffer.

Different exceptions are not told apart.

Behaviour of `parse` that a reader may not expect, modelled as the code
has it:

- A normalised table of N body rows holds N + 4 row ends:
  - the header's start (0) and end;
  - the delimiter's end;
  - one end per body row;
  - then the table's absolute end. The two-argument constructor appends
    this last one without shifting it.
- A TABLE_DELIMITER line with no accumulator starts an ordinary paragraph
  of that type.
- A TEXT line, or a failing delimiter, that follows a TABLE_DELIMITER or
  TABLE line is dropped. The inner `switch` has no case for that previous
  type.
- A TABLE-typed input line under an accumulator is dropped.
- The lookahead never takes the last input line as a body row. The line
  after the last row is skipped, including when it is the last line.

## Model

| member | source | states |
|---|---|---|
| Spans.RejoinLossless | src/main/java/org/quantumbadger/redreader/reddit/prepared/markdown/MarkdownTableLine.java:50 | rejoining two views of one buffer covers the first view, every character between them and the second view, with nothing copied in or lost |
| Spans.SubstringFromText | src/main/java/org/quantumbadger/redreader/reddit/prepared/markdown/MarkdownTableLine.java:70 | `substring(prefixLength)` is the view's text without its first `prefixLength` characters |
| JavaStrings.TrimStartShape | src/main/java/org/quantumbadger/redreader/reddit/prepared/markdown/MarkdownParagraphGroup.java:322 | dropping leading characters `<= ' '` leaves a suffix that is not itself trimmable at its head, and everything dropped is trimmable |
| JavaStrings.TrimEndShape | src/main/java/org/quantumbadger/redreader/reddit/prepared/markdown/MarkdownParagraphGroup.java:322 | the same at the tail: a prefix is left, everything dropped is trimmable |
| JavaStrings.Trim | src/main/java/org/quantumbadger/redreader/reddit/prepared/markdown/MarkdownParagraphGroup.java:322 | `trim` drops characters from the ends only: the result is no longer than the input, and when it is not empty neither its first nor its last character is `<= ' '` |
| JavaStrings.TrimShape | src/main/java/org/quantumbadger/redreader/reddit/prepared/markdown/MarkdownParagraphGroup.java:246 | `trim` returns a slice of its input, everything outside the slice is trimmable, and neither end of the slice is |
| JavaStrings.TrimIdempotent | src/main/java/org/quantumbadger/redreader/reddit/prepared/markdown/MarkdownParagraphGroup.java:203-205 | trimming twice, as the header code does, is trimming once |
| JavaStrings.TrimNoop | src/main/java/org/quantumbadger/redreader/reddit/prepared/markdown/MarkdownParagraphGroup.java:331 | a string with non-trimmable ends is left as it is |
| JavaStrings.SplitAll | src/main/java/org/quantumbadger/redreader/reddit/prepared/markdown/MarkdownParser.java:151 | cutting at every separator gives at least one piece, and no piece holds the separator |
| JavaStrings.JoinPrepend | src/main/java/org/quantumbadger/redreader/reddit/prepared/markdown/MarkdownParser.java:151 | joining a piece in front of the rest puts exactly one separator between it and the join of the rest |
| JavaStrings.JoinSplit | src/main/java/org/quantumbadger/redreader/reddit/prepared/markdown/MarkdownParser.java:151 | joining the pieces of a cut with the separator gives back the original string |
| JavaStrings.SplitJoin | src/main/java/org/quantumbadger/redreader/reddit/prepared/markdown/MarkdownParser.java:151 | cutting a join of separator-free pieces gives back exactly those pieces |
| JavaStrings.SplitFree | src/main/java/org/quantumbadger/redreader/reddit/prepared/markdown/MarkdownParser.java:151 | a string without the separator is a single piece |
| JavaStrings.SplitAfterFree | src/main/java/org/quantumbadger/redreader/reddit/prepared/markdown/MarkdownParser.java:151 | a separator-free head followed by the separator becomes the first piece, and the rest is cut as before |
| JavaStrings.DropTrailingEmptyShape | src/main/java/org/quantumbadger/redreader/reddit/prepared/markdown/MarkdownParser.java:151 | `split` with no limit keeps a prefix of the pieces that does not end with an empty piece, and drops only empty pieces |
| JavaStrings.JavaSplit | src/main/java/org/quantumbadger/redreader/reddit/prepared/markdown/MarkdownParser.java:151 | `split` on the pipe returns pieces that hold no pipe and, when the input holds a pipe, do not end with an empty piece; JavaSplitPrefix relates them to the full cut |
| JavaStrings.JavaSplitPrefix | src/main/java/org/quantumbadger/redreader/reddit/prepared/markdown/MarkdownParser.java:151 | splitting on the pipe returns the leading pieces of the full cut, everything it leaves out is empty, and no piece holds a pipe |
| JavaStrings.NotContainsPair | src/main/java/org/quantumbadger/redreader/reddit/prepared/markdown/MarkdownParser.java:143 | `contains` of a two-character pattern is false when no adjacent pair spells it |
| JavaStrings.NotContainsTriple | src/main/java/org/quantumbadger/redreader/reddit/prepared/markdown/MarkdownParser.java:145 | `contains` of a three-character pattern is false when no window of three spells it |
| MarkdownLines.CleanedSourceText | src/main/java/org/quantumbadger/redreader/reddit/prepared/markdown/MarkdownTableLine.java:70 | the cleaned source is the line's text without its block prefix and ends where the line ends, whichever branch of the conditional is taken |
| MarkdownLines.RejoinText | src/main/java/org/quantumbadger/redreader/reddit/prepared/markdown/MarkdownParser.java:105 | a soft-wrapped join keeps the first line, the line break between the lines and the second line, and createTable's span is that same span |
| MarkdownTableLines.RowEndList.Add | src/main/java/org/quantumbadger/redreader/reddit/prepared/markdown/MarkdownTableLine.java:49 | `List.add` appends at the end and changes nothing else |
| MarkdownTableLines.Shifted | src/main/java/org/quantumbadger/redreader/reddit/prepared/markdown/MarkdownTableLine.java:57-59 | one entry per entry given, each less the base, in order |
| MarkdownTableLines.Normalized | src/main/java/org/quantumbadger/redreader/reddit/prepared/markdown/MarkdownTableLine.java:54-61 | the normalised row ends: one entry more than the list, starting at 0 and ending with the given unshifted end |
| MarkdownTableLines.NormalizedShape | src/main/java/org/quantumbadger/redreader/reddit/prepared/markdown/MarkdownTableLine.java:54-61 | normalizeTable's list starts at 0, keeps every gap between neighbouring entries, and has one extra final entry: the table's end, unshifted |
| MarkdownTableLines.AppendedOne | src/main/java/org/quantumbadger/redreader/reddit/prepared/markdown/MarkdownTableLine.java:48-52 | appending one more line rejoins the table once more and adds that line's end to the list |
| MarkdownTableLines.EndsShape | src/main/java/org/quantumbadger/redreader/reddit/prepared/markdown/MarkdownTableLine.java:49 | the k-th appended entry is the end of the k-th appended line |
| MarkdownTableLines.Accumulated | src/main/java/org/quantumbadger/redreader/reddit/prepared/markdown/MarkdownTableLine.java:48-52 | after `createTable` has appended each row, the line starts where the header starts and keeps its leading spaces, prefix length, level and number; with at least one row it is typed TABLE and ends where the last row ends |
| MarkdownTableLines.AccumulationShape | src/main/java/org/quantumbadger/redreader/reddit/prepared/markdown/MarkdownTableLine.java:40-52 | a header seeded with its start and end, after N appends, holds N + 2 entries, and entry k + 2 is the end of appended line k |
| MarkdownTableLines.AccumulatedShape | src/main/java/org/quantumbadger/redreader/reddit/prepared/markdown/MarkdownTableLine.java:48-52 | however many lines are appended, the table spans from the header's start to the last line's end, is typed TABLE, takes its trailing spaces from the last line and every other field from the header |
| MarkdownTableLines.TableLine.constructor | src/main/java/org/quantumbadger/redreader/reddit/prepared/markdown/MarkdownTableLine.java:27-31 | the fields are the arguments, and the list is the given object itself, not a copy |
| MarkdownTableLines.TableLine.WithRows | src/main/java/org/quantumbadger/redreader/reddit/prepared/markdown/MarkdownTableLine.java:33-38 | copies the line and appends the line's end to the given (shared) list |
| MarkdownTableLines.TableLine.FromLine | src/main/java/org/quantumbadger/redreader/reddit/prepared/markdown/MarkdownTableLine.java:40-46 | copies the line into a fresh list that holds exactly the line's start and end |
| MarkdownTableLines.TableLine.CreateTable | src/main/java/org/quantumbadger/redreader/reddit/prepared/markdown/MarkdownTableLine.java:48-52 | appends the new line's end to the shared list, so the receiver sees it too, and returns a new TABLE line over the rejoined span that holds the same list object |
| MarkdownTableLines.TableLine.NormalizeTable | src/main/java/org/quantumbadger/redreader/reddit/prepared/markdown/MarkdownTableLine.java:54-61 | a fresh list of every entry less the first one, plus the table's end, and the receiver's list left alone |
| MarkdownTableLines.TableLine.GetRowEndIndices | src/main/java/org/quantumbadger/redreader/reddit/prepared/markdown/MarkdownTableLine.java:63-65 | returns the list object itself |
| MarkdownTableLines.TableLine.Tokenize | src/main/java/org/quantumbadger/redreader/reddit/prepared/markdown/MarkdownTableLine.java:67-73 | the table paragraph is an ordinary line's paragraph (cleaned source, parent, type, level, number) that also carries the current row ends |
| MarkdownParser.RemoveAll | src/main/java/org/quantumbadger/redreader/reddit/prepared/markdown/MarkdownParser.java:163 | `replaceAll` of one character never grows the string and leaves no occurrence behind |
| MarkdownParser.CountCharInString | src/main/java/org/quantumbadger/redreader/reddit/prepared/markdown/MarkdownParser.java:162-164 | the count is between 0 and the length |
| MarkdownParser.CountIsPositions | src/main/java/org/quantumbadger/redreader/reddit/prepared/markdown/MarkdownParser.java:162-164 | the length difference is exactly the number of positions holding the character |
| MarkdownParser.CountAppend | src/main/java/org/quantumbadger/redreader/reddit/prepared/markdown/MarkdownParser.java:162-164 | counting distributes over concatenation |
| MarkdownParser.RemoveAllAppend | src/main/java/org/quantumbadger/redreader/reddit/prepared/markdown/MarkdownParser.java:163 | removal distributes over concatenation |
| MarkdownParser.CountFree | src/main/java/org/quantumbadger/redreader/reddit/prepared/markdown/MarkdownParser.java:162-164 | a string without the character counts zero |
| MarkdownParser.CountAtMostTwo | src/main/java/org/quantumbadger/redreader/reddit/prepared/markdown/MarkdownParser.java:154 | no three positions holding a colon means a count of at most two |
| MarkdownParser.CountAtLeastThree | src/main/java/org/quantumbadger/redreader/reddit/prepared/markdown/MarkdownParser.java:154 | three positions holding a colon mean a count above two |
| MarkdownParser.IsValidTableDelimiter | src/main/java/org/quantumbadger/redreader/reddit/prepared/markdown/MarkdownParser.java:140-160 | a valid delimiter is not one character long and holds no double pipe, and the empty line is valid; ValidTableDelimiterIff gives the full condition |
| MarkdownParser.ValidTableDelimiterIff | src/main/java/org/quantumbadger/redreader/reddit/prepared/markdown/MarkdownParser.java:140-160 | both directions: valid exactly when the line is not one character long, contains no double pipe and none of `::-`, `-::`, `:::`, `- -`, and every piece between pipes (the trailing empty pieces split drops included) has at most two colons |
| MarkdownParser.EmptyLineIsValidDelimiter | src/main/java/org/quantumbadger/redreader/reddit/prepared/markdown/MarkdownParser.java:140-160 | the empty line passes every test |
| MarkdownParser.LookaheadEnd | src/main/java/org/quantumbadger/redreader/reddit/prepared/markdown/MarkdownParser.java:71-76 | the lookahead stops on a line from the one it starts on up to the second-to-last line |
| MarkdownParser.LookaheadEndShape | src/main/java/org/quantumbadger/redreader/reddit/prepared/markdown/MarkdownParser.java:71-76 | every line the lookahead moves onto contains a pipe and is not the last line, and its stopping condition holds on the line after the stop |
| MarkdownParser.Step | src/main/java/org/quantumbadger/redreader/reddit/prepared/markdown/MarkdownParser.java:41-123 | each turn of the merge loop moves forward by at least one line and never past the end |
| MarkdownParser.InitialInv | src/main/java/org/quantumbadger/redreader/reddit/prepared/markdown/MarkdownParser.java:38-39 | the loop starts with an empty output and no accumulator, in a state that keeps the invariant |
| MarkdownParser.StepPreservesInv | src/main/java/org/quantumbadger/redreader/reddit/prepared/markdown/MarkdownParser.java:41-123 | every turn keeps the invariant: an accumulator exists only after a line that is not EMPTY and is not EMPTY itself, each flushed entry used up a line of its own, no flushed plain line is EMPTY, and every table is typed TABLE |
| MarkdownParser.AccumulatorRules | src/main/java/org/quantumbadger/redreader/reddit/prepared/markdown/MarkdownParser.java:42-60 | without an accumulator an EMPTY line is skipped and any other line starts one; with one, a block line flushes it and replaces it, an EMPTY line flushes and clears it, and a TABLE-typed line is dropped because the inner `switch` has no case for it; no accumulator exists at the first line, so the internal-error throw is unreachable |
| MarkdownParser.TextStep | src/main/java/org/quantumbadger/redreader/reddit/prepared/markdown/MarkdownParser.java:88-117 | the TEXT case moves to the next line with an accumulator and either keeps the merged list or appends the old accumulator to it; TextRules says which, by the previous line's type |
| MarkdownParser.TextRules | src/main/java/org/quantumbadger/redreader/reddit/prepared/markdown/MarkdownParser.java:86-117 | a TEXT line, or a TABLE_DELIMITER line that fails the test and falls through, after QUOTE, BULLET, NUMBERED or TEXT is a hard break (flush and replace) when that line ends in two spaces and a join otherwise; after CODE, HEADER or HLINE it flushes and replaces |
| MarkdownParser.RunShape | src/main/java/org/quantumbadger/redreader/reddit/prepared/markdown/MarkdownParser.java:41-127 | from any invariant state the rest of the loop flushes at most one entry per input line, all well typed |
| MarkdownParser.MergeShape | src/main/java/org/quantumbadger/redreader/reddit/prepared/markdown/MarkdownParser.java:38-127 | at most one merged line per input line, none EMPTY, every table typed TABLE |
| MarkdownParser.BuiltTableShape | src/main/java/org/quantumbadger/redreader/reddit/prepared/markdown/MarkdownParser.java:66-80 | the table built from a header and lines d..e spans from the header's start to line e's end, and its e - d + 4 row ends are 0, the header's length, each appended line's end relative to the header, and the absolute end |
| MarkdownParser.TableStep | src/main/java/org/quantumbadger/redreader/reddit/prepared/markdown/MarkdownParser.java:62-85 | a valid delimiter under an accumulator flushes exactly one table built from the accumulator, the delimiter and the following pipe-holding lines (never the last line); it skips the line after them and clears the accumulator |
| MarkdownParser.SilentDrop | src/main/java/org/quantumbadger/redreader/reddit/prepared/markdown/MarkdownParser.java:94-115 | after a TABLE_DELIMITER or TABLE line, a TEXT line or a failing delimiter changes nothing but the index |
| MarkdownParser.SoftWrap | src/main/java/org/quantumbadger/redreader/reddit/prepared/markdown/MarkdownParser.java:98-106 | a run of TEXT lines without a hard break is one paragraph from the first line's start to the last line's end, with the first line's fields and the last line's trailing spaces |
| MarkdownParser.SoftWrapFrom | src/main/java/org/quantumbadger/redreader/reddit/prepared/markdown/MarkdownParser.java:98-106 | the same from any point of the run on |
| MarkdownParser.HardBreak | src/main/java/org/quantumbadger/redreader/reddit/prepared/markdown/MarkdownParser.java:100-103 | a TEXT line ending in two spaces and the TEXT line after it become two paragraphs, unchanged |
| MarkdownParser.BlankLineSeparates | src/main/java/org/quantumbadger/redreader/reddit/prepared/markdown/MarkdownParser.java:57-60 | a run of one or more EMPTY lines between two TEXT lines gives two paragraphs, and the EMPTY lines themselves disappear |
| MarkdownParser.SkipBlanks | src/main/java/org/quantumbadger/redreader/reddit/prepared/markdown/MarkdownParser.java:120-122 | with no accumulator, a run of EMPTY lines leaves the output and the accumulator as they are |
| MarkdownParser.Emit | src/main/java/org/quantumbadger/redreader/reddit/prepared/markdown/MarkdownParser.java:129-135 | the output loop yields at most one paragraph per merged line; EmitAt says which are kept |
| MarkdownParser.EmitShape | src/main/java/org/quantumbadger/redreader/reddit/prepared/markdown/MarkdownParser.java:129-135 | at most one paragraph per merged line, none of them empty, each with the paragraph emitted just before it as its parent |
| MarkdownParser.EmitOrder | src/main/java/org/quantumbadger/redreader/reddit/prepared/markdown/MarkdownParser.java:131-135 | the j-th paragraph is the tokenization of a merged line at a strictly growing index, in order |
| MarkdownParser.EmitPrefix | src/main/java/org/quantumbadger/redreader/reddit/prepared/markdown/MarkdownParser.java:131-135 | the paragraphs emitted from the first m merged lines are a prefix of those emitted from all of them |
| MarkdownParser.EmitAt | src/main/java/org/quantumbadger/redreader/reddit/prepared/markdown/MarkdownParser.java:131-135 | merged line m is kept exactly when its tokenization, with the last kept paragraph as parent, is not empty, and it is then the next paragraph of the output; otherwise it adds nothing |
| MarkdownParser.EmitKeepsAll | src/main/java/org/quantumbadger/redreader/reddit/prepared/markdown/MarkdownParser.java:131-135 | when nothing tokenizes to an empty paragraph, every merged line is emitted, in order, with its predecessor as parent |
| MarkdownParser.TakeTableRows | src/main/java/org/quantumbadger/redreader/reddit/prepared/markdown/MarkdownParser.java:69-78 | the lookahead loop appends exactly the lines of the reference lookahead to the shared list and the table, and stops on the index the reference gives |
| MarkdownParser.AppendOneRow | src/main/java/org/quantumbadger/redreader/reddit/prepared/markdown/MarkdownParser.java:72 | one turn of the lookahead extends the table and its list by exactly the next line |
| MarkdownParser.BuildTable | src/main/java/org/quantumbadger/redreader/reddit/prepared/markdown/MarkdownParser.java:63-82 | the table branch flushes exactly the reference table and leaves the index where the reference says |
| MarkdownParser.MergeText | src/main/java/org/quantumbadger/redreader/reddit/prepared/markdown/MarkdownParser.java:88-117 | the TEXT branch does what the reference step does for the previous line's type: a hard break, a join, a flush, or nothing |
| MarkdownParser.MergeLines | src/main/java/org/quantumbadger/redreader/reddit/prepared/markdown/MarkdownParser.java:38-127 | the imperative merge loop, with its in-loop index jumps, produces exactly the reference merge |
| MarkdownParser.Parse | src/main/java/org/quantumbadger/redreader/reddit/prepared/markdown/MarkdownParser.java:28-138 | parse returns exactly the tokenized, non-empty paragraphs of the reference merge, in order |
| MarkdownParser.ParseCount | src/main/java/org/quantumbadger/redreader/reddit/prepared/markdown/MarkdownParser.java:28-138 | no more paragraphs than merged lines, and no more merged lines than input lines |
| MarkdownParserTest.NoForbiddenPattern | src/main/java/org/quantumbadger/redreader/reddit/prepared/markdown/MarkdownParser.java:143-149 | a line in which no position starts a forbidden substring contains none of them |
| MarkdownParserTest.Accepted | src/main/java/org/quantumbadger/redreader/reddit/prepared/markdown/MarkdownParser.java:140-160 | a join of pipe-free pieces with no forbidden substring, no piece of three colons, and a length other than 1 is valid |
| MarkdownParserTest.RejectedForColons | src/main/java/org/quantumbadger/redreader/reddit/prepared/markdown/MarkdownParser.java:153-157 | a piece with three colons makes the line invalid |
| MarkdownParserTest.TableRegex14 | src/test/java/org/quantumbadger/redreader/test/markdown/MarkdownParserTest.java:14 | the delimiter that line asserts valid is valid in the model too |
| MarkdownParserTest.TableRegex15 | src/test/java/org/quantumbadger/redreader/test/markdown/MarkdownParserTest.java:15 | the delimiter that line asserts valid is valid in the model too |
| MarkdownParserTest.TableRegex16 | src/test/java/org/quantumbadger/redreader/test/markdown/MarkdownParserTest.java:16 | the delimiter that line asserts valid is valid in the model too |
| MarkdownParserTest.TableRegex17 | src/test/java/org/quantumbadger/redreader/test/markdown/MarkdownParserTest.java:17 | the delimiter that line asserts valid is valid in the model too |
| MarkdownParserTest.TableRegex18 | src/test/java/org/quantumbadger/redreader/test/markdown/MarkdownParserTest.java:18 | the delimiter that line asserts valid is valid in the model too |
| MarkdownParserTest.TableRegex19 | src/test/java/org/quantumbadger/redreader/test/markdown/MarkdownParserTest.java:19 | the delimiter that line asserts valid is valid in the model too |
| MarkdownParserTest.TableRegex20 | src/test/java/org/quantumbadger/redreader/test/markdown/MarkdownParserTest.java:20 | the delimiter that line asserts valid is valid in the model too |
| MarkdownParserTest.TableRegex21 | src/test/java/org/quantumbadger/redreader/test/markdown/MarkdownParserTest.java:21 | the delimiter that line asserts valid is valid in the model too |
| MarkdownParserTest.TableRegex22 | src/test/java/org/quantumbadger/redreader/test/markdown/MarkdownParserTest.java:22 | the delimiter that line asserts valid is valid in the model too |
| MarkdownParserTest.TableRegex23 | src/test/java/org/quantumbadger/redreader/test/markdown/MarkdownParserTest.java:23 | the delimiter that line asserts valid is valid in the model too |
| MarkdownParserTest.TableRegex24 | src/test/java/org/quantumbadger/redreader/test/markdown/MarkdownParserTest.java:24 | the delimiter that line asserts valid is valid in the model too |
| MarkdownParserTest.TableRegex25 | src/test/java/org/quantumbadger/redreader/test/markdown/MarkdownParserTest.java:25 | the delimiter that line asserts valid is valid in the model too |
| MarkdownParserTest.Clean26 | src/test/java/org/quantumbadger/redreader/test/markdown/MarkdownParserTest.java:26 | no position of the line of that test starts a forbidden substring |
| MarkdownParserTest.Join26 | src/test/java/org/quantumbadger/redreader/test/markdown/MarkdownParserTest.java:26 | that line is its seven pieces joined by pipes |
| MarkdownParserTest.TableRegex26 | src/test/java/org/quantumbadger/redreader/test/markdown/MarkdownParserTest.java:26 | the delimiter that line asserts valid is valid in the model too |
| MarkdownParserTest.TableRegex27 | src/test/java/org/quantumbadger/redreader/test/markdown/MarkdownParserTest.java:27 | the delimiter that line asserts valid is valid in the model too |
| MarkdownParserTest.TableRegex28 | src/test/java/org/quantumbadger/redreader/test/markdown/MarkdownParserTest.java:28 | the delimiter that line asserts valid is valid in the model too |
| MarkdownParserTest.TableRegex29 | src/test/java/org/quantumbadger/redreader/test/markdown/MarkdownParserTest.java:29 | the delimiter that line asserts valid is valid in the model too |
| MarkdownParserTest.TableRegex30 | src/test/java/org/quantumbadger/redreader/test/markdown/MarkdownParserTest.java:30 | the delimiter that line asserts valid is valid in the model too |
| MarkdownParserTest.TableRegex31 | src/test/java/org/quantumbadger/redreader/test/markdown/MarkdownParserTest.java:31 | the delimiter that line asserts valid is valid in the model too |
| MarkdownParserTest.TableRegex32 | src/test/java/org/quantumbadger/redreader/test/markdown/MarkdownParserTest.java:32 | the delimiter that line asserts valid is valid in the model too |
| MarkdownParserTest.RejectedDelimiters | src/test/java/org/quantumbadger/redreader/test/markdown/MarkdownParserTest.java:33-40 | the eight lines of the negative cases are all invalid: for a double pipe (`||`), for a single character, for three colons in one piece, and for the forbidden substrings `::-`, `-::` and `- -`; no fixture holds `:::` |
| MarkdownParagraphGroup.StripOuterPipes | src/main/java/org/quantumbadger/redreader/reddit/prepared/markdown/MarkdownParagraphGroup.java:322-328 | both directions: throws exactly on the empty text and the single pipe; otherwise the text is the optional leading pipe, the result, and the optional trailing pipe |
| MarkdownParagraphGroup.StripAndSplit | src/main/java/org/quantumbadger/redreader/reddit/prepared/markdown/MarkdownParagraphGroup.java:246-254 | the strip-and-split code, written out three times in the source, is the reference `Pieces` |
| MarkdownParagraphGroup.TrimAll | src/main/java/org/quantumbadger/redreader/reddit/prepared/markdown/MarkdownParagraphGroup.java:219 | one trimmed cell per piece, in order |
| MarkdownParagraphGroup.TrimAllSnoc | src/main/java/org/quantumbadger/redreader/reddit/prepared/markdown/MarkdownParagraphGroup.java:217-219 | trimming one more piece appends its trimmed form |
| MarkdownParagraphGroup.CellGravity | src/main/java/org/quantumbadger/redreader/reddit/prepared/markdown/MarkdownParagraphGroup.java:331-338 | a trimmed cell throws exactly when it is empty, and is centred exactly when it holds two colons |
| MarkdownParagraphGroup.GravityMeaning | src/main/java/org/quantumbadger/redreader/reddit/prepared/markdown/MarkdownParagraphGroup.java:332-338 | for any colon-free run m: `:m:` is centred, `:m` left-aligned, `m:` right-aligned, `m` left-aligned, and the empty cell throws |
| MarkdownParagraphGroup.GravityExamples | src/main/java/org/quantumbadger/redreader/reddit/prepared/markdown/MarkdownParagraphGroup.java:332-338 | `:---` is left, `---` is left, `---:` is right |
| MarkdownParagraphGroup.AlignAll | src/main/java/org/quantumbadger/redreader/reddit/prepared/markdown/MarkdownParagraphGroup.java:330-339 | both directions: defined exactly when every cell has an alignment; then one alignment per cell, in cell order |
| MarkdownParagraphGroup.AlignAllSnoc | src/main/java/org/quantumbadger/redreader/reddit/prepared/markdown/MarkdownParagraphGroup.java:330-339 | one more cell appends its alignment, or throws |
| MarkdownParagraphGroup.GetGravity | src/main/java/org/quantumbadger/redreader/reddit/prepared/markdown/MarkdownParagraphGroup.java:321-341 | getGravity's loop returns exactly the reference alignment of the trimmed, stripped and split delimiter |
| MarkdownParagraphGroup.AlignmentExample | src/main/java/org/quantumbadger/redreader/reddit/prepared/markdown/MarkdownParagraphGroup.java:321-341 | a delimiter of three cells `:---`, `:---:`, `---:` between outer pipes aligns its columns left, centre and right |
| MarkdownParagraphGroup.ExamplePieces | src/main/java/org/quantumbadger/redreader/reddit/prepared/markdown/MarkdownParagraphGroup.java:322-330 | that delimiter strips and splits into `:---`, `:---:`, `---:` |
| MarkdownParagraphGroup.ExampleStrip | src/main/java/org/quantumbadger/redreader/reddit/prepared/markdown/MarkdownParagraphGroup.java:322-328 | its outer pipes are stripped |
| MarkdownParagraphGroup.ExampleJoin | src/main/java/org/quantumbadger/redreader/reddit/prepared/markdown/MarkdownParagraphGroup.java:330 | the stripped text is the three cells joined by pipes |
| MarkdownParagraphGroup.ExampleSplit | src/main/java/org/quantumbadger/redreader/reddit/prepared/markdown/MarkdownParagraphGroup.java:330 | and it splits back into the three cells |
| MarkdownParagraphGroup.ExampleCells | src/main/java/org/quantumbadger/redreader/reddit/prepared/markdown/MarkdownParagraphGroup.java:330-339 | the three cells align left, centre and right |
| MarkdownParagraphGroup.ExampleTrim | src/main/java/org/quantumbadger/redreader/reddit/prepared/markdown/MarkdownParagraphGroup.java:331 | trimming leaves the three cells as they are |
| MarkdownParagraphGroup.SpanText | src/main/java/org/quantumbadger/redreader/reddit/prepared/markdown/MarkdownParagraphGroup.java:197-198 | both directions: a view's text is defined exactly when the view lies inside its buffer, and then has the view's length |
| MarkdownParagraphGroup.RowCells | src/main/java/org/quantumbadger/redreader/reddit/prepared/markdown/MarkdownParagraphGroup.java:256-261 | exactly `columns` cells: cell j is piece j while there is one and empty after that, and extra pieces are ignored |
| MarkdownParagraphGroup.FillCells | src/main/java/org/quantumbadger/redreader/reddit/prepared/markdown/MarkdownParagraphGroup.java:256-261 | the column loop produces exactly the reference cells |
| MarkdownParagraphGroup.RowAt | src/main/java/org/quantumbadger/redreader/reddit/prepared/markdown/MarkdownParagraphGroup.java:238-261 | a body row that can be cut has exactly `columns` cells |
| MarkdownParagraphGroup.BodyRow | src/main/java/org/quantumbadger/redreader/reddit/prepared/markdown/MarkdownParagraphGroup.java:238-261 | one turn of the row loop cuts, trims, strips, splits and fills exactly as the reference row does |
| MarkdownParagraphGroup.RowResults | src/main/java/org/quantumbadger/redreader/reddit/prepared/markdown/MarkdownParagraphGroup.java:234 | one result per visited body row, entry k being row k + 2 |
| MarkdownParagraphGroup.AllSome | src/main/java/org/quantumbadger/redreader/reddit/prepared/markdown/MarkdownParagraphGroup.java:234-273 | both directions: defined exactly when no row throws; then every row's value, in order |
| MarkdownParagraphGroup.AllSomeSnoc | src/main/java/org/quantumbadger/redreader/reddit/prepared/markdown/MarkdownParagraphGroup.java:234-273 | one more row appends its cells, or throws |
| MarkdownParagraphGroup.BodyRows | src/main/java/org/quantumbadger/redreader/reddit/prepared/markdown/MarkdownParagraphGroup.java:234-273 | the row loop from 2 while below size - 2 returns exactly the reference rows, and throws at the first row that throws |
| MarkdownParagraphGroup.HeaderCells | src/main/java/org/quantumbadger/redreader/reddit/prepared/markdown/MarkdownParagraphGroup.java:217-219 | the header loop gives each header piece trimmed, in order |
| MarkdownParagraphGroup.SplitTable | src/main/java/org/quantumbadger/redreader/reddit/prepared/markdown/MarkdownParagraphGroup.java:192-273 | the cell code of the TABLE case computes exactly the reference table cells, throwing where the reference does |
| MarkdownParagraphGroup.RowsShape | src/main/java/org/quantumbadger/redreader/reddit/prepared/markdown/MarkdownParagraphGroup.java:234-261 | when no row throws there is one row per visit, each of exactly `columns` cells, each the reference row |
| MarkdownParagraphGroup.TableShape | src/main/java/org/quantumbadger/redreader/reddit/prepared/markdown/MarkdownParagraphGroup.java:213-261 | a table that builds carries the delimiter row's alignment and the trimmed pieces of the header trimmed once (the double trim changes nothing), has no more columns than alignments, size - 4 body rows, and exactly one cell per header column in every row |
| MarkdownParagraphGroup.ViewSlices | src/main/java/org/quantumbadger/redreader/reddit/prepared/markdown/MarkdownParagraphGroup.java:197-244 | for a table the parser built (no block prefix), the header view is the header line, the delimiter view is the line break and the delimiter line, there are as many body rows as body lines, and body row k covers the line break before line k together with line k |

## Left out

- Line classification (`MarkdownLine.generate`) and cutting the buffer into
  lines (`CharArrSubstring.generateFromLines`) are not in this model. `parse`
  takes lines that are already classified.
- `CharArrSubstring` is not part of this model. `rejoin`, `substring` and
  `toString` are written as the view arithmetic the callers rely on, and
  `toString` of a view outside its buffer is taken to throw.
- `MarkdownLine.rejoin` and `MarkdownLine.tokenize` are not part of this
  model. `rejoin` is taken to extend the span and take the trailing spaces
  of the appended line. `tokenize` is taken to apply the same block-prefix
  rule as `MarkdownTableLine.tokenize`.
- Inline tokenization: a paragraph keeps its cleaned source span, not its
  tokens. `MarkdownParagraph.isEmpty` depends on those tokens, so it is a
  parameter of `Parse`.
- A paragraph's `parent` is the index of the previous kept paragraph, not an
  object reference.
- `src` is never null, so the check `lines[i + 1].src != null` at
  `MarkdownParser.java:69` always holds and the check `lines[i + 1].src ==
  null` at `:74` never holds: that `break` is never taken. Neither is
  modelled as a branch.
- `MergeLines` and `Parse` require `SpansValid(lines)`: every line's view
  lies inside its buffer, because `generateFromLines` cuts the lines out of
  that buffer. The exception `toString` would throw on a view that leaves
  its buffer is therefore not modelled in `parse`.
- The views themselves are not modelled: `TextView`, `TableRow`,
  `TableLayout`, borders, colours, padding, typefaces, link buttons and the
  other paragraph types of the view builder. The model stops at the strings
  and alignments they would receive.
- Java exceptions are a single `None`: which exception was thrown, and
  which views were already built when it was thrown, are not kept.
- `countCharInString` goes through a regular expression. The only
  character it is called with is `:`, which is not a regex metacharacter,
  so it is modelled as the removal of one character.
- `int` arithmetic is unbounded. Row ends and buffer offsets are far below
  the 32-bit range.
- `toString` methods, and the four `@Ignore` tests `testSimpleTable`,
  `testComplexTable`, `testComplexTable2` and `testMultipleTables`, are not
  modelled. They only print.
- Characters are taken to be UTF-16 code units, so the model is exact for
  text inside the Basic Multilingual Plane only. Dafny strings hold Unicode
  scalar values, while Java's `String.length()` counts code units. A
  character outside that plane (an emoji) has length 2 in Java but 1 in the
  model, so on such a line `IsValidTableDelimiter` returns false where
  `isValidTableDelimiter` returns true. `parse` is not affected: only lines
  that the line classifier types TABLE_DELIMITER reach the test.
- The merged list holds values. A flushed table's row-end list is never
  changed after `normalizeTable`, so the model copies the list's contents
  when the table is flushed. Aliasing inside `BuildTable`, `TakeTableRows`
  and `CreateTable` is modelled with the `RowEndList` class.
- MarkdownTableLines.TableLine.NormalizeTable: requires a non-empty list,
  which every table the parser builds has (its header's start and end).
- MarkdownParagraphGroup.ViewSlices: stated only for a header without a
  block prefix. With a prefix, the paragraph's text starts `prefixLength`
  characters later than the offsets the row ends are relative to. The cell
  code then reads offsets shifted by that amount, and the model computes
  exactly those shifted views.
