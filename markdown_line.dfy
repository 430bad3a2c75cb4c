/**
  MarkdownLine and MarkdownParagraph: one classified physical line of the
  input, and the paragraph a (merged) line becomes once it is tokenized.
  Classification (MarkdownLine.generate) and inline tokenization are not part
  of this model: lines arrive already classified, and a paragraph keeps its
  cleaned source span instead of its inline tokens.
 */
module MarkdownLines {
  import opened Wrappers
  import opened Spans

  /** MarkdownParser.MarkdownParagraphType */
  datatype ParagraphType =
    | Text | Code | Bullet | Numbered | Quote | Header | HLine | Empty | TableDelimiter | Table

  /** The fields every MarkdownLine carries; `src` is the line's view of the raw buffer. */
  datatype Line = Line(
    src: Span,
    kind: ParagraphType,
    spacesAtStart: int,
    spacesAtEnd: int,
    prefixLength: int,
    level: int,
    number: int)
  {
    /**
      MarkdownLine.rejoin: the span grows to the end of `toAppend`, the
      trailing-space count is the appended line's, everything else (the type
      included) stays the receiver's.
     */
    function Rejoin(toAppend: Line): Line {
      Line(src.Rejoin(toAppend.src), kind, spacesAtStart, toAppend.spacesAtEnd, prefixLength, level, number)
    }

    /**
      MarkdownTableLine.createTable, on the line fields: as Rejoin, but the
      result is typed TABLE.
     */
    function AppendRow(toAppend: Line): Line {
      Line(src.Rejoin(toAppend.src), Table, spacesAtStart, toAppend.spacesAtEnd, prefixLength, level, number)
    }

    /** The source without its block prefix ("> ", "* ", "1. ", four spaces ...). */
    function CleanedSource(): Span {
      if prefixLength == 0 then src else src.SubstringFrom(prefixLength)
    }

    /**
      MarkdownLine.tokenize, without its inline tokens: the paragraph of the
      cleaned source, with the given parent (the index of the previously
      emitted paragraph), the same type, level and number and no row ends.
     */
    function Tokenize(parent: Option<nat>): Paragraph {
      Paragraph(CleanedSource(), parent, kind, level, number, None)
    }

    /**
      MarkdownTableLine.tokenize: the same paragraph, carrying the given row
      ends.
     */
    function TableTokenize(parent: Option<nat>, rowEnds: seq<int>): Paragraph {
      Paragraph(CleanedSource(), parent, kind, level, number, Some(rowEnds))
    }
  }

  /**
    MarkdownParagraph, and MarkdownTableParagraph when `rowEndIndices` is
    present. `parent` is the index of the paragraph emitted before it.
   */
  datatype Paragraph = Paragraph(
    raw: Span,
    parent: Option<nat>,
    kind: ParagraphType,
    level: int,
    number: int,
    rowEndIndices: Option<seq<int>>)

  /**
    The cleaned source of a line is its text with the first `prefixLength`
    characters removed, whichever branch of the conditional produced it.
   */
  lemma CleanedSourceText(line: Line)
    requires line.src.Valid() && 0 <= line.prefixLength <= line.src.length
    ensures line.CleanedSource().Valid()
    ensures line.CleanedSource().ToString() == line.src.ToString()[line.prefixLength..]
    ensures line.CleanedSource().End() == line.src.End()
  {
    if line.prefixLength != 0 {
      SubstringFromText(line.src, line.prefixLength);
    }
  }

  /**
    Rejoining keeps every character between the two lines: the merged text
    is the first line, the separator characters and the second line.
   */
  lemma RejoinText(a: Line, b: Line)
    requires a.src.Valid() && b.src.Valid() && a.src.arr == b.src.arr && a.src.End() <= b.src.start
    ensures a.Rejoin(b).src.Valid() && a.AppendRow(b).src == a.Rejoin(b).src
    ensures a.Rejoin(b).src.ToString() == a.src.ToString() + a.src.arr[a.src.End()..b.src.start] + b.src.ToString()
  {
    RejoinLossless(a.src, b.src);
  }
}
