/**
  MarkdownTableLine: a merged line that is a table. Besides the line fields it
  holds a java.util.List of row-end offsets; that list is a mutable object
  shared by every MarkdownTableLine built from the same header, so it is a
  class of its own here and the table line keeps a reference to it.
 */
module MarkdownTableLines {
  import opened Wrappers
  import opened Spans
  import opened MarkdownLines

  /** The List<Integer> of row-end offsets. */
  class RowEndList {
    var items: seq<int>

    /** new ArrayList<>() */
    constructor ()
      ensures items == []
    {
      items := [];
    }

    /** List.add: appends at the end. */
    method Add(x: int)
      modifies this
      ensures items == old(items) + [x]
    {
      items := items + [x];
    }
  }

  // ---------------------------------------------------------------- values

  /** Every entry of `t` less `base`, in order. */
  function Shifted(t: seq<int>, base: int): (r: seq<int>)
    ensures |r| == |t|
    ensures forall k | 0 <= k < |t| :: r[k] == t[k] - base
  {
    if |t| == 0 then [] else Shifted(t[..|t| - 1], base) + [t[|t| - 1] - base]
  }

  /**
    The list normalizeTable produces from `t` for a table whose span ends at
    `end`: every entry less the first one, and then, from the two-argument
    constructor, `end` itself, not shifted.
   */
  function Normalized(t: seq<int>, end: int): (r: seq<int>)
    requires |t| > 0
    ensures |r| == |t| + 1 && r[0] == 0 && r[|t|] == end
  {
    Shifted(t, t[0]) + [end]
  }

  /** The line fields of the table after createTable has appended each of `rows` in turn to `header`. */
  function Accumulated(header: Line, rows: seq<Line>): (r: Line)
    ensures r.src.arr == header.src.arr && r.src.start == header.src.start
    ensures r.spacesAtStart == header.spacesAtStart && r.prefixLength == header.prefixLength
    ensures r.level == header.level && r.number == header.number
    ensures |rows| > 0 ==> r.kind == Table && r.src.End() == rows[|rows| - 1].src.End()
  {
    if |rows| == 0 then header else Accumulated(header, rows[..|rows| - 1]).AppendRow(rows[|rows| - 1])
  }

  /** The end offset of each line, in order. */
  function Ends(rows: seq<Line>): seq<int> {
    if |rows| == 0 then [] else Ends(rows[..|rows| - 1]) + [rows[|rows| - 1].src.End()]
  }

  /** The list a header seeds (one-argument constructor) once `rows` have been appended to it. */
  function Accumulation(header: Line, rows: seq<Line>): seq<int> {
    [header.src.start, header.src.End()] + Ends(rows)
  }

  /**
    normalizeTable makes the first entry 0, keeps the distance between
    neighbouring entries, and leaves exactly one more entry than it was
    given: the absolute end of the table, which is not shifted.
   */
  lemma NormalizedShape(t: seq<int>, end: int)
    requires |t| > 0
    ensures |Normalized(t, end)| == |t| + 1
    ensures Normalized(t, end)[0] == 0
    ensures forall k | 0 <= k < |t| :: Normalized(t, end)[k] == t[k] - t[0]
    ensures forall k | 0 <= k < |t| - 1 :: Normalized(t, end)[k + 1] - Normalized(t, end)[k] == t[k + 1] - t[k]
    ensures Normalized(t, end)[|t|] == end
  {
    var n := Normalized(t, end);
    forall k | 0 <= k < |t| - 1
      ensures n[k + 1] - n[k] == t[k + 1] - t[k]
    {
      assert n[k + 1] == t[k + 1] - t[0] && n[k] == t[k] - t[0];
    }
  }

  /** Appending one more line to the table adds that line's end to the list and rejoins its span. */
  lemma AppendedOne(header: Line, rows: seq<Line>, row: Line)
    ensures Accumulated(header, rows + [row]) == Accumulated(header, rows).AppendRow(row)
    ensures Accumulation(header, rows + [row]) == Accumulation(header, rows) + [row.src.End()]
  {
    assert (rows + [row])[..|rows|] == rows;
  }

  /**
    One end per appended line: a header with a delimiter and N body rows
    holds 3 + N entries, the header's start and end first and the k-th
    appended line's end at position k + 2.
   */
  lemma {:induction false} AccumulationShape(header: Line, rows: seq<Line>)
    ensures |Accumulation(header, rows)| == |rows| + 2
    ensures Accumulation(header, rows)[0] == header.src.start
    ensures Accumulation(header, rows)[1] == header.src.End()
    ensures forall k | 0 <= k < |rows| :: Accumulation(header, rows)[k + 2] == rows[k].src.End()
  {
    EndsShape(rows);
  }

  lemma {:induction false} EndsShape(rows: seq<Line>)
    ensures |Ends(rows)| == |rows|
    ensures forall k | 0 <= k < |rows| :: Ends(rows)[k] == rows[k].src.End()
  {
    if |rows| > 0 {
      EndsShape(rows[..|rows| - 1]);
    }
  }

  /**
    However many lines are appended, the table runs over the header's buffer
    from the header's start to the end of the last appended line, is typed
    TABLE, takes its trailing-space count from the last line and every other
    field from the header.
   */
  lemma {:induction false} AccumulatedShape(header: Line, rows: seq<Line>)
    requires |rows| > 0
    ensures Accumulated(header, rows) ==
      Line(Span(header.src.arr, header.src.start, rows[|rows| - 1].src.End() - header.src.start), Table,
           header.spacesAtStart, rows[|rows| - 1].spacesAtEnd, header.prefixLength, header.level, header.number)
  {
    if |rows| > 1 {
      AccumulatedShape(header, rows[..|rows| - 1]);
    }
  }

  // ---------------------------------------------------------------- objects

  class TableLine {
    /** The fields inherited from MarkdownLine. */
    const line: Line
    /** The row-end list; other table lines may hold the same object. */
    const rowEndIndices: RowEndList

    /** The eight-argument constructor: keeps the given list object itself, not a copy. */
    constructor (src: Span, kind: ParagraphType, spacesAtStart: int, spacesAtEnd: int,
                 prefixLength: int, level: int, number: int, rowEndIndices: RowEndList)
      ensures line == Line(src, kind, spacesAtStart, spacesAtEnd, prefixLength, level, number)
      ensures this.rowEndIndices == rowEndIndices
    {
      line := Line(src, kind, spacesAtStart, spacesAtEnd, prefixLength, level, number);
      this.rowEndIndices := rowEndIndices;
    }

    /** The two-argument constructor: copies the line and appends the line's end offset to the given list. */
    constructor WithRows(markdownLine: Line, rowEndIndices: RowEndList)
      modifies rowEndIndices
      ensures line == markdownLine && this.rowEndIndices == rowEndIndices
      ensures rowEndIndices.items == old(rowEndIndices.items) + [markdownLine.src.End()]
    {
      line := markdownLine;
      this.rowEndIndices := rowEndIndices;
      new;
      rowEndIndices.Add(markdownLine.src.End());
    }

    /** The one-argument constructor: copies the line and seeds a new list with the line's start and end. */
    constructor FromLine(markdownLine: Line)
      ensures line == markdownLine && fresh(rowEndIndices)
      ensures rowEndIndices.items == [markdownLine.src.start, markdownLine.src.End()]
    {
      line := markdownLine;
      var list := new RowEndList();
      rowEndIndices := list;
      new;
      list.Add(markdownLine.src.start);
      list.Add(markdownLine.src.End());
    }

    /**
      Appends the end of `toAppend` to the shared list and returns a new
      TABLE line over the rejoined span that holds the same list object, so
      the receiver sees the new entry too.
     */
    method CreateTable(toAppend: Line) returns (t: TableLine)
      modifies rowEndIndices
      ensures rowEndIndices.items == old(rowEndIndices.items) + [toAppend.src.End()]
      ensures fresh(t) && t.rowEndIndices == rowEndIndices
      ensures t.line == line.AppendRow(toAppend)
    {
      rowEndIndices.Add(toAppend.src.End());
      t := new TableLine(line.src.Rejoin(toAppend.src), Table, line.spacesAtStart, toAppend.spacesAtEnd,
                         line.prefixLength, line.level, line.number, rowEndIndices);
    }

    /**
      Builds a new list holding every entry less the first one, and a new
      table line over it through the two-argument constructor, which appends
      this table's end unshifted. The receiver's list is left alone.
     */
    method NormalizeTable() returns (t: TableLine)
      requires |rowEndIndices.items| > 0
      ensures fresh(t) && fresh(t.rowEndIndices) && t.line == line
      ensures t.rowEndIndices.items == Normalized(rowEndIndices.items, line.src.End())
    {
      var newRowEndIndices := new RowEndList();
      var start := rowEndIndices.items[0];
      for k := 0 to |rowEndIndices.items|
        invariant newRowEndIndices.items == Shifted(rowEndIndices.items[..k], start)
      {
        assert rowEndIndices.items[..k + 1][..k] == rowEndIndices.items[..k];
        newRowEndIndices.Add(rowEndIndices.items[k] - start);
      }
      assert rowEndIndices.items[..|rowEndIndices.items|] == rowEndIndices.items;
      t := new TableLine.WithRows(line, newRowEndIndices);
    }

    /** The list object itself, not a copy. */
    function GetRowEndIndices(): (r: RowEndList)
      ensures r == rowEndIndices
    {
      rowEndIndices
    }

    /**
      The table paragraph: the cleaned source as for any other line, no
      inline tokens, and the current row ends.
     */
    function Tokenize(parent: Option<nat>): (p: Paragraph)
      reads rowEndIndices
      ensures p == line.Tokenize(parent).(rowEndIndices := Some(rowEndIndices.items))
    {
      line.TableTokenize(parent, rowEndIndices.items)
    }
  }
}
