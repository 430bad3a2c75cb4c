/**
  The string rules MarkdownParagraphGroup applies to a table paragraph
  before it builds any view: the column alignment read from the delimiter
  row (getGravity), and the header and body cells cut out of the table's
  raw text by its row ends. Views, layouts and styling are not part of this
  model; a Java exception on the way (charAt on an empty string, a list
  index past the end, a view outside its buffer) is None.
 */
module MarkdownParagraphGroup {
  import opened Wrappers
  import opened Spans
  import opened JavaStrings
  import opened MarkdownLines
  import opened MarkdownTableLines
  import opened MarkdownParser

  /** The android.view.Gravity values a table cell gets. */
  datatype Gravity = Center | Left | Right

  // ---------------------------------------------------------------- cells

  /** "|" when `s` starts with a pipe, "" otherwise. */
  function LeadingPipe(s: string): string {
    if |s| > 0 && s[0] == '|' then "|" else ""
  }

  /** "|" when `s` ends with a pipe, "" otherwise. */
  function TrailingPipe(s: string): string {
    if |s| > 0 && s[|s| - 1] == '|' then "|" else ""
  }

  /**
    Removes one leading pipe and then one trailing pipe. charAt throws on
    an empty text and on a text that was a single pipe, so both are None;
    otherwise exactly the outer pipes are gone and the middle is kept.
   */
  function StripOuterPipes(s: string): (r: Option<string>)
    ensures r.None? <==> s == "" || s == "|"
    ensures r.Some? ==> s == LeadingPipe(s) + r.value + TrailingPipe(s)
  {
    if |s| == 0 then None
    else
      var t := if s[0] == '|' then s[1..] else s;
      if |t| == 0 then None
      else if t[|t| - 1] == '|' then Some(t[..|t| - 1]) else Some(t)
  }

  /** The untrimmed cells of an already trimmed row: its outer pipes stripped, then String.split on '|'. */
  function Pieces(t: string): Option<seq<string>> {
    match StripOuterPipes(t)
    case None => None
    case Some(u) => Some(JavaSplit(u, '|'))
  }

  /** Every piece trimmed, in order. */
  function TrimAll(pieces: seq<string>): (r: seq<string>)
    ensures |r| == |pieces|
    ensures forall k | 0 <= k < |pieces| :: r[k] == Trim(pieces[k])
  {
    if |pieces| == 0 then [] else TrimAll(pieces[..|pieces| - 1]) + [Trim(pieces[|pieces| - 1])]
  }

  /**
    The cells of a body row in a table of `columns` columns, from its
    trimmed pieces: cell j is piece j while there is one, empty after that,
    and pieces past the last column are ignored.
   */
  function RowCells(trimmed: seq<string>, columns: nat): (r: seq<string>)
    ensures |r| == columns
    ensures forall j | 0 <= j < columns :: r[j] == if j < |trimmed| then trimmed[j] else ""
  {
    if columns == 0 then []
    else RowCells(trimmed, columns - 1) + [if columns - 1 < |trimmed| then trimmed[columns - 1] else ""]
  }

  /** Strips the outer pipes of a trimmed text and splits it, as the source does three times over. */
  method StripAndSplit(text: string) returns (pieces: Option<seq<string>>)
    ensures pieces == Pieces(text)
  {
    var s := text;
    if |s| == 0 {
      return None;
    }
    if s[0] == '|' {
      s := s[1..];
    }
    if |s| == 0 {
      return None;
    }
    if s[|s| - 1] == '|' {
      s := s[..|s| - 1];
    }
    pieces := Some(JavaSplit(s, '|'));
  }

  // ---------------------------------------------------------------- gravity

  /**
    The alignment of one trimmed delimiter cell: two colons centre it; a
    cell that starts with a colon or has none is left-aligned; any other
    right-aligned. charAt(0) throws on an empty cell, but only once the
    two-colon test has failed, and the empty cell always fails it.
   */
  function CellGravity(cell: string): (r: Option<Gravity>)
    ensures r.None? <==> cell == ""
    ensures r == Some(Center) <==> CountCharInString(cell, ':') == 2
  {
    if CountCharInString(cell, ':') == 2 then Some(Center)
    else if |cell| == 0 then None
    else if cell[0] == ':' || CountCharInString(cell, ':') == 0 then Some(Left)
    else Some(Right)
  }

  /**
    The usual delimiter cells, with any colon-free run `m` of dashes or
    spaces: ":m:" is centred, ":m" left, "m:" right, "m" left, and the empty
    cell throws.
   */
  lemma GravityMeaning(m: string)
    requires ':' !in m
    ensures CellGravity(":" + m + ":") == Some(Center)
    ensures CellGravity(":" + m) == Some(Left)
    ensures |m| > 0 ==> CellGravity(m + ":") == Some(Right)
    ensures |m| > 0 ==> CellGravity(m) == Some(Left)
    ensures CellGravity("") == None
  {
    CountFree(m, ':');
    CountAppend(":", m, ':');
    CountAppend(":" + m, ":", ':');
    CountAppend(m, ":", ':');
    assert (":" + m)[0] == ':';
    if |m| > 0 {
      assert (m + ":")[0] == m[0];
      assert m[0] in m;
    }
  }

  /** Three common delimiter cells: ":---" is left, "---" is left, "---:" is right. */
  lemma GravityExamples()
    ensures CellGravity(":---") == Some(Left)
    ensures CellGravity("---") == Some(Left)
    ensures CellGravity("---:") == Some(Right)
  {
    GravityMeaning("---");
    assert ":" + "---" == ":---";
    assert "---" + ":" == "---:";
  }

  /**
    One alignment per trimmed cell, in cell order; None as soon as one
    cell is empty.
   */
  function AlignAll(cells: seq<string>): (r: Option<seq<Gravity>>)
    ensures r.Some? <==> forall k | 0 <= k < |cells| :: CellGravity(cells[k]).Some?
    ensures r.Some? ==> |r.value| == |cells|
    ensures r.Some? ==> forall k | 0 <= k < |cells| :: CellGravity(cells[k]) == Some(r.value[k])
  {
    if |cells| == 0 then Some([])
    else
      match AlignAll(cells[..|cells| - 1])
      case None => None
      case Some(g) =>
        match CellGravity(cells[|cells| - 1])
        case None => None
        case Some(x) => Some(g + [x])
  }

  lemma TrimAllSnoc(pieces: seq<string>, k: nat)
    requires k < |pieces|
    ensures TrimAll(pieces[..k + 1]) == TrimAll(pieces[..k]) + [Trim(pieces[k])]
  {
    assert pieces[..k + 1][..k] == pieces[..k];
  }

  lemma AlignAllSnoc(cells: seq<string>, cell: string)
    ensures AlignAll(cells + [cell]) ==
      if AlignAll(cells).Some? && CellGravity(cell).Some? then Some(AlignAll(cells).value + [CellGravity(cell).value]) else None
  {
    assert (cells + [cell])[..|cells|] == cells;
  }

  /** getGravity: the alignments of the trimmed cells of the trimmed delimiter text. */
  function Alignment(justificationString: string): Option<seq<Gravity>> {
    match Pieces(Trim(justificationString))
    case None => None
    case Some(pieces) => AlignAll(TrimAll(pieces))
  }

  /**
    getGravity's loop: trims each piece of the stripped and split delimiter
    and appends its alignment.
   */
  method GetGravity(justificationString: string) returns (gravityList: Option<seq<Gravity>>)
    ensures gravityList == Alignment(justificationString)
  {
    var pieces := StripAndSplit(Trim(justificationString));
    if pieces.None? {
      return None;
    }
    var list: seq<Gravity> := [];
    for k := 0 to |pieces.value|
      invariant AlignAll(TrimAll(pieces.value[..k])) == Some(list)
    {
      var justification := Trim(pieces.value[k]);
      TrimAllSnoc(pieces.value, k);
      AlignAllSnoc(TrimAll(pieces.value[..k]), justification);
      if CountCharInString(justification, ':') == 2 {
        list := list + [Center];
      } else if |justification| == 0 {
        return None;
      } else if justification[0] == ':' || CountCharInString(justification, ':') == 0 {
        list := list + [Left];
      } else {
        list := list + [Right];
      }
    }
    assert pieces.value[..|pieces.value|] == pieces.value;
    gravityList := Some(list);
  }

  /** A delimiter of a left, a centred and a right column, with outer pipes, gets those three alignments. */
  lemma AlignmentExample()
    ensures Alignment("|:---|:---:|---:|") == Some([Left, Center, Right])
  {
    TrimNoop("|:---|:---:|---:|");
    ExamplePieces();
    ExampleCells();
  }

  /** The example delimiter splits into its three cells. */
  lemma ExamplePieces()
    ensures Pieces("|:---|:---:|---:|") == Some([":---", ":---:", "---:"])
  {
    ExampleStrip();
    ExampleSplit();
  }

  lemma ExampleStrip()
    ensures StripOuterPipes("|:---|:---:|---:|") == Some(":---|:---:|---:")
  {
    var t := "|:---|:---:|---:|";
    var u := ":---|:---:|---:";
    assert t[1..] == u + "|";
    assert (u + "|")[..|u|] == u;
  }

  lemma ExampleJoin()
    ensures Join([":---", ":---:", "---:"], '|') == ":---|:---:|---:"
  {
    var c0, c1, c2 := ":---", ":---:", "---:";
    JoinPrepend(c1, [c2], '|');
    JoinPrepend(c0, [c1, c2], '|');
    assert [c0] + [c1, c2] == [c0, c1, c2] && [c1] + [c2] == [c1, c2];
  }

  lemma ExampleSplit()
    ensures JavaSplit(":---|:---:|---:", '|') == [":---", ":---:", "---:"]
  {
    var u := ":---|:---:|---:";
    var pieces := [":---", ":---:", "---:"];
    ExampleJoin();
    SplitJoin(pieces, '|');
    assert u[4] == '|';
    assert pieces[2] != "";
  }

  lemma ExampleCells()
    ensures AlignAll(TrimAll([":---", ":---:", "---:"])) == Some([Left, Center, Right])
  {
    ExampleTrim();
    GravityExamples();
    GravityMeaning("---");
    assert ":" + "---" + ":" == ":---:";
    var c0, c1, c2 := ":---", ":---:", "---:";
    var none: seq<string> := [];
    var empty: seq<Gravity> := [];
    assert AlignAll(none) == Some(empty);
    AlignAllSnoc(none, c0);
    assert none + [c0] == [c0] && empty + [Left] == [Left];
    AlignAllSnoc([c0], c1);
    assert [c0] + [c1] == [c0, c1] && [Left] + [Center] == [Left, Center];
    AlignAllSnoc([c0, c1], c2);
    assert [c0, c1] + [c2] == [c0, c1, c2] && [Left, Center] + [Right] == [Left, Center, Right];
  }

  lemma ExampleTrim()
    ensures TrimAll([":---", ":---:", "---:"]) == [":---", ":---:", "---:"]
  {
    TrimNoop(":---");
    TrimNoop(":---:");
    TrimNoop("---:");
  }

  // ---------------------------------------------------------------- table cells

  /** CharArrSubstring.toString, assumed to throw when the view leaves its buffer. */
  function SpanText(span: Span): (r: Option<string>)
    ensures r.Some? <==> span.Valid()
    ensures r.Some? ==> |r.value| == span.length
  {
    if span.Valid() then Some(span.ToString()) else None
  }

  /** The header row: the first rowEndIndices[1] characters of the table. */
  function HeaderSpan(raw: Span, rowEnds: seq<int>): Span
    requires |rowEnds| >= 2
  {
    raw.Substring(0, rowEnds[1])
  }

  /** The delimiter row: from rowEndIndices[1] to rowEndIndices[2]. */
  function GravitySpan(raw: Span, rowEnds: seq<int>): Span
    requires |rowEnds| >= 3
  {
    raw.Substring(rowEnds[1], rowEnds[2] - rowEnds[1])
  }

  /** Body row `i` (2 <= i <= size - 3): up to the next row end, except the last, which runs to the end of the table. */
  function RowSpan(raw: Span, rowEnds: seq<int>, i: nat): Span
    requires 2 <= i <= |rowEnds| - 3
  {
    var size := |rowEnds|;
    if i < size - 3 then raw.Substring(rowEnds[i], rowEnds[i + 1] - rowEnds[i])
    else raw.Substring(rowEnds[size - 3], raw.length - rowEnds[size - 3])
  }

  /** The cells of body row `i`. */
  function RowAt(raw: Span, rowEnds: seq<int>, columns: nat, i: nat): (r: Option<seq<string>>)
    requires 2 <= i <= |rowEnds| - 3
    ensures r.Some? ==> |r.value| == columns
  {
    match SpanText(RowSpan(raw, rowEnds, i))
    case None => None
    case Some(text) =>
      match Pieces(Trim(text))
      case None => None
      case Some(pieces) => Some(RowCells(TrimAll(pieces), columns))
  }

  /** The number of body rows the view loop visits: i runs from 2 while i < size - 2. */
  function RowCount(rowEnds: seq<int>): nat {
    if |rowEnds| >= 4 then |rowEnds| - 4 else 0
  }

  /** What the first `n` visited body rows give, in order: entry k is row k + 2 of the table. */
  function RowResults(raw: Span, rowEnds: seq<int>, columns: nat, n: nat): (r: seq<Option<seq<string>>>)
    requires n <= RowCount(rowEnds)
    ensures |r| == n
    ensures forall k | 0 <= k < n :: r[k] == RowAt(raw, rowEnds, columns, k + 2)
  {
    if n == 0 then [] else RowResults(raw, rowEnds, columns, n - 1) + [RowAt(raw, rowEnds, columns, n + 1)]
  }

  /** Every value of `results`, in order, or None when one of them is None (the first exception ends the loop). */
  function AllSome<T>(results: seq<Option<T>>): (r: Option<seq<T>>)
    ensures r.Some? <==> forall k | 0 <= k < |results| :: results[k].Some?
    ensures r.Some? ==> |r.value| == |results|
    ensures r.Some? ==> forall k | 0 <= k < |results| :: results[k] == Some(r.value[k])
  {
    if |results| == 0 then Some([])
    else
      match AllSome(results[..|results| - 1])
      case None => None
      case Some(values) =>
        match results[|results| - 1]
        case None => None
        case Some(x) => Some(values + [x])
  }

  lemma AllSomeSnoc<T>(results: seq<Option<T>>, k: nat)
    requires k < |results|
    ensures AllSome(results[..k + 1]) ==
      if AllSome(results[..k]).Some? && results[k].Some? then Some(AllSome(results[..k]).value + [results[k].value]) else None
  {
    assert results[..k + 1][..k] == results[..k];
  }

  /** The strings a table paragraph shows: the column alignments, the header cells and the body rows' cells. */
  datatype TableCells = TableCells(alignment: seq<Gravity>, header: seq<string>, rows: seq<seq<string>>)

  /**
    The TABLE case of buildView up to the views: the alignment from the
    delimiter row; the header trimmed (twice), stripped and split, whose
    piece count fixes the columns, and which throws when there are more
    columns than alignments; then every body row cut to that many cells.
   */
  function TableOf(raw: Span, rowEnds: seq<int>): Option<TableCells> {
    if |rowEnds| < 3 then None
    else
      match SpanText(GravitySpan(raw, rowEnds))
      case None => None
      case Some(gravityString) =>
        match Alignment(gravityString)
        case None => None
        case Some(alignment) =>
          match SpanText(HeaderSpan(raw, rowEnds))
          case None => None
          case Some(headerText) =>
            match Pieces(Trim(Trim(headerText)))
            case None => None
            case Some(headerStrings) =>
              if |headerStrings| > |alignment| then None
              else
                match AllSome(RowResults(raw, rowEnds, |headerStrings|, RowCount(rowEnds)))
                case None => None
                case Some(rows) => Some(TableCells(alignment, TrimAll(headerStrings), rows))
  }

  /**
    A table that builds has the delimiter row's alignment, the header's
    trimmed cells (trimming the header twice is trimming it once), one
    header cell per column, no more columns than alignments, one row for every row end between the delimiter's and
    the last two, and exactly one cell per column in every row.
   */
  lemma TableShape(raw: Span, rowEnds: seq<int>)
    requires TableOf(raw, rowEnds).Some?
    ensures
      var t := TableOf(raw, rowEnds).value;
      && |rowEnds| >= 3
      && SpanText(GravitySpan(raw, rowEnds)).Some? && SpanText(HeaderSpan(raw, rowEnds)).Some?
      && t.alignment == Alignment(SpanText(GravitySpan(raw, rowEnds)).value).value
      && Pieces(Trim(SpanText(HeaderSpan(raw, rowEnds)).value)).Some?
      && t.header == TrimAll(Pieces(Trim(SpanText(HeaderSpan(raw, rowEnds)).value)).value)
      && |t.header| <= |t.alignment|
      && |t.rows| == RowCount(rowEnds)
      && (forall k | 0 <= k < |t.rows| ::
            |t.rows[k]| == |t.header| && RowAt(raw, rowEnds, |t.header|, k + 2) == Some(t.rows[k]))
  {
    var h := SpanText(HeaderSpan(raw, rowEnds)).value;
    TrimIdempotent(h);
    var hs := Pieces(Trim(Trim(h))).value;
    RowsShape(raw, rowEnds, |hs|);
  }

  /** When every visited row can be cut, there is one row per visit, each of exactly `columns` cells. */
  lemma RowsShape(raw: Span, rowEnds: seq<int>, columns: nat)
    requires AllSome(RowResults(raw, rowEnds, columns, RowCount(rowEnds))).Some?
    ensures
      var rows := AllSome(RowResults(raw, rowEnds, columns, RowCount(rowEnds))).value;
      && |rows| == RowCount(rowEnds)
      && (forall k | 0 <= k < |rows| :: |rows[k]| == columns && RowAt(raw, rowEnds, columns, k + 2) == Some(rows[k]))
  {
    var results := RowResults(raw, rowEnds, columns, RowCount(rowEnds));
    var rows := AllSome(results).value;
    forall k | 0 <= k < |rows|
      ensures |rows[k]| == columns && RowAt(raw, rowEnds, columns, k + 2) == Some(rows[k])
    {
      assert results[k] == RowAt(raw, rowEnds, columns, k + 2);
    }
  }

  /**
    The cell code of the TABLE case: the alignment first, then the header
    cells, then the body rows.
   */
  method SplitTable(raw: Span, rowEndIndices: seq<int>) returns (table: Option<TableCells>)
    ensures table == TableOf(raw, rowEndIndices)
  {
    if |rowEndIndices| < 3 {
      return None;
    }
    var gravitySpan := raw.Substring(rowEndIndices[1], rowEndIndices[2] - rowEndIndices[1]);
    if !gravitySpan.Valid() {
      return None;
    }
    var gravityList := GetGravity(gravitySpan.ToString());
    if gravityList.None? {
      return None;
    }
    var headerSpan := raw.Substring(0, rowEndIndices[1]);
    if !headerSpan.Valid() {
      return None;
    }
    var header := Trim(headerSpan.ToString());
    header := Trim(header);
    var headerStrings := StripAndSplit(header);
    if headerStrings.None? {
      return None;
    }
    var columns := |headerStrings.value|;
    if columns > |gravityList.value| {
      return None;
    }
    var headerCells := HeaderCells(headerStrings.value);
    var rows := BodyRows(raw, rowEndIndices, columns);
    if rows.None? {
      return None;
    }
    table := Some(TableCells(gravityList.value, headerCells, rows.value));
  }

  /** The header loop: each header piece trimmed. */
  method HeaderCells(headerStrings: seq<string>) returns (cells: seq<string>)
    ensures cells == TrimAll(headerStrings)
  {
    cells := [];
    for i := 0 to |headerStrings|
      invariant cells == TrimAll(headerStrings[..i])
    {
      TrimAllSnoc(headerStrings, i);
      cells := cells + [Trim(headerStrings[i])];
    }
    assert headerStrings[..|headerStrings|] == headerStrings;
  }

  /** The body-row loop: rows 2 up to size - 3, stopping at the first one that throws. */
  method BodyRows(raw: Span, rowEndIndices: seq<int>, columns: nat) returns (rows: Option<seq<seq<string>>>)
    ensures rows == AllSome(RowResults(raw, rowEndIndices, columns, RowCount(rowEndIndices)))
  {
    ghost var results := RowResults(raw, rowEndIndices, columns, RowCount(rowEndIndices));
    var list: seq<seq<string>> := [];
    var i := 2;
    while i < |rowEndIndices| - 2
      invariant 2 <= i <= RowCount(rowEndIndices) + 2
      invariant AllSome(results[..i - 2]) == Some(list)
      decreases |rowEndIndices| - i
    {
      AllSomeSnoc(results, i - 2);
      var row := BodyRow(raw, rowEndIndices, columns, i);
      assert results[i - 2] == row;
      if row.None? {
        return None;
      }
      list := list + [row.value];
      i := i + 1;
    }
    assert results[..i - 2] == results;
    rows := Some(list);
  }

  /** One turn of the body-row loop: cut row `i` out, trim, strip, split, and fill `columns` cells. */
  method BodyRow(raw: Span, rowEndIndices: seq<int>, columns: nat, i: nat) returns (cells: Option<seq<string>>)
    requires 2 <= i <= |rowEndIndices| - 3
    ensures cells == RowAt(raw, rowEndIndices, columns, i)
  {
    var rowSpan;
    if i < |rowEndIndices| - 3 {
      rowSpan := raw.Substring(rowEndIndices[i], rowEndIndices[i + 1] - rowEndIndices[i]);
    } else {
      rowSpan := raw.Substring(rowEndIndices[|rowEndIndices| - 3], raw.length - rowEndIndices[|rowEndIndices| - 3]);
    }
    if !rowSpan.Valid() {
      return None;
    }
    var row := Trim(rowSpan.ToString());
    var tableRowStrings := StripAndSplit(row);
    if tableRowStrings.None? {
      return None;
    }
    var list := FillCells(tableRowStrings.value, columns);
    cells := Some(list);
  }

  /** The column loop of a body row: piece j trimmed while there is one, an empty cell after that. */
  method FillCells(pieces: seq<string>, columns: nat) returns (cells: seq<string>)
    ensures cells == RowCells(TrimAll(pieces), columns)
  {
    cells := [];
    for j := 0 to columns
      invariant cells == RowCells(TrimAll(pieces), j)
    {
      if j < |pieces| {
        cells := cells + [Trim(pieces[j])];
      } else {
        cells := cells + [""];
      }
    }
  }

  // ---------------------------------------------------------------- tables from the parser

  /**
    For a table the parser built from header `h` (no block prefix) and the
    delimiter and body lines `d..e` of one buffer, the views the cell code
    cuts are the header itself, the delimiter line with the line break
    before it, and for each body line its text with the line break before
    it: the row ends point at the lines they were taken from.
   */
  lemma ViewSlices(lines: seq<Line>, d: nat, e: nat, h: Line)
    requires d <= e < |lines| && h.prefixLength == 0
    ensures
      var b := BuiltTable(h, lines[d..e + 1]);
      var raw := b.Tokenize(None).raw;
      && HeaderSpan(raw, b.rowEnds) == h.src
      && GravitySpan(raw, b.rowEnds) == Span(h.src.arr, h.src.End(), lines[d].src.End() - h.src.End())
      && RowCount(b.rowEnds) == e - d
      && (forall k | d < k <= e ::
            RowSpan(raw, b.rowEnds, k - d + 1) ==
              Span(h.src.arr, lines[k - 1].src.End(), lines[k].src.End() - lines[k - 1].src.End()))
  {
    BuiltTableShape(lines, d, e, h);
    var b := BuiltTable(h, lines[d..e + 1]);
    var raw := b.Tokenize(None).raw;
    assert raw == b.table.src;
    forall k | d < k <= e
      ensures RowSpan(raw, b.rowEnds, k - d + 1) ==
              Span(h.src.arr, lines[k - 1].src.End(), lines[k].src.End() - lines[k - 1].src.End())
    {
      assert b.rowEnds[k - 1 - d + 2] == lines[k - 1].src.End() - h.src.start;
      assert b.rowEnds[k - d + 2] == lines[k].src.End() - h.src.start;
    }
  }
}
