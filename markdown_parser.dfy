/**
  MarkdownParser: the block-level pass that merges classified lines into
  paragraphs (parse), and the table delimiter test it uses.
 */
module MarkdownParser {
  import opened Wrappers
  import opened Spans
  import opened JavaStrings
  import opened MarkdownLines
  import opened MarkdownTableLines

  // ================================================================ countCharInString

  /** `s` with every `c` removed (String.replaceAll with a one-character pattern and an empty replacement). */
  function RemoveAll(s: string, c: char): (r: string)
    ensures |r| <= |s|
    ensures c !in r
  {
    if |s| == 0 then ""
    else RemoveAll(s[..|s| - 1], c) + (if s[|s| - 1] == c then "" else [s[|s| - 1]])
  }

  /** countCharInString: the length lost by removing every `c`. */
  function CountCharInString(s: string, c: char): (n: nat)
    ensures n <= |s|
  {
    |s| - |RemoveAll(s, c)|
  }

  /** The positions of `s` that hold `c`. */
  ghost function Positions(s: string, c: char): set<int> {
    set k | 0 <= k < |s| && s[k] == c
  }

  /** The count is the number of positions holding `c`. */
  lemma {:induction false} CountIsPositions(s: string, c: char)
    ensures CountCharInString(s, c) == |Positions(s, c)|
  {
    if |s| == 0 {
      assert Positions(s, c) == {};
    } else {
      var t := s[..|s| - 1];
      CountIsPositions(t, c);
      if s[|s| - 1] == c {
        assert Positions(s, c) == Positions(t, c) + {|t|};
      } else {
        assert Positions(s, c) == Positions(t, c);
      }
    }
  }

  /** Counting distributes over concatenation. */
  lemma {:induction false} CountAppend(a: string, b: string, c: char)
    ensures CountCharInString(a + b, c) == CountCharInString(a, c) + CountCharInString(b, c)
  {
    RemoveAllAppend(a, b, c);
  }

  lemma {:induction false} RemoveAllAppend(a: string, b: string, c: char)
    ensures RemoveAll(a + b, c) == RemoveAll(a, c) + RemoveAll(b, c)
  {
    if |b| > 0 {
      var b' := b[..|b| - 1];
      assert (a + b)[..|a + b| - 1] == a + b';
      RemoveAllAppend(a, b', c);
    } else {
      assert a + b == a;
    }
  }

  /** A string without `c` counts none. */
  lemma CountFree(s: string, c: char)
    requires c !in s
    ensures CountCharInString(s, c) == 0
  {
    CountIsPositions(s, c);
    assert Positions(s, c) == {};
  }

  /** A string in which no three positions hold `c` counts at most two. */
  lemma CountAtMostTwo(s: string, c: char)
    requires forall i, j, k | 0 <= i < j < k < |s| :: !(s[i] == c && s[j] == c && s[k] == c)
    ensures CountCharInString(s, c) <= 2
  {
    CountIsPositions(s, c);
    var p := Positions(s, c);
    if |p| >= 3 {
      var x :| x in p;
      assert |p - {x}| >= 2;
      var y :| y in p - {x};
      assert |p - {x} - {y}| >= 1;
      var z :| z in p - {x} - {y};
      var a, b, d := x, y, z;
      if a > b { a, b := b, a; }
      if b > d { b, d := d, b; }
      if a > b { a, b := b, a; }
      assert false;
    }
  }

  /** Three distinct positions holding `c` make a count of at least three. */
  lemma CountAtLeastThree(s: string, c: char, i: nat, j: nat, k: nat)
    requires i < j < k < |s| && s[i] == c && s[j] == c && s[k] == c
    ensures CountCharInString(s, c) >= 3
  {
    CountIsPositions(s, c);
    assert {i, j, k} <= Positions(s, c);
    SubsetCard({i, j, k}, Positions(s, c));
  }

  lemma SubsetCard(a: set<int>, b: set<int>)
    requires a <= b
    ensures |a| <= |b|
  {
    assert b == a + (b - a);
  }

  // ================================================================ isValidTableDelimiter

  /** One of the substrings that disqualify a delimiter. */
  predicate HasForbiddenPattern(line: string) {
    Contains(line, "||") || Contains(line, "::-") || Contains(line, "-::") || Contains(line, ":::") || Contains(line, "- -")
  }

  /** No piece holds more than two colons. */
  predicate WithinColonLimit(pieces: seq<string>) {
    forall k | 0 <= k < |pieces| :: CountCharInString(pieces[k], ':') <= 2
  }

  /** isValidTableDelimiter, test by test as the source orders them. */
  predicate IsValidTableDelimiter(line: string)
    ensures IsValidTableDelimiter(line) ==> |line| != 1
    ensures IsValidTableDelimiter(line) ==> forall k | 0 <= k <= |line| - 2 :: !OccursAt(line, "||", k)
    ensures line == "" ==> IsValidTableDelimiter(line)
  {
    if |line| == 1 then false
    else if Contains(line, "||") then false
    else if Contains(line, "::-") || Contains(line, "-::") || Contains(line, ":::") then false
    else if Contains(line, "- -") then false
    else WithinColonLimit(JavaSplit(line, '|'))
  }

  /**
    A line is a valid delimiter exactly when it is not a single character,
    holds none of the forbidden substrings, and every piece between pipes
    (the trailing empty ones String.split drops included) has at most two
    colons.
   */
  lemma ValidTableDelimiterIff(line: string)
    ensures IsValidTableDelimiter(line) <==>
      |line| != 1 && !HasForbiddenPattern(line) && WithinColonLimit(SplitAll(line, '|'))
  {
    var all := SplitAll(line, '|');
    var kept := JavaSplit(line, '|');
    JavaSplitPrefix(line, '|');
    if WithinColonLimit(kept) {
      forall k | 0 <= k < |all|
        ensures CountCharInString(all[k], ':') <= 2
      {
        if k < |kept| {
          assert all[k] == kept[k];
        } else {
          assert all[k] == "";
        }
      }
    }
    if WithinColonLimit(all) {
      forall k | 0 <= k < |kept|
        ensures CountCharInString(kept[k], ':') <= 2
      {
        assert kept[k] == all[k];
      }
    }
  }

  /** The empty line passes every test: it is accepted. */
  lemma EmptyLineIsValidDelimiter()
    ensures IsValidTableDelimiter("")
  {
    assert JavaSplit("", '|') == [""];
    CountFree("", ':');
  }

  // ================================================================ parse: the merge machine

  /** A merged line: a plain line, or a normalised table (its line fields and its row ends). */
  datatype Merged = Plain(line: Line) | Tabled(table: Line, rowEnds: seq<int>) {
    /** tokenize, as MarkdownLine or as MarkdownTableLine does it. */
    function Tokenize(parent: Option<nat>): Paragraph {
      match this
      case Plain(line) => line.Tokenize(parent)
      case Tabled(table, rowEnds) => table.TableTokenize(parent, rowEnds)
    }
  }

  /** The loop state of parse: the index of the next line, currentLine, and mergedLines. */
  datatype State = State(next: nat, current: Option<Line>, merged: seq<Merged>)

  /** Every line's span lies inside its buffer, so its text can be read. */
  predicate SpansValid(lines: seq<Line>) {
    forall k | 0 <= k < |lines| :: lines[k].src.Valid()
  }

  /** The text of line `k`. */
  function TextOf(lines: seq<Line>, k: nat): string
    requires SpansValid(lines) && k < |lines|
  {
    lines[k].src.ToString()
  }

  /**
    Where the table lookahead stops when it stands on line `j`: it moves on
    while the next line contains a pipe and `j < n - 2`.
   */
  function LookaheadEnd(lines: seq<Line>, j: nat): (e: nat)
    requires SpansValid(lines) && j + 1 < |lines|
    ensures j <= e && e + 1 < |lines|
    decreases |lines| - j
  {
    if Contains(TextOf(lines, j + 1), "|") && j < |lines| - 2 then LookaheadEnd(lines, j + 1) else j
  }

  /**
    Every line the lookahead moves onto contains a pipe and none is the last
    line; the line after the stop either has no pipe or is the last line.
   */
  lemma {:induction false} LookaheadEndShape(lines: seq<Line>, j: nat)
    requires SpansValid(lines) && j + 1 < |lines|
    ensures forall k | j < k <= LookaheadEnd(lines, j) :: Contains(TextOf(lines, k), "|")
    ensures LookaheadEnd(lines, j) > j ==> LookaheadEnd(lines, j) <= |lines| - 2
    ensures !(Contains(TextOf(lines, LookaheadEnd(lines, j) + 1), "|") && LookaheadEnd(lines, j) < |lines| - 2)
    decreases |lines| - j
  {
    if Contains(TextOf(lines, j + 1), "|") && j < |lines| - 2 {
      LookaheadEndShape(lines, j + 1);
    }
  }

  /** The last line a table whose delimiter is line `d` takes in (the delimiter itself when nothing follows it). */
  function TableLastLine(lines: seq<Line>, d: nat): nat
    requires SpansValid(lines) && d < |lines|
  {
    if d + 1 < |lines| then LookaheadEnd(lines, d) else d
  }

  /** The index parse goes on with after that table: one line past the last one taken in, when there is a following line. */
  function TableNext(lines: seq<Line>, d: nat): nat
    requires SpansValid(lines) && d < |lines|
  {
    if d + 1 < |lines| then LookaheadEnd(lines, d) + 2 else d + 1
  }

  /**
    The normalised table built from `header` with `rows` (the delimiter
    first) appended.
   */
  function BuiltTable(header: Line, rows: seq<Line>): Merged {
    var t := Accumulated(header, rows);
    Tabled(t, Normalized(Accumulation(header, rows), t.src.End()))
  }

  /**
    What a TEXT line, or a delimiter that failed the test, does to a present
    accumulator: it depends on the type of the previous physical line.
   */
  function TextStep(lines: seq<Line>, i: nat, current: Line, merged: seq<Merged>): (r: State)
    requires 0 < i < |lines|
    ensures r.next == i + 1 && r.current.Some?
    ensures r.merged == merged || r.merged == merged + [Plain(current)]
  {
    match lines[i - 1].kind
    case Quote | Bullet | Numbered | Text =>
      if lines[i - 1].spacesAtEnd >= 2 then State(i + 1, Some(lines[i]), merged + [Plain(current)])
      else State(i + 1, Some(current.Rejoin(lines[i])), merged)
    case Code | Header | HLine => State(i + 1, Some(lines[i]), merged + [Plain(current)])
    case _ => State(i + 1, Some(current), merged)
  }

  /** One turn of the merge loop of parse. */
  function Step(lines: seq<Line>, s: State): (r: State)
    requires SpansValid(lines) && s.next < |lines| && (s.next == 0 ==> s.current.None?)
    ensures s.next < r.next <= |lines|
  {
    var i := s.next;
    match s.current
    case None =>
      if lines[i].kind == Empty then State(i + 1, None, s.merged) else State(i + 1, Some(lines[i]), s.merged)
    case Some(current) =>
      match lines[i].kind
      case Bullet | Numbered | Header | Code | HLine | Quote =>
        State(i + 1, Some(lines[i]), s.merged + [Plain(current)])
      case Empty =>
        State(i + 1, None, s.merged + [Plain(current)])
      case TableDelimiter =>
        if i > 0 && IsValidTableDelimiter(TextOf(lines, i)) then
          State(TableNext(lines, i), None, s.merged + [BuiltTable(current, lines[i..TableLastLine(lines, i) + 1])])
        else
          TextStep(lines, i, current, s.merged)
      case Text =>
        TextStep(lines, i, current, s.merged)
      case Table =>
        State(i + 1, s.current, s.merged)
  }

  /** The merge loop from state `s` on, with the final flush. */
  function Run(lines: seq<Line>, s: State): seq<Merged>
    requires SpansValid(lines) && s.next <= |lines| && (s.next == 0 ==> s.current.None?)
    decreases |lines| - s.next
  {
    if s.next == |lines| then
      s.merged + (if s.current.Some? then [Plain(s.current.value)] else [])
    else
      Run(lines, Step(lines, s))
  }

  /** mergedLines as parse leaves it. */
  function Merge(lines: seq<Line>): seq<Merged>
    requires SpansValid(lines)
  {
    Run(lines, State(0, None, []))
  }

  /** The index of the last emitted paragraph, the parent of the next one. */
  function LastIndex(out: seq<Paragraph>): Option<nat> {
    if |out| == 0 then None else Some(|out| - 1)
  }

  /** The output loop of parse: tokenize each merged line in order and keep the non-empty paragraphs. */
  function Emit(merged: seq<Merged>, isEmpty: Paragraph -> bool): (r: seq<Paragraph>)
    ensures |r| <= |merged|
  {
    if |merged| == 0 then []
    else
      var out := Emit(merged[..|merged| - 1], isEmpty);
      var p := merged[|merged| - 1].Tokenize(LastIndex(out));
      if isEmpty(p) then out else out + [p]
  }

  // ================================================================ parse: properties

  /** No flushed plain line is typed EMPTY, and every table is typed TABLE. */
  predicate WellTyped(merged: seq<Merged>) {
    forall k | 0 <= k < |merged| ::
      (merged[k].Plain? ==> merged[k].line.kind != Empty) && (merged[k].Tabled? ==> merged[k].table.kind == Table)
  }

  /**
    What every state of the merge loop keeps: an accumulator exists only
    after at least one line, the line before it is not EMPTY and neither is
    the accumulator; each flushed entry and the accumulator used up at
    least one line of its own.
   */
  predicate Inv(lines: seq<Line>, s: State) {
    && SpansValid(lines)
    && s.next <= |lines|
    && (s.next == 0 ==> s.current.None?)
    && (s.current.Some? ==> s.next > 0 && lines[s.next - 1].kind != Empty && s.current.value.kind != Empty)
    && |s.merged| + (if s.current.Some? then 1 else 0) <= s.next
    && WellTyped(s.merged)
  }

  /** The loop starts in a state that keeps the invariant. */
  lemma InitialInv(lines: seq<Line>)
    requires SpansValid(lines)
    ensures Inv(lines, State(0, None, []))
  {
  }

  /** Each turn of the loop keeps the invariant. */
  lemma StepPreservesInv(lines: seq<Line>, s: State)
    requires Inv(lines, s) && s.next < |lines|
    ensures Inv(lines, Step(lines, s))
  {
    var i := s.next;
    if s.current.Some? && lines[i].kind == TableDelimiter && IsValidTableDelimiter(TextOf(lines, i)) {
      var rows := lines[i..TableLastLine(lines, i) + 1];
      AccumulatedShape(s.current.value, rows);
    }
  }

  /**
    The non-text cases of one turn. Without an accumulator an EMPTY line is
    skipped and any other line becomes the accumulator. With one, a block
    line flushes it and takes its place, and an EMPTY line flushes and
    clears it. An accumulator never exists at the first line, so the
    "invalid paragrapher state" exception cannot be thrown.
   */
  lemma AccumulatorRules(lines: seq<Line>, s: State)
    requires Inv(lines, s) && s.next < |lines|
    ensures s.current.Some? ==> s.next > 0
    ensures s.current.None? && lines[s.next].kind == Empty ==> Step(lines, s) == State(s.next + 1, None, s.merged)
    ensures s.current.None? && lines[s.next].kind != Empty ==> Step(lines, s) == State(s.next + 1, Some(lines[s.next]), s.merged)
    ensures s.current.Some? && lines[s.next].kind in {Bullet, Numbered, Header, Code, HLine, Quote} ==>
      Step(lines, s) == State(s.next + 1, Some(lines[s.next]), s.merged + [Plain(s.current.value)])
    ensures s.current.Some? && lines[s.next].kind == Empty ==>
      Step(lines, s) == State(s.next + 1, None, s.merged + [Plain(s.current.value)])
    ensures s.current.Some? && lines[s.next].kind == Table ==>
      Step(lines, s) == State(s.next + 1, s.current, s.merged)
  {
  }

  /**
    The TEXT cases of one turn, which a delimiter that fails the test falls
    through to as well, by the type of the previous line: after a
    QUOTE, BULLET, NUMBERED or TEXT line the accumulator is flushed and
    replaced when that line ends in two spaces and joined with the new line
    otherwise; after a CODE, HEADER or HLINE line it is flushed and replaced.
   */
  lemma TextRules(lines: seq<Line>, s: State)
    requires Inv(lines, s) && s.next < |lines| && s.current.Some?
    requires lines[s.next].kind == Text
          || (lines[s.next].kind == TableDelimiter && !IsValidTableDelimiter(TextOf(lines, s.next)))
    ensures lines[s.next - 1].kind in {Quote, Bullet, Numbered, Text} && lines[s.next - 1].spacesAtEnd >= 2 ==>
      Step(lines, s) == State(s.next + 1, Some(lines[s.next]), s.merged + [Plain(s.current.value)])
    ensures lines[s.next - 1].kind in {Quote, Bullet, Numbered, Text} && lines[s.next - 1].spacesAtEnd < 2 ==>
      Step(lines, s) == State(s.next + 1, Some(s.current.value.Rejoin(lines[s.next])), s.merged)
    ensures lines[s.next - 1].kind in {Code, Header, HLine} ==>
      Step(lines, s) == State(s.next + 1, Some(lines[s.next]), s.merged + [Plain(s.current.value)])
  {
  }

  /** The rest of the loop from an invariant state flushes no more entries than there are lines, all well typed. */
  lemma {:induction false} RunShape(lines: seq<Line>, s: State)
    requires Inv(lines, s)
    ensures |Run(lines, s)| <= |lines| && WellTyped(Run(lines, s))
    decreases |lines| - s.next
  {
    if s.next < |lines| {
      StepPreservesInv(lines, s);
      RunShape(lines, Step(lines, s));
    }
  }

  /**
    parse flushes at most one merged line per input line; no merged line is
    EMPTY and every table is typed TABLE.
   */
  lemma MergeShape(lines: seq<Line>)
    requires SpansValid(lines)
    ensures |Merge(lines)| <= |lines| && WellTyped(Merge(lines))
  {
    InitialInv(lines);
    RunShape(lines, State(0, None, []));
  }

  /**
    The table built from `h` with lines `d..e` appended spans from the
    header's start to the end of line `e`, and its N + 4 row ends are the
    header's end and each appended line's end relative to the header's
    start, after a leading 0 and before the unshifted absolute end.
   */
  lemma BuiltTableShape(lines: seq<Line>, d: nat, e: nat, h: Line)
    requires d <= e < |lines|
    ensures
      var b := BuiltTable(h, lines[d..e + 1]);
      && b.table ==
           Line(Span(h.src.arr, h.src.start, lines[e].src.End() - h.src.start), Table,
                h.spacesAtStart, lines[e].spacesAtEnd, h.prefixLength, h.level, h.number)
      && |b.rowEnds| == (e - d) + 4
      && b.rowEnds[0] == 0
      && b.rowEnds[1] == h.src.length
      && (forall k | d <= k <= e :: b.rowEnds[k - d + 2] == lines[k].src.End() - h.src.start)
      && b.rowEnds[e - d + 3] == lines[e].src.End()
  {
    var rows := lines[d..e + 1];
    AccumulatedShape(h, rows);
    AccumulationShape(h, rows);
    NormalizedShape(Accumulation(h, rows), Accumulated(h, rows).src.End());
    assert rows[|rows| - 1] == lines[e];
    var ends := BuiltTable(h, rows).rowEnds;
    forall k | d <= k <= e
      ensures ends[k - d + 2] == lines[k].src.End() - h.src.start
    {
      assert rows[k - d] == lines[k];
    }
  }

  /**
    A valid delimiter under an accumulator builds the whole table at once:
    the accumulator is the header and the delimiter is the first row; the
    following lines that contain a pipe are body rows, but never the last
    input line; the line after the last row is skipped; one table (of the
    shape BuiltTableShape gives) is flushed and the accumulator is cleared.
   */
  lemma TableStep(lines: seq<Line>, s: State)
    requires Inv(lines, s) && s.next < |lines| && s.current.Some?
    requires lines[s.next].kind == TableDelimiter && IsValidTableDelimiter(TextOf(lines, s.next))
    ensures
      var d, r := s.next, Step(lines, s);
      var e := TableLastLine(lines, d);
      && d <= e < |lines|
      && r.current.None?
      && r.next == (if d + 1 < |lines| then e + 2 else |lines|)
      && (forall k | d < k <= e :: Contains(TextOf(lines, k), "|") && k < |lines| - 1)
      && (d + 1 < |lines| ==> !(Contains(TextOf(lines, e + 1), "|") && e < |lines| - 2))
      && r.merged == s.merged + [BuiltTable(s.current.value, lines[d..e + 1])]
  {
    if s.next + 1 < |lines| {
      LookaheadEndShape(lines, s.next);
    }
  }

  /**
    After a delimiter that did not start a table (or a TABLE line), a TEXT
    line or a failing delimiter is dropped: the accumulator and the flushed
    lines stay as they are, and the loop moves past the line.
   */
  lemma SilentDrop(lines: seq<Line>, s: State)
    requires Inv(lines, s) && s.next < |lines| && s.current.Some?
    requires lines[s.next - 1].kind == TableDelimiter || lines[s.next - 1].kind == Table
    requires lines[s.next].kind == Text
          || (lines[s.next].kind == TableDelimiter && !IsValidTableDelimiter(TextOf(lines, s.next)))
    ensures Step(lines, s) == State(s.next + 1, s.current, s.merged)
  {
  }

  /** The accumulator after a soft-wrapped run of TEXT lines 0 .. k - 1. */
  function SoftJoined(lines: seq<Line>, k: nat): Line
    requires 0 < k <= |lines|
  {
    Line(Span(lines[0].src.arr, lines[0].src.start, lines[k - 1].src.End() - lines[0].src.start), lines[0].kind,
         lines[0].spacesAtStart, lines[k - 1].spacesAtEnd, lines[0].prefixLength, lines[0].level, lines[0].number)
  }

  /**
    TEXT lines of which none but the last ends in two spaces make a single
    paragraph: it spans from the first line's start to the last line's end,
    takes the first line's fields and the last line's trailing spaces.
   */
  lemma SoftWrap(lines: seq<Line>)
    requires SpansValid(lines) && |lines| > 0
    requires forall k | 0 <= k < |lines| :: lines[k].kind == Text
    requires forall k | 0 <= k < |lines| - 1 :: lines[k].spacesAtEnd < 2
    ensures Merge(lines) == [Plain(SoftJoined(lines, |lines|))]
  {
    assert Step(lines, State(0, None, [])) == State(1, Some(SoftJoined(lines, 1)), []);
    SoftWrapFrom(lines, 1);
  }

  lemma {:induction false} SoftWrapFrom(lines: seq<Line>, k: nat)
    requires SpansValid(lines) && 0 < k <= |lines|
    requires forall j | 0 <= j < |lines| :: lines[j].kind == Text
    requires forall j | 0 <= j < |lines| - 1 :: lines[j].spacesAtEnd < 2
    ensures Run(lines, State(k, Some(SoftJoined(lines, k)), [])) == [Plain(SoftJoined(lines, |lines|))]
    decreases |lines| - k
  {
    if k < |lines| {
      assert Step(lines, State(k, Some(SoftJoined(lines, k)), [])) == State(k + 1, Some(SoftJoined(lines, k + 1)), []);
      SoftWrapFrom(lines, k + 1);
    }
  }

  /** A TEXT line ending in two or more spaces ends its paragraph: the next TEXT line starts another. */
  lemma HardBreak(a: Line, b: Line)
    requires a.src.Valid() && b.src.Valid()
    requires a.kind == Text && b.kind == Text && a.spacesAtEnd >= 2
    ensures Merge([a, b]) == [Plain(a), Plain(b)]
  {
    var lines := [a, b];
    assert Step(lines, State(0, None, [])) == State(1, Some(a), []);
    assert Step(lines, State(1, Some(a), [])) == State(2, Some(b), [Plain(a)]);
    assert Run(lines, State(2, Some(b), [Plain(a)])) == [Plain(a), Plain(b)];
    assert Run(lines, State(1, Some(a), [])) == [Plain(a), Plain(b)];
  }

  /** A run of one or more EMPTY lines between two TEXT lines separates them into two paragraphs; the EMPTY lines disappear. */
  lemma BlankLineSeparates(a: Line, blanks: seq<Line>, b: Line)
    requires a.src.Valid() && b.src.Valid() && a.kind == Text && b.kind == Text
    requires |blanks| >= 1 && forall k | 0 <= k < |blanks| :: blanks[k].src.Valid() && blanks[k].kind == Empty
    ensures Merge([a] + blanks + [b]) == [Plain(a), Plain(b)]
  {
    var lines := [a] + blanks + [b];
    var n := |lines|;
    assert forall k | 1 <= k < n - 1 :: lines[k] == blanks[k - 1];
    assert lines[0] == a && lines[n - 1] == b;
    assert SpansValid(lines);
    assert Step(lines, State(0, None, [])) == State(1, Some(a), []);
    assert Step(lines, State(1, Some(a), [])) == State(2, None, [Plain(a)]);
    SkipBlanks(lines, 2, n - 1, [Plain(a)]);
    assert Step(lines, State(n - 1, None, [Plain(a)])) == State(n, Some(b), [Plain(a)]);
    assert Run(lines, State(n, Some(b), [Plain(a)])) == [Plain(a), Plain(b)];
    assert Run(lines, State(n - 1, None, [Plain(a)])) == [Plain(a), Plain(b)];
    assert Run(lines, State(1, Some(a), [])) == [Plain(a), Plain(b)];
  }

  /** Without an accumulator, a run of EMPTY lines changes nothing but the index. */
  lemma {:induction false} SkipBlanks(lines: seq<Line>, j: nat, e: nat, merged: seq<Merged>)
    requires SpansValid(lines) && 0 < j <= e <= |lines|
    requires forall k | j <= k < e :: lines[k].kind == Empty
    ensures Run(lines, State(j, None, merged)) == Run(lines, State(e, None, merged))
    decreases e - j
  {
    if j < e {
      assert Step(lines, State(j, None, merged)) == State(j + 1, None, merged);
      SkipBlanks(lines, j + 1, e, merged);
    }
  }

  /**
    The output loop emits at most one paragraph per merged line, none of
    them empty, each with the paragraph emitted before it as its parent.
   */
  lemma {:induction false} EmitShape(merged: seq<Merged>, isEmpty: Paragraph -> bool)
    ensures |Emit(merged, isEmpty)| <= |merged|
    ensures forall k | 0 <= k < |Emit(merged, isEmpty)| :: !isEmpty(Emit(merged, isEmpty)[k])
    ensures forall k | 0 <= k < |Emit(merged, isEmpty)| ::
      Emit(merged, isEmpty)[k].parent == (if k == 0 then None else Some(k - 1))
  {
    if |merged| > 0 {
      EmitShape(merged[..|merged| - 1], isEmpty);
    }
  }

  /**
    The emitted paragraphs come from the merged lines in their order: the
    j-th is the tokenization of merged line `ix[j]`, with strictly growing
    `ix`.
   */
  lemma {:induction false} EmitOrder(merged: seq<Merged>, isEmpty: Paragraph -> bool) returns (ix: seq<nat>)
    ensures |ix| == |Emit(merged, isEmpty)|
    ensures forall j | 0 <= j < |ix| :: ix[j] < |merged|
    ensures forall j, k | 0 <= j < k < |ix| :: ix[j] < ix[k]
    ensures forall j | 0 <= j < |ix| ::
      Emit(merged, isEmpty)[j] == merged[ix[j]].Tokenize(if j == 0 then None else Some(j - 1))
  {
    if |merged| == 0 {
      ix := [];
    } else {
      var init := merged[..|merged| - 1];
      var ix0 := EmitOrder(init, isEmpty);
      var out := Emit(init, isEmpty);
      var p := merged[|merged| - 1].Tokenize(LastIndex(out));
      assert forall j | 0 <= j < |ix0| :: merged[ix0[j]] == init[ix0[j]];
      if isEmpty(p) {
        ix := ix0;
      } else {
        ix := ix0 + [|merged| - 1];
        var em := Emit(merged, isEmpty);
        assert em == out + [p];
        forall j | 0 <= j < |ix|
          ensures em[j] == merged[ix[j]].Tokenize(if j == 0 then None else Some(j - 1))
        {
          if j == |out| {
            assert LastIndex(out) == (if j == 0 then None else Some(j - 1));
          } else {
            assert em[j] == out[j];
          }
        }
      }
    }
  }

  /** The paragraphs emitted from the first `m` merged lines are the first paragraphs emitted from all of them. */
  lemma {:induction false} EmitPrefix(merged: seq<Merged>, isEmpty: Paragraph -> bool, m: nat)
    requires m <= |merged|
    ensures Emit(merged[..m], isEmpty) <= Emit(merged, isEmpty)
  {
    if m < |merged| {
      var init := merged[..|merged| - 1];
      EmitPrefix(init, isEmpty, m);
      assert init[..m] == merged[..m];
    } else {
      assert merged[..m] == merged;
    }
  }

  /**
    Merged line `m` is emitted exactly when it tokenizes to a non-empty
    paragraph, with the last paragraph emitted before it as parent: then it
    is the next paragraph of the output; otherwise it adds nothing.
   */
  lemma EmitAt(merged: seq<Merged>, isEmpty: Paragraph -> bool, m: nat)
    requires m < |merged|
    ensures var out := Emit(merged[..m], isEmpty);
      var p := merged[m].Tokenize(LastIndex(out));
      Emit(merged[..m + 1], isEmpty) == (if isEmpty(p) then out else out + [p])
    ensures var out := Emit(merged[..m], isEmpty);
      var p := merged[m].Tokenize(LastIndex(out));
      !isEmpty(p) ==> |out| < |Emit(merged, isEmpty)| && Emit(merged, isEmpty)[|out|] == p
  {
    var init := merged[..m + 1];
    assert init[..|init| - 1] == merged[..m];
    assert init[|init| - 1] == merged[m];
    EmitPrefix(merged, isEmpty, m + 1);
  }

  /** When no merged line tokenizes to an empty paragraph, every one is emitted, in order. */
  lemma {:induction false} EmitKeepsAll(merged: seq<Merged>, isEmpty: Paragraph -> bool)
    requires forall k, parent | 0 <= k < |merged| :: !isEmpty(merged[k].Tokenize(parent))
    ensures |Emit(merged, isEmpty)| == |merged|
    ensures forall k | 0 <= k < |merged| ::
      Emit(merged, isEmpty)[k] == merged[k].Tokenize(if k == 0 then None else Some(k - 1))
  {
    if |merged| > 0 {
      var init := merged[..|merged| - 1];
      EmitKeepsAll(init, isEmpty);
      assert forall k | 0 <= k < |init| :: init[k] == merged[k];
    }
  }

  // ================================================================ parse: the loops

  /**
    The table lookahead of parse: from a table line that holds `header` with
    the delimiter (line `d`) appended, appends each following line that
    contains a pipe while the index is below n - 2, then steps past one more
    line. Returns the last table line built and the index the loop stands
    on afterwards.
   */
  method TakeTableRows(lines: seq<Line>, d: nat, header: Line, table: TableLine) returns (t: TableLine, i: nat)
    requires SpansValid(lines) && d < |lines|
    requires table.line == Accumulated(header, lines[d..d + 1])
    requires table.rowEndIndices.items == Accumulation(header, lines[d..d + 1])
    modifies table.rowEndIndices
    ensures i + 1 == TableNext(lines, d)
    ensures t.rowEndIndices == table.rowEndIndices
    ensures t.line == Accumulated(header, lines[d..TableLastLine(lines, d) + 1])
    ensures t.rowEndIndices.items == Accumulation(header, lines[d..TableLastLine(lines, d) + 1])
  {
    t := table;
    i := d;
    if i + 1 < |lines| {
      var line := TextOf(lines, i + 1);
      while Contains(line, "|") && i < |lines| - 2
        invariant d <= i && i + 1 < |lines|
        invariant line == TextOf(lines, i + 1)
        invariant LookaheadEnd(lines, i) == LookaheadEnd(lines, d)
        invariant t.rowEndIndices == table.rowEndIndices
        invariant t.line == Accumulated(header, lines[d..i + 1])
        invariant t.rowEndIndices.items == Accumulation(header, lines[d..i + 1])
        decreases |lines| - i
      {
        AppendOneRow(lines, d, i, header);
        t := t.CreateTable(lines[i + 1]);
        i := i + 1;
        line := TextOf(lines, i + 1);
      }
      i := i + 1;
    }
  }

  lemma AppendOneRow(lines: seq<Line>, d: nat, j: nat, header: Line)
    requires d <= j && j + 1 < |lines|
    ensures Accumulated(header, lines[d..j + 2]) == Accumulated(header, lines[d..j + 1]).AppendRow(lines[j + 1])
    ensures Accumulation(header, lines[d..j + 2]) == Accumulation(header, lines[d..j + 1]) + [lines[j + 1].src.End()]
  {
    assert lines[d..j + 2] == lines[d..j + 1] + [lines[j + 1]];
    AppendedOne(header, lines[d..j + 1], lines[j + 1]);
  }

  /**
    The table branch of parse: seeds a table line with the accumulator,
    appends the delimiter (line `d`) and the rows the lookahead takes, and
    normalises the result. Returns the flushed table and the index the loop
    stands on afterwards.
   */
  method BuildTable(lines: seq<Line>, d: nat, current: Line) returns (table: Merged, i: nat)
    requires SpansValid(lines) && d < |lines|
    ensures table == BuiltTable(current, lines[d..TableLastLine(lines, d) + 1])
    ensures i + 1 == TableNext(lines, d)
  {
    var header := new TableLine.FromLine(current);
    var t := header.CreateTable(lines[d]);
    assert lines[d..d + 1] == [] + [lines[d]];
    AppendedOne(current, [], lines[d]);
    t, i := TakeTableRows(lines, d, current, t);
    AccumulatedShape(current, lines[d..TableLastLine(lines, d) + 1]);
    var normalized := t.NormalizeTable();
    table := Tabled(normalized.line, normalized.rowEndIndices.items);
  }

  /**
    The TEXT case of the merge loop, on line `i` with accumulator `current`:
    decided by the type of the previous physical line.
   */
  method MergeText(lines: seq<Line>, i: nat, current: Line, mergedLines: seq<Merged>)
    returns (merged: seq<Merged>, currentLine: Line)
    requires 0 < i < |lines|
    ensures TextStep(lines, i, current, mergedLines) == State(i + 1, Some(currentLine), merged)
  {
    merged, currentLine := mergedLines, current;
    match lines[i - 1].kind {
      case Quote | Bullet | Numbered | Text =>
        if lines[i - 1].spacesAtEnd >= 2 {
          merged := merged + [Plain(currentLine)];
          currentLine := lines[i];
        } else {
          currentLine := currentLine.Rejoin(lines[i]);
        }
      case Code | Header | HLine =>
        merged := merged + [Plain(currentLine)];
        currentLine := lines[i];
      case _ =>
    }
  }

  /**
    The merge loop of parse (MarkdownParser.java, `parse`, up to the final
    flush): it produces exactly the merged lines of Merge.
   */
  method MergeLines(lines: seq<Line>) returns (mergedLines: seq<Merged>)
    requires SpansValid(lines)
    ensures mergedLines == Merge(lines)
  {
    mergedLines := [];
    var currentLine: Option<Line> := None;
    var i: nat := 0;
    InitialInv(lines);
    while i < |lines|
      invariant Inv(lines, State(i, currentLine, mergedLines))
      invariant Run(lines, State(i, currentLine, mergedLines)) == Merge(lines)
      decreases |lines| - i
    {
      ghost var s := State(i, currentLine, mergedLines);
      StepPreservesInv(lines, s);
      if currentLine.Some? {
        var asText := false;
        match lines[i].kind {
          case Bullet | Numbered | Header | Code | HLine | Quote =>
            mergedLines := mergedLines + [Plain(currentLine.value)];
            currentLine := Some(lines[i]);
          case Empty =>
            mergedLines := mergedLines + [Plain(currentLine.value)];
            currentLine := None;
          case TableDelimiter =>
            if i > 0 && IsValidTableDelimiter(TextOf(lines, i)) {
              var table;
              table, i := BuildTable(lines, i, currentLine.value);
              mergedLines := mergedLines + [table];
              currentLine := None;
            } else {
              // not a table: handled as the TEXT case below
              asText := true;
            }
          case Text =>
            asText := true;
          case Table =>
        }
        if asText {
          if i < 1 {
            assert false;
          }
          var merged, current := MergeText(lines, i, currentLine.value, mergedLines);
          mergedLines, currentLine := merged, Some(current);
        }
      } else if lines[i].kind != Empty {
        currentLine := Some(lines[i]);
      }
      i := i + 1;
      assert State(i, currentLine, mergedLines) == Step(lines, s);
    }
    if currentLine.Some? {
      mergedLines := mergedLines + [Plain(currentLine.value)];
    }
  }

  /**
    parse on already classified lines: merges them, then tokenizes each
    merged line with the last kept paragraph as its parent and keeps the
    paragraphs `isEmpty` does not reject.
   */
  method Parse(lines: seq<Line>, isEmpty: Paragraph -> bool) returns (paragraphs: seq<Paragraph>)
    requires SpansValid(lines)
    ensures paragraphs == Emit(Merge(lines), isEmpty)
  {
    var mergedLines := MergeLines(lines);
    paragraphs := [];
    for k := 0 to |mergedLines|
      invariant paragraphs == Emit(mergedLines[..k], isEmpty)
    {
      assert mergedLines[..k + 1][..k] == mergedLines[..k];
      var lastParagraph := if |paragraphs| == 0 then None else Some(|paragraphs| - 1);
      var paragraph := mergedLines[k].Tokenize(lastParagraph);
      if !isEmpty(paragraph) {
        paragraphs := paragraphs + [paragraph];
      }
    }
    assert mergedLines[..|mergedLines|] == mergedLines;
  }

  /** What parse returns: at most one paragraph per merged line and one merged line per input line. */
  lemma ParseCount(lines: seq<Line>, isEmpty: Paragraph -> bool)
    requires SpansValid(lines)
    ensures |Emit(Merge(lines), isEmpty)| <= |Merge(lines)| <= |lines|
  {
    MergeShape(lines);
    EmitShape(Merge(lines), isEmpty);
  }
}
