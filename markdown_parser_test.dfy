/**
  The delimiter cases of MarkdownParserTest.testTableRegex, each proved
  about the model of isValidTableDelimiter.
 */
module MarkdownParserTest {
  import opened JavaStrings
  import opened MarkdownParser

  /** A forbidden substring ("||", "::-", "-::", ":::" or "- -") starts at position `i` of `s`. */
  predicate ForbiddenAt(s: string, i: int)
    requires 0 <= i < |s|
  {
    || (i + 1 < |s| && s[i] == '|' && s[i + 1] == '|')
    || (i + 2 < |s| && s[i] == ':' && s[i + 1] == ':' && s[i + 2] == '-')
    || (i + 2 < |s| && s[i] == '-' && s[i + 1] == ':' && s[i + 2] == ':')
    || (i + 2 < |s| && s[i] == ':' && s[i + 1] == ':' && s[i + 2] == ':')
    || (i + 2 < |s| && s[i] == '-' && s[i + 1] == ' ' && s[i + 2] == '-')
  }

  /** When no position starts a forbidden substring, none is contained. */
  lemma NoForbiddenPattern(s: string)
    requires forall i | 0 <= i < |s| :: !ForbiddenAt(s, i)
    ensures !HasForbiddenPattern(s)
  {
    forall i | 0 <= i < |s| - 1
      ensures !(s[i] == '|' && s[i + 1] == '|')
    {
      assert !ForbiddenAt(s, i);
    }
    NotContainsPair(s, '|', '|');
    forall i | 0 <= i < |s| - 2
      ensures !(s[i] == ':' && s[i + 1] == ':' && s[i + 2] == '-')
      ensures !(s[i] == '-' && s[i + 1] == ':' && s[i + 2] == ':')
      ensures !(s[i] == ':' && s[i + 1] == ':' && s[i + 2] == ':')
      ensures !(s[i] == '-' && s[i + 1] == ' ' && s[i + 2] == '-')
    {
      assert !ForbiddenAt(s, i);
    }
    NotContainsTriple(s, ':', ':', '-');
    NotContainsTriple(s, '-', ':', ':');
    NotContainsTriple(s, ':', ':', ':');
    NotContainsTriple(s, '-', ' ', '-');
  }

  /** No three positions of `cell` hold a colon. */
  predicate AtMostTwoColons(cell: string) {
    forall i, j, k | 0 <= i < j < k < |cell| :: !(cell[i] == ':' && cell[j] == ':' && cell[k] == ':')
  }

  /**
    A line that is the pipe-free `pieces` joined by pipes, is not a single
    character, holds no forbidden substring and has no piece with three colons
    is a valid delimiter.
   */
  lemma Accepted(s: string, pieces: seq<string>)
    requires |s| != 1 && |pieces| >= 1 && s == Join(pieces, '|')
    requires forall k | 0 <= k < |pieces| :: '|' !in pieces[k] && AtMostTwoColons(pieces[k])
    requires forall i | 0 <= i < |s| :: !ForbiddenAt(s, i)
    ensures IsValidTableDelimiter(s)
  {
    NoForbiddenPattern(s);
    SplitJoin(pieces, '|');
    forall k | 0 <= k < |pieces|
      ensures CountCharInString(pieces[k], ':') <= 2
    {
      CountAtMostTwo(pieces[k], ':');
    }
    ValidTableDelimiterIff(s);
  }

  /** A line whose piece `k` (of the pipe-free `pieces` joined by pipes) holds three colons is not a valid delimiter. */
  lemma RejectedForColons(s: string, pieces: seq<string>, k: nat, a: nat, b: nat, c: nat)
    requires |pieces| >= 1 && s == Join(pieces, '|') && k < |pieces|
    requires forall j | 0 <= j < |pieces| :: '|' !in pieces[j]
    requires a < b < c < |pieces[k]| && pieces[k][a] == ':' && pieces[k][b] == ':' && pieces[k][c] == ':'
    ensures !IsValidTableDelimiter(s)
  {
    SplitJoin(pieces, '|');
    CountAtLeastThree(pieces[k], ':', a, b, c);
    ValidTableDelimiterIff(s);
  }

  /** MarkdownParserTest.java:14 */
  lemma TableRegex14()
    ensures IsValidTableDelimiter(":---|:---|--")
  {
    Accepted(":---|:---|--", [":---", ":---", "--"]);
  }

  /** MarkdownParserTest.java:15 */
  lemma TableRegex15()
    ensures IsValidTableDelimiter(":---:|:---:|:--:")
  {
    Accepted(":---:|:---:|:--:", [":---:", ":---:", ":--:"]);
  }

  /** MarkdownParserTest.java:16 */
  lemma TableRegex16()
    ensures IsValidTableDelimiter("---|---|--")
  {
    Accepted("---|---|--", ["---", "---", "--"]);
  }

  /** MarkdownParserTest.java:17 */
  lemma TableRegex17()
    ensures IsValidTableDelimiter(":|:|:")
  {
    Accepted(":|:|:", [":", ":", ":"]);
  }

  /** MarkdownParserTest.java:18 */
  lemma TableRegex18()
    ensures IsValidTableDelimiter("-|-")
  {
    Accepted("-|-", ["-", "-"]);
  }

  /** MarkdownParserTest.java:19 */
  lemma TableRegex19()
    ensures IsValidTableDelimiter("-|-|")
  {
    Accepted("-|-|", ["-", "-", ""]);
  }

  /** MarkdownParserTest.java:20 */
  lemma TableRegex20()
    ensures IsValidTableDelimiter(":---|:---|")
  {
    Accepted(":---|:---|", [":---", ":---", ""]);
  }

  /** MarkdownParserTest.java:21 */
  lemma TableRegex21()
    ensures IsValidTableDelimiter(":-|")
  {
    Accepted(":-|", [":-", ""]);
  }

  /** MarkdownParserTest.java:22 */
  lemma TableRegex22()
    ensures IsValidTableDelimiter("|--|--")
  {
    Accepted("|--|--", ["", "--", "--"]);
  }

  /** MarkdownParserTest.java:23 */
  lemma TableRegex23()
    ensures IsValidTableDelimiter("|--|:--")
  {
    Accepted("|--|:--", ["", "--", ":--"]);
  }

  /** MarkdownParserTest.java:24 */
  lemma TableRegex24()
    ensures IsValidTableDelimiter("|--|:--:|--")
  {
    Accepted("|--|:--:|--", ["", "--", ":--:", "--"]);
  }

  /** MarkdownParserTest.java:25 */
  lemma TableRegex25()
    ensures IsValidTableDelimiter("-|")
  {
    Accepted("-|", ["-", ""]);
  }

  /** No position of the line of MarkdownParserTest.java:26 starts a forbidden substring. */
  lemma Clean26()
    ensures forall i | 0 <= i < 21 :: !ForbiddenAt("|:-:|:-:|:-:|:-:|:-:|", i)
  {
  }

  /** The pieces of the line of MarkdownParserTest.java:26 joined by pipes give that line. */
  lemma Join26()
    ensures Join(["", ":-:", ":-:", ":-:", ":-:", ":-:", ""], '|') == "|:-:|:-:|:-:|:-:|:-:|"
  {
    var cell := ":-:";
    var p1 := [cell, ""];
    var p2 := [cell] + p1;
    var p3 := [cell] + p2;
    var p4 := [cell] + p3;
    var p5 := [cell] + p4;
    var p6 := [""] + p5;
    JoinPrepend(cell, [""], '|');
    JoinPrepend(cell, p1, '|');
    JoinPrepend(cell, p2, '|');
    JoinPrepend(cell, p3, '|');
    JoinPrepend(cell, p4, '|');
    JoinPrepend("", p5, '|');
    assert p6 == ["", ":-:", ":-:", ":-:", ":-:", ":-:", ""];
  }

  /** MarkdownParserTest.java:26 */
  lemma TableRegex26()
    ensures IsValidTableDelimiter("|:-:|:-:|:-:|:-:|:-:|")
  {
    Clean26();
    Join26();
    Accepted("|:-:|:-:|:-:|:-:|:-:|", ["", ":-:", ":-:", ":-:", ":-:", ":-:", ""]);
  }

  /** MarkdownParserTest.java:27 */
  lemma TableRegex27()
    ensures IsValidTableDelimiter(":---: |")
  {
    Accepted(":---: |", [":---: ", ""]);
  }

  /** MarkdownParserTest.java:28 */
  lemma TableRegex28()
    ensures IsValidTableDelimiter("---| ---")
  {
    Accepted("---| ---", ["---", " ---"]);
  }

  /** MarkdownParserTest.java:29 */
  lemma TableRegex29()
    ensures IsValidTableDelimiter("---|   ---")
  {
    Accepted("---|   ---", ["---", "   ---"]);
  }

  /** MarkdownParserTest.java:30 */
  lemma TableRegex30()
    ensures IsValidTableDelimiter("---|---  ")
  {
    Accepted("---|---  ", ["---", "---  "]);
  }

  /** MarkdownParserTest.java:31 */
  lemma TableRegex31()
    ensures IsValidTableDelimiter("---|---  |")
  {
    Accepted("---|---  |", ["---", "---  ", ""]);
  }

  /** MarkdownParserTest.java:32 */
  lemma TableRegex32()
    ensures IsValidTableDelimiter("---|---  |  --")
  {
    Accepted("---|---  |  --", ["---", "---  ", "  --"]);
  }

  /** MarkdownParserTest.java:33-40 */
  lemma RejectedDelimiters()
    ensures !IsValidTableDelimiter("--||--")
    ensures !IsValidTableDelimiter("|")
    ensures !IsValidTableDelimiter("||--")
    ensures !IsValidTableDelimiter(":-:-:|:---:|:--:")
    ensures !IsValidTableDelimiter(":---:|:-:-:|:--:")
    ensures !IsValidTableDelimiter(":---:|:---:|::-:")
    ensures !IsValidTableDelimiter(":---:|:---:|:-::")
    ensures !IsValidTableDelimiter("-- -|--")
  {
    assert OccursAt("--||--", "||", 2);
    assert OccursAt("||--", "||", 0);
    RejectedForColons(":-:-:|:---:|:--:", [":-:-:", ":---:", ":--:"], 0, 0, 2, 4);
    RejectedForColons(":---:|:-:-:|:--:", [":---:", ":-:-:", ":--:"], 1, 0, 2, 4);
    assert OccursAt(":---:|:---:|::-:", "::-", 12);
    assert OccursAt(":---:|:---:|:-::", "-::", 13);
    assert OccursAt("-- -|--", "- -", 1);
  }
}
