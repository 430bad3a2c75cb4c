/**
  The parts of java.lang.String that the markdown core relies on, written out:
  contains, trim, and split on a single-character pattern.
 */
module JavaStrings {

  /** String.contains: `t` occurs in `s` at some offset. */
  predicate Contains(s: string, t: string) {
    exists k | 0 <= k <= |s| - |t| :: OccursAt(s, t, k)
  }

  /** `t` occurs in `s` starting at offset `k`. */
  predicate OccursAt(s: string, t: string, k: int)
    requires 0 <= k <= |s| - |t|
  {
    s[k..k + |t|] == t
  }

  /** A two-character pattern is absent when no adjacent pair of `s` spells it. */
  lemma NotContainsPair(s: string, a: char, b: char)
    requires forall i | 0 <= i < |s| - 1 :: !(s[i] == a && s[i + 1] == b)
    ensures !Contains(s, [a, b])
  {
    forall k | 0 <= k <= |s| - 2
      ensures !OccursAt(s, [a, b], k)
    {
      assert s[k..k + 2][0] == s[k] && s[k..k + 2][1] == s[k + 1];
    }
  }

  /** A three-character pattern is absent when no window of three characters of `s` spells it. */
  lemma NotContainsTriple(s: string, a: char, b: char, c: char)
    requires forall i | 0 <= i < |s| - 2 :: !(s[i] == a && s[i + 1] == b && s[i + 2] == c)
    ensures !Contains(s, [a, b, c])
  {
    forall k | 0 <= k <= |s| - 3
      ensures !OccursAt(s, [a, b, c], k)
    {
      assert s[k..k + 3][0] == s[k] && s[k..k + 3][1] == s[k + 1] && s[k..k + 3][2] == s[k + 2];
    }
  }

  // ---------------------------------------------------------------- trim

  /** The characters String.trim() removes: every code point up to U+0020. */
  predicate IsTrimmable(c: char) {
    c <= ' '
  }

  /** Removes the leading trimmable characters. */
  function TrimStart(s: string): string {
    if |s| > 0 && IsTrimmable(s[0]) then TrimStart(s[1..]) else s
  }

  /** What TrimStart leaves is a suffix of `s`, everything before it is trimmable, and it does not start with a trimmable character. */
  lemma {:induction false} TrimStartShape(s: string)
    ensures |TrimStart(s)| <= |s| && TrimStart(s) == s[|s| - |TrimStart(s)|..]
    ensures forall k | 0 <= k < |s| - |TrimStart(s)| :: IsTrimmable(s[k])
    ensures |TrimStart(s)| > 0 ==> !IsTrimmable(TrimStart(s)[0])
  {
    if |s| > 0 && IsTrimmable(s[0]) {
      TrimStartShape(s[1..]);
    }
  }

  /** Removes the trailing trimmable characters. */
  function TrimEnd(s: string): string {
    if |s| > 0 && IsTrimmable(s[|s| - 1]) then TrimEnd(s[..|s| - 1]) else s
  }

  /** What TrimEnd leaves is a prefix of `s`, everything after it is trimmable, and it does not end with a trimmable character. */
  lemma {:induction false} TrimEndShape(s: string)
    ensures |TrimEnd(s)| <= |s| && TrimEnd(s) == s[..|TrimEnd(s)|]
    ensures forall k | |TrimEnd(s)| <= k < |s| :: IsTrimmable(s[k])
    ensures |TrimEnd(s)| > 0 ==> !IsTrimmable(TrimEnd(s)[|TrimEnd(s)| - 1])
  {
    if |s| > 0 && IsTrimmable(s[|s| - 1]) {
      TrimEndShape(s[..|s| - 1]);
    }
  }

  /** String.trim() */
  function Trim(s: string): (r: string)
    ensures |r| <= |s|
    ensures |r| > 0 ==> !IsTrimmable(r[0]) && !IsTrimmable(r[|r| - 1])
  {
    TrimStartShape(s);
    TrimEndShape(TrimStart(s));
    TrimEnd(TrimStart(s))
  }

  /**
    Trim removes exactly a run of trimmable characters at each end: the result
    is the slice s[a..a + |Trim(s)|], everything outside it is trimmable, and
    the result neither starts nor ends with a trimmable character.
   */
  lemma TrimShape(s: string) returns (a: nat)
    ensures a + |Trim(s)| <= |s| && Trim(s) == s[a..a + |Trim(s)|]
    ensures forall k | 0 <= k < a :: IsTrimmable(s[k])
    ensures forall k | a + |Trim(s)| <= k < |s| :: IsTrimmable(s[k])
    ensures |Trim(s)| > 0 ==> !IsTrimmable(Trim(s)[0]) && !IsTrimmable(Trim(s)[|Trim(s)| - 1])
  {
    var u := TrimStart(s);
    var r := TrimEnd(u);
    TrimStartShape(s);
    TrimEndShape(u);
    a := |s| - |u|;
    assert r == u[..|r|];
    assert r == s[a..a + |r|];
    forall k | a + |r| <= k < |s|
      ensures IsTrimmable(s[k])
    {
      assert s[k] == u[k - a];
    }
  }

  /** Trimming twice is trimming once. */
  lemma TrimIdempotent(s: string)
    ensures Trim(Trim(s)) == Trim(s)
  {
    var r := Trim(s);
    TrimStartShape(s);
    TrimEndShape(TrimStart(s));
    assert TrimStart(r) == r by {
      if |r| > 0 {
        TrimNoop(r);
      }
    }
    assert TrimEnd(r) == r by {
      if |r| > 0 {
        TrimNoop(r);
      }
    }
  }

  lemma TrimNoop(r: string)
    requires |r| > 0 && !IsTrimmable(r[0]) && !IsTrimmable(r[|r| - 1])
    ensures TrimStart(r) == r && TrimEnd(r) == r
  {
  }

  // ---------------------------------------------------------------- split

  /** Cuts `s` at every `c`, keeping every piece (also the empty ones): always one more piece than separators. */
  function SplitAll(s: string, c: char): (pieces: seq<string>)
    ensures |pieces| >= 1
    ensures forall k | 0 <= k < |pieces| :: c !in pieces[k]
  {
    if |s| == 0 then [""]
    else
      var rest := SplitAll(s[1..], c);
      if s[0] == c then [""] + rest else [[s[0]] + rest[0]] + rest[1..]
  }

  /** Glues `pieces` back together with `c` between neighbours. */
  function Join(pieces: seq<string>, c: char): string
    requires |pieces| >= 1
  {
    if |pieces| == 1 then pieces[0] else pieces[0] + [c] + Join(pieces[1..], c)
  }

  /** Joining a piece in front of at least one more puts a separator between it and the join of the rest. */
  lemma JoinPrepend(head: string, rest: seq<string>, c: char)
    requires |rest| >= 1
    ensures Join([head] + rest, c) == head + [c] + Join(rest, c)
  {
    assert ([head] + rest)[1..] == rest;
  }

  /** Joining the pieces gives back the string that was split. */
  lemma {:induction false} JoinSplit(s: string, c: char)
    ensures Join(SplitAll(s, c), c) == s
  {
    if |s| > 0 {
      JoinSplit(s[1..], c);
      var rest := SplitAll(s[1..], c);
      if s[0] == c {
        assert SplitAll(s, c)[1..] == rest;
      } else {
        var ps := SplitAll(s, c);
        assert ps[1..] == rest[1..];
        if |rest| == 1 {
          assert ps == [[s[0]] + rest[0]];
        } else {
          assert Join(rest, c) == rest[0] + [c] + Join(rest[1..], c);
        }
      }
    }
  }

  /** Splitting a join of separator-free pieces gives back those pieces. */
  lemma {:induction false} SplitJoin(pieces: seq<string>, c: char)
    requires |pieces| >= 1
    requires forall k | 0 <= k < |pieces| :: c !in pieces[k]
    ensures SplitAll(Join(pieces, c), c) == pieces
  {
    if |pieces| == 1 {
      SplitFree(pieces[0], c);
    } else {
      SplitJoin(pieces[1..], c);
      SplitAfterFree(pieces[0], c, Join(pieces[1..], c));
      assert [pieces[0]] + pieces[1..] == pieces;
    }
  }

  /** A string free of `c` is one piece. */
  lemma {:induction false} SplitFree(s: string, c: char)
    requires c !in s
    ensures SplitAll(s, c) == [s]
  {
    if |s| > 0 {
      SplitFree(s[1..], c);
      assert [s[0]] + s[1..] == s;
    }
  }

  /** A separator-free head followed by `c` becomes the first piece. */
  lemma {:induction false} SplitAfterFree(a: string, c: char, b: string)
    requires c !in a
    ensures SplitAll(a + [c] + b, c) == [a] + SplitAll(b, c)
  {
    var s := a + [c] + b;
    if |a| == 0 {
      assert s[1..] == b;
    } else {
      assert s[1..] == a[1..] + [c] + b;
      SplitAfterFree(a[1..], c, b);
      assert [a[0]] + a[1..] == a;
    }
  }

  /** Removes the empty pieces at the end, as String.split does with a zero limit. */
  function DropTrailingEmpty(pieces: seq<string>): seq<string> {
    if |pieces| > 0 && pieces[|pieces| - 1] == "" then DropTrailingEmpty(pieces[..|pieces| - 1]) else pieces
  }

  /** What DropTrailingEmpty keeps is a prefix of the pieces that does not end with an empty piece, and every dropped piece is empty. */
  lemma {:induction false} DropTrailingEmptyShape(pieces: seq<string>)
    ensures |DropTrailingEmpty(pieces)| <= |pieces| && DropTrailingEmpty(pieces) == pieces[..|DropTrailingEmpty(pieces)|]
    ensures |DropTrailingEmpty(pieces)| > 0 ==> DropTrailingEmpty(pieces)[|DropTrailingEmpty(pieces)| - 1] != ""
    ensures forall k | |DropTrailingEmpty(pieces)| <= k < |pieces| :: pieces[k] == ""
  {
    if |pieces| > 0 && pieces[|pieces| - 1] == "" {
      var init := pieces[..|pieces| - 1];
      DropTrailingEmptyShape(init);
      assert init[..|DropTrailingEmpty(init)|] == pieces[..|DropTrailingEmpty(init)|];
    }
  }

  /**
    String.split with the one-character pattern `c` and no limit: a string
    without `c` is returned whole (so "" gives [""]); otherwise the pieces
    between separators, with the empty ones at the end dropped.
   */
  function JavaSplit(s: string, c: char): (r: seq<string>)
    ensures forall k | 0 <= k < |r| :: c !in r[k]
    ensures c in s && |r| > 0 ==> r[|r| - 1] != ""
  {
    DropTrailingEmptyShape(SplitAll(s, c));
    if c !in s then [s] else DropTrailingEmpty(SplitAll(s, c))
  }

  /**
    The pieces String.split returns are the leading pieces of the full cut,
    and every piece it leaves out is empty; none of them holds `c`.
   */
  lemma JavaSplitPrefix(s: string, c: char)
    ensures |JavaSplit(s, c)| <= |SplitAll(s, c)|
    ensures JavaSplit(s, c) == SplitAll(s, c)[..|JavaSplit(s, c)|]
    ensures forall k | |JavaSplit(s, c)| <= k < |SplitAll(s, c)| :: SplitAll(s, c)[k] == ""
    ensures forall k | 0 <= k < |JavaSplit(s, c)| :: c !in JavaSplit(s, c)[k]
  {
    if c !in s {
      SplitFree(s, c);
    } else {
      DropTrailingEmptyShape(SplitAll(s, c));
    }
  }
}
