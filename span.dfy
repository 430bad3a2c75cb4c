/**
  CharArrSubstring: a zero-copy view of `length` characters of a shared
  character buffer, starting at offset `start`. The class itself is not part
  of this model; its operations are written here as the assumptions the
  parser relies on.
 */
module Spans {

  datatype Span = Span(arr: string, start: int, length: int) {

    /** The view lies inside its buffer. */
    predicate Valid() {
      0 <= start && 0 <= length && start + length <= |arr|
    }

    /** The offset just past the view (`start + length` in the source). */
    function End(): int {
      start + length
    }

    /** toString(): the characters the view covers. */
    function ToString(): (s: string)
      requires Valid()
      ensures |s| == length
    {
      arr[start..start + length]
    }

    /** rejoin(toAppend): assumed to run, over this view's buffer, from this view's start to the end of `toAppend`. */
    function Rejoin(toAppend: Span): (r: Span)
      ensures r.arr == arr && r.start == start && r.End() == toAppend.End()
    {
      Span(arr, start, toAppend.End() - start)
    }

    /** substring(offset, len): assumed to be the view of `len` characters from `start + offset`. */
    function Substring(offset: int, len: int): (r: Span)
      ensures r.arr == arr && r.start == start + offset && r.length == len
    {
      Span(arr, start + offset, len)
    }

    /** substring(offset): the rest of the view from `offset` on. */
    function SubstringFrom(offset: int): (r: Span)
      ensures r.arr == arr && r.start == start + offset && r.End() == End()
    {
      Substring(offset, length - offset)
    }
  }

  /**
    Rejoining two views of one buffer where the second starts after the first
    covers the first, the characters between them and the second: nothing is
    copied in or left out.
   */
  lemma RejoinLossless(a: Span, b: Span)
    requires a.Valid() && b.Valid() && a.arr == b.arr && a.End() <= b.start
    ensures a.Rejoin(b).Valid()
    ensures a.Rejoin(b).ToString() == a.ToString() + a.arr[a.End()..b.start] + b.ToString()
  {
    var s := a.arr;
    assert s[a.start..b.End()] == s[a.start..a.End()] + s[a.End()..b.start] + s[b.start..b.End()];
  }

  /** The text of a view from `offset` on is the text of the view with its first `offset` characters dropped. */
  lemma SubstringFromText(a: Span, offset: int)
    requires a.Valid() && 0 <= offset <= a.length
    ensures a.SubstringFrom(offset).Valid()
    ensures a.SubstringFrom(offset).ToString() == a.ToString()[offset..]
  {
  }
}
