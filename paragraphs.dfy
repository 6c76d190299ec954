/**
 * `re.split(r'\n\s*\n', text)`: the page text is cut at every blank line
 * (a line break, optional whitespace, another line break). The scan finds
 * the leftmost break; from there `\s*` takes the longest run it can that
 * still ends in a line break, so a separator runs from the first to the last
 * line break of its whitespace run.
 */
module Paragraphs {
  import opened Wrappers
  import opened Text

  /** `s[a..b + 1]` is a match of `\n\s*\n`: line breaks at `a` and `b`, whitespace between. */
  predicate BlankLineAt(s: string, a: int, b: int) {
    0 <= a < b < |s| && s[a] == '\n' && s[b] == '\n' && AllSpace(s[a + 1..b])
  }

  /** `t` contains no match of `\n\s*\n`. */
  predicate NoBlankLine(t: string) {
    forall a, b :: 0 <= a < b < |t| ==> !BlankLineAt(t, a, b)
  }

  /** A whole separator: a line break, whitespace, a line break. */
  predicate IsSeparator(t: string) {
    |t| >= 2 && t[0] == '\n' && t[|t| - 1] == '\n' && AllSpace(t)
  }

  /** No whitespace run ending in a line break starts at `e`: a separator ending at `e` is as long as it can be. */
  predicate Greedy(s: string, e: int) {
    forall q :: 0 <= e <= q < |s| && s[q] == '\n' ==> !AllSpace(s[e..q])
  }

  /** The last line break in `s[lo..hi]`, if any. */
  function LastNewline(s: string, lo: nat, hi: nat): (k: Option<nat>)
    requires lo <= hi <= |s|
    ensures k.Some? ==> lo <= k.value < hi && s[k.value] == '\n'
    ensures k.Some? ==> forall q :: k.value < q < hi ==> s[q] != '\n'
    ensures k.None? ==> forall q :: lo <= q < hi ==> s[q] != '\n'
    decreases hi
  {
    if hi <= lo then None
    else if s[hi - 1] == '\n' then Some(hi - 1)
    else LastNewline(s, lo, hi - 1)
  }

  /** Where the separator starting at `p` ends, when a blank line starts at `p`. */
  function BreakEnd(s: string, p: nat): (e: Option<nat>)
    requires p < |s|
    ensures e.Some? ==> p + 2 <= e.value <= |s|
  {
    if s[p] != '\n' then None
    else
      match LastNewline(s, p + 1, SkipSpaces(s, p + 1))
      case None => None
      case Some(k) => Some(k + 1)
  }

  /**
   * A separator starts at `p` exactly when a blank line does, and it reaches
   * the last line break of the whitespace run: what follows it does not
   * start with whitespace and a line break.
   */
  lemma BreakEndSpec(s: string, p: nat)
    requires p < |s|
    ensures BreakEnd(s, p).Some? ==>
              var e := BreakEnd(s, p).value;
              IsSeparator(s[p..e]) && Greedy(s, e)
    ensures BreakEnd(s, p).None? ==> forall b :: !BlankLineAt(s, p, b)
  {
    if s[p] == '\n' {
      var j := SkipSpaces(s, p + 1);
      match LastNewline(s, p + 1, j)
      case None =>
        NoNewlineInRun(s, p);
      case Some(k) =>
        RunToLastNewline(s, p, k);
    }
  }

  /** No line break in the whitespace run after `p`: no blank line starts at `p`. */
  lemma NoNewlineInRun(s: string, p: nat)
    requires p < |s|
    requires forall q :: p + 1 <= q < SkipSpaces(s, p + 1) ==> s[q] != '\n'
    ensures forall b :: !BlankLineAt(s, p, b)
  {
    var j := SkipSpaces(s, p + 1);
    forall b | p < b < |s| && s[b] == '\n'
      ensures !AllSpace(s[p + 1..b])
    {
      assert j < b;
      assert s[p + 1..b][j - p - 1] == s[j];
    }
  }

  /** From a line break at `p` to the last line break `k` of the whitespace run after it. */
  lemma RunToLastNewline(s: string, p: nat, k: nat)
    requires p < |s| && s[p] == '\n'
    requires p + 1 <= k < SkipSpaces(s, p + 1) && s[k] == '\n'
    requires forall q :: k < q < SkipSpaces(s, p + 1) ==> s[q] != '\n'
    ensures IsSeparator(s[p..k + 1]) && Greedy(s, k + 1)
  {
    RunIsSeparator(s, p, k);
    RunIsGreedy(s, p, k);
  }

  /** The text from `p` to the line break `k` is a separator. */
  lemma RunIsSeparator(s: string, p: nat, k: nat)
    requires p < |s| && s[p] == '\n'
    requires p + 1 <= k < SkipSpaces(s, p + 1) && s[k] == '\n'
    ensures IsSeparator(s[p..k + 1])
  {
    var sep := s[p..k + 1];
    forall m | 0 <= m < |sep|
      ensures IsSpace(sep[m])
    {
      assert sep[m] == s[p + m];
    }
    assert sep[|sep| - 1] == s[k];
  }

  /** After the last line break of the run, no further whitespace reaches a line break. */
  lemma RunIsGreedy(s: string, p: nat, k: nat)
    requires p < |s|
    requires p + 1 <= k < SkipSpaces(s, p + 1)
    requires forall q :: k < q < SkipSpaces(s, p + 1) ==> s[q] != '\n'
    ensures Greedy(s, k + 1)
  {
    var j := SkipSpaces(s, p + 1);
    var e := k + 1;
    forall q | e <= q < |s| && s[q] == '\n'
      ensures !AllSpace(s[e..q])
    {
      assert j <= q;
      assert j != q;
      assert s[e..q][j - e] == s[j];
    }
  }

  /** The result of `re.split`: the pieces, and the separators cut out between them. */
  datatype Pieces = Pieces(paragraphs: seq<string>, separators: seq<string>)

  /** Split `s[start..]`, the current piece running from `start` and the scan at `i`. */
  function SplitFrom(s: string, start: nat, i: nat): (r: Pieces)
    requires start <= i <= |s|
    ensures |r.paragraphs| == |r.separators| + 1
    decreases |s| - i
  {
    if i == |s| then Pieces([s[start..]], [])
    else
      match BreakEnd(s, i)
      case None => SplitFrom(s, start, i + 1)
      case Some(e) =>
        var rest := SplitFrom(s, e, e);
        Pieces([s[start..i]] + rest.paragraphs, [s[i..e]] + rest.separators)
  }

  /** `re.split(r'\n\s*\n', s)`. */
  function SplitParagraphs(s: string): seq<string> {
    SplitFrom(s, 0, 0).paragraphs
  }

  /** The pieces with the separators put back between them. */
  function Interleave(pieces: seq<string>, seps: seq<string>): string
    requires |pieces| == |seps| + 1
  {
    if seps == [] then pieces[0]
    else pieces[0] + seps[0] + Interleave(pieces[1..], seps[1..])
  }

  /** A line break in front of a piece that follows a separator, or behind one that precedes one. */
  function Edge(present: bool): string {
    if present then "\n" else ""
  }

  lemma SliceIndex(s: string, lo: nat, hi: nat, a: nat, b: nat)
    requires lo <= hi <= |s| && a < b < hi - lo
    ensures s[lo..hi][a] == s[lo + a] && s[lo..hi][b] == s[lo + b]
    ensures s[lo..hi][a + 1..b] == s[lo + a + 1..lo + b]
  {
    var u := s[lo..hi][a + 1..b];
    var v := s[lo + a + 1..lo + b];
    forall m | 0 <= m < |u|
      ensures u[m] == v[m]
    {
    }
  }

  /** The piece `s[start..i]` with the line breaks that bound it is a slice of `s`. */
  lemma FramedSlice(s: string, start: nat, i: nat, close: bool)
    requires start <= i <= |s|
    requires start > 0 ==> s[start - 1] == '\n'
    requires close ==> i < |s| && s[i] == '\n'
    ensures var lo := if start > 0 then start - 1 else 0;
            var hi := if close then i + 1 else i;
            s[lo..hi] == Edge(start > 0) + s[start..i] + Edge(close)
  {
    var hi := if close then i + 1 else i;
    if close {
      assert s[start..hi] == s[start..i] + [s[i]];
    }
    if start > 0 {
      assert s[start - 1..hi] == [s[start - 1]] + s[start..hi];
    }
  }

  /**
   * One piece, `s[start..i]`: no blank line starts inside it, the separator
   * before it (if any) is greedy, and the one after it (if any) starts at
   * `i`. Then no blank line lies within the piece together with the line
   * breaks that bound it.
   */
  lemma PieceNoBlank(s: string, start: nat, i: nat, close: bool)
    requires start <= i <= |s|
    requires forall a, b :: start <= a < i ==> !BlankLineAt(s, a, b)
    requires start > 0 ==> s[start - 1] == '\n' && Greedy(s, start)
    requires close ==> i < |s| && s[i] == '\n'
    ensures NoBlankLine(Edge(start > 0) + s[start..i] + Edge(close))
  {
    var lo := if start > 0 then start - 1 else 0;
    var hi := if close then i + 1 else i;
    var t := s[lo..hi];
    forall a, b | 0 <= a < b < |t|
      ensures !BlankLineAt(t, a, b)
    {
      var x, y := lo + a, lo + b;
      SliceIndex(s, lo, hi, a, b);
      if x >= start {
        assert !BlankLineAt(s, x, y);
      } else {
        assert x + 1 == start;
        assert !AllSpace(s[start..y]) || s[y] != '\n';
      }
    }
    FramedSlice(s, start, i, close);
  }

  /** Putting the pieces and separators back together gives the text scanned. */
  lemma {:induction false} SplitFromRebuilds(s: string, start: nat, i: nat)
    requires start <= i <= |s|
    ensures var r := SplitFrom(s, start, i);
            Interleave(r.paragraphs, r.separators) == s[start..]
    decreases |s| - i
  {
    if i < |s| {
      match BreakEnd(s, i)
      case None =>
        SplitFromRebuilds(s, start, i + 1);
      case Some(e) =>
        SplitFromRebuilds(s, e, e);
        var rest := SplitFrom(s, e, e);
        InterleaveCons(s[start..i], s[i..e], rest.paragraphs, rest.separators);
        SliceThree(s, start, i, e);
    }
  }

  /** Putting back a piece and a separator in front. */
  lemma InterleaveCons(p: string, q: string, pieces: seq<string>, seps: seq<string>)
    requires |pieces| == |seps| + 1
    ensures Interleave([p] + pieces, [q] + seps) == p + q + Interleave(pieces, seps)
  {
    assert ([p] + pieces)[1..] == pieces;
    assert ([q] + seps)[1..] == seps;
  }

  lemma SliceThree(s: string, a: nat, b: nat, c: nat)
    requires a <= b <= c <= |s|
    ensures s[a..] == s[a..b] + s[b..c] + s[c..]
  {
  }

  /** Every separator cut out is a blank line. */
  lemma {:induction false} SplitFromSeparators(s: string, start: nat, i: nat)
    requires start <= i <= |s|
    ensures forall k :: 0 <= k < |SplitFrom(s, start, i).separators| ==>
              IsSeparator(SplitFrom(s, start, i).separators[k])
    decreases |s| - i
  {
    if i < |s| {
      BreakEndSpec(s, i);
      match BreakEnd(s, i)
      case None =>
        assert SplitFrom(s, start, i) == SplitFrom(s, start, i + 1);
        SplitFromSeparators(s, start, i + 1);
      case Some(e) =>
        SplitFromSeparators(s, e, e);
        var r := SplitFrom(s, start, i);
        var rest := SplitFrom(s, e, e);
        assert r.separators == [s[i..e]] + rest.separators;
        forall k | 0 < k < |r.separators|
          ensures IsSeparator(r.separators[k])
        {
          assert r.separators[k] == rest.separators[k - 1];
        }
    }
  }

  /** Piece `k` of `n`, with the line breaks of the separators around it, holds no blank line. */
  predicate FramedPiece(piece: string, first: bool, last: bool) {
    NoBlankLine(Edge(!first) + piece + Edge(!last))
  }

  /** The invariant of the scan: no blank line starts between `start` and `i`, and the last separator was greedy. */
  lemma {:induction false} SplitFromPieces(s: string, start: nat, i: nat)
    requires start <= i <= |s|
    requires forall a, b :: start <= a < i ==> !BlankLineAt(s, a, b)
    requires start > 0 ==> s[start - 1] == '\n' && Greedy(s, start)
    ensures forall k :: 0 <= k < |SplitFrom(s, start, i).paragraphs| ==>
              FramedPiece(SplitFrom(s, start, i).paragraphs[k], k == 0 && start == 0,
                          k == |SplitFrom(s, start, i).paragraphs| - 1)
    decreases |s| - i
  {
    if i == |s| {
      LastPiece(s, start);
    } else {
      match BreakEnd(s, i)
      case None =>
        NoBreakStep(s, start, i);
        SplitFromPieces(s, start, i + 1);
      case Some(e) =>
        BreakEndSpec(s, i);
        SplitFromPieces(s, e, e);
        BreakPieces(s, start, i, e);
    }
  }

  /** No break at `i`: the scan moves on within the same piece. */
  lemma NoBreakStep(s: string, start: nat, i: nat)
    requires start <= i < |s| && BreakEnd(s, i).None?
    requires forall a, b :: start <= a < i ==> !BlankLineAt(s, a, b)
    ensures SplitFrom(s, start, i) == SplitFrom(s, start, i + 1)
    ensures forall a, b :: start <= a < i + 1 ==> !BlankLineAt(s, a, b)
  {
    BreakEndSpec(s, i);
  }

  /** The piece that runs to the end of the text. */
  lemma LastPiece(s: string, start: nat)
    requires start <= |s|
    requires forall a, b :: start <= a < |s| ==> !BlankLineAt(s, a, b)
    requires start > 0 ==> s[start - 1] == '\n' && Greedy(s, start)
    ensures forall k :: 0 <= k < |SplitFrom(s, start, |s|).paragraphs| ==>
              FramedPiece(SplitFrom(s, start, |s|).paragraphs[k], k == 0 && start == 0,
                          k == |SplitFrom(s, start, |s|).paragraphs| - 1)
  {
    PieceNoBlank(s, start, |s|, false);
    assert SplitFrom(s, start, |s|) == Pieces([s[start..]], []);
    assert s[start..] == s[start..|s|];
  }

  /** A break at `i` closes the current piece in front of the pieces split after it. */
  lemma BreakPieces(s: string, start: nat, i: nat, e: nat)
    requires start <= i < |s| && BreakEnd(s, i) == Some(e)
    requires forall a, b :: start <= a < i ==> !BlankLineAt(s, a, b)
    requires start > 0 ==> s[start - 1] == '\n' && Greedy(s, start)
    requires forall k :: 0 <= k < |SplitFrom(s, e, e).paragraphs| ==>
               FramedPiece(SplitFrom(s, e, e).paragraphs[k], false, k == |SplitFrom(s, e, e).paragraphs| - 1)
    ensures forall k :: 0 <= k < |SplitFrom(s, start, i).paragraphs| ==>
              FramedPiece(SplitFrom(s, start, i).paragraphs[k], k == 0 && start == 0,
                          k == |SplitFrom(s, start, i).paragraphs| - 1)
  {
    BreakEndSpec(s, i);
    PieceNoBlank(s, start, i, true);
    var rest := SplitFrom(s, e, e);
    ConsFramed(s[start..i], start == 0, rest.paragraphs);
    assert SplitFrom(s, start, i).paragraphs == [s[start..i]] + rest.paragraphs;
  }

  /** A framed first piece in front of framed later pieces. */
  lemma ConsFramed(p: string, first: bool, rest: seq<string>)
    requires |rest| >= 1
    requires FramedPiece(p, first, false)
    requires forall k :: 0 <= k < |rest| ==> FramedPiece(rest[k], false, k == |rest| - 1)
    ensures var all := [p] + rest;
            forall k :: 0 <= k < |all| ==> FramedPiece(all[k], k == 0 && first, k == |all| - 1)
  {
    var all := [p] + rest;
    forall k | 0 <= k < |all|
      ensures FramedPiece(all[k], k == 0 && first, k == |all| - 1)
    {
      if k > 0 {
        assert all[k] == rest[k - 1];
      }
    }
  }

  /**
   * `re.split(r'\n\s*\n', s)` cuts `s` into pieces and separators that give
   * `s` back when put together; every separator is a blank line; and no piece,
   * with the line breaks that bound it, holds a blank line, so each break was
   * found at its leftmost start and taken as far as it goes.
   */
  lemma SplitParagraphsSpec(s: string)
    ensures var r := SplitFrom(s, 0, 0);
            r.paragraphs == SplitParagraphs(s) &&
            Interleave(r.paragraphs, r.separators) == s
    ensures forall k :: 0 <= k < |SplitFrom(s, 0, 0).separators| ==>
              IsSeparator(SplitFrom(s, 0, 0).separators[k])
    ensures forall k :: 0 <= k < |SplitParagraphs(s)| ==>
              FramedPiece(SplitParagraphs(s)[k], k == 0, k == |SplitParagraphs(s)| - 1)
  {
    SplitFromRebuilds(s, 0, 0);
    SplitFromSeparators(s, 0, 0);
    SplitFromPieces(s, 0, 0);
  }

  /** A separator found in the text is a blank line of it. */
  lemma SeparatorIsBlankLine(s: string, p: nat, e: nat)
    requires p < e <= |s| && IsSeparator(s[p..e])
    ensures BlankLineAt(s, p, e - 1)
  {
    forall m | p + 1 <= m < e - 1
      ensures IsSpace(s[m])
    {
      assert s[p..e][m - p] == s[m];
    }
    assert s[p..e][0] == s[p] && s[p..e][e - 1 - p] == s[e - 1];
  }

  /** Text without a blank line is a single paragraph. */
  lemma {:induction false} NoBreakOnePiece(s: string, start: nat, i: nat)
    requires start <= i <= |s|
    requires NoBlankLine(s)
    ensures SplitFrom(s, start, i).paragraphs == [s[start..]]
    decreases |s| - i
  {
    if i < |s| {
      BreakEndSpec(s, i);
      if BreakEnd(s, i).Some? {
        SeparatorIsBlankLine(s, i, BreakEnd(s, i).value);
      } else {
        NoBreakOnePiece(s, start, i + 1);
      }
    }
  }
}
