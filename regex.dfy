/**
 * The fragment of Python's `re` the extractor's patterns use: literal
 * characters, character classes, `\s`, `\d`, `.`, the quantifiers `?`, `*`
 * and `+`, `$`, and `^` at the start of a pattern. A pattern is a sequence of
 * items; `MatchAt` says whether some way of matching the items starts at a
 * given position, which is what a backtracking matcher finds.
 */
module Regex {
  import opened Text

  datatype Class =
    | Char(c: char)      // a literal character
    | OneOf(cs: string)  // a bracketed class `[...]` of single characters
    | RangeOr(lo: char, hi: char, cs: string)  // a bracketed class `[lo-hi...]`: a range and single characters
    | Space              // `\s`
    | Digit              // `\d`
    | NotNewline         // `.`

  predicate InClass(c: char, k: Class) {
    match k
    case Char(d) => c == d
    case OneOf(cs) => c in cs
    case RangeOr(lo, hi, cs) => (lo <= c <= hi) || c in cs
    case Space => IsSpace(c)
    case Digit => IsDigit(c)
    case NotNewline => c != '\n'
  }

  datatype Item =
    | One(k: Class)   // exactly one character of the class
    | Opt(k: Class)   // `?`
    | Star(k: Class)  // `*`
    | Plus(k: Class)  // `+`
    | End             // `$` without MULTILINE: end of string, or just before a final newline

  /** `anchored` is a leading `^` (or a call to `re.match`). */
  datatype Pattern = Pattern(anchored: bool, items: seq<Item>)

  /** The items matching the literal text `w`. */
  function Lits(w: string): (items: seq<Item>)
    ensures |items| == |w|
  {
    seq(|w|, i requires 0 <= i < |w| => One(Char(w[i])))
  }

  /** Some way of matching `items` starts at position `i` of `s`. */
  predicate MatchAt(items: seq<Item>, s: string, i: nat)
    requires i <= |s|
    decreases |items|, |s| - i
  {
    if items == [] then true
    else
      var rest := items[1..];
      match items[0]
      case One(k) => i < |s| && InClass(s[i], k) && MatchAt(rest, s, i + 1)
      case Opt(k) => MatchAt(rest, s, i) || (i < |s| && InClass(s[i], k) && MatchAt(rest, s, i + 1))
      case Star(k) => MatchAt(rest, s, i) || (i < |s| && InClass(s[i], k) && MatchAt(items, s, i + 1))
      case Plus(k) => i < |s| && InClass(s[i], k) && MatchAt([Star(k)] + rest, s, i + 1)
      case End => (i == |s| || (i + 1 == |s| && s[i] == '\n')) && MatchAt(rest, s, i)
  }

  /** A match of `items` starts at `i` or later. */
  predicate SearchFrom(items: seq<Item>, s: string, i: nat)
    requires i <= |s|
    decreases |s| - i
  {
    MatchAt(items, s, i) || (i < |s| && SearchFrom(items, s, i + 1))
  }

  /** Python's `re.search(p, s)` is not None. */
  predicate Search(p: Pattern, s: string) {
    if p.anchored then MatchAt(p.items, s, 0) else SearchFrom(p.items, s, 0)
  }

  /** Some pattern of the list is found in `s`: Python's `any(re.search(p, s) for p in ps)`. */
  predicate SearchAny(ps: seq<Pattern>, s: string) {
    ps != [] && (Search(ps[0], s) || SearchAny(ps[1..], s))
  }

  /** `SearchAny` holds exactly when one of the patterns is found. */
  lemma {:induction false} SearchAnyIff(ps: seq<Pattern>, s: string)
    ensures SearchAny(ps, s) <==> exists k :: 0 <= k < |ps| && Search(ps[k], s)
  {
    if ps != [] {
      SearchAnyIff(ps[1..], s);
      if exists k :: 0 <= k < |ps| && Search(ps[k], s) {
        var k :| 0 <= k < |ps| && Search(ps[k], s);
        if k > 0 {
          assert ps[1..][k - 1] == ps[k];
        }
      }
      if exists k :: 0 <= k < |ps[1..]| && Search(ps[1..][k], s) {
        var k :| 0 <= k < |ps[1..]| && Search(ps[1..][k], s);
        assert ps[k + 1] == ps[1..][k];
      }
    }
  }

  /** The scan finds a match exactly when one starts somewhere from `i` on. */
  lemma {:induction false} SearchFromIff(items: seq<Item>, s: string, i: nat)
    requires i <= |s|
    ensures SearchFrom(items, s, i) <==> exists j :: i <= j <= |s| && MatchAt(items, s, j)
    decreases |s| - i
  {
    if i < |s| {
      SearchFromIff(items, s, i + 1);
      if SearchFrom(items, s, i) && !MatchAt(items, s, i) {
        var j :| i + 1 <= j <= |s| && MatchAt(items, s, j);
        assert i <= j <= |s| && MatchAt(items, s, j);
      }
      if exists j :: i <= j <= |s| && MatchAt(items, s, j) {
        var j :| i <= j <= |s| && MatchAt(items, s, j);
        if j != i {
          assert i + 1 <= j <= |s| && MatchAt(items, s, j);
        }
      }
    } else {
      assert SearchFrom(items, s, i) == MatchAt(items, s, i);
      if exists j :: i <= j <= |s| && MatchAt(items, s, j) {
        var j :| i <= j <= |s| && MatchAt(items, s, j);
        assert j == i;
      }
    }
  }

  /** A literal prefix matches exactly the same text in `s`. */
  lemma {:induction false} LitsMatch(w: string, rest: seq<Item>, s: string, i: nat)
    requires i <= |s|
    ensures MatchAt(Lits(w) + rest, s, i) <==>
              i + |w| <= |s| && s[i..i + |w|] == w && MatchAt(rest, s, i + |w|)
    decreases |w|
  {
    if w == [] {
      assert Lits(w) + rest == rest;
    } else {
      var items := Lits(w) + rest;
      assert items[0] == One(Char(w[0]));
      assert items[1..] == Lits(w[1..]) + rest;
      if i < |s| {
        LitsMatch(w[1..], rest, s, i + 1);
        if i + |w| <= |s| {
          assert s[i..i + |w|] == [s[i]] + s[i + 1..i + |w|];
        }
      }
    }
  }

  /** End of the run of characters of class `k` starting at `i`. */
  function Span(k: Class, s: string, i: nat): (j: nat)
    requires i <= |s|
    ensures i <= j <= |s|
    ensures forall m :: i <= m < j ==> InClass(s[m], k)
    ensures j == |s| || !InClass(s[j], k)
    decreases |s| - i
  {
    if i < |s| && InClass(s[i], k) then Span(k, s, i + 1) else i
  }

  /**
   * `k*` is decided at the end of its run when every match of what follows
   * that starts inside the run implies one at the run's end.
   */
  lemma {:induction false} StarGreedy(k: Class, rest: seq<Item>, s: string, i: nat)
    requires i <= |s|
    requires forall j :: i <= j < Span(k, s, i) && MatchAt(rest, s, j) ==> MatchAt(rest, s, Span(k, s, i))
    ensures MatchAt([Star(k)] + rest, s, i) <==> MatchAt(rest, s, Span(k, s, i))
    decreases |s| - i
  {
    var items := [Star(k)] + rest;
    assert items[1..] == rest;
    if i < Span(k, s, i) {
      assert Span(k, s, i + 1) == Span(k, s, i);
      StarGreedy(k, rest, s, i + 1);
    }
  }

  /** `k+` is one character of `k` followed by `k*`. */
  lemma PlusStar(k: Class, rest: seq<Item>, s: string, i: nat)
    requires i <= |s|
    ensures MatchAt([Plus(k)] + rest, s, i) <==>
              i < |s| && InClass(s[i], k) && MatchAt([Star(k)] + rest, s, i + 1)
  {
    assert ([Plus(k)] + rest)[1..] == rest;
  }

  /** `k?` matches nothing or one character of `k`. */
  lemma OptStep(k: Class, rest: seq<Item>, s: string, i: nat)
    requires i <= |s|
    ensures MatchAt([Opt(k)] + rest, s, i) <==>
              MatchAt(rest, s, i) || (i < |s| && InClass(s[i], k) && MatchAt(rest, s, i + 1))
  {
    assert ([Opt(k)] + rest)[1..] == rest;
  }

  /** `\s*$` matches from `i` exactly when nothing but whitespace is left. */
  lemma {:induction false} SpacesToEnd(s: string, i: nat)
    requires i <= |s|
    ensures MatchAt([Star(Space), End], s, i) <==> AllSpace(s[i..])
    decreases |s| - i
  {
    var items := [Star(Space), End];
    assert items[1..] == [End];
    assert MatchAt([End], s, i) <==> (i == |s| || (i + 1 == |s| && s[i] == '\n'));
    if i < |s| {
      SpacesToEnd(s, i + 1);
      assert s[i..] == [s[i]] + s[i + 1..];
    }
  }
}
