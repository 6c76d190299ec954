/**
 * The regular expressions of scripts/extract-pdf.py, written as data for the
 * Regex interpreter, and plain recognisers for the footer, title and list
 * patterns, proved to agree with the interpreter on every string.
 */
module Patterns {
  import opened Text
  import opened Regex

  /** The header patterns, searched in the lower-cased text, in source order. */
  const HeaderPatterns: seq<Pattern> := [
    Pattern(true, Lits("página") + [Star(Space), One(OneOf("<0123456789"))]),
    Pattern(true, Lits("page") + [Star(Space), One(Digit)]),
    Pattern(false, Lits("página") + [Star(Space), One(Char('<')), Star(Space), Plus(Digit), Star(Space)] + Lits("de")),
    Pattern(false, Lits("arcelormittal")),
    Pattern(false, Lits("saúde") + [Star(Space), One(OneOf("e&")), Star(Space)] + Lits("segurança")),
    Pattern(false, Lits("am") + [Star(Space)] + Lits("safety") + [Star(Space)] + Lits("st")),
    Pattern(false, Lits("am") + [Star(Space)] + Lits("segurança") + [Star(Space)] + Lits("st")),
    Pattern(false, Lits("instruções") + [Star(Space), End]),
    Pattern(false, Lits("technology") + [Star(NotNewline)] + Lits("health")),
    Pattern(true, Lits("espaços") + [Star(Space), End]),
    Pattern(true, Lits("confinados") + [Star(Space), End]),
    Pattern(false, Lits("corporativo")),
    Pattern(false, Lits("circulação") + [Star(Space)] + Lits("controlada"))
  ]

  /** `^\d+\s*$` */
  const PageNumberPattern := Pattern(true, [Plus(Digit), Star(Space), End])
  /** `^página\s*\d` */
  const PaginaPattern := Pattern(true, Lits("página") + [Star(Space), One(Digit)])
  /** `^page\s*\d` */
  const PagePattern := Pattern(true, Lits("page") + [Star(Space), One(Digit)])

  /** The footer patterns, searched in the lower-cased text, in source order. */
  const FooterPatterns: seq<Pattern> := [PageNumberPattern, PaginaPattern, PagePattern]

  const HeadingPunct := "–-:."
  /** `[A-ZÁÊÔÇ]` */
  const HeadingCapitals := RangeOr('A', 'Z', "ÁÊÔÇ")
  const Bullets := "-•●○◦▪"

  /** `^\d+\.?\s*[–\-:.]?\s*[A-ZÁÊÔÇ]`, used with `re.match`. */
  const HeadingPattern := Pattern(true,
    [Plus(Digit), Opt(Char('.')), Star(Space), Opt(OneOf(HeadingPunct)), Star(Space), One(HeadingCapitals)])

  /** `^[\-•●○◦▪]\s+`, used with `re.match`. */
  const BulletPattern := Pattern(true, [One(OneOf(Bullets)), Plus(Space)])

  /** `^\d+\.\d+\.\d+\.?\s+`, used with `re.match`. */
  const NumberedItemPattern := Pattern(true,
    [Plus(Digit), One(Char('.')), Plus(Digit), One(Char('.')), Plus(Digit), Opt(Char('.')), Plus(Space)])

  /** The section keywords a title may start with, in source order. */
  const SectionKeywords: seq<string> := [
    "escopo", "definições", "definicoes", "responsabilidades",
    "procedimentos", "objetivo", "anexo", "apêndice", "appendice"
  ]

  // ---------------------------------------------------------------------------
  // Plain recognisers

  /** One or more digits and then nothing but whitespace: a bare page number. */
  predicate IsPageNumber(s: string) {
    var d := SkipDigits(s, 0);
    0 < d && AllSpace(s[d..])
  }

  /** `word` at the start, optional whitespace, then a digit: "page 3", "página 12". */
  predicate IsPageLabel(s: string, word: string) {
    StartsWith(s, word) &&
    var j := SkipSpaces(s, |word|);
    j < |s| && IsDigit(s[j])
  }

  /** A footer text: a bare page number or a "página N" / "page N" label. */
  predicate IsFooterText(s: string) {
    IsPageNumber(s) || IsPageLabel(s, "página") || IsPageLabel(s, "page")
  }

  /**
   * A numbered heading: leading digits, an optional '.', whitespace, at most
   * one of the punctuation marks "–-:.", whitespace, then a capital letter.
   */
  predicate IsNumberedHeading(s: string) {
    var d := SkipDigits(s, 0);
    0 < d && HeadingAfterDigits(s, d)
  }

  /** What follows the leading digits of a numbered heading, from `d` on. */
  predicate HeadingAfterDigits(s: string, d: nat)
    requires d <= |s|
  {
    var a := if d < |s| && s[d] == '.' then d + 1 else d;
    HeadingAfterDot(s, a)
  }

  /** What follows the optional '.' of a numbered heading, from `a` on. */
  predicate HeadingAfterDot(s: string, a: nat)
    requires a <= |s|
  {
    var b := SkipSpaces(s, a);
    var c := if b < |s| && s[b] in HeadingPunct then b + 1 else b;
    var e := SkipSpaces(s, c);
    e < |s| && InClass(s[e], HeadingCapitals)
  }

  /** A bullet glyph followed by at least one whitespace character. */
  predicate IsBulletItem(s: string) {
    2 <= |s| && s[0] in Bullets && IsSpace(s[1])
  }

  /** Three dot-separated digit groups, an optional '.', then whitespace: "4.2.1 ...". */
  predicate IsNumberedItem(s: string) {
    var d1 := SkipDigits(s, 0);
    0 < d1 < |s| && s[d1] == '.' && ItemAfterFirstDot(s, d1 + 1)
  }

  /** From `x`: the second digit group, a '.', and the rest of a numbered item. */
  predicate ItemAfterFirstDot(s: string, x: nat)
    requires x <= |s|
  {
    x < |s| && IsDigit(s[x]) &&
    var d2 := SkipDigits(s, x);
    d2 < |s| && s[d2] == '.' && ItemAfterSecondDot(s, d2 + 1)
  }

  /** From `x`: the third digit group, an optional '.', then whitespace. */
  predicate ItemAfterSecondDot(s: string, x: nat)
    requires x <= |s|
  {
    x < |s| && IsDigit(s[x]) &&
    var d3 := SkipDigits(s, x);
    var a := if d3 < |s| && s[d3] == '.' then d3 + 1 else d3;
    a < |s| && IsSpace(s[a])
  }

  // ---------------------------------------------------------------------------
  // Agreement with the interpreter

  lemma SpanDigitIsSkip(s: string, i: nat)
    requires i <= |s|
    ensures Span(Digit, s, i) == SkipDigits(s, i)
  {
  }

  lemma SpanSpaceIsSkip(s: string, i: nat)
    requires i <= |s|
    ensures Span(Space, s, i) == SkipSpaces(s, i)
  {
  }

  /** `^\d+\s*$` matches exactly the bare page numbers. */
  lemma {:induction false} PageNumberPatternIff(s: string)
    ensures Search(PageNumberPattern, s) <==> IsPageNumber(s)
  {
    var tail := [Star(Space), End];
    assert PageNumberPattern.items == [Plus(Digit)] + tail;
    PlusStar(Digit, tail, s, 0);
    if 0 < |s| && IsDigit(s[0]) {
      var d := Span(Digit, s, 1);
      forall j | 1 <= j < d
        ensures !MatchAt(tail, s, j)
      {
        SpacesToEnd(s, j);
        assert !IsSpace(s[j..][0]);
      }
      StarGreedy(Digit, tail, s, 1);
      SpacesToEnd(s, d);
      SpanDigitIsSkip(s, 1);
      assert SkipDigits(s, 0) == SkipDigits(s, 1);
    }
  }

  /** `^word\s*\d` matches exactly the labels `IsPageLabel(s, word)`. */
  lemma {:induction false} PageLabelPatternIff(s: string, word: string)
    ensures MatchAt(Lits(word) + [Star(Space), One(Digit)], s, 0) <==> IsPageLabel(s, word)
  {
    var tail := [One(Digit)];
    assert Lits(word) + [Star(Space), One(Digit)] == Lits(word) + ([Star(Space)] + tail);
    LitsMatch(word, [Star(Space)] + tail, s, 0);
    if |word| <= |s| {
      StarGreedy(Space, tail, s, |word|);
      SpanSpaceIsSkip(s, |word|);
    }
  }

  /** The footer patterns match exactly the footer texts. */
  lemma FooterPatternsIff(s: string)
    ensures SearchAny(FooterPatterns, s) <==> IsFooterText(s)
  {
    PageNumberPatternIff(s);
    PageLabelPatternIff(s, "página");
    PageLabelPatternIff(s, "page");
    assert Search(FooterPatterns[0], s) == IsPageNumber(s);
    assert Search(FooterPatterns[1], s) == IsPageLabel(s, "página");
    assert Search(FooterPatterns[2], s) == IsPageLabel(s, "page");
    SearchAnyIff(FooterPatterns, s);
    if SearchAny(FooterPatterns, s) {
      var k :| 0 <= k < |FooterPatterns| && Search(FooterPatterns[k], s);
      assert k == 0 || k == 1 || k == 2;
    }
  }

  lemma SkipSpacesWithin(s: string, a: nat, j: nat)
    requires a <= |s| && a <= j <= SkipSpaces(s, a)
    ensures SkipSpaces(s, j) == SkipSpaces(s, a)
  {
  }

  /** No capital is whitespace, a digit or punctuation, and no punctuation mark is whitespace or a digit. */
  lemma PunctAndCapitals(c: char)
    ensures InClass(c, HeadingCapitals) ==> !IsSpace(c) && !IsDigit(c) && c !in HeadingPunct && c != '.'
    ensures c in HeadingPunct ==> !IsSpace(c) && !IsDigit(c)
  {
  }

  // The tails of HeadingPattern after each of its items.
  const HeadingR5: seq<Item> := [One(HeadingCapitals)]
  const HeadingR4: seq<Item> := [Star(Space)] + HeadingR5
  const HeadingR3: seq<Item> := [Opt(OneOf(HeadingPunct))] + HeadingR4
  const HeadingR2: seq<Item> := [Star(Space)] + HeadingR3
  const HeadingR1: seq<Item> := [Opt(Char('.'))] + HeadingR2

  /** `\s*[A-ZÁÊÔÇ]` from `i`: a capital after the whitespace run. */
  lemma {:induction false} HeadingR4At(s: string, i: nat)
    requires i <= |s|
    ensures MatchAt(HeadingR4, s, i) <==>
              SkipSpaces(s, i) < |s| && InClass(s[SkipSpaces(s, i)], HeadingCapitals)
  {
    forall j | i <= j < Span(Space, s, i)
      ensures !MatchAt(HeadingR5, s, j)
    {
      PunctAndCapitals(s[j]);
    }
    StarGreedy(Space, HeadingR5, s, i);
    SpanSpaceIsSkip(s, i);
    assert HeadingR5[1..] == [];
  }

  /** `[–\-:.]?\s*[A-ZÁÊÔÇ]` at position `b`. */
  lemma {:induction false} HeadingR3At(s: string, b: nat)
    requires b <= |s|
    ensures MatchAt(HeadingR3, s, b) <==>
              MatchAt(HeadingR4, s, b) || (b < |s| && s[b] in HeadingPunct && MatchAt(HeadingR4, s, b + 1))
  {
    OptStep(OneOf(HeadingPunct), HeadingR4, s, b);
  }

  /** The optional punctuation mark at a non-space position `b`. */
  lemma {:induction false} HeadingR3AtNonSpace(s: string, b: nat)
    requires b <= |s| && SkipSpaces(s, b) == b
    ensures MatchAt(HeadingR3, s, b) <==> HeadingAfterDot(s, b)
  {
    HeadingR3At(s, b);
    HeadingR4At(s, b);
    if b < |s| {
      PunctAndCapitals(s[b]);
      if s[b] in HeadingPunct {
        HeadingR4At(s, b + 1);
      }
    }
  }

  /** Inside a whitespace run, `[–\-:.]?\s*[A-ZÁÊÔÇ]` matches only if it matches after the run. */
  lemma HeadingR3InSpaces(s: string, a: nat, j: nat)
    requires a <= |s| && a <= j < SkipSpaces(s, a)
    requires MatchAt(HeadingR3, s, j)
    ensures MatchAt(HeadingR3, s, SkipSpaces(s, a))
  {
    var b := SkipSpaces(s, a);
    assert IsSpace(s[j]);
    PunctAndCapitals(s[j]);
    HeadingR3At(s, j);
    assert MatchAt(HeadingR4, s, j);
    HeadingR4At(s, j);
    SkipSpacesWithin(s, a, j);
    SkipSpacesWithin(s, a, b);
    HeadingR4At(s, b);
    HeadingR3At(s, b);
  }

  /** `\s*[–\-:.]?\s*[A-ZÁÊÔÇ]` from `a`: what follows the optional '.'. */
  lemma {:induction false} HeadingR2At(s: string, a: nat)
    requires a <= |s|
    ensures MatchAt(HeadingR2, s, a) <==> HeadingAfterDot(s, a)
  {
    var b := SkipSpaces(s, a);
    HeadingR2Skips(s, a);
    SkipSpacesWithin(s, a, b);
    HeadingR3AtNonSpace(s, b);
    HeadingAfterSpaces(s, a);
  }

  /** Whitespace before the optional punctuation mark does not change the verdict. */
  lemma HeadingAfterSpaces(s: string, a: nat)
    requires a <= |s|
    ensures HeadingAfterDot(s, a) == HeadingAfterDot(s, SkipSpaces(s, a))
  {
    SkipSpacesWithin(s, a, SkipSpaces(s, a));
  }

  /** The leading `\s*` of `HeadingR2` takes the whole whitespace run. */
  lemma HeadingR2Skips(s: string, a: nat)
    requires a <= |s|
    ensures MatchAt(HeadingR2, s, a) <==> MatchAt(HeadingR3, s, SkipSpaces(s, a))
  {
    var b := SkipSpaces(s, a);
    SpanSpaceIsSkip(s, a);
    forall j | a <= j < b && MatchAt(HeadingR3, s, j)
      ensures MatchAt(HeadingR3, s, b)
    {
      HeadingR3InSpaces(s, a, j);
    }
    assert HeadingR2 == [Star(Space)] + HeadingR3;
    StarGreedy(Space, HeadingR3, s, a);
  }

  /** A '.' left to the optional punctuation mark matches nothing that taking it first does not. */
  lemma DotLeftToPunct(s: string, d: nat)
    requires d < |s| && s[d] == '.'
    ensures HeadingAfterDot(s, d) ==> HeadingAfterDot(s, d + 1)
  {
    PunctAndCapitals('.');
    assert SkipSpaces(s, d) == d;
    var e := SkipSpaces(s, d + 1);
    if e < |s| {
      PunctAndCapitals(s[e]);
      assert SkipSpaces(s, e) == e;
    }
  }

  /** `\.?\s*[–\-:.]?\s*[A-ZÁÊÔÇ]` from `d`: what follows the leading digits. */
  lemma {:induction false} HeadingR1At(s: string, d: nat)
    requires d <= |s|
    ensures MatchAt(HeadingR1, s, d) <==> HeadingAfterDigits(s, d)
  {
    OptStep(Char('.'), HeadingR2, s, d);
    HeadingR2At(s, d);
    if d < |s| && s[d] == '.' {
      HeadingR2At(s, d + 1);
      DotLeftToPunct(s, d);
    }
  }

  /** A digit cannot start what follows the digit run of a heading. */
  lemma NoHeadingTailAtDigit(s: string)
    ensures forall j :: 0 <= j < |s| && IsDigit(s[j]) ==> !MatchAt(HeadingR1, s, j)
  {
    forall j | 0 <= j < |s| && IsDigit(s[j])
      ensures !MatchAt(HeadingR1, s, j)
    {
      HeadingR1At(s, j);
      assert SkipSpaces(s, j) == j;
      PunctAndCapitals(s[j]);
    }
  }

  /** `\d+` followed by items that cannot start on a digit: decided after the digit run. */
  lemma {:induction false} DigitsThen(rest: seq<Item>, s: string, x: nat)
    requires x <= |s|
    requires forall j :: 0 <= j < |s| && IsDigit(s[j]) ==> !MatchAt(rest, s, j)
    ensures MatchAt([Plus(Digit)] + rest, s, x) <==>
              x < |s| && IsDigit(s[x]) && MatchAt(rest, s, SkipDigits(s, x))
  {
    PlusStar(Digit, rest, s, x);
    if x < |s| && IsDigit(s[x]) {
      StarGreedy(Digit, rest, s, x + 1);
      SpanDigitIsSkip(s, x + 1);
    }
  }

  /** `re.match` of the heading pattern is exactly a numbered heading. */
  lemma {:induction false} HeadingPatternIff(s: string)
    ensures Search(HeadingPattern, s) <==> IsNumberedHeading(s)
  {
    assert HeadingPattern.items == [Plus(Digit)] + HeadingR1;
    NoHeadingTailAtDigit(s);
    DigitsThen(HeadingR1, s, 0);
    HeadingR1At(s, SkipDigits(s, 0));
  }

  /** `^[\-•●○◦▪]\s+` matches exactly the bullet items. */
  lemma {:induction false} BulletPatternIff(s: string)
    ensures Search(BulletPattern, s) <==> IsBulletItem(s)
  {
    var items := BulletPattern.items;
    assert items[1..] == [Plus(Space)];
    assert [Plus(Space)] == [Plus(Space)] + [];
    if 1 <= |s| {
      PlusStar(Space, [], s, 1);
    }
    if 2 <= |s| {
      assert ([Star(Space)] + [])[1..] == [];
      assert MatchAt([Star(Space)] + [], s, 2);
    }
  }

  // The tails of NumberedItemPattern after each of its items.
  const ItemR6: seq<Item> := [Plus(Space)]
  const ItemR5: seq<Item> := [Opt(Char('.'))] + ItemR6
  const ItemR4: seq<Item> := [Plus(Digit)] + ItemR5
  const ItemR3: seq<Item> := [One(Char('.'))] + ItemR4
  const ItemR2: seq<Item> := [Plus(Digit)] + ItemR3
  const ItemR1: seq<Item> := [One(Char('.'))] + ItemR2

  /** `\.?\s+` from `x`. */
  lemma {:induction false} ItemR5At(s: string, x: nat)
    requires x <= |s|
    ensures MatchAt(ItemR5, s, x) <==>
              var a := if x < |s| && s[x] == '.' then x + 1 else x;
              a < |s| && IsSpace(s[a])
  {
    assert ItemR5[1..] == ItemR6;
    assert ItemR6 == [Plus(Space)] + [];
    assert ([Star(Space)] + [])[1..] == [];
    PlusStar(Space, [], s, x);
    if x < |s| {
      PlusStar(Space, [], s, x + 1);
      assert MatchAt([Star(Space)] + [], s, x + 1);
      if x + 1 < |s| {
        assert MatchAt([Star(Space)] + [], s, x + 2);
      }
    }
  }

  /** A digit cannot start what follows a digit group. */
  lemma NoItemTailAtDigit(s: string)
    ensures forall j :: 0 <= j < |s| && IsDigit(s[j]) ==>
              !MatchAt(ItemR5, s, j) && !MatchAt(ItemR3, s, j) && !MatchAt(ItemR1, s, j)
  {
    forall j | 0 <= j < |s| && IsDigit(s[j])
      ensures !MatchAt(ItemR5, s, j) && !MatchAt(ItemR3, s, j) && !MatchAt(ItemR1, s, j)
    {
      ItemR5At(s, j);
    }
  }

  /** `\d+\.?\s+` from `x`. */
  lemma {:induction false} ItemR4At(s: string, x: nat)
    requires x <= |s|
    ensures MatchAt(ItemR4, s, x) <==> ItemAfterSecondDot(s, x)
  {
    NoItemTailAtDigit(s);
    DigitsThen(ItemR5, s, x);
    ItemR5At(s, SkipDigits(s, x));
  }

  /** `\d+\.\d+\.?\s+` from `x`. */
  lemma {:induction false} ItemR2At(s: string, x: nat)
    requires x <= |s|
    ensures MatchAt(ItemR2, s, x) <==> ItemAfterFirstDot(s, x)
  {
    NoItemTailAtDigit(s);
    DigitsThen(ItemR3, s, x);
    assert ItemR3[1..] == ItemR4;
    var d2 := SkipDigits(s, x);
    if d2 < |s| && s[d2] == '.' {
      ItemR4At(s, d2 + 1);
    }
  }

  /** `\.\d+\.\d+\.?\s+` from `x`. */
  lemma ItemR1At(s: string, x: nat)
    requires x <= |s|
    ensures MatchAt(ItemR1, s, x) <==> x < |s| && s[x] == '.' && MatchAt(ItemR2, s, x + 1)
  {
    assert ItemR1[1..] == ItemR2;
  }

  /** `^\d+\.\d+\.\d+\.?\s+` matches exactly the numbered list items. */
  lemma {:induction false} NumberedItemPatternIff(s: string)
    ensures Search(NumberedItemPattern, s) <==> IsNumberedItem(s)
  {
    assert NumberedItemPattern.items == [Plus(Digit)] + ItemR1;
    NoItemTailAtDigit(s);
    DigitsThen(ItemR1, s, 0);
    var d1 := SkipDigits(s, 0);
    ItemR1At(s, d1);
    if d1 < |s| {
      ItemR2At(s, d1 + 1);
    }
  }
}
