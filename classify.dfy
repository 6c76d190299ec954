/**
 * The three text classifiers of scripts/extract-pdf.py: `is_page_header`,
 * `is_page_footer` and `detect_element_type`.
 */
module Classify {
  import opened Text
  import opened Regex
  import opened Patterns

  // ---------------------------------------------------------------------------
  // Page headers

  /** A line that, stripped, matches one of the patterns `ps`. */
  predicate IsMatchingLine(ps: seq<Pattern>, line: string) {
    SearchAny(ps, Strip(line))
  }

  /** `lines[:5]`. */
  function FirstLines(lines: seq<string>): (first: seq<string>)
    ensures |first| == if |lines| < 5 then |lines| else 5
    ensures first == lines[..|first|]
  {
    if |lines| <= 5 then lines else lines[..5]
  }

  /** Whether each line matches one of `ps`. */
  function LineFlags(ps: seq<Pattern>, lines: seq<string>): (flags: seq<bool>)
    ensures |flags| == |lines|
    ensures forall i :: 0 <= i < |lines| ==> flags[i] == IsMatchingLine(ps, lines[i])
  {
    seq(|lines|, i requires 0 <= i < |lines| => IsMatchingLine(ps, lines[i]))
  }

  /** The number of `true` flags, counted from the front as the source's counter does. */
  function CountTrue(flags: seq<bool>): (n: nat)
    ensures n <= |flags|
  {
    if flags == [] then 0
    else CountTrue(flags[..|flags| - 1]) + (if flags[|flags| - 1] then 1 else 0)
  }

  /** How many of `lines` match one of `ps`. */
  function CountMatchingLines(ps: seq<Pattern>, lines: seq<string>): nat {
    CountTrue(LineFlags(ps, lines))
  }

  /** The positions of the `true` flags. */
  function TrueIndices(flags: seq<bool>): set<int> {
    set i | 0 <= i < |flags| && flags[i]
  }

  /**
   * The header decision for a paragraph at vertical position `y` on a page of
   * height `height`: a header pattern in the top fifth of the page, or at
   * least three header lines among the first five.
   */
  predicate IsHeader(text: string, y: real, height: real) {
    var textLower := Strip(Lower(text));
    || (y < height * 0.20 && SearchAny(HeaderPatterns, textLower))
    || CountMatchingLines(HeaderPatterns, FirstLines(SplitOn(textLower, '\n'))) >= 3
  }

  /** `for pattern in patterns: if re.search(pattern, s)`: the scan stops at the first hit. */
  method FindAnyPattern(patterns: seq<Pattern>, s: string) returns (found: bool)
    ensures found == SearchAny(patterns, s)
  {
    for k := 0 to |patterns|
      invariant forall m :: 0 <= m < k ==> !Search(patterns[m], s)
    {
      if Search(patterns[k], s) {
        SearchAnyIff(patterns, s);
        return true;
      }
    }
    SearchAnyIff(patterns, s);
    return false;
  }

  /**
   * The line counter of `is_page_header`: each line is stripped and counts
   * once when some pattern is found in it.
   */
  method CountHeaderLines(patterns: seq<Pattern>, lines: seq<string>) returns (headerLineCount: nat)
    ensures headerLineCount == CountMatchingLines(patterns, lines)
  {
    ghost var flags := LineFlags(patterns, lines);
    headerLineCount := 0;
    for i := 0 to |lines|
      invariant headerLineCount == CountTrue(flags[..i])
    {
      var found := FindAnyPattern(patterns, Strip(lines[i]));
      if found {
        headerLineCount := headerLineCount + 1;
      }
      assert flags[..i + 1][..i] == flags[..i];
    }
    assert flags[..|lines|] == flags;
  }

  /** `is_page_header`: the position test, then the count over the first five lines. */
  method IsPageHeader(text: string, yPosition: real, pageHeight: real) returns (isHeader: bool)
    ensures isHeader == IsHeader(text, yPosition, pageHeight)
  {
    var textLower := Strip(Lower(text));
    if yPosition < pageHeight * 0.20 {
      var found := FindAnyPattern(HeaderPatterns, textLower);
      if found {
        return true;
      }
    }
    var lines := FirstLines(SplitOn(textLower, '\n'));
    var headerLineCount := CountHeaderLines(HeaderPatterns, lines);
    return headerLineCount >= 3;
  }

  /** Appending a flag adds its position exactly when it is `true`. */
  lemma TrueIndicesSnoc(flags: seq<bool>)
    requires flags != []
    ensures var n := |flags| - 1;
            TrueIndices(flags) == TrueIndices(flags[..n]) + (if flags[n] then {n} else {})
  {
    var n := |flags| - 1;
    var init := flags[..n];
    forall i
      ensures i in TrueIndices(flags) <==> i in TrueIndices(init) + (if flags[n] then {n} else {})
    {
      if 0 <= i < n {
        assert init[i] == flags[i];
      }
    }
  }

  /** The counter is the number of `true` positions. */
  lemma {:induction false} CountIsIndexCount(flags: seq<bool>)
    ensures CountTrue(flags) == |TrueIndices(flags)|
  {
    if flags != [] {
      var n := |flags| - 1;
      CountIsIndexCount(flags[..n]);
      TrueIndicesSnoc(flags);
      assert n !in TrueIndices(flags[..n]);
    }
  }

  /** Three `true` flags make a count of at least three. */
  lemma ThreeTrue(flags: seq<bool>, i: nat, j: nat, k: nat)
    requires i < j < k < |flags| && flags[i] && flags[j] && flags[k]
    ensures CountTrue(flags) >= 3
  {
    var found := TrueIndices(flags);
    CountIsIndexCount(flags);
    assert i in found && j in found && k in found;
    var three: set<int> := {i, j, k};
    assert |three| == 3 by {
      assert three == {i} + {j} + {k};
    }
    SubsetSize(three, found);
  }

  /** A positive count has a `true` flag. */
  lemma {:induction false} OneTrueOf(flags: seq<bool>) returns (i: nat)
    requires CountTrue(flags) >= 1
    ensures i < |flags| && flags[i]
  {
    var n := |flags| - 1;
    if flags[n] {
      i := n;
    } else {
      i := OneTrueOf(flags[..n]);
      assert flags[..n][i] == flags[i];
    }
  }

  /** A count of two or more has two `true` flags. */
  lemma {:induction false} TwoTrueOf(flags: seq<bool>) returns (i: nat, j: nat)
    requires CountTrue(flags) >= 2
    ensures i < j < |flags| && flags[i] && flags[j]
  {
    var n := |flags| - 1;
    if flags[n] {
      i := OneTrueOf(flags[..n]);
      j := n;
      assert flags[..n][i] == flags[i];
    } else {
      i, j := TwoTrueOf(flags[..n]);
      assert flags[..n][i] == flags[i] && flags[..n][j] == flags[j];
    }
  }

  /** A count of three or more has three `true` flags. */
  lemma {:induction false} ThreeTrueOf(flags: seq<bool>) returns (i: nat, j: nat, k: nat)
    requires CountTrue(flags) >= 3
    ensures i < j < k < |flags| && flags[i] && flags[j] && flags[k]
  {
    var n := |flags| - 1;
    if flags[n] {
      i, j := TwoTrueOf(flags[..n]);
      k := n;
      assert flags[..n][i] == flags[i] && flags[..n][j] == flags[j];
    } else {
      i, j, k := ThreeTrueOf(flags[..n]);
      assert flags[..n][i] == flags[i] && flags[..n][j] == flags[j] && flags[..n][k] == flags[k];
    }
  }

  /**
   * A paragraph is a header exactly when one of the header patterns is found
   * in its lower-cased text while it lies in the top fifth of the page, or
   * when at least three of its first five lines are header lines.
   */
  lemma HeaderIff(text: string, y: real, height: real)
    ensures var textLower := Strip(Lower(text));
            IsHeader(text, y, height) <==>
              (y < height * 0.20 && exists k :: 0 <= k < |HeaderPatterns| && Search(HeaderPatterns[k], textLower)) ||
              CountMatchingLines(HeaderPatterns, FirstLines(SplitOn(textLower, '\n'))) >= 3
  {
    SearchAnyIff(HeaderPatterns, Strip(Lower(text)));
  }

  /** At most five lines are counted, and never more than the text has. */
  lemma HeaderCountBound(textLower: string)
    ensures var lines := SplitOn(textLower, '\n');
            CountMatchingLines(HeaderPatterns, FirstLines(lines)) <= if |lines| < 5 then |lines| else 5
  {
  }

  /** Lines after the fifth are never examined. */
  lemma LaterLinesIgnored(ps: seq<Pattern>, lines: seq<string>, more: seq<string>)
    requires |lines| >= 5
    ensures CountMatchingLines(ps, FirstLines(lines + more)) == CountMatchingLines(ps, FirstLines(lines))
  {
    assert (lines + more)[..5] == lines[..5];
  }

  /** Three distinct matching lines among the first five make a count of at least three. */
  lemma ThreeMatchingLines(ps: seq<Pattern>, lines: seq<string>, i: nat, j: nat, k: nat)
    requires i < j < k < |lines| && k < 5
    requires IsMatchingLine(ps, lines[i]) && IsMatchingLine(ps, lines[j]) && IsMatchingLine(ps, lines[k])
    ensures CountMatchingLines(ps, FirstLines(lines)) >= 3
  {
    var first := FirstLines(lines);
    var flags := LineFlags(ps, first);
    assert first[i] == lines[i] && first[j] == lines[j] && first[k] == lines[k];
    ThreeTrue(flags, i, j, k);
  }

  /** A count of at least three comes from three distinct matching lines among the first five. */
  lemma MatchingLineWitnesses(ps: seq<Pattern>, lines: seq<string>) returns (i: nat, j: nat, k: nat)
    requires CountMatchingLines(ps, FirstLines(lines)) >= 3
    ensures i < j < k < |lines| && k < 5
    ensures IsMatchingLine(ps, lines[i]) && IsMatchingLine(ps, lines[j]) && IsMatchingLine(ps, lines[k])
  {
    var first := FirstLines(lines);
    var flags := LineFlags(ps, first);
    i, j, k := ThreeTrueOf(flags);
    assert flags[i] == IsMatchingLine(ps, first[i]) && first[i] == lines[i];
    assert flags[j] == IsMatchingLine(ps, first[j]) && first[j] == lines[j];
    assert flags[k] == IsMatchingLine(ps, first[k]) && first[k] == lines[k];
  }

  /**
   * At least three of the first five lines match exactly when three distinct
   * lines among the first five do.
   */
  lemma DensityIff(ps: seq<Pattern>, lines: seq<string>)
    ensures CountMatchingLines(ps, FirstLines(lines)) >= 3 <==>
              exists i, j, k :: 0 <= i < j < k < |lines| && k < 5 &&
                IsMatchingLine(ps, lines[i]) && IsMatchingLine(ps, lines[j]) && IsMatchingLine(ps, lines[k])
  {
    if CountMatchingLines(ps, FirstLines(lines)) >= 3 {
      var i, j, k := MatchingLineWitnesses(ps, lines);
    }
    if exists i, j, k :: 0 <= i < j < k < |lines| && k < 5 &&
         IsMatchingLine(ps, lines[i]) && IsMatchingLine(ps, lines[j]) && IsMatchingLine(ps, lines[k]) {
      var i, j, k :| 0 <= i < j < k < |lines| && k < 5 &&
        IsMatchingLine(ps, lines[i]) && IsMatchingLine(ps, lines[j]) && IsMatchingLine(ps, lines[k]);
      ThreeMatchingLines(ps, lines, i, j, k);
    }
  }

  /**
   * The density rule: three distinct header lines among the first five make
   * the paragraph a header wherever it sits on the page.
   */
  lemma DensityRule(text: string, y: real, height: real, i: nat, j: nat, k: nat)
    requires var lines := SplitOn(Strip(Lower(text)), '\n');
             i < j < k < |lines| && k < 5 &&
             IsMatchingLine(HeaderPatterns, lines[i]) && IsMatchingLine(HeaderPatterns, lines[j]) &&
             IsMatchingLine(HeaderPatterns, lines[k])
    ensures IsHeader(text, y, height)
  {
    ThreeMatchingLines(HeaderPatterns, SplitOn(Strip(Lower(text)), '\n'), i, j, k);
  }

  lemma SubsetSize(a: set<int>, b: set<int>)
    requires a <= b
    ensures |a| <= |b|
  {
    assert b == a + (b - a);
  }

  // ---------------------------------------------------------------------------
  // Page footers

  /** `is_page_footer`: below nine tenths of the page and matching a footer pattern. */
  predicate IsPageFooter(text: string, y: real, height: real) {
    y > height * 0.9 && SearchAny(FooterPatterns, Strip(Lower(text)))
  }

  /** A footer is exactly a page number or page label in the bottom tenth. */
  lemma FooterIff(text: string, y: real, height: real)
    ensures IsPageFooter(text, y, height) <==> y > height * 0.9 && IsFooterText(Strip(Lower(text)))
  {
    FooterPatternsIff(Strip(Lower(text)));
  }

  // ---------------------------------------------------------------------------
  // Element types

  datatype ElementType = Title | ListItem | NarrativeText

  /** `s` starts with one of `keywords`, scanned in order. */
  predicate StartsWithAny(keywords: seq<string>, s: string) {
    keywords != [] && (StartsWith(s, keywords[0]) || StartsWithAny(keywords[1..], s))
  }

  /** `StartsWithAny` holds exactly when one of the keywords is a prefix. */
  lemma {:induction false} StartsWithAnyIff(keywords: seq<string>, s: string)
    ensures StartsWithAny(keywords, s) <==> exists k :: 0 <= k < |keywords| && StartsWith(s, keywords[k])
  {
    if keywords != [] {
      StartsWithAnyIff(keywords[1..], s);
      if exists k :: 0 <= k < |keywords| && StartsWith(s, keywords[k]) {
        var k :| 0 <= k < |keywords| && StartsWith(s, keywords[k]);
        if k > 0 {
          assert keywords[1..][k - 1] == keywords[k];
        }
      }
      if exists k :: 0 <= k < |keywords[1..]| && StartsWith(s, keywords[1..][k]) {
        var k :| 0 <= k < |keywords[1..]| && StartsWith(s, keywords[1..][k]);
        assert keywords[k + 1] == keywords[1..][k];
      }
    }
  }

  /** `detect_element_type`: title rules first, then list rules, else narrative. */
  function DetectElementType(text: string): ElementType {
    TypeOfStripped(Strip(text))
  }

  /** The rules of `detect_element_type`, applied to the already stripped text. */
  function TypeOfStripped(stripped: string): ElementType {
    if Search(HeadingPattern, stripped) && |stripped| < 100 then Title
    else if StartsWithAny(SectionKeywords, Lower(stripped)) && |stripped| < 80 then Title
    else if Search(BulletPattern, stripped) || Search(NumberedItemPattern, stripped) then ListItem
    else NarrativeText
  }

  /** The element type, stated with the plain recognisers in place of the patterns. */
  function ReferenceType(stripped: string): ElementType {
    if IsNumberedHeading(stripped) && |stripped| < 100 then Title
    else if StartsWithAny(SectionKeywords, Lower(stripped)) && |stripped| < 80 then Title
    else if IsBulletItem(stripped) || IsNumberedItem(stripped) then ListItem
    else NarrativeText
  }

  /** The classifier agrees with the reference on every text. */
  lemma ElementTypeIsReference(text: string)
    ensures DetectElementType(text) == ReferenceType(Strip(text))
  {
    var stripped := Strip(text);
    HeadingPatternIff(stripped);
    BulletPatternIff(stripped);
    NumberedItemPatternIff(stripped);
  }

  /** The type depends only on the stripped text. */
  lemma ElementTypeOfStripped(text: string)
    ensures DetectElementType(Strip(text)) == DetectElementType(text)
  {
    StripIdempotent(text);
  }

  /**
   * A title is short: under 100 characters for a numbered heading and under
   * 80 for a keyword title; and the title rules win over the list rules.
   */
  lemma TitleRules(text: string)
    ensures var t := Strip(text);
            DetectElementType(text) == Title <==>
              (IsNumberedHeading(t) && |t| < 100) ||
              ((exists k :: 0 <= k < |SectionKeywords| && StartsWith(Lower(t), SectionKeywords[k])) && |t| < 80)
    ensures var t := Strip(text);
            DetectElementType(text) == ListItem <==>
              !(IsNumberedHeading(t) && |t| < 100) &&
              !((exists k :: 0 <= k < |SectionKeywords| && StartsWith(Lower(t), SectionKeywords[k])) && |t| < 80) &&
              (IsBulletItem(t) || IsNumberedItem(t))
  {
    ElementTypeIsReference(text);
    StartsWithAnyIff(SectionKeywords, Lower(Strip(text)));
  }

  /** No keyword is a prefix of a text whose first character starts none of them. */
  lemma {:induction false} NoKeywordPrefix(keywords: seq<string>, s: string)
    requires s != []
    requires forall k :: 0 <= k < |keywords| ==> keywords[k] != [] && keywords[k][0] != s[0]
    ensures !StartsWithAny(keywords, s)
  {
    if keywords != [] {
      NoKeywordPrefix(keywords[1..], s);
    }
  }

  /** The first letters of the section keywords. */
  lemma KeywordInitials()
    ensures forall k :: 0 <= k < |SectionKeywords| ==>
              SectionKeywords[k] != [] && SectionKeywords[k][0] in "edrpoa"
  {
  }

  /** A stripped text has the type the reference gives it. */
  lemma TypeOfStrippedText(s: string, t: ElementType)
    requires TrimStart(s) == s && TrimEnd(s) == s
    requires ReferenceType(s) == t
    ensures DetectElementType(s) == t
  {
    ElementTypeIsReference(s);
  }

  lemma ScopeIsHeading()
    ensures IsNumberedHeading("1. Scope")
  {
    var s := "1. Scope";
    assert SkipDigits(s, 1) == 1;
    assert SkipDigits(s, 0) == 1;
    assert SkipSpaces(s, 2) == 3;
    assert SkipSpaces(s, 3) == 3;
  }

  lemma ScopeIsStripped()
    ensures TrimStart("1. Scope") == "1. Scope" && TrimEnd("1. Scope") == "1. Scope"
  {
  }

  /** "1. Scope" is a title. */
  lemma NumberedHeadingExample()
    ensures DetectElementType("1. Scope") == Title
  {
    ScopeIsHeading();
    ScopeIsStripped();
    TypeOfStrippedText("1. Scope", Title);
  }

  lemma CheckValveIsBullet()
    ensures !IsNumberedHeading("- check valve") && IsBulletItem("- check valve")
  {
    assert SkipDigits("- check valve", 0) == 0;
  }

  /** A text whose lower-cased first character starts no keyword has no section keyword. */
  lemma NoSectionKeyword(s: string)
    requires s != [] && Lower(s)[0] !in "edrpoa"
    ensures !StartsWithAny(SectionKeywords, Lower(s))
  {
    KeywordInitials();
    NoKeywordPrefix(SectionKeywords, Lower(s));
  }

  lemma CheckValveIsStripped()
    ensures TrimStart("- check valve") == "- check valve" && TrimEnd("- check valve") == "- check valve"
  {
  }

  /** "- check valve" is a list item. */
  lemma BulletExample()
    ensures DetectElementType("- check valve") == ListItem
  {
    CheckValveIsBullet();
    assert Lower("- check valve")[0] == '-';
    NoSectionKeyword("- check valve");
    CheckValveIsStripped();
    TypeOfStrippedText("- check valve", ListItem);
  }

  lemma PumpIsPlain()
    ensures var s := "The pump failed during test.";
            !IsNumberedHeading(s) && !IsNumberedItem(s) && !IsBulletItem(s)
  {
    assert SkipDigits("The pump failed during test.", 0) == 0;
  }

  lemma PumpIsStripped()
    ensures var s := "The pump failed during test.";
            TrimStart(s) == s && TrimEnd(s) == s
  {
  }

  /** "The pump failed during test." is narrative text. */
  lemma NarrativeExample()
    ensures DetectElementType("The pump failed during test.") == NarrativeText
  {
    PumpIsPlain();
    assert Lower("The pump failed during test.")[0] == 't';
    NoSectionKeyword("The pump failed during test.");
    PumpIsStripped();
    TypeOfStrippedText("The pump failed during test.", NarrativeText);
  }
}
