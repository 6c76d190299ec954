/**
 * `extract_pdf` of scripts/extract-pdf.py: page by page, the tables found on
 * the page become Table elements, the text outside the tables is cut into
 * paragraphs, page headers and footers are dropped, and every other
 * paragraph becomes an element of the type `detect_element_type` gives it.
 *
 * The PDF library is not modelled: a page is given as its height, the
 * tables its layout analysis found, its objects, and two functions standing
 * for `extract_text(layout=True)` on a set of objects and for `page.search`.
 */
module Extract {
  import opened Wrappers
  import opened Text
  import opened Classify
  import opened Tables
  import opened Paragraphs
  import opened Patterns

  /** One element of the result: a table, or a paragraph with its type. */
  datatype Element =
    | Table(text: string, page: nat, rows: nat, cols: nat)
    | Paragraph(kind: ElementType, text: string, page: nat)

  /**
   * One PDF page as the library presents it. `extractText` is the layout
   * text of the given objects (`None` when there is none); `search` gives
   * the `top` of the first match of a text on the page, if any.
   */
  datatype Page = Page(
    height: real,
    tables: seq<TableRegion>,
    objects: seq<PageObject>,
    extractText: seq<PageObject> -> Option<string>,
    search: string -> Option<real>)

  /** The dictionary `extract_pdf` returns, without the file name and path. */
  datatype Document = Document(pages: nat, elementCount: nat, tablesFound: nat, elements: seq<Element>)

  // ---------------------------------------------------------------------------
  // What one page contributes

  /** `[t.bbox for t in tables]`: the boxes of all tables, those with an empty grid included. */
  function TableBoxes(tables: seq<TableRegion>): (boxes: seq<BBox>)
    ensures |boxes| == |tables|
    ensures forall k :: 0 <= k < |tables| ==> boxes[k] == tables[k].bbox
  {
    seq(|tables|, k requires 0 <= k < |tables| => tables[k].bbox)
  }

  /**
   * The Table element of a detected table with a non-empty grid: its rendered
   * text, its page, the number of rows and the width of its first row.
   */
  predicate TableElementFor(e: Element, table: TableRegion, pageNum: nat) {
    table.grid != [] && e == Table(TableText(table.grid), pageNum, |table.grid|, |table.grid[0]|)
  }

  /** The element a detected table gives: none when its grid is empty. */
  function TableElementOf(table: TableRegion, pageNum: nat): seq<Element> {
    if table.grid == [] then []
    else [Table(TableText(table.grid), pageNum, |table.grid|, |table.grid[0]|)]
  }

  /** The elements of the page's tables, in detection order. */
  function TableElements(tables: seq<TableRegion>, pageNum: nat): (es: seq<Element>)
    ensures |es| <= |tables|
    ensures forall i :: 0 <= i < |es| ==> es[i].Table? && es[i].page == pageNum && es[i].rows >= 1
    ensures forall i :: 0 <= i < |es| ==> exists k :: 0 <= k < |tables| && TableElementFor(es[i], tables[k], pageNum)
  {
    if tables == [] then []
    else
      var n := |tables| - 1;
      var init := TableElements(tables[..n], pageNum);
      var last := TableElementOf(tables[n], pageNum);
      assert forall k :: 0 <= k < n ==> tables[..n][k] == tables[k];
      assert forall i :: |init| <= i < |init + last| ==> TableElementFor((init + last)[i], tables[n], pageNum);
      init + last
  }

  /**
   * The tables keep their detection order: the elements of two runs of
   * tables are the elements of the first run followed by those of the second.
   */
  lemma {:induction false} TableElementsAppend(a: seq<TableRegion>, b: seq<TableRegion>, pageNum: nat)
    ensures TableElements(a + b, pageNum) == TableElements(a, pageNum) + TableElements(b, pageNum)
  {
    if b == [] {
      assert a + b == a;
    } else {
      var n := |b| - 1;
      TableElementsAppend(a, b[..n], pageNum);
      assert (a + b)[..|a + b| - 1] == a + b[..n];
      assert (a + b)[|a + b| - 1] == b[n];
      AppendAssoc(TableElements(a, pageNum), TableElements(b[..n], pageNum), TableElementOf(b[n], pageNum));
    }
  }

  /** A single table gives exactly its own element. */
  lemma TableElementsOne(table: TableRegion, pageNum: nat)
    ensures TableElements([table], pageNum) == TableElementOf(table, pageNum)
  {
    assert [table][..0] == [];
  }

  /** A table element with two rows of two cells, the last one empty. */
  lemma TableElementExample(b: BBox, p: nat)
    ensures TableElementOf(TableRegion(b, [[Some("A"), Some("B")], [Some("C"), None]]), p) == [Table("A | B\nC | ", p, 2, 2)]
  {
    RenderExample();
  }

  /** The text outside the tables: `extract_text(layout=True) or ""` on the filtered page. */
  function PageText(page: Page): string {
    page.extractText(FilterObjects(page.objects, TableBoxes(page.tables))).GetOr("")
  }

  /**
   * The vertical position used for a paragraph: the `top` of the first match
   * of its first 20 characters when it has 20 or more and a match is found,
   * otherwise the middle of the page.
   */
  function Position(page: Page, para: string): real {
    var firstChar := if |para| >= 20 then page.search(para[..20]) else None;
    if firstChar.Some? then firstChar.value else page.height / 2.0
  }

  /** A paragraph element of page `pageNum`: stripped, at least five characters long. */
  predicate KeptParagraph(e: Element, pageNum: nat) {
    e.Paragraph? && e.page == pageNum && |e.text| >= 5 && IsStripped(e.text)
  }

  /** A stripped paragraph that is kept: five characters or more, neither a header nor a footer. */
  predicate Keeps(page: Page, para: string) {
    |para| >= 5 &&
    !IsHeader(para, Position(page, para), page.height) &&
    !IsPageFooter(para, Position(page, para), page.height)
  }

  /** The element one piece of the split text gives: none for short texts, headers and footers. */
  function ParagraphElementOf(page: Page, pageNum: nat, piece: string): (es: seq<Element>)
    ensures es == [] || (|Strip(piece)| >= 5 && es == [Paragraph(DetectElementType(Strip(piece)), Strip(piece), pageNum)])
    ensures forall e :: e in es ==> KeptParagraph(e, pageNum)
  {
    var para := Strip(piece);
    if |para| < 5 then []
    else
      var y := Position(page, para);
      if IsHeader(para, y, page.height) || IsPageFooter(para, y, page.height) then []
      else [Paragraph(DetectElementType(para), para, pageNum)]
  }

  /** A piece gives an element exactly when its stripped text is kept. */
  lemma KeepRule(page: Page, pageNum: nat, piece: string)
    ensures ParagraphElementOf(page, pageNum, piece) != [] <==> Keeps(page, Strip(piece))
  {
  }

  /** A piece that gives an element is neither a header nor a footer at its position. */
  lemma KeptNotHeaderOrFooter(page: Page, pageNum: nat, piece: string)
    requires ParagraphElementOf(page, pageNum, piece) != []
    ensures !IsHeader(Strip(piece), Position(page, Strip(piece)), page.height)
    ensures !IsPageFooter(Strip(piece), Position(page, Strip(piece)), page.height)
  {
  }

  /** The elements of the pieces, in order. */
  function TextElements(page: Page, pageNum: nat, pieces: seq<string>): (es: seq<Element>)
    ensures |es| <= |pieces|
    ensures forall i :: 0 <= i < |es| ==> KeptParagraph(es[i], pageNum)
  {
    if pieces == [] then []
    else
      var init := TextElements(page, pageNum, pieces[..|pieces| - 1]);
      var last := ParagraphElementOf(page, pageNum, pieces[|pieces| - 1]);
      KeptAppend(init, last, pageNum);
      init + last
  }

  /** The elements of a prefix of the pieces begin the elements of all of them. */
  lemma {:induction false} TextElementsPrefix(page: Page, pageNum: nat, pieces: seq<string>, m: nat)
    requires m <= |pieces|
    ensures TextElements(page, pageNum, pieces[..m]) <= TextElements(page, pageNum, pieces)
  {
    if m < |pieces| {
      var n := |pieces| - 1;
      TextElementsPrefix(page, pageNum, pieces[..n], m);
      assert pieces[..n][..m] == pieces[..m];
      TextElementsSnoc(page, pageNum, pieces, n);
      assert pieces[..n + 1] == pieces;
      PrefixAppend(TextElements(page, pageNum, pieces[..m]), TextElements(page, pageNum, pieces[..n]),
                   ParagraphElementOf(page, pageNum, pieces[n]));
    } else {
      assert pieces[..m] == pieces;
    }
  }

  /** Every kept piece gives its paragraph among the elements of the pieces. */
  lemma TextElementsKeep(page: Page, pageNum: nat, pieces: seq<string>, k: nat)
    requires k < |pieces| && Keeps(page, Strip(pieces[k]))
    ensures Paragraph(DetectElementType(Strip(pieces[k])), Strip(pieces[k]), pageNum) in TextElements(page, pageNum, pieces)
  {
    KeepRule(page, pageNum, pieces[k]);
    TextElementsSnoc(page, pageNum, pieces, k);
    TextElementsPrefix(page, pageNum, pieces, k + 1);
    LastOfPrefix(TextElements(page, pageNum, pieces[..k]), ParagraphElementOf(page, pageNum, pieces[k]),
                 TextElements(page, pageNum, pieces));
  }

  /** Everything page `pageNum` contributes: its tables, then its paragraphs. */
  function PageElements(page: Page, pageNum: nat): seq<Element> {
    TableElements(page.tables, pageNum) + TextElements(page, pageNum, SplitParagraphs(PageText(page)))
  }

  /** The elements of a run of pages numbered from 1. */
  function DocumentElements(pages: seq<Page>): seq<Element> {
    if pages == [] then []
    else DocumentElements(pages[..|pages| - 1]) + PageElements(pages[|pages| - 1], |pages|)
  }

  /** `tables_found`: the page number of every Table element, in order. */
  function TablePages(es: seq<Element>): (ps: seq<nat>)
    ensures |ps| <= |es|
  {
    if es == [] then []
    else TablePages(es[..|es| - 1]) + (if es[|es| - 1].Table? then [es[|es| - 1].page] else [])
  }

  // ---------------------------------------------------------------------------
  // One more table, piece, page or element

  lemma TableElementsSnoc(tables: seq<TableRegion>, t: nat, pageNum: nat)
    requires t < |tables|
    ensures TableElements(tables[..t + 1], pageNum) == TableElements(tables[..t], pageNum) + TableElementOf(tables[t], pageNum)
  {
    assert tables[..t + 1][..t] == tables[..t];
  }

  lemma TextElementsSnoc(page: Page, pageNum: nat, pieces: seq<string>, k: nat)
    requires k < |pieces|
    ensures TextElements(page, pageNum, pieces[..k + 1]) ==
            TextElements(page, pageNum, pieces[..k]) + ParagraphElementOf(page, pageNum, pieces[k])
  {
    assert pieces[..k + 1][..k] == pieces[..k];
  }

  lemma DocumentElementsSnoc(pages: seq<Page>, p: nat)
    requires p < |pages|
    ensures DocumentElements(pages[..p + 1]) == DocumentElements(pages[..p]) + PageElements(pages[p], p + 1)
  {
    assert pages[..p + 1][..p] == pages[..p];
  }

  lemma TablePagesSnoc(es: seq<Element>, x: Element)
    ensures TablePages(es + [x]) == TablePages(es) + (if x.Table? then [x.page] else [])
  {
    assert (es + [x])[..|es|] == es;
  }

  /** Appending paragraphs adds no table page. */
  lemma {:induction false} TablePagesParagraphs(es: seq<Element>, more: seq<Element>)
    requires forall i :: 0 <= i < |more| ==> more[i].Paragraph?
    ensures TablePages(es + more) == TablePages(es)
  {
    if more == [] {
      assert es + more == es;
    } else {
      var n := |more| - 1;
      TablePagesParagraphs(es, more[..n]);
      assert es + more == (es + more[..n]) + [more[n]];
      TablePagesSnoc(es + more[..n], more[n]);
    }
  }

  /** The element of a piece, once the header test has been run on it. */
  lemma ParagraphStep(page: Page, pageNum: nat, piece: string, isHeader: bool)
    requires |Strip(piece)| >= 5 ==> isHeader == IsHeader(Strip(piece), Position(page, Strip(piece)), page.height)
    ensures var para := Strip(piece);
            var y := Position(page, para);
            ParagraphElementOf(page, pageNum, piece) ==
              if |para| < 5 || isHeader || IsPageFooter(para, y, page.height) then []
              else [Paragraph(DetectElementType(para), para, pageNum)]
  {
  }

  lemma AppendAssoc<T>(a: seq<T>, b: seq<T>, c: seq<T>)
    ensures (a + b) + c == a + (b + c)
  {
  }

  lemma PrefixAppend<T>(a: seq<T>, b: seq<T>, c: seq<T>)
    requires a <= b
    ensures a <= b + c
  {
    assert (b + c)[..|a|] == b[..|a|];
  }

  /** The one element `b` adds to `a` is in any sequence that `a + b` begins. */
  lemma LastOfPrefix<T>(a: seq<T>, b: seq<T>, c: seq<T>)
    requires |b| == 1 && a + b <= c
    ensures b[0] in c
  {
    assert c[|a|] == (a + b)[|a|] == b[0];
  }

  /** Kept paragraphs of a page, joined, are kept paragraphs of that page. */
  lemma KeptAppend(a: seq<Element>, b: seq<Element>, pageNum: nat)
    requires forall i :: 0 <= i < |a| ==> KeptParagraph(a[i], pageNum)
    requires forall e :: e in b ==> KeptParagraph(e, pageNum)
    ensures forall i :: 0 <= i < |a + b| ==> KeptParagraph((a + b)[i], pageNum)
  {
    forall i | 0 <= i < |a + b|
      ensures KeptParagraph((a + b)[i], pageNum)
    {
      if i >= |a| {
        assert (a + b)[i] == b[i - |a|];
      }
    }
  }

  lemma AppendNil<T>(a: seq<T>)
    ensures a + [] == a
  {
  }

  /** One more piece: the running list grows by the piece's element, and no table page is added. */
  lemma TextElementsStep(elements0: seq<Element>, soFar: seq<Element>, added: seq<Element>, tablesFound: seq<nat>,
                         page: Page, pageNum: nat, pieces: seq<string>, k: nat)
    requires k < |pieces|
    requires soFar == elements0 + TextElements(page, pageNum, pieces[..k])
    requires tablesFound == TablePages(soFar)
    requires added == ParagraphElementOf(page, pageNum, pieces[k])
    ensures soFar + added == elements0 + TextElements(page, pageNum, pieces[..k + 1])
    ensures tablesFound == TablePages(soFar + added)
  {
    TextElementsSnoc(page, pageNum, pieces, k);
    AppendAssoc(elements0, TextElements(page, pageNum, pieces[..k]), added);
    TablePagesParagraphs(soFar, added);
  }

  lemma PageAssembly(before: seq<Element>, withTables: seq<Element>, elements: seq<Element>,
                     page: Page, pageNum: nat, paragraphs: seq<string>)
    requires withTables == before + TableElements(page.tables, pageNum)
    requires paragraphs == SplitParagraphs(PageText(page))
    requires elements == withTables + TextElements(page, pageNum, paragraphs)
    ensures elements == before + PageElements(page, pageNum)
  {
    AppendAssoc(before, TableElements(page.tables, pageNum), TextElements(page, pageNum, paragraphs));
  }

  // ---------------------------------------------------------------------------
  // Properties of the result

  /** `a` may come before `b`: an earlier page, or the same page with tables before paragraphs. */
  predicate Precedes(a: Element, b: Element) {
    a.page < b.page || (a.page == b.page && (a.Table? || b.Paragraph?))
  }

  /** Pages never go back, and within a page no table follows a paragraph. */
  predicate InDocumentOrder(es: seq<Element>) {
    forall i, j :: 0 <= i < j < |es| ==> Precedes(es[i], es[j])
  }

  /** Every element's page number lies in `lo..hi`. */
  predicate OnPages(es: seq<Element>, lo: nat, hi: nat) {
    forall i :: 0 <= i < |es| ==> lo <= es[i].page <= hi
  }

  lemma OrderAppend(a: seq<Element>, b: seq<Element>)
    requires InDocumentOrder(a) && InDocumentOrder(b)
    requires forall i, j :: 0 <= i < |a| && 0 <= j < |b| ==> Precedes(a[i], b[j])
    ensures InDocumentOrder(a + b)
  {
    forall i, j | 0 <= i < j < |a + b|
      ensures Precedes((a + b)[i], (a + b)[j])
    {
      if j < |a| {
        assert (a + b)[i] == a[i] && (a + b)[j] == a[j];
      } else if i < |a| {
        assert (a + b)[i] == a[i] && (a + b)[j] == b[j - |a|];
      } else {
        assert (a + b)[i] == b[i - |a|] && (a + b)[j] == b[j - |a|];
      }
    }
  }

  lemma OnPagesAppend(a: seq<Element>, b: seq<Element>, lo: nat, hi: nat)
    requires OnPages(a, lo, hi) && OnPages(b, lo, hi)
    ensures OnPages(a + b, lo, hi)
  {
    forall i | 0 <= i < |a + b|
      ensures lo <= (a + b)[i].page <= hi
    {
      if i >= |a| {
        assert (a + b)[i] == b[i - |a|];
      }
    }
  }

  /** A page's elements all carry its number, its tables first. */
  lemma PageOrder(page: Page, pageNum: nat)
    ensures OnPages(PageElements(page, pageNum), pageNum, pageNum)
    ensures InDocumentOrder(PageElements(page, pageNum))
  {
    var ts := TableElements(page.tables, pageNum);
    var ps := TextElements(page, pageNum, SplitParagraphs(PageText(page)));
    assert forall i :: 0 <= i < |ps| ==> ps[i].Paragraph? && ps[i].page == pageNum;
    OrderAppend(ts, ps);
    OnPagesAppend(ts, ps, pageNum, pageNum);
  }

  /**
   * The elements of the document come page by page, pages numbered from 1
   * to the page count and never going back, each page's tables first.
   */
  lemma {:induction false} DocumentOrder(pages: seq<Page>)
    ensures OnPages(DocumentElements(pages), 1, |pages|)
    ensures InDocumentOrder(DocumentElements(pages))
  {
    if pages != [] {
      var n := |pages| - 1;
      var init := DocumentElements(pages[..n]);
      var last := PageElements(pages[n], n + 1);
      DocumentOrder(pages[..n]);
      PageOrder(pages[n], n + 1);
      assert OnPages(init, 1, |pages|);
      assert OnPages(last, 1, |pages|);
      OnPagesAppend(init, last, 1, |pages|);
      OrderAppend(init, last);
    }
  }

  /** Each paragraph element comes from one piece of the split text. */
  lemma {:induction false} TextElementsFrom(page: Page, pageNum: nat, pieces: seq<string>, i: nat)
    requires i < |TextElements(page, pageNum, pieces)|
    ensures exists k :: 0 <= k < |pieces| && TextElements(page, pageNum, pieces)[i] in ParagraphElementOf(page, pageNum, pieces[k])
  {
    var n := |pieces| - 1;
    var init := TextElements(page, pageNum, pieces[..n]);
    var last := ParagraphElementOf(page, pageNum, pieces[n]);
    assert TextElements(page, pageNum, pieces) == init + last;
    if i < |init| {
      TextElementsFrom(page, pageNum, pieces[..n], i);
      var k :| 0 <= k < n && init[i] in ParagraphElementOf(page, pageNum, pieces[..n][k]);
      assert pieces[..n][k] == pieces[k];
    } else {
      assert (init + last)[i] == last[i - |init|];
    }
  }

  /** A paragraph element of a page's text: a stripped piece, kept by the header and footer tests. */
  lemma TextParagraph(page: Page, pageNum: nat, pieces: seq<string>, i: nat)
    requires i < |TextElements(page, pageNum, pieces)|
    ensures var e := TextElements(page, pageNum, pieces)[i];
            && (exists piece :: piece in pieces && e.text == Strip(piece))
            && e.kind == DetectElementType(e.text)
            && !IsHeader(e.text, Position(page, e.text), page.height)
            && !IsPageFooter(e.text, Position(page, e.text), page.height)
  {
    TextElementsFrom(page, pageNum, pieces, i);
    var k :| 0 <= k < |pieces| && TextElements(page, pageNum, pieces)[i] in ParagraphElementOf(page, pageNum, pieces[k]);
    KeptNotHeaderOrFooter(page, pageNum, pieces[k]);
    assert pieces[k] in pieces;
  }

  /**
   * A paragraph element of a page is a piece of the text outside its tables,
   * stripped, at least five characters long, neither a header nor a footer
   * at the position found for it, and typed by `DetectElementType`.
   */
  lemma PageParagraph(page: Page, pageNum: nat, i: nat)
    requires i < |PageElements(page, pageNum)| && PageElements(page, pageNum)[i].Paragraph?
    ensures var e := PageElements(page, pageNum)[i];
            && (exists piece :: piece in SplitParagraphs(PageText(page)) && e.text == Strip(piece))
            && |e.text| >= 5 && IsStripped(e.text)
            && e.kind == DetectElementType(e.text)
            && !IsHeader(e.text, Position(page, e.text), page.height)
            && !IsPageFooter(e.text, Position(page, e.text), page.height)
  {
    var ts := TableElements(page.tables, pageNum);
    var ps := TextElements(page, pageNum, SplitParagraphs(PageText(page)));
    assert PageElements(page, pageNum)[i] == (ts + ps)[i];
    assert i >= |ts|;
    assert PageElements(page, pageNum)[i] == ps[i - |ts|];
    TextParagraph(page, pageNum, SplitParagraphs(PageText(page)), i - |ts|);
  }

  /**
   * A paragraph shorter than 20 characters is not searched for: it sits in
   * the middle of the page, so on a page of non-negative height it is never
   * a footer, and it is a header only by the density rule.
   */
  lemma ShortParagraph(page: Page, para: string)
    requires |para| < 20 && page.height >= 0.0
    ensures Position(page, para) == page.height / 2.0
    ensures !IsPageFooter(para, Position(page, para), page.height)
    ensures IsHeader(para, Position(page, para), page.height) <==>
              CountMatchingLines(HeaderPatterns, FirstLines(SplitOn(Strip(Lower(para)), '\n'))) >= 3
  {
  }

  /** The number of tables with a non-empty grid. */
  function NonEmptyGrids(tables: seq<TableRegion>): (n: nat)
    ensures n <= |tables|
  {
    if tables == [] then 0
    else NonEmptyGrids(tables[..|tables| - 1]) + (if tables[|tables| - 1].grid != [] then 1 else 0)
  }

  /** The number of tables with a non-empty grid over all pages. */
  function DetectedTables(pages: seq<Page>): nat {
    if pages == [] then 0
    else DetectedTables(pages[..|pages| - 1]) + NonEmptyGrids(pages[|pages| - 1].tables)
  }

  lemma {:induction false} TablePagesAppend(a: seq<Element>, b: seq<Element>)
    ensures TablePages(a + b) == TablePages(a) + TablePages(b)
  {
    if b == [] {
      assert a + b == a;
    } else {
      var n := |b| - 1;
      TablePagesAppend(a, b[..n]);
      assert a + b == (a + b[..n]) + [b[n]];
      TablePagesSnoc(a + b[..n], b[n]);
      assert b == b[..n] + [b[n]];
      TablePagesSnoc(b[..n], b[n]);
      AppendAssoc(TablePages(a), TablePages(b[..n]), if b[n].Table? then [b[n].page] else []);
    }
  }

  /** One Table element per table with a non-empty grid. */
  lemma {:induction false} TableElementsCount(tables: seq<TableRegion>, pageNum: nat)
    ensures |TablePages(TableElements(tables, pageNum))| == NonEmptyGrids(tables)
  {
    if tables != [] {
      var n := |tables| - 1;
      TableElementsCount(tables[..n], pageNum);
      TablePagesAppend(TableElements(tables[..n], pageNum), TableElementOf(tables[n], pageNum));
      TableElementOfCount(tables[n], pageNum);
    }
  }

  lemma TableElementOfCount(table: TableRegion, pageNum: nat)
    ensures |TablePages(TableElementOf(table, pageNum))| == if table.grid != [] then 1 else 0
  {
    if table.grid != [] {
      var e := TableElementOf(table, pageNum)[0];
      assert TableElementOf(table, pageNum) == [] + [e];
      TablePagesSnoc([], e);
    }
  }

  /** `tables_found` counts exactly the tables with a non-empty grid, over all pages. */
  lemma {:induction false} TablesFoundCount(pages: seq<Page>)
    ensures |TablePages(DocumentElements(pages))| == DetectedTables(pages)
  {
    if pages != [] {
      var n := |pages| - 1;
      var page := pages[n];
      var ts := TableElements(page.tables, n + 1);
      var ps := TextElements(page, n + 1, SplitParagraphs(PageText(page)));
      TablesFoundCount(pages[..n]);
      TablePagesAppend(DocumentElements(pages[..n]), PageElements(page, n + 1));
      TablePagesAppend(ts, ps);
      TableElementsCount(page.tables, n + 1);
      TablePagesParagraphs([], ps);
      assert [] + ps == ps;
    }
  }

  // ---------------------------------------------------------------------------
  // The extraction loop

  /**
   * The body of the loop over the paragraphs of a page: the element the
   * piece gives, or none when it is short, a header or a footer.
   */
  method ParagraphElement(page: Page, pageNum: nat, piece: string) returns (added: seq<Element>)
    ensures added == ParagraphElementOf(page, pageNum, piece)
  {
    added := [];
    var para := Strip(piece);
    if |para| < 5 {
      ParagraphStep(page, pageNum, piece, false);
    } else {
      var firstChar := if |para| >= 20 then page.search(para[..20]) else None;
      var yPos := if firstChar.Some? then firstChar.value else page.height / 2.0;
      var isHeader := IsPageHeader(para, yPos, page.height);
      ParagraphStep(page, pageNum, piece, isHeader);
      if !isHeader && !IsPageFooter(para, yPos, page.height) {
        var elementType := DetectElementType(para);
        added := [Paragraph(elementType, para, pageNum)];
      }
    }
  }

  /** The loop over the tables of a page: one Table element per non-empty grid, in order. */
  method AddTableElements(tables: seq<TableRegion>, pageNum: nat, elements0: seq<Element>, tablesFound0: seq<nat>)
    returns (elements: seq<Element>, tablesFound: seq<nat>)
    requires tablesFound0 == TablePages(elements0)
    ensures elements == elements0 + TableElements(tables, pageNum)
    ensures tablesFound == TablePages(elements)
  {
    elements, tablesFound := elements0, tablesFound0;
    for t := 0 to |tables|
      invariant elements == elements0 + TableElements(tables[..t], pageNum)
      invariant tablesFound == TablePages(elements)
    {
      TableElementsSnoc(tables, t, pageNum);
      ghost var added: seq<Element> := [];
      AppendNil(elements);
      var tableData := tables[t].grid;
      if tableData != [] {
        var tableText := TableText(tableData);
        var element := Table(tableText, pageNum, |tableData|, |tableData[0]|);
        TablePagesSnoc(elements, element);
        elements := elements + [element];
        tablesFound := tablesFound + [pageNum];
        added := [element];
      }
      AppendAssoc(elements0, TableElements(tables[..t], pageNum), added);
    }
    assert tables[..|tables|] == tables;
  }

  /** The loop over the paragraphs of a page's text. */
  method AddParagraphElements(page: Page, pageNum: nat, paragraphs: seq<string>, elements0: seq<Element>, tablesFound: seq<nat>)
    returns (elements: seq<Element>)
    requires tablesFound == TablePages(elements0)
    ensures elements == elements0 + TextElements(page, pageNum, paragraphs)
    ensures tablesFound == TablePages(elements)
  {
    elements := elements0;
    AppendNil(elements0);
    for k := 0 to |paragraphs|
      invariant elements == elements0 + TextElements(page, pageNum, paragraphs[..k])
      invariant tablesFound == TablePages(elements)
    {
      var added := ParagraphElement(page, pageNum, paragraphs[k]);
      TextElementsStep(elements0, elements, added, tablesFound, page, pageNum, paragraphs, k);
      elements := elements + added;
    }
    assert paragraphs[..|paragraphs|] == paragraphs;
  }

  /**
   * The body of `extract_pdf`'s loop for one page: its tables, then the
   * paragraphs of the text outside them, appended to the running lists.
   */
  method ExtractPage(page: Page, pageNum: nat, elements0: seq<Element>, tablesFound0: seq<nat>)
    returns (elements: seq<Element>, tablesFound: seq<nat>)
    requires tablesFound0 == TablePages(elements0)
    ensures elements == elements0 + PageElements(page, pageNum)
    ensures tablesFound == TablePages(elements)
  {
    var withTables;
    withTables, tablesFound := AddTableElements(page.tables, pageNum, elements0, tablesFound0);
    var tableBoxes := TableBoxes(page.tables);
    var kept := FilterObjects(page.objects, tableBoxes);
    var text := page.extractText(kept).GetOr("");
    var paragraphs := SplitParagraphs(text);
    elements := AddParagraphElements(page, pageNum, paragraphs, withTables, tablesFound);
    PageAssembly(elements0, withTables, elements, page, pageNum, paragraphs);
  }

  /** `extract_pdf` after the file is opened: the loop over the pages. */
  method ExtractPdf(pages: seq<Page>) returns (doc: Document)
    ensures doc.pages == |pages|
    ensures doc.elements == DocumentElements(pages)
    ensures doc.elementCount == |doc.elements|
    ensures doc.tablesFound == |TablePages(doc.elements)| == DetectedTables(pages)
  {
    var elements: seq<Element> := [];
    var tablesFound: seq<nat> := [];
    var pageCount := |pages|;
    for p := 0 to |pages|
      invariant elements == DocumentElements(pages[..p])
      invariant tablesFound == TablePages(elements)
    {
      DocumentElementsSnoc(pages, p);
      elements, tablesFound := ExtractPage(pages[p], p + 1, elements, tablesFound);
    }
    assert pages[..|pages|] == pages;
    TablesFoundCount(pages);
    doc := Document(pageCount, |elements|, |tablesFound|, elements);
  }
}
