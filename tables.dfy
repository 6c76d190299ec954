/**
 * Tables on a page of scripts/extract-pdf.py: how a detected table grid is
 * rendered as text, and how the page's objects that fall inside a table's
 * bounding box are filtered out before the running text is extracted.
 */
module Tables {
  import opened Wrappers
  import opened Text

  /** A bounding box `(x0, top, x1, bottom)` in page coordinates. */
  datatype BBox = BBox(x0: real, top: real, x1: real, bottom: real)

  /** A table the layout analysis found: its box and its cell grid (`None` for an empty cell). */
  datatype TableRegion = TableRegion(bbox: BBox, grid: seq<seq<Option<string>>>)

  // ---------------------------------------------------------------------------
  // Rendering

  /** `str(cell) if cell else ""`: a missing or empty cell renders as "". */
  function CellText(cell: Option<string>): (t: string)
    ensures cell.None? ==> t == ""
    ensures cell.Some? ==> t == cell.value
  {
    match cell
    case None => ""
    case Some(c) => if c == "" then "" else c
  }

  /** The rendered cells of a row, in order. */
  function RowCells(row: seq<Option<string>>): (cells: seq<string>)
    ensures |cells| == |row|
    ensures forall i :: 0 <= i < |row| ==> cells[i] == CellText(row[i])
  {
    seq(|row|, i requires 0 <= i < |row| => CellText(row[i]))
  }

  /** `" | ".join(...)` over the cells of one row. */
  function RowText(row: seq<Option<string>>): string {
    Join(" | ", RowCells(row))
  }

  /** The rendered rows of a grid, in order. */
  function RowTexts(grid: seq<seq<Option<string>>>): (rows: seq<string>)
    ensures |rows| == |grid|
    ensures forall i :: 0 <= i < |grid| ==> rows[i] == RowText(grid[i])
  {
    seq(|grid|, i requires 0 <= i < |grid| => RowText(grid[i]))
  }

  /** `"\n".join(...)` over the rendered rows. */
  function TableText(grid: seq<seq<Option<string>>>): string {
    Join("\n", RowTexts(grid))
  }

  /** No cell of the grid holds the character `c`. */
  predicate NoCellHolds(grid: seq<seq<Option<string>>>, c: char) {
    forall i, j :: 0 <= i < |grid| && 0 <= j < |grid[i]| ==> c !in CellText(grid[i][j])
  }

  /**
   * When no cell holds a line break, the lines of the rendered table are
   * exactly its rendered rows: one line per row, in order.
   */
  lemma TableLines(grid: seq<seq<Option<string>>>)
    requires |grid| >= 1
    requires NoCellHolds(grid, '\n')
    ensures SplitOn(TableText(grid), '\n') == RowTexts(grid)
    ensures |SplitOn(TableText(grid), '\n')| == |grid|
  {
    var rows := RowTexts(grid);
    forall i | 0 <= i < |rows|
      ensures '\n' !in rows[i]
    {
      JoinWithout(" | ", RowCells(grid[i]), '\n');
    }
    SplitJoin(rows, '\n');
  }

  /** When no cell holds '|', a row of `n` cells renders with `n - 1` bars. */
  lemma RowBars(row: seq<Option<string>>)
    requires |row| >= 1
    requires forall j :: 0 <= j < |row| ==> '|' !in CellText(row[j])
    ensures CountChar(RowText(row), '|') == |row| - 1
  {
    assert CountChar(" | ", '|') == 1;
    CountCharJoin(" | ", RowCells(row), '|');
  }

  /** The grid `[["A", "B"], ["C", None]]` renders as "A | B\nC | ". */
  lemma RenderExample()
    ensures TableText([[Some("A"), Some("B")], [Some("C"), None]]) == "A | B\nC | "
  {
    var r0 := [Some("A"), Some("B")];
    var r1 := [Some("C"), None];
    assert RowCells(r0) == ["A", "B"];
    assert RowCells(r1) == ["C", ""];
    assert RowText(r0) == "A | B";
    assert RowText(r1) == "C | ";
    assert RowTexts([r0, r1]) == ["A | B", "C | "];
  }

  // ---------------------------------------------------------------------------
  // Filtering the objects inside tables

  /** A character or graphic object of the page; `x0` and `top` may be absent. */
  datatype PageObject = PageObject(text: string, x0: Option<real>, top: Option<real>)

  /** The point lies inside the box, borders included. */
  predicate InBox(b: BBox, x: real, y: real) {
    b.x0 <= x <= b.x1 && b.top <= y <= b.bottom
  }

  /** `any(... for bbox in table_bboxes)`: some box contains the point. */
  predicate AnyBoxContains(boxes: seq<BBox>, x: real, y: real) {
    boxes != [] && (InBox(boxes[0], x, y) || AnyBoxContains(boxes[1..], x, y))
  }

  /** `AnyBoxContains` holds exactly when one of the boxes contains the point. */
  lemma {:induction false} AnyBoxContainsIff(boxes: seq<BBox>, x: real, y: real)
    ensures AnyBoxContains(boxes, x, y) <==> exists k :: 0 <= k < |boxes| && InBox(boxes[k], x, y)
  {
    if boxes != [] {
      AnyBoxContainsIff(boxes[1..], x, y);
      if exists k :: 0 <= k < |boxes| && InBox(boxes[k], x, y) {
        var k :| 0 <= k < |boxes| && InBox(boxes[k], x, y);
        if k > 0 {
          assert boxes[1..][k - 1] == boxes[k];
        }
      }
    }
  }

  /**
   * The filter's predicate: an object without `x0` is kept; otherwise it is
   * dropped when a table box contains `(x0, top)`, a missing `top` read as 0.
   */
  predicate KeepObject(boxes: seq<BBox>, obj: PageObject) {
    obj.x0.None? || !AnyBoxContains(boxes, obj.x0.value, obj.top.GetOr(0.0))
  }

  /** `page.filter(...)`: the objects the predicate keeps, in their order. */
  function FilterObjects(objects: seq<PageObject>, boxes: seq<BBox>): (kept: seq<PageObject>)
    ensures |kept| <= |objects|
    ensures forall o :: o in kept <==> o in objects && KeepObject(boxes, o)
  {
    if objects == [] then []
    else (if KeepObject(boxes, objects[0]) then [objects[0]] else []) + FilterObjects(objects[1..], boxes)
  }

  /** Filtering keeps the order: it distributes over concatenation. */
  lemma {:induction false} FilterAppend(a: seq<PageObject>, b: seq<PageObject>, boxes: seq<BBox>)
    ensures FilterObjects(a + b, boxes) == FilterObjects(a, boxes) + FilterObjects(b, boxes)
  {
    if a == [] {
      assert a + b == b;
    } else {
      assert (a + b)[0] == a[0];
      assert (a + b)[1..] == a[1..] + b;
      FilterAppend(a[1..], b, boxes);
    }
  }

  /** An object is dropped exactly when it has `x0` and lies in a box, a missing `top` read as 0. */
  lemma DroppedIff(boxes: seq<BBox>, obj: PageObject)
    ensures !KeepObject(boxes, obj) <==>
              obj.x0.Some? &&
              exists k :: 0 <= k < |boxes| && InBox(boxes[k], obj.x0.value, obj.top.GetOr(0.0))
    ensures obj.x0.Some? && obj.top.None? ==>
              (!KeepObject(boxes, obj) <==> exists k :: 0 <= k < |boxes| && InBox(boxes[k], obj.x0.value, 0.0))
  {
    if obj.x0.Some? {
      AnyBoxContainsIff(boxes, obj.x0.value, obj.top.GetOr(0.0));
    }
  }

  /** With no tables on the page every object is kept. */
  lemma {:induction false} NoTablesKeepsAll(objects: seq<PageObject>)
    ensures FilterObjects(objects, []) == objects
  {
    if objects != [] {
      NoTablesKeepsAll(objects[1..]);
      assert objects == [objects[0]] + objects[1..];
    }
  }
}
