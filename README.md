# PDF structuring core of `extract-pdf.py`

`scripts/extract-pdf.py` turns a PDF into a JSON document of typed elements.
It works page by page:

- every table with a non-empty cell grid becomes a `Table` element; its text
  is the grid rendered as rows of `" | "`-joined cells, one row per line;
- the page's objects that lie inside a table's bounding box are filtered out;
- the remaining layout text is cut into paragraphs at blank lines
  (`re.split(r'\n\s*\n', ...)`);
- each paragraph is stripped, and it is dropped when it is shorter than 5
  characters, when it looks like a page header (`is_page_header`) or when it
  looks like a page footer (`is_page_footer`);
- every other paragraph becomes an element typed `Title`, `ListItem` or
  `NarrativeText` by `detect_element_type`.

The result records the page count, the element count, the number of tables
found, and the elements in page order.

The model has one module per concern:

| module | file | contents |
|---|---|---|
| `Wrappers` | `wrappers.dfy` | `Option` |
| `Text` | `text.dfy` | Python's `isspace`, `strip`, `lower`, `split('\n')` and `join`, with their round trips |
| `Regex` | `regex.dfy` | a small matcher for the regular expressions the script uses: literals, classes, `?`, `*`, `+`, `^`, `$` and `.*`, with `re.search` / `re.match` |
| `Patterns` | `patterns.dfy` | the header, footer, heading, bullet and numbered-item patterns as constants; for the footer, heading, bullet and numbered-item patterns, a direct description of the strings each one matches, proved equivalent |
| `Classify` | `classify.dfy` | `is_page_header` (a method with its loops, proved against `IsHeader`), `is_page_footer` and `detect_element_type` |
| `Tables` | `tables.dfy` | table rendering and the bounding-box filter |
| `Paragraphs` | `paragraphs.dfy` | `re.split(r'\n\s*\n', text)` |
| `Extract` | `extract.dfy` | `extract_pdf`: a method with the page, table and paragraph loops, proved against the function `DocumentElements` |

The PDF library is an input. A `Page` carries:

- its height;
- the tables found on it (bounding box and cell grid);
- its objects (optional `x0` and `top`);
- a function standing for `extract_text(layout=True)` on a list of objects;
- a function standing for `page.search`, giving the `top` of the first match.

## Model

| member | source | states |
|---|---|---|
| `Text.Strip` | scripts/extract-pdf.py:153 | `str.strip()` leaves no whitespace at either end |
| `Text.StripSpec` | scripts/extract-pdf.py:43 | the stripped text is the infix of the input between a leading and a trailing run of whitespace |
| `Text.StripIdempotent` | scripts/extract-pdf.py:81 | stripping an already stripped paragraph changes nothing, which is why the paragraph stripped at line 153 and stripped again at line 81 is typed as itself |
| `Text.Lower` | scripts/extract-pdf.py:43 | `lower()` keeps the length and maps every character on its own |
| `Text.LowerIdempotent` | scripts/extract-pdf.py:91 | lower-casing twice is lower-casing once |
| `Text.SplitOn` | scripts/extract-pdf.py:50 | `split('\n')` gives at least one line and no line holds a newline |
| `Text.JoinSplit` | scripts/extract-pdf.py:50 | joining the lines of a split with `'\n'` gives back the text |
| `Text.SplitJoin` | scripts/extract-pdf.py:127-130 | splitting a newline-join of newline-free rows gives back the rows |
| `Text.CountCharJoin` | scripts/extract-pdf.py:128 | joining n parts free of a character with a separator holding it once puts exactly n - 1 copies of it in the result |
| `Regex.SearchAnyIff` | scripts/extract-pdf.py:46-48 | the `for pattern ...: if re.search(...)` loop succeeds iff some pattern of the list is found |
| `Regex.SearchFromIff` | scripts/extract-pdf.py:47 | `re.search` succeeds iff the pattern matches at some start position |
| `Regex.StarGreedy` | scripts/extract-pdf.py:68 | when the rest of the pattern can match inside a run of x's only if it also matches after the whole run, `x*` followed by the rest matches iff the rest matches after the longest run |
| `Regex.SpacesToEnd` | scripts/extract-pdf.py:68 | `\s*$` matches at a position iff only whitespace follows it |
| `Patterns.PageNumberPatternIff` | scripts/extract-pdf.py:68 | `^\d+\s*$` matches exactly a run of digits followed only by whitespace |
| `Patterns.PageLabelPatternIff` | scripts/extract-pdf.py:69-70 | `^página\s*\d` and `^page\s*\d` match exactly the word, optional whitespace, then a digit |
| `Patterns.FooterPatternsIff` | scripts/extract-pdf.py:67-75 | the three footer patterns together match exactly a bare page number or a `página`/`page` label |
| `Patterns.HeadingPatternIff` | scripts/extract-pdf.py:83 | the numbered-heading regex matches exactly: digits, an optional dot, any whitespace, at most one of en dash, hyphen, colon or dot, any whitespace, then a capital from `A-Z` or `ÁÊÔÇ` |
| `Patterns.BulletPatternIff` | scripts/extract-pdf.py:96 | the bullet regex matches exactly a bullet character followed by at least one whitespace character |
| `Patterns.NumberedItemPatternIff` | scripts/extract-pdf.py:98 | the `n.n.n` regex matches exactly three dot-separated digit runs, an optional dot, then whitespace |
| `Classify.FindAnyPattern` | scripts/extract-pdf.py:46-48 | the pattern loop returns true iff some pattern is found in the text |
| `Classify.CountHeaderLines` | scripts/extract-pdf.py:51-57 | the line loop counts the lines on which at least one header pattern is found (one per line, thanks to `break`) |
| `Classify.IsPageHeader` | scripts/extract-pdf.py:26-61 | `is_page_header` returns exactly `IsHeader`: near the top and some pattern in the stripped lower-cased text, or at least 3 of the first 5 lines matching |
| `Classify.HeaderIff` | scripts/extract-pdf.py:43-61 | a header is either y < 0.20 × height with one of the 13 patterns found, or the density rule |
| `Classify.HeaderCountBound` | scripts/extract-pdf.py:52 | the density count is at most min(5, number of lines) |
| `Classify.LaterLinesIgnored` | scripts/extract-pdf.py:52 | lines after the fifth never change the density count |
| `Classify.DensityIff` | scripts/extract-pdf.py:50-58 | the count reaches 3 iff three distinct lines among the first five each match a header pattern |
| `Classify.DensityRule` | scripts/extract-pdf.py:50-59 | three matching lines among the first five make a header wherever the text sits on the page |
| `Classify.MatchingLineWitnesses` | scripts/extract-pdf.py:52-58 | a count of 3 or more exhibits three matching lines among the first five |
| `Classify.FooterIff` | scripts/extract-pdf.py:64-76 | a footer is exactly y > 0.9 × height with the stripped lower-cased text a bare page number or a page label |
| `Classify.ElementTypeIsReference` | scripts/extract-pdf.py:79-101 | `detect_element_type` agrees with the rules written without regular expressions: heading and length < 100, else keyword prefix and length < 80, else bullet or numbered item, else narrative |
| `Classify.ElementTypeOfStripped` | scripts/extract-pdf.py:81 | the type only depends on the stripped text |
| `Classify.TitleRules` | scripts/extract-pdf.py:83-99 | Title iff a numbered heading under 100 characters or a section keyword prefix under 80; ListItem iff not a Title and a bullet or numbered item |
| `Classify.StartsWithAnyIff` | scripts/extract-pdf.py:92-94 | the keyword loop succeeds iff the lower-cased text starts with some keyword |
| `Classify.NumberedHeadingExample` | scripts/extract-pdf.py:83-85 | "1. Scope" is a Title |
| `Classify.BulletExample` | scripts/extract-pdf.py:96-97 | "- check valve" is a ListItem |
| `Classify.NarrativeExample` | scripts/extract-pdf.py:101 | "The pump failed during test." is NarrativeText |
| `Tables.CellText` | scripts/extract-pdf.py:128 | a missing cell renders as "", any other cell as its text |
| `Tables.RowCells` | scripts/extract-pdf.py:128 | one rendered cell per cell of the row, in order |
| `Tables.RowTexts` | scripts/extract-pdf.py:127-130 | one rendered line per row of the grid, in order |
| `Tables.TableLines` | scripts/extract-pdf.py:127-130 | when no cell holds a newline, splitting the table text at newlines gives back exactly the rendered rows, one line per row |
| `Tables.RowBars` | scripts/extract-pdf.py:128 | a row of n cells free of the bar character renders with exactly n - 1 bars |
| `Tables.RenderExample` | scripts/extract-pdf.py:127-130 | the grid `[["A","B"],["C",None]]` renders as two lines: A, bar, B; then C, bar and an empty cell |
| `Tables.AnyBoxContainsIff` | scripts/extract-pdf.py:141-144 | `any(...)` over the boxes holds iff some box contains the point, bounds included |
| `Tables.FilterObjects` | scripts/extract-pdf.py:140-146 | the filter keeps, in order, exactly the objects without `x0` and those whose `(x0, top)` lies in no table box |
| `Tables.DroppedIff` | scripts/extract-pdf.py:141-145 | an object is dropped iff it has `x0` and some box contains `(x0, top)` with a missing `top` read as 0 |
| `Tables.FilterAppend` | scripts/extract-pdf.py:140-146 | the filter works object by object |
| `Tables.NoTablesKeepsAll` | scripts/extract-pdf.py:140-146 | a page without tables keeps all its objects |
| `Paragraphs.SplitParagraphsSpec` | scripts/extract-pdf.py:150 | the pieces and separators of `re.split(r'\n\s*\n', text)` rebuild the text; every separator is a newline, whitespace, newline; no piece with its neighbouring newlines holds a blank line |
| `Paragraphs.BreakEndSpec` | scripts/extract-pdf.py:150 | a separator found at a newline is the longest match of `\n\s*\n` there, and none is found when no blank line starts there |
| `Paragraphs.NoBreakOnePiece` | scripts/extract-pdf.py:150 | a text without a blank line is one paragraph |
| `Extract.TableBoxes` | scripts/extract-pdf.py:122 | one box per detected table, in order, empty grids included |
| `Extract.TableElements` | scripts/extract-pdf.py:124-138 | no more Table elements than tables, each on the current page with at least one row, and each the element of some table with a non-empty grid: its rendered text, the page, the number of rows and the length of the first row |
| `Extract.TableElementsAppend` | scripts/extract-pdf.py:124-138 | the tables keep their detection order: the elements of two runs of tables are those of the first run followed by those of the second |
| `Extract.TableElementsOne` | scripts/extract-pdf.py:126-138 | a run of one table gives exactly that table's `TableElementOf`, so with `TableElementsAppend` each table contributes its own element at its own place |
| `Extract.TableElementExample` | scripts/extract-pdf.py:126-137 | the grid `[["A","B"],["C",None]]` gives one Table element on the given page, with 2 rows, 2 columns and the rendered text of `Tables.RenderExample` |
| `Extract.ParagraphElementOf` | scripts/extract-pdf.py:152-174 | a piece yields nothing or one paragraph: the stripped piece, at least 5 characters long, typed by `detect_element_type` |
| `Extract.KeepRule` | scripts/extract-pdf.py:153-166 | a piece yields an element exactly when its stripped text has 5 or more characters and is neither a header nor a footer at its computed position |
| `Extract.KeptNotHeaderOrFooter` | scripts/extract-pdf.py:160-166 | a kept paragraph is neither a header nor a footer at its computed position |
| `Extract.TextElements` | scripts/extract-pdf.py:152-174 | no more elements than pieces, each a stripped paragraph of 5 or more characters on the current page |
| `Extract.TextElementsPrefix` | scripts/extract-pdf.py:152-174 | the elements of the first pieces begin the elements of all the pieces: later pieces only append |
| `Extract.TextElementsKeep` | scripts/extract-pdf.py:152-174 | every piece that the keep rule accepts gives its typed paragraph among the page's elements |
| `Extract.ParagraphElement` | scripts/extract-pdf.py:153-174 | one pass of the paragraph loop appends exactly what `ParagraphElementOf` gives |
| `Extract.AddTableElements` | scripts/extract-pdf.py:124-138 | the table loop appends the page's Table elements and keeps `tables_found` equal to the pages of the Table elements |
| `Extract.AddParagraphElements` | scripts/extract-pdf.py:152-174 | the paragraph loop appends the page's text elements and leaves `tables_found` unchanged |
| `Extract.ExtractPage` | scripts/extract-pdf.py:119-174 | one page contributes its Table elements followed by its text elements |
| `Extract.ExtractPdf` | scripts/extract-pdf.py:112-183 | the result has the page count, the elements of all pages in order, an element count equal to their number, and a table count equal to the number of Table elements and to the number of non-empty grids |
| `Extract.DocumentOrder` | scripts/extract-pdf.py:118-174 | every element lies on a page between 1 and the page count; pages never decrease; on a page Tables come before paragraphs |
| `Extract.PageParagraph` | scripts/extract-pdf.py:150-174 | every paragraph element is a stripped piece of the split text of 5 or more characters, typed by `detect_element_type`, and neither a header nor a footer at its position |
| `Extract.ShortParagraph` | scripts/extract-pdf.py:160-166 | a paragraph under 20 characters sits at height / 2, is never a footer, and is a header only through the density rule |
| `Extract.TablesFoundCount` | scripts/extract-pdf.py:138 | the pages recorded in `tables_found` are as many as the non-empty grids |
| `Extract.TableElementsCount` | scripts/extract-pdf.py:124-138 | the table loop records one page per non-empty grid |
| `Extract.TablePagesAppend` | scripts/extract-pdf.py:138 | the `tables_found` of a concatenation is the concatenation of the `tables_found` of its parts |

## Left out

- `main`, the command line and JSON output are not part of this model.
- The file-existence check (lines 108-110), `filename` and `filepath` (lines 177-178) need a file system and are not modelled.
- pdfplumber is a parameter: `find_tables`, `table.extract`, `page.filter` and `extract_text` are given as data or functions of a `Page`. Only the filter's predicate is modelled.
- `page.search` is an input function returning the `top` of its first match. pdfplumber treats the search string as a regular expression, and what it finds is not modelled.
- `ExtractPdf` always returns a document, because the model's `search` is total. In the code, `page.search` at line 160 compiles the first 20 characters of a paragraph as a regular expression, before the header test. A paragraph such as "1) Scope of work and responsibilities" holds an unbalanced `)` there. The search then raises `re.error`, which escapes `extract_pdf`, and `main` exits with status 1 (lines 218-220). That failure is not modelled.
- `\d` and `\s` follow Python on the characters modelled: `\d` is the ASCII digits only, and `lower()` covers ASCII and Latin-1 capitals only. Other Unicode digits and case mappings are left out.
- Page coordinates and heights are `real`. Floating-point rounding is not modelled.
- `lines` and `first_line` (lines 157-158) are computed but never used, so they are not modelled. The same goes for the `font_size` and `is_bold` parameters of `detect_element_type`.
- `obj.get("x0", 0)` at line 142 only runs when `"x0" in obj`, so its default never applies and is not modelled.
- The `or ""` of line 148 is modelled by `extractText` returning `None`.
- Cells are modelled as optional strings. `str(cell) if cell else ""` renders a missing cell and an empty string alike.

Behaviour of the code worth noting:

- A grid `[[]]` (one empty row) is truthy. It yields a Table element with the text "" and `cols` 0.
- The bounding box of every table found excludes objects, even when its grid is empty (line 122 collects all boxes).
- `tables_found` holds one page number per Table element. Its length is the number of tables with a non-empty grid, not the number of pages with tables.
