/** What a reader of the report's bytes finds on each page, said of the report's rows alone. */
module PdfPages {
  import opened Wrappers
  import opened Decimal
  import opened PdfDocument
  import opened PdfText
  import opened PdfReport

  // ----- Columns --------------------------------------------------------------

  /** The characters each column has room for: its share of the usable width at 3.25 points a character. */
  lemma ColumnLimits()
    ensures |COLUMNS| == |WEIGHTS| == 11
    ensures forall j: nat :: j < 11 ==> Limit(j) == [9, 25, 10, 20, 13, 10, 13, 25, 25, 15, 71][j]
  {
    assert forall j: nat :: j < 11 ==>
        [9, 25, 10, 20, 13, 10, 13, 25, 25, 15, 71][j] as real * 3.25 <= WEIGHTS[j] * 786.0
        < ([9, 25, 10, 20, 13, 10, 13, 25, 25, 15, 71][j] + 1) as real * 3.25;
  }

  /** Every row has one cell for each column. */
  ghost predicate Tabular(rows: seq<seq<string>>) {
    forall i :: 0 <= i < |rows| ==> |rows[i]| == 11
  }

  /** A cell as a reader sees it: cut to its column, with characters outside the font as question marks. */
  function ShownCell(row: seq<string>, j: nat): string
    requires j < |row|
  {
    ShownText(if j < 11 then Clip(row[j], Limit(j)) else row[j])
  }

  function ShownRow(row: seq<string>): (s: seq<string>)
    ensures |s| == |row|
  {
    seq(|row|, j requires 0 <= j < |row| => ShownCell(row, j))
  }

  /** The cells of some rows, row after row. */
  function ShownRows(rows: seq<seq<string>>): seq<string> {
    if rows == [] then [] else ShownRows(rows[..|rows| - 1]) + ShownRow(rows[|rows| - 1])
  }

  lemma Regroup(a: seq<string>, b: seq<string>, c: seq<string>)
    ensures a + b + c == a + (b + c)
  {
  }

  lemma {:induction false} ShownRowsJoin(a: seq<seq<string>>, b: seq<seq<string>>)
    ensures ShownRows(a + b) == ShownRows(a) + ShownRows(b)
  {
    hide ShownRow;
    if b == [] {
      assert a + b == a;
    } else {
      var n := |b| - 1;
      var all := a + b;
      assert all[..|all| - 1] == a + b[..n] && all[|all| - 1] == b[n];
      ShownRowsJoin(a, b[..n]);
      Regroup(ShownRows(a), ShownRows(b[..n]), ShownRow(b[n]));
    }
  }

  lemma {:induction false} TabularCells(rows: seq<seq<string>>)
    requires Tabular(rows)
    ensures |ShownRows(rows)| == |rows| * 11
    ensures forall i: nat, j: nat :: i < |rows| && j < 11 ==> ShownRows(rows)[i * 11 + j] == ShownCell(rows[i], j)
  {
    hide ShownCell;
    if rows != [] {
      var n := |rows| - 1;
      TabularCells(rows[..n]);
      forall i: nat, j: nat | i < |rows| && j < 11 ensures ShownRows(rows)[i * 11 + j] == ShownCell(rows[i], j) {
        if i < n {
          assert rows[..n][i] == rows[i];
          assert i * 11 + j < n * 11;
        } else {
          assert ShownRows(rows)[n * 11 + j] == ShownRow(rows[n])[j];
        }
      }
    }
  }

  // ----- The parts of a page --------------------------------------------------

  /** How many strings stand above the rows: title, definition, generated line on page one, column heads. */
  function HeadLength(page: nat): nat {
    if page == 0 then 14 else 13
  }

  /** The rows that belong on a page: row i on page i / 37. */
  function RowsFrom(rows: seq<seq<string>>, page: nat): seq<seq<string>>
    requires page * 37 <= |rows|
  {
    rows[page * 37..if page * 37 + 37 <= |rows| then page * 37 + 37 else |rows|]
  }

  /** The strings above the rows of a page. */
  ghost predicate HeadIs(r: Report, shown: seq<string>, page: nat, pages: nat) {
    var k := HeadLength(page) - 11;
    && HeadLength(page) <= |shown|
    && shown[0] == ShownText(if pages == 1 then "Aegis alert export"
                             else "Aegis alert export - page " + Show(page + 1) + " of " + Show(pages))
    && shown[1] == ShownText(r.definition)
    && (page == 0 ==> shown[2] == ShownText(r.generated))
    && forall j: nat :: j < 11 ==> shown[k + j] == ShownCell(COLUMNS, j)
  }

  /** A page shows its head and then the cells of its rows, and nothing else. */
  ghost predicate PageIs(r: Report, shown: seq<string>, page: nat, pages: nat)
    requires page * 37 <= |r.rows|
  {
    HeadIs(r, shown, page, pages) && shown[HeadLength(page)..] == ShownRows(RowsFrom(r.rows, page))
  }

  /** As many pages as hold the rows, and one when there are none. */
  ghost predicate PagesFor(rows: nat, pages: nat) {
    if rows == 0 then pages == 1 else pages >= 1 && (pages - 1) * 37 < rows <= pages * 37
  }

  lemma PageCountIs(rows: nat)
    ensures PagesFor(rows, PageCount(rows))
    ensures forall page: nat :: page < PageCount(rows) ==> page * 37 <= rows
  {
    if rows > 0 {
      PagesCoverRows(rows, PageCount(rows) - 1);
    }
  }

  lemma ShownValuesJoin(a: seq<string>, b: seq<string>)
    ensures ShownValues(a + b) == ShownValues(a) + ShownValues(b)
  {
    hide ShownText;
  }

  lemma CellsAreShown(row: seq<string>)
    ensures ShownValues(Cells(row)) == ShownRow(row)
  {
    hide ShownText, Clip, Limit;
  }

  lemma {:induction false} AllCellsAreShown(rows: seq<seq<string>>)
    ensures ShownValues(AllCells(rows)) == ShownRows(rows)
  {
    hide ShownValues, Cells, ShownRow;
    if rows == [] {
      NothingShown();
    } else {
      AllCellsAreShown(rows[1..]);
      ShownValuesJoin(Cells(rows[0]), AllCells(rows[1..]));
      CellsAreShown(rows[0]);
      assert [rows[0]] + rows[1..] == rows;
      ShownRowsJoin([rows[0]], rows[1..]);
      assert [rows[0]][..0] == [];
      assert ShownRows([rows[0]]) == ShownRow(rows[0]);
    }
  }

  lemma NothingShown()
    ensures ShownValues([]) == []
  {
  }

  lemma ChunkIsRowsFrom(rows: seq<seq<string>>, page: nat)
    requires page * 37 <= |rows|
    ensures Chunk(rows, page) == RowsFrom(rows, page)
  {
  }

  /** The strings of a page before they are shown: its head, then its cells. */
  lemma ValuesSplit(r: Report, page: nat)
    ensures var head := [Title(page, PageCount(|r.rows|)), r.definition]
                        + (if page == 0 then [r.generated] else []) + Cells(COLUMNS);
            PageValues(r, page) == head + AllCells(Chunk(r.rows, page)) && |head| == HeadLength(page)
  {
    hide Title, PageCount, Chunk, AllCells, Clip, Limit;
  }

  lemma HeadIsShown(r: Report, page: nat, pages: nat, rest: seq<string>)
    ensures var head := [Title(page, pages), r.definition] + (if page == 0 then [r.generated] else []) + Cells(COLUMNS);
            HeadIs(r, ShownValues(head) + rest, page, pages)
  {
    hide ShownText, Cells, Show;
    var top := [Title(page, pages), r.definition] + (if page == 0 then [r.generated] else []);
    ShownValuesJoin(top, Cells(COLUMNS));
    CellsAreShown(COLUMNS);
    var shown := ShownValues(top + Cells(COLUMNS)) + rest;
    assert forall j: nat :: j < 11 ==> shown[|top| + j] == ShownRow(COLUMNS)[j];
  }

  lemma ValuesAreThePage(r: Report, page: nat)
    requires page < PageCount(|r.rows|) && page * 37 <= |r.rows|
    ensures PageIs(r, ShownValues(PageValues(r, page)), page, PageCount(|r.rows|))
  {
    hide PageValues, AllCells, Chunk, PageCount, ShownValues, HeadIs, RowsFrom, Cells, Title;
    var pages := PageCount(|r.rows|);
    var head := [Title(page, pages), r.definition] + (if page == 0 then [r.generated] else []) + Cells(COLUMNS);
    var cells := AllCells(Chunk(r.rows, page));
    ValuesSplit(r, page);
    ShownValuesJoin(head, cells);
    AllCellsAreShown(Chunk(r.rows, page));
    ChunkIsRowsFrom(r.rows, page);
    HeadIsShown(r, page, pages, ShownValues(cells));
    SameLength(head);
    assert ShownValues(PageValues(r, page))[HeadLength(page)..] == ShownValues(cells);
  }

  lemma SameLength(values: seq<string>)
    ensures |ShownValues(values)| == |values|
  {
  }

  // ----- What the reader finds ------------------------------------------------

  /**
   * From the bytes of the report: as many pages as the rows need, each with its own number and the number of
   * pages in its title, the definition, the generated line on the first, the column heads, and the cells of
   * its own rows, in order.
   */
  lemma PagesAreFound(r: Report)
    requires Placed(r) && Addressable(ReportBodies(r))
    ensures var read := ReadReport(Assemble(ReportBodies(r)));
            && read.Some? && PagesFor(|r.rows|, |read.value|)
            && forall page: nat :: page < |read.value| ==>
                 page * 37 <= |r.rows| && PageIs(r, read.value[page], page, |read.value|)
  {
    hide ReadReport, Assemble, ReportBodies, Placed, Addressable, PageCount, PageIs, ShownValues, PageValues, PagesFor;
    ReportIsRead(r);
    PageCountIs(|r.rows|);
    var read := ReadReport(Assemble(ReportBodies(r))).value;
    forall page: nat | page < |read| ensures page * 37 <= |r.rows| && PageIs(r, read[page], page, |read|) {
      ValuesAreThePage(r, page);
    }
  }

  /** The cells found below the heads of the first `n` pages, joined. */
  function CellsFound(pages: seq<seq<string>>, n: nat): seq<string>
    requires n <= |pages| && forall p: nat :: p < n ==> HeadLength(p) <= |pages[p]|
  {
    if n == 0 then [] else CellsFound(pages, n - 1) + pages[n - 1][HeadLength(n - 1)..]
  }

  lemma {:induction false} CellsFoundSoFar(rows: seq<seq<string>>, pages: seq<seq<string>>, n: nat)
    requires n <= |pages| && forall p: nat :: p < n ==> HeadLength(p) <= |pages[p]|
    requires forall p: nat :: p < n ==> p * 37 <= |rows| && pages[p][HeadLength(p)..] == ShownRows(RowsFrom(rows, p))
    ensures CellsFound(pages, n) == ShownRows(rows[..if n * 37 <= |rows| then n * 37 else |rows|])
  {
    hide RowsFrom, ShownRows, HeadLength;
    if n > 0 {
      CellsFoundSoFar(rows, pages, n - 1);
      var lo, hi := (n - 1) * 37, if n * 37 <= |rows| then n * 37 else |rows|;
      assert lo <= |rows|;
      RowsFromIs(rows, n - 1);
      ShownRowsJoin(rows[..lo], rows[lo..hi]);
      assert rows[..lo] + rows[lo..hi] == rows[..hi];
    } else {
      assert rows[..0] == [];
      NoRows();
    }
  }

  lemma NoRows()
    ensures ShownRows([]) == []
  {
  }

  lemma RowsFromIs(rows: seq<seq<string>>, page: nat)
    requires page * 37 <= |rows|
    ensures RowsFrom(rows, page) == rows[page * 37..if (page + 1) * 37 <= |rows| then (page + 1) * 37 else |rows|]
  {
  }

  /** The row parts of the pages, joined, are the cells of every row once, in order. */
  lemma EveryRowIsShownOnce(r: Report)
    requires Placed(r) && Addressable(ReportBodies(r))
    ensures var read := ReadReport(Assemble(ReportBodies(r)));
            && read.Some? && (forall p: nat :: p < |read.value| ==> HeadLength(p) <= |read.value[p]|)
            && CellsFound(read.value, |read.value|) == ShownRows(r.rows)
  {
    hide ReadReport, Assemble, ReportBodies, Placed, Addressable, RowsFrom, HeadLength, ShownRows, CellsFound;
    PagesAreFound(r);
    var pages := ReadReport(Assemble(ReportBodies(r))).value;
    assert forall p: nat :: p < |pages| ==> PageIs(r, pages[p], p, |pages|);
    CellsFoundSoFar(r.rows, pages, |pages|);
    assert r.rows[..|r.rows|] == r.rows;
  }

  /** Row i stands on page i / 37, and there its cells follow those of the i % 37 rows before it. */
  lemma CellIsFound(r: Report, i: nat, j: nat)
    requires Placed(r) && Addressable(ReportBodies(r)) && Tabular(r.rows)
    requires i < |r.rows| && j < 11
    ensures var read := ReadReport(Assemble(ReportBodies(r)));
            var page, k := i / 37, HeadLength(i / 37) + (i % 37) * 11 + j;
            && read.Some? && page < |read.value| && k < |read.value[page]|
            && read.value[page][k] == ShownText(Clip(r.rows[i][j], Limit(j)))
  {
    hide ReadReport, Assemble, ReportBodies, Placed, Addressable, HeadLength, ShownRows, ShownCell, RowsFrom, HeadIs;
    PagesAreFound(r);
    var pages, page := ReadReport(Assemble(ReportBodies(r))).value, i / 37;
    assert page < |pages|;
    assert PageIs(r, pages[page], page, |pages|);
    var here := RowsFrom(r.rows, page);
    RowStandsThere(r.rows, i);
    TabularCells(here);
    CellOf(r.rows[i], j);
    assert (i % 37) * 11 + j < |here| * 11;
    assert HeadLength(page) <= |pages[page]| by { HeadFits(r, pages[page], page, |pages|); }
    assert pages[page][HeadLength(page)..][(i % 37) * 11 + j] == ShownCell(r.rows[i], j);
  }

  lemma HeadFits(r: Report, shown: seq<string>, page: nat, pages: nat)
    requires HeadIs(r, shown, page, pages)
    ensures HeadLength(page) <= |shown|
  {
  }

  lemma CellOf(row: seq<string>, j: nat)
    requires j < |row| && j < 11
    ensures ShownCell(row, j) == ShownText(Clip(row[j], Limit(j)))
  {
  }

  lemma RowStandsThere(rows: seq<seq<string>>, i: nat)
    requires Tabular(rows) && i < |rows|
    ensures (i / 37) * 37 <= |rows|
    ensures var here := RowsFrom(rows, i / 37); Tabular(here) && i % 37 < |here| && here[i % 37] == rows[i]
  {
    assert i == (i / 37) * 37 + i % 37;
  }

  // ----- What the document declares ---------------------------------------------

  /** The number of pages that the page tree declares. */
  function ReadCount(body: string): Option<nat> {
    if !At(body, 0, KIDS) then None
    else
      var refs := ReadRefs(body[|KIDS|..]);
      if refs.None? then None else ReadBetween(refs.value.1, COUNT, " >>")
  }

  /** The page tree declares as many pages as it lists. */
  lemma CountIsDeclared(pages: nat)
    requires pages >= 1
    ensures ReadCount(PagesObject(pages)) == Some(pages)
    ensures ReadKids(PagesObject(pages)).Some? && |ReadKids(PagesObject(pages)).value| == pages
  {
    hide Show, ReadRefs, Kids, ReadBetween;
    var rest := COUNT + (Show(pages) + " >>");
    var body := PagesObject(pages);
    AtMiddle("", KIDS, Kids(0, pages) + rest, body);
    assert body[|KIDS|..] == Kids(0, pages) + rest;
    KidsAreRead(0, pages, rest);
    NumberBetween(COUNT, pages, " >>");
    assert COUNT + Show(pages) + " >>" == rest;
    PagesObjectIsRead(pages);
  }

  /** The number of objects, the free one among them, that a trailer declares. */
  function ReadSize(trailer: string): Option<nat> {
    var head, tail := "trailer\n<< /Size ", " /Root 1 0 R >>\n";
    if !At(trailer, 0, head) then None
    else
      var e := DigitsEnd(trailer, |head|);
      if e == |head| || !At(trailer, e, tail) then None else Some(Value(trailer[|head|..e]))
  }

  lemma SizeIsRead(n: nat, xrefAt: nat)
    ensures ReadSize(Trailer(n, xrefAt)) == Some(n + 1)
  {
    hide Show, Value, DigitsEnd, At;
    var head, tail := "trailer\n<< /Size ", " /Root 1 0 R >>\n";
    var rest := START + Show(xrefAt) + END_FILE;
    var body := Trailer(n, xrefAt);
    assert body == head + Show(n + 1) + (tail + rest);
    NumberIsRead(head, n + 1, tail + rest);
    Cat(head, Show(n + 1), tail + rest);
    assert body == "" + (head + (Show(n + 1) + (tail + rest)));
    AtMiddle("", head, Show(n + 1) + (tail + rest), body);
    AtMiddle(head + Show(n + 1), tail, rest, body);
  }

  /** After the table's entries, the trailer declares one object more than the document has bodies. */
  lemma SizeIsDeclared(bodies: seq<string>)
    ensures var doc, n := Assemble(bodies), |bodies|;
            var t := OffsetOf(bodies, n) + |TableHead(n)| + |Entries(bodies, n)|;
            t <= |doc| && ReadSize(doc[t..]) == Some(n + 1)
  {
    hide Upto, TableHead, Entries, Trailer, ReadSize;
    var n := |bodies|;
    SizeIsRead(n, OffsetOf(bodies, n));
    var t := OffsetOf(bodies, n) + |TableHead(n)| + |Entries(bodies, n)|;
    assert Assemble(bodies)[t..] == Trailer(n, OffsetOf(bodies, n));
  }
}
