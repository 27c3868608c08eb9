/** The report: rows cut into pages, pages into objects, and a reader that gets every cell back. */
module PdfReport {
  import opened Wrappers
  import opened Decimal
  import opened PdfDocument
  import opened PdfText

  // ----- Layout -------------------------------------------------------------

  const PAGE_WIDTH := 842
  const PAGE_HEIGHT := 595
  const MARGIN := 28
  const ROW_HEIGHT := 12
  const HEADER_Y := PAGE_HEIGHT - 112
  const LAST_ROW_Y := MARGIN + 6

  const ROWS_PER_PAGE: nat := (HEADER_Y - ROW_HEIGHT - LAST_ROW_Y) / ROW_HEIGHT + 1

  const COLUMNS: seq<string> := [
    "id", "created_at", "entity_id", "family", "severity", "score", "status", "first_seen", "last_seen",
    "occurrence_count", "trace_id"]

  const WEIGHTS: seq<real> := [0.04, 0.105, 0.045, 0.085, 0.055, 0.045, 0.055, 0.105, 0.105, 0.065, 0.295]

  /** The baseline of a page's k-th row. */
  function RowBaseline(k: nat): int {
    HEADER_Y - ROW_HEIGHT - k * ROW_HEIGHT
  }

  /** A page holds as many rows as fit above the bottom margin, and not one more would. */
  lemma RowsFitThePage(k: nat)
    ensures RowBaseline(k) >= LAST_ROW_Y <==> k < ROWS_PER_PAGE
  {
  }

  /** How many characters a column holds. */
  function Limit(column: nat): nat
    requires column < |WEIGHTS|
  {
    var fits := (WEIGHTS[column] * (PAGE_WIDTH - 2 * MARGIN) as real / 3.25).Floor;
    if fits < 4 then 4 else fits
  }

  function Clip(text: string, limit: nat): string
    requires limit >= 4
  {
    if |text| <= limit then text else text[..limit - 3] + "..."
  }

  /** A clipped cell fits, is the cell itself when that fits, and otherwise says that it was cut. */
  lemma ClipFits(text: string, limit: nat)
    requires limit >= 4
    ensures |Clip(text, limit)| <= limit
    ensures Clip(text, limit) == text <==> |text| <= limit
    ensures |text| > limit ==> Clip(text, limit)[limit - 3..] == "..." && text[..limit - 3] <= Clip(text, limit)
  {
  }

  // ----- Pages --------------------------------------------------------------

  /** What the report shows: rendered rows, the filter line, the generated line, and where each string goes. */
  datatype Report = Report(rows: seq<seq<string>>, definition: string, generated: string, place: (nat, nat) -> string)

  ghost predicate Placed(r: Report) {
    forall page: nat, k: nat :: Placement(r.place(page, k))
  }

  function PageCount(rows: nat): (n: nat)
    ensures n >= 1
  {
    if rows == 0 then 1 else (rows + ROWS_PER_PAGE - 1) / ROWS_PER_PAGE
  }

  function Chunk(rows: seq<seq<string>>, page: nat): seq<seq<string>> {
    var lo, hi := page * ROWS_PER_PAGE, (page + 1) * ROWS_PER_PAGE;
    if lo >= |rows| then [] else if hi > |rows| then rows[lo..] else rows[lo..hi]
  }

  function Chunks(rows: seq<seq<string>>, pages: nat): seq<seq<string>> {
    if pages == 0 then [] else Chunks(rows, pages - 1) + Chunk(rows, pages - 1)
  }

  lemma {:induction false} ChunksAreAPrefix(rows: seq<seq<string>>, pages: nat)
    ensures Chunks(rows, pages) == if pages * ROWS_PER_PAGE <= |rows| then rows[..pages * ROWS_PER_PAGE] else rows
  {
    if pages > 0 {
      ChunksAreAPrefix(rows, pages - 1);
    }
  }

  lemma PagesCoverRows(n: nat, p: nat)
    requires n > 0 && p < PageCount(n)
    ensures p * ROWS_PER_PAGE < n <= PageCount(n) * ROWS_PER_PAGE
  {
    var count := PageCount(n);
    assert n <= count * 37 && (count - 1) * 37 < n;
    assert p * 37 <= (count - 1) * 37;
  }

  lemma ChunkSize(rows: seq<seq<string>>, p: nat)
    requires p * ROWS_PER_PAGE < |rows|
    ensures 1 <= |Chunk(rows, p)| <= ROWS_PER_PAGE
  {
  }

  /** The pages hold every row once, in order, and no page but the only one is empty. */
  lemma ChunksAreTheRows(rows: seq<seq<string>>)
    ensures Chunks(rows, PageCount(|rows|)) == rows
    ensures forall p: nat :: p < PageCount(|rows|) && rows != [] ==> 1 <= |Chunk(rows, p)| <= ROWS_PER_PAGE
  {
    hide Chunk, Chunks, PageCount;
    var count := PageCount(|rows|);
    ChunksAreAPrefix(rows, count);
    if rows != [] {
      forall p: nat | p < count ensures p * ROWS_PER_PAGE < |rows| <= count * ROWS_PER_PAGE && 1 <= |Chunk(rows, p)| <= ROWS_PER_PAGE {
        PagesCoverRows(|rows|, p);
        ChunkSize(rows, p);
      }
      PagesCoverRows(|rows|, 0);
      assert count * ROWS_PER_PAGE == |rows| ==> rows[..|rows|] == rows;
    }
  }

  function Cells(row: seq<string>): seq<string> {
    seq(|row|, k requires 0 <= k < |row| => if k < |WEIGHTS| then Clip(row[k], Limit(k)) else row[k])
  }

  function AllCells(rows: seq<seq<string>>): seq<string> {
    if rows == [] then [] else Cells(rows[0]) + AllCells(rows[1..])
  }

  function Title(page: nat, pages: nat): string {
    if pages == 1 then "Aegis alert export"
    else "Aegis alert export - page " + Show(page + 1) + " of " + Show(pages)
  }

  /** The strings of one page, in the order they are drawn. */
  function PageValues(r: Report, page: nat): (s: seq<string>)
    ensures s != []
  {
    [Title(page, PageCount(|r.rows|)), r.definition]
    + (if page == 0 then [r.generated] else [])
    + Cells(COLUMNS)
    + AllCells(Chunk(r.rows, page))
  }

  function PageLines(r: Report, page: nat): (lines: seq<string>)
    ensures |lines| == |PageValues(r, page)|
    ensures forall k :: 0 <= k < |lines| ==> lines[k] == TextOp(r.place(page, k), PageValues(r, page)[k])
  {
    var values := PageValues(r, page);
    seq(|values|, k requires 0 <= k < |values| => TextOp(r.place(page, k), values[k]))
  }

  // ----- Objects ------------------------------------------------------------

  const CATALOG := "<< /Type /Catalog /Pages 2 0 R >>"
  const FONT := "<< /Type /Font /Subtype /Type1 /BaseFont /Helvetica /Encoding /WinAnsiEncoding >>"
  const BOLD_FONT := "<< /Type /Font /Subtype /Type1 /BaseFont /Helvetica-Bold /Encoding /WinAnsiEncoding >>"
  const KIDS := "<< /Type /Pages /Kids ["
  const COUNT := "] /Count "
  const PAGE_HEAD :=
    "<< /Type /Page /Parent 2 0 R /MediaBox [0 0 842 595] /Resources << /Font << /F1 3 0 R /F2 4 0 R >> >> /Contents "
  const REF := " 0 R"
  const PAGE_TAIL := " 0 R >>"

  /** References to the page objects of `count` pages from page `from` on. */
  function Kids(from: nat, count: nat): string
    requires count >= 1
    decreases count
  {
    if count == 1 then Show(5 + 2 * from) + REF
    else Show(5 + 2 * from) + (REF + (" " + Kids(from + 1, count - 1)))
  }

  function PagesObject(pages: nat): string
    requires pages >= 1
  {
    KIDS + (Kids(0, pages) + (COUNT + (Show(pages) + " >>")))
  }

  function PageObject(page: nat): string {
    PAGE_HEAD + Show(6 + 2 * page) + PAGE_TAIL
  }

  /** The four shared objects, then a page object and a content stream for each of the first `n` pages. */
  function Bodies(r: Report, n: nat): seq<string> {
    if n == 0 then [CATALOG, PagesObject(PageCount(|r.rows|)), FONT, BOLD_FONT]
    else Bodies(r, n - 1) + [PageObject(n - 1), ContentStream(PageLines(r, n - 1))]
  }

  function ReportBodies(r: Report): seq<string> {
    Bodies(r, PageCount(|r.rows|))
  }

  method RenderReport(r: Report) returns (document: string)
    ensures document == Assemble(ReportBodies(r))
  {
    hide PageLines, PagesObject, ContentStream, PageObject;
    var pages := PageCount(|r.rows|);
    var contents: seq<string> := [];
    for page := 0 to pages
      invariant |contents| == page && forall p :: 0 <= p < page ==> contents[p] == ContentStream(PageLines(r, p))
    {
      contents := contents + [ContentStream(PageLines(r, page))];
    }
    var bodies := [CATALOG, PagesObject(pages), FONT, BOLD_FONT];
    for page := 0 to pages
      invariant bodies == Bodies(r, page)
    {
      bodies := bodies + [PageObject(page), contents[page]];
    }
    document := AssembleDocument(bodies);
  }

  // ----- The reader ---------------------------------------------------------

  /** A list of references up to the closing bracket, and what follows. */
  function ReadRefs(s: string): Option<(seq<nat>, string)> {
    var e := DigitsEnd(s, 0);
    if e == 0 || !At(s, e, REF) then None
    else
      var n, rest := Value(s[..e]), s[e + |REF|..];
      if At(rest, 0, " ") then
        var more := ReadRefs(rest[1..]);
        if more.None? then None else Some(([n] + more.value.0, more.value.1))
      else Some(([n], rest))
  }

  function ReadKids(body: string): Option<seq<nat>> {
    if !At(body, 0, KIDS) then None
    else
      var refs := ReadRefs(body[|KIDS|..]);
      if refs.None? || !At(refs.value.1, 0, COUNT) then None else Some(refs.value.0)
  }

  /** The number between two fixed texts. */
  function ReadBetween(body: string, head: string, tail: string): Option<nat> {
    if !At(body, 0, head) then None
    else
      var e := DigitsEnd(body, |head|);
      if e == |head| || !At(body, e, tail) then None else Some(Value(body[|head|..e]))
  }

  function ReadContents(body: string): Option<nat> {
    ReadBetween(body, PAGE_HEAD, PAGE_TAIL)
  }

  function ReadOps(lines: seq<string>): Option<seq<string>> {
    if lines == [] then Some([])
    else
      var before, last := ReadOps(lines[..|lines| - 1]), ReadOp(lines[|lines| - 1]);
      if before.None? || last.None? then None else Some(before.value + [last.value])
  }

  /** The strings shown by the page that an object number refers to. */
  function ReadPage(bodies: seq<string>, number: nat): Option<seq<string>> {
    if !(1 <= number <= |bodies|) then None
    else
      var content := ReadContents(bodies[number - 1]);
      if content.None? || !(1 <= content.value <= |bodies|) then None
      else
        var data := ReadStream(bodies[content.value - 1]);
        if data.None? then None else ReadOps(Split(data.value))
  }

  function ReadPages(bodies: seq<string>, numbers: seq<nat>): Option<seq<seq<string>>> {
    if numbers == [] then Some([])
    else
      var before, last := ReadPages(bodies, numbers[..|numbers| - 1]), ReadPage(bodies, numbers[|numbers| - 1]);
      if before.None? || last.None? then None else Some(before.value + [last.value])
  }

  /** From the bytes: the table, the catalog, the page tree, each page's stream, and its strings. */
  function ReadReport(doc: string): Option<seq<seq<string>>> {
    var bodies := Read(doc);
    if bodies.None? || |bodies.value| < 2 || bodies.value[0] != CATALOG then None
    else
      var kids := ReadKids(bodies.value[1]);
      if kids.None? then None else ReadPages(bodies.value, kids.value)
  }

  // ----- Round trip ---------------------------------------------------------

  /** The object numbers of `count` pages from page `from` on. */
  function PageNumbers(from: nat, count: nat): seq<nat> {
    seq(count, k requires 0 <= k < count => 5 + 2 * (from + k))
  }

  lemma LastRefIsRead(n: nat, rest: string)
    requires rest == "" || rest[0] != ' '
    ensures ReadRefs(Show(n) + (REF + rest)) == Some(([n], rest))
  {
    hide Show, Value, DigitsEnd;
    var s, e := Show(n) + (REF + rest), |Show(n)|;
    NumberIsRead("", n, REF + rest);
    assert "" + Show(n) + (REF + rest) == s;
    AtMiddle(Show(n), REF, rest, s);
    assert s[e + |REF|..] == rest;
    assert s[0..e] == s[..e];
  }

  lemma RefIsRead(n: nat, more: string)
    ensures var r := ReadRefs(more);
            ReadRefs(Show(n) + (REF + (" " + more))) == if r.None? then None else Some(([n] + r.value.0, r.value.1))
  {
    hide Show, Value, DigitsEnd;
    var s, e := Show(n) + (REF + (" " + more)), |Show(n)|;
    NumberIsRead("", n, REF + (" " + more));
    assert "" + Show(n) + (REF + (" " + more)) == s;
    AtMiddle(Show(n), REF, " " + more, s);
    var rest := s[e + |REF|..];
    assert rest == " " + more;
    AtMiddle("", " ", more, rest);
    assert rest[1..] == more;
    assert s[0..e] == s[..e];
  }

  lemma {:induction false} KidsAreRead(from: nat, count: nat, rest: string)
    requires count >= 1 && (rest == "" || rest[0] != ' ')
    ensures ReadRefs(Kids(from, count) + rest) == Some((PageNumbers(from, count), rest))
    decreases count
  {
    hide Show, ReadRefs;
    var n := 5 + 2 * from;
    if count == 1 {
      Cat(Show(n), REF, rest);
      LastRefIsRead(n, rest);
      assert PageNumbers(from, 1) == [n];
    } else {
      var more := Kids(from + 1, count - 1);
      assert Show(n) + (REF + (" " + more)) + rest == Show(n) + (REF + (" " + (more + rest)));
      KidsAreRead(from + 1, count - 1, rest);
      RefIsRead(n, more + rest);
      assert PageNumbers(from, count) == [n] + PageNumbers(from + 1, count - 1);
    }
  }

  lemma PagesObjectIsRead(pages: nat)
    requires pages >= 1
    ensures ReadKids(PagesObject(pages)) == Some(PageNumbers(0, pages))
  {
    hide Show, ReadRefs, Kids, PageNumbers;
    var rest := COUNT + (Show(pages) + " >>");
    var body := PagesObject(pages);
    AtMiddle("", KIDS, Kids(0, pages) + rest, body);
    assert body[|KIDS|..] == Kids(0, pages) + rest;
    KidsAreRead(0, pages, rest);
    AtMiddle("", COUNT, Show(pages) + " >>", rest);
  }

  lemma NumberBetween(head: string, n: nat, tail: string)
    requires tail != "" && !IsDigit(tail[0])
    ensures ReadBetween(head + Show(n) + tail, head, tail) == Some(n)
  {
    hide Show, Value, DigitsEnd, At;
    var body := head + Show(n) + tail;
    NumberIsRead(head, n, tail);
    Cat(head, Show(n), tail);
    assert body == "" + (head + (Show(n) + tail));
    AtMiddle("", head, Show(n) + tail, body);
    assert body == head + Show(n) + (tail + "");
    AtMiddle(head + Show(n), tail, "", body);
  }

  lemma PageObjectIsRead(page: nat)
    ensures ReadContents(PageObject(page)) == Some(6 + 2 * page)
  {
    hide Show, ReadBetween;
    NumberBetween(PAGE_HEAD, 6 + 2 * page, PAGE_TAIL);
  }

  /** What a reader is meant to see on a page. */
  function ShownValues(values: seq<string>): seq<string> {
    seq(|values|, k requires 0 <= k < |values| => ShownText(values[k]))
  }

  lemma {:induction false} OpsAreRead(r: Report, page: nat, k: nat)
    requires Placed(r) && k <= |PageValues(r, page)|
    ensures ReadOps(PageLines(r, page)[..k]) == Some(ShownValues(PageValues(r, page)[..k]))
  {
    hide PageValues, ReadOp, TextOp, ShownText;
    var lines, values := PageLines(r, page), PageValues(r, page);
    if k > 0 {
      OpsAreRead(r, page, k - 1);
      assert lines[..k][..k - 1] == lines[..k - 1];
      OpIsRead(r.place(page, k - 1), values[k - 1]);
      assert ShownValues(values[..k]) == ShownValues(values[..k - 1]) + [ShownText(values[k - 1])];
    } else {
      assert lines[..0] == [] && ShownValues(values[..0]) == [];
    }
  }

  lemma LinesAreLines(r: Report, page: nat)
    requires Placed(r)
    ensures OneLineEach(PageLines(r, page))
  {
    hide PageValues, TextOp;
    var lines := PageLines(r, page);
    forall k | 0 <= k < |lines| ensures '\n' !in lines[k] {
      OpStaysOnLine(r.place(page, k), PageValues(r, page)[k]);
    }
  }

  lemma {:induction false} BodiesStart(r: Report, n: nat)
    ensures |Bodies(r, n)| == 4 + 2 * n
    ensures Bodies(r, n)[0] == CATALOG && Bodies(r, n)[1] == PagesObject(PageCount(|r.rows|))
  {
    hide PageObject, ContentStream, PageLines, PagesObject, PageCount;
    if n > 0 {
      BodiesStart(r, n - 1);
    }
  }

  /** The objects of a page: its page object, and after it its content. */
  ghost predicate StandsAt(bodies: seq<string>, i: nat, r: Report, page: nat) {
    i + 1 < |bodies| && bodies[i] == PageObject(page) && bodies[i + 1] == ContentStream(PageLines(r, page))
  }

  /** Page p's objects stand where its references point: number 5 + 2p is its page object, 6 + 2p its content. */
  lemma {:induction false} PageStands(r: Report, page: nat, n: nat)
    requires page < n
    ensures StandsAt(Bodies(r, n), 4 + 2 * page, r, page)
  {
    hide PageObject, ContentStream, PageLines;
    BodiesStart(r, n - 1);
    if page < n - 1 {
      PageStands(r, page, n - 1);
    }
  }

  lemma PageIsRead(r: Report, page: nat, n: nat)
    requires Placed(r) && page < n
    ensures ReadPage(Bodies(r, n), 5 + 2 * page) == Some(ShownValues(PageValues(r, page)))
  {
    hide PageObject, ContentStream, PageLines, PagesObject, PageValues, Bodies, ReadContents, ReadStream, ReadOps,
         Split, Join, OneLineEach, ShownValues;
    PageStands(r, page, n);
    PageObjectIsRead(page);
    StreamIsRead(PageLines(r, page));
    LinesAreLines(r, page);
    SomeLines(r, page);
    SplitInvertsJoin(PageLines(r, page));
    OpsAreRead(r, page, |PageValues(r, page)|);
    assert PageLines(r, page)[..|PageValues(r, page)|] == PageLines(r, page);
    assert PageValues(r, page)[..|PageValues(r, page)|] == PageValues(r, page);
  }

  lemma SomeLines(r: Report, page: nat)
    ensures PageLines(r, page) != [] && |PageLines(r, page)| == |PageValues(r, page)|
  {
  }

  lemma {:induction false} PagesAreRead(r: Report, k: nat, n: nat)
    requires Placed(r) && k <= n
    ensures var pages := ReadPages(Bodies(r, n), PageNumbers(0, k));
            pages.Some? && |pages.value| == k
            && forall p: nat :: p < k ==> pages.value[p] == ShownValues(PageValues(r, p))
  {
    hide Bodies, ReadPage, ShownValues, PageValues;
    if k > 0 {
      PagesAreRead(r, k - 1, n);
      PageIsRead(r, k - 1, n);
      assert PageNumbers(0, k)[..k - 1] == PageNumbers(0, k - 1);
    }
  }

  /**
   * From the bytes of the report a reader gets, page by page, the strings that were drawn: the title,
   * the filter line, the column heads and every cell of that page's rows.
   */
  lemma ReportIsRead(r: Report)
    requires Placed(r) && Addressable(ReportBodies(r))
    ensures var pages := ReadReport(Assemble(ReportBodies(r)));
            && pages.Some? && |pages.value| == PageCount(|r.rows|)
            && forall p: nat :: p < PageCount(|r.rows|) ==> pages.value[p] == ShownValues(PageValues(r, p))
  {
    hide Bodies, Read, ReadKids, ReadPages, PagesObject, ShownValues, PageValues, Addressable, Assemble, PageCount, PageNumbers;
    var n := PageCount(|r.rows|);
    ReadInvertsAssemble(ReportBodies(r));
    BodiesStart(r, n);
    PagesObjectIsRead(n);
    PagesAreRead(r, n, n);
  }
}
