/**
 * A PDF file as the report writer assembles it, and a reader that follows its cross-reference table.
 *
 * A byte is the character with its code (Latin-1), the encoding the writer itself uses.
 */
module PdfDocument {
  import opened Wrappers
  import opened Decimal

  // ----- The writer ---------------------------------------------------------

  const HEADER := "%PDF-1.4\n"
  const FREE_ENTRY := "0000000000 65535 f \n"
  const TABLE := "xref\n0 "
  const START := "startxref\n"
  const END_OBJECT := "\nendobj\n"
  const END_FILE := "\n%%EOF\n"

  function Head(number: nat): string {
    Show(number) + " 0 obj\n"
  }

  function ObjectText(number: nat, body: string): string {
    Head(number) + body + END_OBJECT
  }

  /** The header and the first `n` objects, numbered from one. */
  function Upto(bodies: seq<string>, n: nat): string
    requires n <= |bodies|
  {
    if n == 0 then HEADER else Upto(bodies, n - 1) + ObjectText(n, bodies[n - 1])
  }

  /** Where object `i + 1` starts; for the last index, where the table starts. */
  function OffsetOf(bodies: seq<string>, i: nat): nat
    requires i <= |bodies|
  {
    |Upto(bodies, i)|
  }

  function Entry(offset: nat): string {
    ShowPadded(offset, 10) + " 00000 n \n"
  }

  function Entries(bodies: seq<string>, n: nat): string
    requires n <= |bodies|
  {
    if n == 0 then "" else Entries(bodies, n - 1) + Entry(OffsetOf(bodies, n - 1))
  }

  function TableHead(n: nat): string {
    TABLE + Show(n + 1) + ("\n" + FREE_ENTRY)
  }

  function Trailer(n: nat, xrefAt: nat): string {
    "trailer\n<< /Size " + Show(n + 1) + " /Root 1 0 R >>\n" + START + Show(xrefAt) + END_FILE
  }

  function Assemble(bodies: seq<string>): string {
    var n := |bodies|;
    Upto(bodies, n) + TableHead(n) + Entries(bodies, n) + Trailer(n, OffsetOf(bodies, n))
  }

  /** Objects in number order, then the cross-reference table and the trailer, with running offsets. */
  method AssembleDocument(bodies: seq<string>) returns (document: string)
    ensures document == Assemble(bodies)
  {
    hide ObjectText, Entry, TableHead, Trailer;
    document := HEADER;
    var offsets: seq<nat> := [];
    for i := 0 to |bodies|
      invariant document == Upto(bodies, i)
      invariant |offsets| == i && forall k :: 0 <= k < i ==> offsets[k] == OffsetOf(bodies, k)
    {
      offsets := offsets + [|document|];
      document := document + ObjectText(i + 1, bodies[i]);
    }
    var xrefAt := |document|;
    document := document + TableHead(|bodies|);
    for i := 0 to |bodies|
      invariant document == Upto(bodies, |bodies|) + TableHead(|bodies|) + Entries(bodies, i)
    {
      document := document + Entry(offsets[i]);
    }
    document := document + Trailer(|bodies|, xrefAt);
    assert xrefAt == OffsetOf(bodies, |bodies|);
  }

  // ----- The reader ---------------------------------------------------------

  predicate At(s: string, i: int, text: string) {
    0 <= i && i + |text| <= |s| && s[i..i + |text|] == text
  }

  /** The end of the run of digits that starts at `i`. */
  function DigitsEnd(s: string, i: nat): (e: nat)
    requires i <= |s|
    ensures i <= e <= |s| && AllDigits(s[i..e])
    decreases |s| - i
  {
    if i < |s| && IsDigit(s[i]) then DigitsEnd(s, i + 1) else i
  }

  /** The start of the run of digits that ends at `e`. */
  function DigitsStart(s: string, e: nat): (i: nat)
    requires e <= |s|
    ensures i <= e && AllDigits(s[i..e])
  {
    if e > 0 && IsDigit(s[e - 1]) then
      var i := DigitsStart(s, e - 1);
      assert s[i..e] == s[i..e - 1] + [s[e - 1]];
      i
    else e
  }

  /** The position that the end of the file says the table is at. */
  function ReadStart(doc: string): Option<nat> {
    var e := |doc| - |END_FILE|;
    if e < 0 || !At(doc, e, END_FILE) then None
    else
      var i := DigitsStart(doc, e);
      if i < e && At(doc, i - |START|, START) then Some(Value(doc[i..e])) else None
  }

  /** `k` twenty-byte entries in use. */
  function ReadEntries(doc: string, at: nat, k: nat): Option<seq<nat>> {
    if k == 0 then Some([])
    else
      var before := ReadEntries(doc, at, k - 1);
      var e := at + 20 * (k - 1);
      if before.None? || e + 20 > |doc| || !AllDigits(doc[e..e + 10]) || !At(doc, e + 10, " 00000 n \n") then None
      else Some(before.value + [Value(doc[e..e + 10])])
  }

  /** The offsets of objects 1, 2, ... in the table at a position. */
  function ReadTable(doc: string, x: nat): Option<seq<nat>> {
    if !At(doc, x, TABLE) then None
    else
      var d := x + |TABLE|;
      var e := DigitsEnd(doc, d);
      var size := Value(doc[d..e]);
      if e == d || size == 0 || !At(doc, e, "\n" + FREE_ENTRY) then None
      else ReadEntries(doc, e + |"\n" + FREE_ENTRY|, size - 1)
  }

  /** The body of an object that starts at one offset and is over at another. */
  function ReadObject(doc: string, number: nat, start: nat, end: nat): Option<string> {
    var from := start + |Head(number)|;
    var to := end - |END_OBJECT|;
    if At(doc, start, Head(number)) && from <= to && At(doc, to, END_OBJECT) then Some(doc[from..to]) else None
  }

  /** The bodies of the first `k` objects of a table. */
  function ReadObjects(doc: string, offsets: seq<nat>, x: nat, k: nat): Option<seq<string>>
    requires k <= |offsets|
  {
    if k == 0 then Some([])
    else
      var before := ReadObjects(doc, offsets, x, k - 1);
      var body := ReadObject(doc, k, offsets[k - 1], if k < |offsets| then offsets[k] else x);
      if before.None? || body.None? then None else Some(before.value + [body.value])
  }

  /** Follow the file's last line to its table, and the table to every object. */
  function Read(doc: string): Option<seq<string>> {
    var x := ReadStart(doc);
    if x.None? then None
    else
      var offsets := ReadTable(doc, x.value);
      if offsets.None? then None else ReadObjects(doc, offsets.value, x.value, |offsets.value|)
  }

  // ----- Positions ----------------------------------------------------------

  lemma AtIn(a: string, b: string, c: string)
    ensures At(a + b + c, |a|, b)
  {
    assert (a + b + c)[|a|..|a| + |b|] == b;
  }

  lemma AtPrefix(s: string, t: string, i: int, text: string)
    requires At(s, i, text)
    ensures At(s + t, i, text)
  {
    assert (s + t)[i..i + |text|] == s[i..i + |text|];
  }

  lemma {:induction false} DigitsEndIs(s: string, i: nat, e: nat)
    requires i <= e <= |s| && AllDigits(s[i..e]) && (e == |s| || !IsDigit(s[e]))
    ensures DigitsEnd(s, i) == e
    decreases e - i
  {
    if i < e {
      assert s[i] == s[i..e][0];
      assert s[i + 1..e] == s[i..e][1..];
      DigitsEndIs(s, i + 1, e);
    }
  }

  lemma {:induction false} DigitsStartIs(s: string, i: nat, e: nat)
    requires i <= e <= |s| && AllDigits(s[i..e]) && (i == 0 || !IsDigit(s[i - 1]))
    ensures DigitsStart(s, e) == i
  {
    if i < e {
      assert s[e - 1] == s[i..e][e - 1 - i];
      assert s[i..e - 1] == s[i..e][..e - 1 - i];
      DigitsStartIs(s, i, e - 1);
    }
  }

  // ----- Round trip ---------------------------------------------------------

  /** A number followed by something else is read back, from either end. */
  lemma NumberIsRead(a: string, n: nat, c: string)
    requires c != "" && !IsDigit(c[0])
    ensures var doc, e := a + Show(n) + c, |a| + |Show(n)|;
            && |a| < e < |doc| && DigitsEnd(doc, |a|) == e && Value(doc[|a|..e]) == n
            && (a != "" && !IsDigit(a[|a| - 1]) ==> DigitsStart(doc, e) == |a|)
  {
    hide Show, Value;
    var doc, e := a + Show(n) + c, |a| + |Show(n)|;
    assert doc[|a|..e] == Show(n) && doc[e] == c[0];
    DigitsEndIs(doc, |a|, e);
    if a != "" && !IsDigit(a[|a| - 1]) {
      assert doc[|a| - 1] == a[|a| - 1];
      DigitsStartIs(doc, |a|, e);
    }
    ValueOfShow(n);
  }

  lemma Cat(a: string, b: string, c: string)
    ensures a + b + c == a + (b + c)
  {
  }

  /** Text between two others stands where the first ends, however the pieces are grouped. */
  lemma AtMiddle(a: string, b: string, c: string, doc: string)
    requires doc == a + (b + c) || doc == a + b + c
    ensures At(doc, |a|, b)
  {
    Cat(a, b, c);
    AtIn(a, b, c);
  }

  /** What makes the last line readable. */
  lemma StartAt(doc: string, i: nat, e: nat, xrefAt: nat)
    requires e == |doc| - |END_FILE| && i < e && DigitsStart(doc, e) == i && Value(doc[i..e]) == xrefAt
    requires At(doc, i - |START|, START) && At(doc, e, END_FILE)
    ensures ReadStart(doc) == Some(xrefAt)
  {
    hide DigitsStart, Value, At;
  }

  /** The end of the file leads to the table. */
  lemma StartIsFound(front: string, n: nat, xrefAt: nat)
    ensures ReadStart(front + Trailer(n, xrefAt)) == Some(xrefAt)
  {
    hide Show, Value, DigitsEnd, DigitsStart, At, ReadStart;
    var digits, dictionary := Show(xrefAt), "trailer\n<< /Size " + Show(n + 1) + " /Root 1 0 R >>\n";
    var before := front + dictionary;
    var doc := before + START + digits + END_FILE;
    TrailerGroups(front, dictionary, digits);
    NumberIsRead(before + START, xrefAt, END_FILE);
    Cat(before + START, digits, END_FILE);
    AtMiddle(before, START, digits + END_FILE, doc);
    AtMiddle(before + START + digits, END_FILE, "", doc);
    StartAt(doc, |before + START|, |before + START + digits|, xrefAt);
  }

  lemma TrailerGroups(front: string, dictionary: string, digits: string)
    ensures front + (dictionary + START + digits + END_FILE) == front + dictionary + START + digits + END_FILE
    ensures front + dictionary + START + digits + END_FILE == front + dictionary + START + digits + END_FILE + ""
    ensures front + dictionary + START + digits + END_FILE == front + dictionary + (START + (digits + END_FILE))
  {
  }

  lemma EntryWidth(offset: nat)
    ensures |Entry(offset)| == 20 <==> offset < Pow10(10)
  {
    hide Show;
    ShowLength(offset, 10);
  }

  /** The first `n` entries have room for their offsets. */
  ghost predicate FitsUpto(bodies: seq<string>, n: nat)
    requires n <= |bodies|
  {
    n == 0 || OffsetOf(bodies, n - 1) < Pow10(10)
  }

  /** The table has room for the offset of every object: the last one starts below ten to the tenth. */
  ghost predicate Addressable(bodies: seq<string>) {
    FitsUpto(bodies, |bodies|)
  }

  lemma {:induction false} OffsetsGrow(bodies: seq<string>, i: nat, j: nat)
    requires i <= j <= |bodies|
    ensures Upto(bodies, i) <= Upto(bodies, j)
  {
    if i < j {
      OffsetsGrow(bodies, i, j - 1);
    }
  }

  lemma FitsBefore(bodies: seq<string>, m: nat, n: nat)
    requires m <= n <= |bodies| && FitsUpto(bodies, n)
    ensures FitsUpto(bodies, m)
  {
    hide Pow10;
    if 0 < m < n {
      OffsetsGrow(bodies, m - 1, n - 1);
    }
  }

  lemma {:induction false} EntriesWidth(bodies: seq<string>, n: nat)
    requires n <= |bodies| && FitsUpto(bodies, n)
    ensures |Entries(bodies, n)| == 20 * n
  {
    hide Entry, Pow10;
    if n > 0 {
      FitsBefore(bodies, n - 1, n);
      EntriesWidth(bodies, n - 1);
      EntryWidth(OffsetOf(bodies, n - 1));
    }
  }

  /** The offsets of the first `n` objects. */
  function Offsets(bodies: seq<string>, n: nat): (s: seq<nat>)
    requires n <= |bodies|
    ensures |s| == n && forall i :: 0 <= i < n ==> s[i] == OffsetOf(bodies, i)
  {
    if n == 0 then [] else Offsets(bodies, n - 1) + [OffsetOf(bodies, n - 1)]
  }

  lemma EntryIsRead(a: string, offset: nat, c: string)
    requires offset < Pow10(10)
    ensures var doc := a + Entry(offset) + c;
            && |a| + 20 <= |doc|
            && AllDigits(doc[|a|..|a| + 10]) && Value(doc[|a|..|a| + 10]) == offset
            && At(doc, |a| + 10, " 00000 n \n")
  {
    hide ShowPadded, Value, Pow10;
    EntryWidth(offset);
    var digits := ShowPadded(offset, 10);
    assert |digits| == 10;
    var doc := a + Entry(offset) + c;
    assert doc[|a|..|a| + 10] == digits;
    ValueOfPadded(offset, 10);
    assert doc[|a| + 10..|a| + 20] == " 00000 n \n";
  }

  lemma EntriesGroup(front: string, bodies: seq<string>, n: nat, rest: string)
    requires 1 <= n <= |bodies|
    ensures var a, e := front + Entries(bodies, n - 1), Entry(OffsetOf(bodies, n - 1));
            front + Entries(bodies, n) + rest == a + e + rest == a + (e + rest)
  {
    hide Entry, OffsetOf;
  }

  lemma LastFits(bodies: seq<string>, n: nat)
    requires 1 <= n <= |bodies| && FitsUpto(bodies, n)
    ensures OffsetOf(bodies, n - 1) < Pow10(10)
  {
  }

  lemma {:induction false} EntriesAreRead(front: string, bodies: seq<string>, n: nat, rest: string)
    requires n <= |bodies| && FitsUpto(bodies, n)
    ensures ReadEntries(front + Entries(bodies, n) + rest, |front|, n) == Some(Offsets(bodies, n))
  {
    hide Entry, Pow10, Value, OffsetOf, FitsUpto, At;
    if n > 0 {
      var offset := OffsetOf(bodies, n - 1);
      var a := front + Entries(bodies, n - 1);
      EntriesGroup(front, bodies, n, rest);
      FitsBefore(bodies, n - 1, n);
      EntriesAreRead(front, bodies, n - 1, Entry(offset) + rest);
      EntriesWidth(bodies, n - 1);
      LastFits(bodies, n);
      EntryIsRead(a, offset, rest);
    }
  }

  /** What makes a table readable. */
  lemma TableAt(doc: string, x: nat, e: nat, n: nat)
    requires At(doc, x, TABLE) && e <= |doc|
    requires var d := x + |TABLE|; d < e && DigitsEnd(doc, d) == e && Value(doc[d..e]) == n + 1
    requires At(doc, e, "\n" + FREE_ENTRY)
    ensures ReadTable(doc, x) == ReadEntries(doc, e + |"\n" + FREE_ENTRY|, n)
  {
    hide DigitsEnd, Value, At, ReadEntries;
  }

  lemma TableHeadIsRead(front: string, n: nat, rest: string)
    ensures var doc := front + TableHead(n) + rest;
            ReadTable(doc, |front|) == ReadEntries(doc, |front + TableHead(n)|, n)
  {
    hide Show, Value, DigitsEnd, At, ReadTable, ReadEntries;
    var digits, free := Show(n + 1), "\n" + FREE_ENTRY;
    var doc := front + TABLE + digits + (free + rest);
    TableGroups(front, digits, free, rest);
    AtMiddle(front, TABLE, digits + (free + rest), doc);
    NumberIsRead(front + TABLE, n + 1, free + rest);
    AtMiddle(front + TABLE + digits, free, rest, doc);
    TableAt(doc, |front|, |front + TABLE + digits|, n);
  }

  lemma TableGroups(front: string, digits: string, free: string, rest: string)
    ensures front + (TABLE + digits + free) + rest == front + TABLE + digits + (free + rest)
    ensures front + TABLE + digits + (free + rest) == front + (TABLE + (digits + (free + rest)))
  {
  }

  lemma TableIsRead(front: string, bodies: seq<string>, rest: string)
    requires Addressable(bodies)
    ensures ReadTable(front + TableHead(|bodies|) + Entries(bodies, |bodies|) + rest, |front|)
            == Some(Offsets(bodies, |bodies|))
  {
    hide Entries, Pow10, ReadEntries, ReadTable, FitsUpto, TableHead;
    var n := |bodies|;
    Cat(front + TableHead(n), Entries(bodies, n), rest);
    TableHeadIsRead(front, n, Entries(bodies, n) + rest);
    EntriesAreRead(front + TableHead(n), bodies, n, rest);
  }

  /** Each object stands at its offset, and is over where the next one starts. */
  lemma {:induction false} ObjectStands(bodies: seq<string>, i: nat, k: nat)
    requires i < k <= |bodies|
    ensures OffsetOf(bodies, i) + |ObjectText(i + 1, bodies[i])| == OffsetOf(bodies, i + 1) <= |Upto(bodies, k)|
    ensures At(Upto(bodies, k), OffsetOf(bodies, i), ObjectText(i + 1, bodies[i]))
  {
    hide ObjectText;
    if i == k - 1 {
      AtIn(Upto(bodies, i), ObjectText(i + 1, bodies[i]), "");
      assert Upto(bodies, i) + ObjectText(i + 1, bodies[i]) + "" == Upto(bodies, k);
    } else {
      ObjectStands(bodies, i, k - 1);
      AtPrefix(Upto(bodies, k - 1), ObjectText(k, bodies[k - 1]), OffsetOf(bodies, i), ObjectText(i + 1, bodies[i]));
    }
  }

  lemma ObjectIsRead(doc: string, number: nat, body: string, start: nat)
    requires At(doc, start, ObjectText(number, body))
    ensures ReadObject(doc, number, start, start + |ObjectText(number, body)|) == Some(body)
  {
    hide Show;
    var text := ObjectText(number, body);
    var h := |Head(number)|;
    assert doc[start..start + |text|] == text;
    assert doc[start..start + h] == text[..h] == Head(number);
    assert doc[start + h..start + h + |body|] == text[h..h + |body|] == body;
    assert doc[start + h + |body|..start + |text|] == text[h + |body|..] == END_OBJECT;
  }

  lemma {:induction false} ObjectsAreRead(bodies: seq<string>, rest: string, k: nat)
    requires k <= |bodies|
    ensures ReadObjects(Upto(bodies, |bodies|) + rest, Offsets(bodies, |bodies|), OffsetOf(bodies, |bodies|), k)
            == Some(bodies[..k])
  {
    hide ObjectText, Upto, ReadObject;
    if k > 0 {
      var n := |bodies|;
      ObjectsAreRead(bodies, rest, k - 1);
      ObjectStands(bodies, k - 1, n);
      AtPrefix(Upto(bodies, n), rest, OffsetOf(bodies, k - 1), ObjectText(k, bodies[k - 1]));
      ObjectIsRead(Upto(bodies, n) + rest, k, bodies[k - 1], OffsetOf(bodies, k - 1));
      assert bodies[..k] == bodies[..k - 1] + [bodies[k - 1]];
    } else {
      assert bodies[..0] == [];
    }
  }

  /**
   * Round trip: a reader that follows the last line to the table and the table to the objects gets
   * every body back exactly when the last object starts below ten to the tenth.
   */
  lemma ReadInvertsAssemble(bodies: seq<string>)
    ensures Read(Assemble(bodies)) == Some(bodies) <==> Addressable(bodies)
  {
    hide Addressable, Assemble, Read;
    if Addressable(bodies) {
      AddressableIsRead(bodies);
    } else {
      WideOffsetIsRefused(bodies);
    }
  }

  /** An eleven-digit offset makes an entry the reader refuses. */
  lemma WideEntryIsRefused(a: string, offset: nat, c: string)
    requires offset >= Pow10(10)
    ensures !At(a + Entry(offset) + c, |a| + 10, " 00000 n \n")
  {
    hide Show, Pow10;
    ShowLength(offset, 10);
    var doc := a + Entry(offset) + c;
    assert IsDigit(Show(offset)[10]);
    assert doc[|a| + 10] == Show(offset)[10];
    if At(doc, |a| + 10, " 00000 n \n") {
      assert doc[|a| + 10] == doc[|a| + 10..|a| + 20][0];
    }
  }

  lemma {:induction false} WideEntriesAreRefused(front: string, bodies: seq<string>, n: nat, k: nat, rest: string)
    requires 1 <= n <= k <= |bodies| && FitsUpto(bodies, n - 1) && !FitsUpto(bodies, n)
    ensures ReadEntries(front + Entries(bodies, k) + rest, |front|, k).None?
    decreases k
  {
    hide Entry, Pow10, Value, OffsetOf, At;
    var offset := OffsetOf(bodies, k - 1);
    var a := front + Entries(bodies, k - 1);
    assert front + Entries(bodies, k) + rest == a + (Entry(offset) + rest);
    Cat(a, Entry(offset), rest);
    if k == n {
      EntriesWidth(bodies, n - 1);
      WideEntryIsRefused(a, offset, rest);
    } else {
      WideEntriesAreRefused(front, bodies, n, k - 1, Entry(offset) + rest);
    }
  }

  lemma {:induction false} FirstThatDoesNotFit(bodies: seq<string>, k: nat) returns (n: nat)
    requires k <= |bodies| && !FitsUpto(bodies, k)
    ensures 1 <= n <= k && FitsUpto(bodies, n - 1) && !FitsUpto(bodies, n)
  {
    hide OffsetOf, Pow10;
    if FitsUpto(bodies, k - 1) {
      n := k;
    } else {
      n := FirstThatDoesNotFit(bodies, k - 1);
    }
  }

  lemma WideOffsetIsRefused(bodies: seq<string>)
    requires !Addressable(bodies)
    ensures Read(Assemble(bodies)).None?
  {
    hide Upto, TableHead, Entries, Trailer, Pow10, ReadStart, ReadTable, ReadObjects, ReadEntries, FitsUpto;
    var n := |bodies|;
    var objects, x := Upto(bodies, n), OffsetOf(bodies, n);
    var front := objects + TableHead(n);
    StartIsFound(front + Entries(bodies, n), n, x);
    Cat(front, Entries(bodies, n), Trailer(n, x));
    TableHeadIsRead(objects, n, Entries(bodies, n) + Trailer(n, x));
    var first := FirstThatDoesNotFit(bodies, n);
    WideEntriesAreRefused(front, bodies, first, n, Trailer(n, x));
  }

  lemma AddressableIsRead(bodies: seq<string>)
    requires Addressable(bodies)
    ensures Read(Assemble(bodies)) == Some(bodies)
  {
    hide Upto, TableHead, Entries, Trailer, Pow10, ReadStart, ReadTable, ReadObjects, Addressable;
    var n := |bodies|;
    var objects, x := Upto(bodies, n), OffsetOf(bodies, n);
    StartIsFound(objects + TableHead(n) + Entries(bodies, n), n, x);
    TableIsRead(objects, bodies, Trailer(n, x));
    ObjectsAreRead(bodies, TableHead(n) + Entries(bodies, n) + Trailer(n, x), n);
    assert objects + (TableHead(n) + Entries(bodies, n) + Trailer(n, x)) == Assemble(bodies);
    assert bodies[..n] == bodies;
  }

  /** The i-th entry of the table holds the position at which object i stands in the file. */
  lemma EntryPointsAtObject(bodies: seq<string>, i: nat)
    requires Addressable(bodies) && i < |bodies|
    ensures var doc, n := Assemble(bodies), |bodies|;
            var e := OffsetOf(bodies, n) + |TableHead(n)| + 20 * i;
            && e + 20 <= |doc|
            && At(doc, e, Entry(OffsetOf(bodies, i)))
            && |Entry(OffsetOf(bodies, i))| == 20
            && At(doc, OffsetOf(bodies, i), ObjectText(i + 1, bodies[i]))
  {
    hide Upto, TableHead, Trailer, Pow10, Entry, ObjectText, Entries;
    var n := |bodies|;
    var objects, x := Upto(bodies, n), OffsetOf(bodies, n);
    ObjectStands(bodies, i, n);
    AtPrefix(objects, TableHead(n) + Entries(bodies, n) + Trailer(n, x), OffsetOf(bodies, i), ObjectText(i + 1, bodies[i]));
    assert objects + (TableHead(n) + Entries(bodies, n) + Trailer(n, x)) == Assemble(bodies);
    EntryStands(bodies, i, n);
    AtShift(objects + TableHead(n), Entries(bodies, n), 20 * i, Entry(OffsetOf(bodies, i)));
    AtPrefix(objects + TableHead(n) + Entries(bodies, n), Trailer(n, x), |objects + TableHead(n)| + 20 * i, Entry(OffsetOf(bodies, i)));
    FitsBefore(bodies, i + 1, n);
    EntryWidth(OffsetOf(bodies, i));
  }

  lemma AtShift(front: string, s: string, i: nat, text: string)
    requires At(s, i, text)
    ensures At(front + s, |front| + i, text)
  {
    assert (front + s)[|front| + i..|front| + i + |text|] == s[i..i + |text|];
  }

  lemma {:induction false} EntryStands(bodies: seq<string>, i: nat, k: nat)
    requires Addressable(bodies) && i < k <= |bodies|
    ensures At(Entries(bodies, k), 20 * i, Entry(OffsetOf(bodies, i)))
  {
    hide Entry, Upto, FitsUpto;
    FitsBefore(bodies, k - 1, |bodies|);
    EntriesWidth(bodies, k - 1);
    if i == k - 1 {
      AtShift(Entries(bodies, i), Entry(OffsetOf(bodies, i)), 0, Entry(OffsetOf(bodies, i)));
    } else {
      EntryStands(bodies, i, k - 1);
      AtPrefix(Entries(bodies, k - 1), Entry(OffsetOf(bodies, k - 1)), 20 * i, Entry(OffsetOf(bodies, i)));
    }
  }
}
