/** Text in a report page: string literals, text operators and content streams, with their readers. */
module PdfText {
  import opened Wrappers
  import opened Decimal
  import opened PdfDocument

  // ----- String literals ----------------------------------------------------

  predicate NeedsEscape(c: char) {
    c == '(' || c == ')' || c == '\\'
  }

  /** Inside the core font's range. */
  predicate Printable(c: char) {
    32 <= c as int < 127 || 160 <= c as int <= 255
  }

  function EscapeChar(c: char): string {
    if NeedsEscape(c) then ['\\', c] else if Printable(c) then [c] else "?"
  }

  /** The content of a string literal: escaped, and inside the core font's range. */
  function Escape(v: string): string {
    if v == "" then "" else Escape(v[..|v| - 1]) + EscapeChar(v[|v| - 1])
  }

  method EscapeText(v: string) returns (out: string)
    ensures out == Escape(v)
  {
    out := "";
    for i := 0 to |v|
      invariant out == Escape(v[..i])
    {
      assert v[..i + 1][..i] == v[..i];
      if NeedsEscape(v[i]) {
        out := out + ['\\', v[i]];
      } else if Printable(v[i]) {
        out := out + [v[i]];
      } else {
        out := out + "?";
      }
    }
    assert v[..|v|] == v;
  }

  /** What a reader is meant to see: characters outside the core font as question marks. */
  function Shown(c: char): char {
    if NeedsEscape(c) || Printable(c) then c else '?'
  }

  function ShownText(v: string): (s: string)
    ensures |s| == |v|
  {
    seq(|v|, i requires 0 <= i < |v| => Shown(v[i]))
  }

  /** Read the rest of a string literal, balanced parentheses and escapes included, and what follows it. */
  function ReadLiteral(s: string, depth: nat): Option<(string, string)> {
    if s == "" then None
    else if s[0] == ')' && depth == 0 then Some(("", s[1..]))
    else if s[0] == '\\' then
      if |s| == 1 || !NeedsEscape(s[1]) then None
      else
        var rest := ReadLiteral(s[2..], depth);
        if rest.None? then None else Some(([s[1]] + rest.value.0, rest.value.1))
    else
      var deeper := if s[0] == '(' then depth + 1 else if s[0] == ')' then depth - 1 else depth;
      var rest := ReadLiteral(s[1..], deeper);
      if rest.None? then None else Some(([s[0]] + rest.value.0, rest.value.1))
  }

  lemma {:induction false} EscapeHead(v: string)
    requires v != ""
    ensures Escape(v) == EscapeChar(v[0]) + Escape(v[1..])
  {
    hide EscapeChar;
    var n := |v| - 1;
    if n > 0 {
      EscapeHead(v[..n]);
      assert v[..n][1..] == v[1..][..n - 1];
      assert v[1..][n - 1] == v[n];
    } else {
      assert v[..0] == "" && v[1..] == "";
    }
  }

  lemma ReadEscapedChar(c: char, s: string)
    ensures var r := ReadLiteral(s, 0);
            ReadLiteral(EscapeChar(c) + s, 0)
            == if r.None? then None else Some(([Shown(c)] + r.value.0, r.value.1))
  {
    var t := EscapeChar(c) + s;
    if NeedsEscape(c) {
      assert t[2..] == s;
    } else {
      assert t[1..] == s;
    }
  }

  /**
   * Whatever the value, its literal ends at the writer's own closing parenthesis and reads back as
   * the value, with characters outside the font shown as question marks.
   */
  lemma {:induction false} LiteralIsRead(v: string, rest: string)
    ensures ReadLiteral(Escape(v) + (")" + rest), 0) == Some((ShownText(v), rest))
  {
    hide EscapeChar, Shown;
    if v == "" {
      assert Escape(v) + (")" + rest) == ")" + rest;
      assert (")" + rest)[1..] == rest;
      assert ShownText(v) == "";
    } else {
      LiteralIsRead(v[1..], rest);
      EscapeHead(v);
      Cat(EscapeChar(v[0]), Escape(v[1..]), ")" + rest);
      ReadEscapedChar(v[0], Escape(v[1..]) + (")" + rest));
      assert ShownText(v) == [Shown(v[0])] + ShownText(v[1..]);
    }
  }

  /** Every character of the font comes back as it was written, and any other as a question mark. */
  lemma CharactersAreReadExactly(v: string, rest: string)
    ensures var read := ReadLiteral(Escape(v) + (")" + rest), 0);
            && read.Some? && |read.value.0| == |v| && read.value.1 == rest
            && forall k :: 0 <= k < |v| ==>
                 read.value.0[k] == if 32 <= v[k] as int <= 126 || 160 <= v[k] as int <= 255 then v[k] else '?'
  {
    hide ReadLiteral, Escape;
    LiteralIsRead(v, rest);
  }

  /** The literal holds no line break and no character outside Latin-1. */
  lemma {:induction false} EscapeStaysOnLine(v: string)
    ensures forall c :: c in Escape(v) ==> c != '\n' && c as int < 256
  {
    if v != "" {
      EscapeStaysOnLine(v[..|v| - 1]);
    }
  }

  // ----- Text operators -----------------------------------------------------

  const SHOW_TEXT := " Tj ET"

  /** A font, size and position selection. */
  predicate Placement(s: string) {
    forall i :: 0 <= i < |s| ==> s[i] != '(' && s[i] != '\n' && s[i] as int < 256
  }

  /** One string, absolutely positioned. */
  function TextOp(placement: string, value: string): string {
    placement + ("(" + (Escape(value) + (")" + SHOW_TEXT)))
  }

  function FirstParen(s: string): (i: nat)
    ensures i <= |s| && (i < |s| ==> s[i] == '(') && forall k :: 0 <= k < i ==> s[k] != '('
  {
    if s == "" || s[0] == '(' then 0 else
      var i := FirstParen(s[1..]);
      assert forall k :: 0 < k < i + 1 ==> s[k] == s[1..][k - 1];
      i + 1
  }

  function ReadOp(line: string): Option<string> {
    var i := FirstParen(line);
    if i == |line| then None
    else
      var r := ReadLiteral(line[i + 1..], 0);
      if r.None? || r.value.1 != SHOW_TEXT then None else Some(r.value.0)
  }

  lemma OpIsRead(placement: string, value: string)
    requires Placement(placement)
    ensures ReadOp(TextOp(placement, value)) == Some(ShownText(value))
  {
    hide Escape, ReadLiteral;
    var line := TextOp(placement, value);
    var i := |placement|;
    assert line[i] == '(';
    assert forall k :: 0 <= k < i ==> line[k] == placement[k];
    assert FirstParen(line) == i;
    assert line[i + 1..] == Escape(value) + (")" + SHOW_TEXT);
    LiteralIsRead(value, SHOW_TEXT);
  }

  lemma OpStaysOnLine(placement: string, value: string)
    requires Placement(placement)
    ensures '\n' !in TextOp(placement, value)
  {
    hide Escape;
    EscapeStaysOnLine(value);
  }

  // ----- Lines --------------------------------------------------------------

  function Join(lines: seq<string>): string {
    if lines == [] then ""
    else if |lines| == 1 then lines[0]
    else lines[0] + ("\n" + Join(lines[1..]))
  }

  function FirstBreak(s: string): (i: nat)
    ensures i <= |s| && (i < |s| ==> s[i] == '\n') && forall k :: 0 <= k < i ==> s[k] != '\n'
  {
    if s == "" || s[0] == '\n' then 0 else
      var i := FirstBreak(s[1..]);
      assert forall k :: 0 < k < i + 1 ==> s[k] == s[1..][k - 1];
      i + 1
  }

  function Split(s: string): seq<string> {
    var i := FirstBreak(s);
    if i == |s| then [s] else [s[..i]] + Split(s[i + 1..])
  }

  ghost predicate OneLineEach(lines: seq<string>) {
    forall i :: 0 <= i < |lines| ==> '\n' !in lines[i]
  }

  lemma BreakAfter(first: string, rest: string)
    requires '\n' !in first
    ensures FirstBreak(first) == |first|
    ensures var s := first + ("\n" + rest);
            FirstBreak(s) == |first| < |s| && s[..|first|] == first && s[|first| + 1..] == rest
  {
    hide FirstBreak;
    var s := first + ("\n" + rest);
    assert s[|first|] == '\n';
    assert forall k :: 0 <= k < |first| ==> s[k] == first[k] && first[k] in first;
  }

  lemma {:induction false} SplitInvertsJoin(lines: seq<string>)
    requires lines != [] && OneLineEach(lines)
    ensures Split(Join(lines)) == lines
  {
    hide FirstBreak;
    BreakAfter(lines[0], Join(lines[1..]));
    if |lines| > 1 {
      SplitInvertsJoin(lines[1..]);
      assert lines == [lines[0]] + lines[1..];
    }
  }

  // ----- Content streams ----------------------------------------------------

  const LENGTH := "<< /Length "
  const STREAM := " >>\nstream\n"
  const END_STREAM := "\nendstream"

  function ContentStream(lines: seq<string>): string {
    var data := Join(lines);
    LENGTH + Show(|data|) + (STREAM + (data + END_STREAM))
  }

  /** A stream's data: as many bytes as its dictionary says, and nothing but the end mark after them. */
  function ReadStream(body: string): Option<string> {
    if !At(body, 0, LENGTH) then None
    else
      var e := DigitsEnd(body, |LENGTH|);
      var from := e + |STREAM|;
      var to := from + Value(body[|LENGTH|..e]);
      if e == |LENGTH| || !At(body, e, STREAM) || !At(body, to, END_STREAM) || to + |END_STREAM| != |body| then None
      else Some(body[from..to])
  }

  lemma StreamAt(body: string, e: nat, length: nat)
    requires At(body, 0, LENGTH) && |LENGTH| < e <= |body|
    requires DigitsEnd(body, |LENGTH|) == e && Value(body[|LENGTH|..e]) == length
    requires At(body, e, STREAM) && At(body, e + |STREAM| + length, END_STREAM)
    requires e + |STREAM| + length + |END_STREAM| == |body|
    ensures ReadStream(body) == Some(body[e + |STREAM|..e + |STREAM| + length])
  {
    hide DigitsEnd, Value, At;
  }

  /** The declared length is the number of bytes between the stream marks, so the data reads back. */
  lemma StreamIsRead(lines: seq<string>)
    ensures ReadStream(ContentStream(lines)) == Some(Join(lines))
  {
    hide Join, Show, DigitsEnd, Value, At, ReadStream;
    var data := Join(lines);
    var digits := Show(|data|);
    var body := LENGTH + digits + (STREAM + (data + END_STREAM));
    NumberIsRead(LENGTH, |data|, STREAM + (data + END_STREAM));
    StreamGroups(digits, data);
    AtMiddle("", LENGTH, digits + (STREAM + (data + END_STREAM)), body);
    AtMiddle(LENGTH + digits, STREAM, data + END_STREAM, body);
    AtMiddle(LENGTH + digits + STREAM + data, END_STREAM, "", body);
    StreamAt(body, |LENGTH + digits|, |data|);
    StreamSlice(LENGTH + digits + STREAM, data, END_STREAM);
  }

  lemma StreamGroups(digits: string, data: string)
    ensures LENGTH + digits + (STREAM + (data + END_STREAM)) == "" + (LENGTH + (digits + (STREAM + (data + END_STREAM))))
    ensures LENGTH + digits + (STREAM + (data + END_STREAM)) == LENGTH + digits + STREAM + data + END_STREAM + ""
    ensures LENGTH + digits + (STREAM + (data + END_STREAM)) == LENGTH + digits + STREAM + data + END_STREAM
  {
  }

  lemma StreamSlice(a: string, data: string, c: string)
    ensures (a + data + c)[|a|..|a| + |data|] == data
  {
  }
}
