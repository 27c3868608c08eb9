/** The pagination cursor: a timestamp and a row id as opaque text. */
module Cursor {
  import opened Wrappers
  import opened Decimal
  import opened Calendar
  import opened Base64Url

  /** The microseconds of a second and of a day. */
  const SECOND := 1_000_000
  const DAY := 86_400_000_000

  /** A timestamp by its fields; the offset from UTC is in microseconds, absent for a naive one. */
  datatype Stamp = Stamp(date: Date, hour: nat, minute: nat, second: nat, micro: nat, offset: Option<int>)

  predicate ValidStamp(t: Stamp) {
    && ValidDate(t.date)
    && t.hour < 24 && t.minute < 60 && t.second < 60 && t.micro < 1_000_000
    && (t.offset.Some? ==> -DAY < t.offset.value < DAY)
  }

  // ----- Timestamps as text -------------------------------------------------

  /** Microseconds are shown when there are any, and seconds when there are any of either. */
  function OffsetSeconds(second: nat, micro: nat): string {
    if second == 0 && micro == 0 then ""
    else ":" + (ShowPadded(second, 2) + if micro == 0 then "" else "." + (ShowPadded(micro, 6) + ""))
  }

  function OffsetText(offset: int): string {
    var o := if offset < 0 then -offset else offset;
    var seconds := o / SECOND;
    (if offset < 0 then "-" else "+")
    + (ShowPadded(seconds / 3600, 2) + (":" + (ShowPadded(seconds / 60 % 60, 2)
    + OffsetSeconds(seconds % 60, o % SECOND))))
  }

  function ZoneText(offset: Option<int>): string {
    if offset.None? then "" else OffsetText(offset.value)
  }

  function FractionText(micro: nat, zone: string): string {
    if micro == 0 then zone else "." + (ShowPadded(micro, 6) + zone)
  }

  function TimeText(t: Stamp): string {
    ShowPadded(t.hour, 2) + (":" + (ShowPadded(t.minute, 2) + (":" + (ShowPadded(t.second, 2)
    + FractionText(t.micro, ZoneText(t.offset))))))
  }

  function IsoFormat(t: Stamp): string
    requires ValidStamp(t)
  {
    ShowPadded(t.date.year, 4) + ("-" + (ShowPadded(t.date.month, 2) + ("-" + (ShowPadded(t.date.day, 2)
    + ("T" + TimeText(t))))))
  }

  // ----- Reading a timestamp ------------------------------------------------

  datatype Read<T> = Read(value: T, rest: string)

  /** A number of exactly so many digits. */
  function Number(s: string, width: nat): Option<Read<nat>> {
    if |s| < width || !AllDigits(s[..width]) then None else Some(Read(Value(s[..width]), s[width..]))
  }

  function Expect(s: string, c: char): Option<string> {
    if s == [] || s[0] != c then None else Some(s[1..])
  }

  /** A number after a given character. */
  function NumberAfter(s: string, c: char, width: nat): Option<Read<nat>> {
    var rest :- Expect(s, c);
    Number(rest, width)
  }

  function ReadOffsetSeconds(s: string): Option<int> {
    if s == [] then Some(0)
    else
      var second :- NumberAfter(s, ':', 2);
      var micro :- if second.rest == [] then Some(Read(0, [])) else NumberAfter(second.rest, '.', 6);
      if micro.rest != [] || second.value >= 60 then None else Some(second.value * SECOND + micro.value)
  }

  function ReadOffset(s: string): Option<int> {
    if s == [] || s[0] !in {'+', '-'} then None
    else
      var hours :- Number(s[1..], 2);
      var minutes :- NumberAfter(hours.rest, ':', 2);
      var seconds :- ReadOffsetSeconds(minutes.rest);
      if minutes.value >= 60 then None
      else
        var o := (hours.value * 3600 + minutes.value * 60) * SECOND + seconds;
        if o >= DAY then None else Some(if s[0] == '-' then -o else o)
  }

  function ReadZone(s: string): Option<Option<int>> {
    if s == [] then Some(None)
    else
      var offset :- ReadOffset(s);
      Some(Some(offset))
  }

  function ReadFraction(s: string): Option<Read<nat>> {
    if s != [] && s[0] == '.' then NumberAfter(s, '.', 6) else Some(Read(0, s))
  }

  function FromIsoFormat(s: string): Option<Stamp> {
    var year :- Number(s, 4);
    var month :- NumberAfter(year.rest, '-', 2);
    var day :- NumberAfter(month.rest, '-', 2);
    ReadTime(Date(year.value, month.value, day.value), day.rest)
  }

  function ReadTime(date: Date, s: string): Option<Stamp> {
    var hour :- NumberAfter(s, 'T', 2);
    var minute :- NumberAfter(hour.rest, ':', 2);
    var second :- NumberAfter(minute.rest, ':', 2);
    var micro :- ReadFraction(second.rest);
    var offset :- ReadZone(micro.rest);
    var t := Stamp(date, hour.value, minute.value, second.value, micro.value, offset);
    if ValidStamp(t) then Some(t) else None
  }

  // ----- The cursor ---------------------------------------------------------

  datatype CursorError = Malformed

  /** The bytes of text that is all ASCII. */
  function ToBytes(s: string): seq<Byte>
    requires IsAscii(s)
  {
    seq(|s|, i requires 0 <= i < |s| => s[i] as int)
  }

  predicate IsAscii(s: string) {
    forall i :: 0 <= i < |s| ==> s[i] as int < 128
  }

  function FromBytes(bytes: seq<Byte>): Option<string> {
    if forall i :: 0 <= i < |bytes| ==> bytes[i] < 128 then
      Some(seq(|bytes|, i requires 0 <= i < |bytes| => bytes[i] as char))
    else None
  }

  /** A JSON array of the timestamp's text and the id. */
  function Payload(iso: string, id: int): string {
    "[\"" + (iso + ("\", " + (ShowInt(id) + "]")))
  }

  /** A number as it is printed: JSON takes no leading zeros. */
  function ReadInt(s: string): Option<int> {
    if s != [] && AllDigits(s) then Printed(s, Value(s))
    else if |s| > 1 && s[0] == '-' && AllDigits(s[1..]) then
      var magnitude: int := Value(s[1..]);
      Printed(s, -magnitude)
    else None
  }

  function Printed(s: string, n: int): Option<int> {
    if ShowInt(n) == s then Some(n) else None
  }

  function UpToQuote(s: string): (n: nat)
    ensures n <= |s|
  {
    if s == [] || s[0] == '"' then 0 else 1 + UpToQuote(s[1..])
  }

  /** The two parts of such an array. */
  function ReadPayload(s: string): Option<(string, int)> {
    if !("[\"" <= s) then None
    else
      var inner := s[2..];
      var n := UpToQuote(inner);
      var rest := inner[n..];
      if !("\", " <= rest) || |rest| < 4 || rest[|rest| - 1] != ']' then None
      else
        var id :- ReadInt(rest[3..|rest| - 1]);
        Some((inner[..n], id))
  }

  function EncodeCursor(t: Stamp, id: int): string
    requires ValidStamp(t)
  {
    PayloadIsAscii(t, id);
    EncodeUnpadded(ToBytes(Payload(IsoFormat(t), id)))
  }

  function DecodeCursor(cursor: string): Result<(Stamp, int), CursorError> {
    if !IsAscii(cursor) then Err(Malformed)
    else
      match DecodeAscii(cursor)
      case None => Err(Malformed)
      case Some(pair) => Ok(pair)
  }

  function DecodeAscii(cursor: string): Option<(Stamp, int)> {
    var bytes :- Decode(Repad(cursor));
    var text :- FromBytes(bytes);
    var parts :- ReadPayload(text);
    var t :- FromIsoFormat(parts.0);
    Some((t, parts.1))
  }

  // ----- Proofs -------------------------------------------------------------

  /** Characters that a timestamp or a number may hold. */
  predicate Plain(s: string) {
    forall i :: 0 <= i < |s| ==> IsDigit(s[i]) || s[i] in "-+:.T"
  }

  lemma PlainCat(a: string, b: string)
    requires Plain(a) && Plain(b)
    ensures Plain(a + b)
  {
  }

  lemma PlainDigits(s: string)
    requires AllDigits(s)
    ensures Plain(s)
  {
  }

  lemma PlainFields(c: string, n: nat, width: nat, rest: string)
    requires Plain(c) && Plain(rest)
    ensures Plain(c + (ShowPadded(n, width) + rest)) && Plain(ShowPadded(n, width) + rest)
  {
    hide Plain, ShowPadded;
    PlainDigits(ShowPadded(n, width));
    PlainCat(ShowPadded(n, width), rest);
    PlainCat(c, ShowPadded(n, width) + rest);
  }

  lemma OffsetSecondsIsPlain(second: nat, micro: nat)
    ensures Plain(OffsetSeconds(second, micro))
  {
    hide ShowPadded, Plain;
    PlainSigns();
    PlainFields(".", micro, 6, "");
    PlainFields(":", second, 2, if micro == 0 then "" else "." + (ShowPadded(micro, 6) + ""));
  }

  lemma ZoneIsPlain(offset: Option<int>)
    ensures Plain(ZoneText(offset))
  {
    hide ShowPadded, OffsetSeconds, Plain;
    PlainSigns();
    if offset.Some? {
      var o := if offset.value < 0 then -offset.value else offset.value;
      var seconds := o / SECOND;
      OffsetSecondsIsPlain(seconds % 60, o % SECOND);
      var tail := OffsetSeconds(seconds % 60, o % SECOND);
      PlainFields(":", seconds / 60 % 60, 2, tail);
      PlainFields(if offset.value < 0 then "-" else "+", seconds / 3600, 2, ":" + (ShowPadded(seconds / 60 % 60, 2) + tail));
    }
  }

  lemma PlainSigns()
    ensures Plain("") && Plain("-") && Plain("+") && Plain(":") && Plain(".") && Plain("T")
  {
  }

  lemma TimeIsPlain(t: Stamp)
    ensures Plain(TimeText(t))
  {
    hide ShowPadded, Plain, ZoneText;
    PlainSigns();
    ZoneIsPlain(t.offset);
    var zone := ZoneText(t.offset);
    PlainFields(".", t.micro, 6, zone);
    var fraction := FractionText(t.micro, zone);
    PlainFields(":", t.second, 2, fraction);
    var seconds := ":" + (ShowPadded(t.second, 2) + fraction);
    PlainFields(":", t.minute, 2, seconds);
    PlainFields("", t.hour, 2, ":" + (ShowPadded(t.minute, 2) + seconds));
  }

  lemma IsoIsPlain(t: Stamp)
    requires ValidStamp(t)
    ensures Plain(IsoFormat(t))
  {
    hide ShowPadded, Plain, TimeText;
    PlainSigns();
    TimeIsPlain(t);
    PlainCat("T", TimeText(t));
    PlainFields("-", t.date.day, 2, "T" + TimeText(t));
    var days := "-" + (ShowPadded(t.date.day, 2) + ("T" + TimeText(t)));
    PlainFields("-", t.date.month, 2, days);
    PlainFields("", t.date.year, 4, "-" + (ShowPadded(t.date.month, 2) + days));
  }

  lemma PayloadIsAscii(t: Stamp, id: int)
    requires ValidStamp(t)
    ensures IsAscii(Payload(IsoFormat(t), id))
  {
    hide IsoFormat, Show;
    IsoIsPlain(t);
    ShowIntIsPlain(id);
  }

  lemma ShowIntIsPlain(n: int)
    ensures Plain(ShowInt(n))
  {
    hide Show;
  }

  /** A padded number is exactly as wide as it was padded to when it fits. */
  lemma PaddedWidth(n: nat, width: nat)
    requires width >= 1 && n < Pow10(width)
    ensures |ShowPadded(n, width)| == width
  {
    ShowLength(n, width);
  }

  lemma SmallWidths()
    ensures Pow10(2) == 100 && Pow10(4) == 10_000 && Pow10(6) == 1_000_000
  {
    assert Pow10(1) == 10 && Pow10(3) == 1_000 && Pow10(5) == 100_000 by {
      assert Pow10(0) == 1;
    }
  }

  lemma NumberOfPadded(n: nat, width: nat, rest: string)
    requires width >= 1 && n < Pow10(width)
    ensures Number(ShowPadded(n, width) + rest, width) == Some(Read(n, rest))
  {
    hide ShowPadded, Value, Pow10;
    PaddedWidth(n, width);
    ValueOfPadded(n, width);
    var s := ShowPadded(n, width) + rest;
    assert s[..width] == ShowPadded(n, width) && s[width..] == rest;
  }

  lemma NumberAfterOf(c: char, n: nat, width: nat, rest: string)
    requires width >= 1 && n < Pow10(width)
    ensures NumberAfter([c] + (ShowPadded(n, width) + rest), c, width) == Some(Read(n, rest))
  {
    hide ShowPadded, Number, Pow10;
    NumberOfPadded(n, width, rest);
    assert ([c] + (ShowPadded(n, width) + rest))[1..] == ShowPadded(n, width) + rest;
  }

  lemma ReadOffsetSecondsOf(second: nat, micro: nat)
    requires second < 60 && micro < SECOND
    ensures ReadOffsetSeconds(OffsetSeconds(second, micro)) == Some(second * SECOND + micro)
  {
    hide ShowPadded, NumberAfter, Pow10;
    SmallWidths();
    NumberAfterOf(':', second, 2, if micro == 0 then "" else "." + (ShowPadded(micro, 6) + ""));
    NumberAfterOf('.', micro, 6, "");
  }

  lemma ReadOffsetOf(offset: int)
    requires -DAY < offset < DAY
    ensures ReadOffset(OffsetText(offset)) == Some(offset)
  {
    hide ShowPadded, Number, NumberAfter, Pow10, OffsetSeconds, ReadOffsetSeconds;
    var o := if offset < 0 then -offset else offset;
    var h, m := o / SECOND / 3600, o / SECOND / 60 % 60;
    var tail := OffsetSeconds(o / SECOND % 60, o % SECOND);
    var minutes := ":" + (ShowPadded(m, 2) + tail);
    SmallWidths();
    assert OffsetText(offset)[1..] == ShowPadded(h, 2) + minutes;
    NumberOfPadded(h, 2, minutes);
    NumberAfterOf(':', m, 2, tail);
    ReadOffsetSecondsOf(o / SECOND % 60, o % SECOND);
    OffsetParts(o / SECOND);
    assert o == o / SECOND * SECOND + o % SECOND;
  }

  lemma OffsetParts(o: nat)
    ensures o / 3600 * 3600 + o / 60 % 60 * 60 + o % 60 == o
  {
    assert o / 3600 == o / 60 / 60;
  }

  lemma ReadZoneOf(offset: Option<int>)
    requires offset.Some? ==> -DAY < offset.value < DAY
    ensures ReadZone(ZoneText(offset)) == Some(offset)
    ensures ZoneText(offset) == [] || ZoneText(offset)[0] in {'+', '-'}
  {
    hide ReadOffset, ShowPadded, OffsetSeconds;
    if offset.Some? {
      ReadOffsetOf(offset.value);
    }
  }

  lemma ReadFractionOf(micro: nat, zone: string)
    requires micro < 1_000_000 && (zone == [] || zone[0] in {'+', '-'})
    ensures ReadFraction(FractionText(micro, zone)) == Some(Read(micro, zone))
  {
    hide ShowPadded, NumberAfter, Pow10;
    SmallWidths();
    NumberAfterOf('.', micro, 6, zone);
  }

  lemma ReadTimeOf(t: Stamp)
    requires ValidStamp(t)
    ensures ReadTime(t.date, "T" + TimeText(t)) == Some(t)
  {
    hide ShowPadded, NumberAfter, Pow10, ReadFraction, FractionText, ZoneText, ReadZone;
    SmallWidths();
    var zone := ZoneText(t.offset);
    var fraction := FractionText(t.micro, zone);
    var seconds := ":" + (ShowPadded(t.second, 2) + fraction);
    var minutes := ":" + (ShowPadded(t.minute, 2) + seconds);
    NumberAfterOf('T', t.hour, 2, minutes);
    NumberAfterOf(':', t.minute, 2, seconds);
    NumberAfterOf(':', t.second, 2, fraction);
    ReadZoneOf(t.offset);
    ReadFractionOf(t.micro, zone);
  }

  /** Reading a printed timestamp gives it back, offset and microseconds included. */
  lemma IsoRoundTrip(t: Stamp)
    requires ValidStamp(t)
    ensures FromIsoFormat(IsoFormat(t)) == Some(t)
  {
    hide ShowPadded, Number, NumberAfter, Pow10, ReadTime, TimeText;
    SmallWidths();
    var time := "T" + TimeText(t);
    var days := "-" + (ShowPadded(t.date.day, 2) + time);
    var months := "-" + (ShowPadded(t.date.month, 2) + days);
    NumberOfPadded(t.date.year, 4, months);
    NumberAfterOf('-', t.date.month, 2, days);
    NumberAfterOf('-', t.date.day, 2, time);
    ReadTimeOf(t);
  }

  lemma ReadIntOf(n: int)
    ensures ReadInt(ShowInt(n)) == Some(n)
  {
    hide Show, Value;
    if n < 0 {
      assert ShowInt(n)[0] == '-' && ShowInt(n)[1..] == Show(-n);
      ValueOfShow(-n);
    } else {
      ValueOfShow(n);
    }
  }

  lemma {:induction false} QuoteAfterPlain(s: string, rest: string)
    requires Plain(s)
    ensures UpToQuote(s + ("\"" + rest)) == |s|
  {
    var t := s + ("\"" + rest);
    if s != [] {
      assert t[1..] == s[1..] + ("\"" + rest);
      QuoteAfterPlain(s[1..], rest);
    }
  }

  lemma ReadPayloadOf(iso: string, id: int)
    requires Plain(iso)
    ensures ReadPayload(Payload(iso, id)) == Some((iso, id))
  {
    hide ShowInt, ReadInt, UpToQuote, Plain;
    var tail := ", " + (ShowInt(id) + "]");
    var rest := "\"" + tail;
    assert Payload(iso, id) == "[\"" + (iso + rest) by {
      assert "\", " + (ShowInt(id) + "]") == rest;
    }
    var inner := Payload(iso, id)[2..];
    assert inner == iso + rest;
    QuoteAfterPlain(iso, tail);
    assert inner[..|iso|] == iso && inner[|iso|..] == rest;
    assert rest[3..|rest| - 1] == ShowInt(id);
    ReadIntOf(id);
  }

  lemma BytesRoundTrip(s: string)
    requires IsAscii(s)
    ensures FromBytes(ToBytes(s)) == Some(s)
  {
    var bytes := ToBytes(s);
    assert forall i :: 0 <= i < |s| ==> bytes[i] == s[i] as int;
    var back := FromBytes(bytes);
    assert back.Some? && |back.value| == |s|;
    assert back.value == s;
  }

  lemma {:induction false} DataIsAscii(bytes: seq<Byte>)
    ensures IsAscii(Data(bytes))
  {
    if |bytes| > 2 {
      DataIsAscii(bytes[3..]);
    }
  }

  /** Every timestamp and row id comes back from its cursor, and the cursor needs no escaping. */
  lemma CursorRoundTrip(t: Stamp, id: int)
    requires ValidStamp(t)
    ensures DecodeCursor(EncodeCursor(t, id)) == Ok((t, id))
    ensures '=' !in EncodeCursor(t, id)
    ensures forall i :: 0 <= i < |EncodeCursor(t, id)| ==> IsUrlSafe(EncodeCursor(t, id)[i])
  {
    hide IsoFormat, FromIsoFormat, ReadPayload, Payload, Decode, Repad, FromBytes, ToBytes, Data, Encode, IsAscii, IsUrlSafe;
    PayloadIsAscii(t, id);
    var text := Payload(IsoFormat(t), id);
    var bytes := ToBytes(text);
    RepadInvertsStrip(bytes);
    TextIsUrlSafe(bytes);
    UnpaddedIsData(bytes);
    DataIsAscii(bytes);
    DecodeInvertsEncode(bytes);
    BytesRoundTrip(text);
    IsoIsPlain(t);
    ReadPayloadOf(IsoFormat(t), id);
    IsoRoundTrip(t);
  }

  /** Two different positions never share a cursor. */
  lemma CursorInjective(t: Stamp, id: int, t': Stamp, id': int)
    requires ValidStamp(t) && ValidStamp(t') && EncodeCursor(t, id) == EncodeCursor(t', id')
    ensures t == t' && id == id'
  {
    hide EncodeCursor, DecodeCursor;
    CursorRoundTrip(t, id);
    CursorRoundTrip(t', id');
  }

  lemma RepadOnce(s: string)
    requires IsAscii(s)
    ensures Repad(Repad(s)) == Repad(s) && IsAscii(Repad(s))
    ensures '=' !in s ==> ('=' in Repad(s) <==> |s| % 4 != 0)
  {
    var k := (4 - |s| % 4) % 4;
    assert Padding(k) == "" || Padding(k)[0] == '=';
    assert (|s| + k) % 4 == 0;
    assert |Repad(s)| == |s| + k;
    assert Repad(s) + "" == Repad(s);
    if k > 0 {
      assert Repad(s)[|s|] == '=';
    } else {
      assert Repad(s) == s;
    }
  }

  /**
   * The reader takes a text that the writer never produces: any cursor with its padding put back on, which is
   * another text exactly when there is padding.
   */
  lemma PaddedCursorIsTaken(t: Stamp, id: int)
    requires ValidStamp(t)
    ensures var cursor := EncodeCursor(t, id);
            && DecodeCursor(Repad(cursor)) == Ok((t, id))
            && (|cursor| % 4 != 0 <==> forall t', id' :: ValidStamp(t') ==> EncodeCursor(t', id') != Repad(cursor))
  {
    hide EncodeCursor, IsoFormat, FromIsoFormat, ReadPayload, Decode, Repad, FromBytes;
    var cursor := EncodeCursor(t, id);
    CursorRoundTrip(t, id);
    RepadOnce(cursor);
    if |cursor| % 4 == 0 {
      RepadNothing(cursor);
    } else {
      forall t', id' | ValidStamp(t') ensures EncodeCursor(t', id') != Repad(cursor) {
        CursorRoundTrip(t', id');
      }
    }
  }

  lemma RepadNothing(s: string)
    requires |s| % 4 == 0
    ensures Repad(s) == s
  {
    assert s + "" == s;
  }
}
