/** The cursor of the alert API as the codec that pagination goes through. */
module CursorCodec {
  import opened Wrappers
  import Calendar
  import opened Cursor
  import opened AlertRows
  import opened AlertStore
  import opened Pagination

  /** The moments, in microseconds from the first day of the calendar in UTC, that a timestamp can name. */
  predicate Nameable(instant: int) {
    0 <= instant < Calendar.CalendarDays() * DAY
  }

  /** The moment a timestamp with an offset names. */
  function InstantOf(t: Stamp): int
    requires ValidStamp(t) && t.offset.Some?
  {
    var seconds := t.hour * 3600 + t.minute * 60 + t.second;
    Calendar.DayNumber(t.date) * DAY + seconds * SECOND + t.micro - t.offset.value
  }

  /** The timestamp of a moment in UTC, as the store's clock gives it. */
  function StampOf(instant: int): Stamp
    requires Nameable(instant)
  {
    var day, rest := instant / DAY, instant % DAY;
    var seconds := rest / SECOND;
    Stamp(Calendar.DateOf(day), seconds / 3600, seconds / 60 % 60, seconds % 60, rest % SECOND, Some(0))
  }

  function EncodeKey(k: Key): string {
    if !Nameable(k.createdAt) then ""
    else
      StampIsValid(k.createdAt);
      EncodeCursor(StampOf(k.createdAt), k.id)
  }

  function DecodeKey(s: string): Result<Key, string> {
    match DecodeCursor(s)
    case Err(_) => Err("cursor is malformed or was not issued by this API")
    case Ok(pair) =>
      DecodedIsValid(s);
      if pair.0.offset.None? then Err("cursor is malformed or was not issued by this API")
      else Ok(Key(InstantOf(pair.0), pair.1))
  }

  const CODEC := Codec(EncodeKey, DecodeKey)

  lemma TimeParts(rest: int)
    requires 0 <= rest < DAY
    ensures var s := rest / SECOND;
            s / 3600 < 24 && (s / 3600 * 3600 + s / 60 % 60 * 60 + s % 60) * SECOND + rest % SECOND == rest
  {
    var s := rest / SECOND;
    assert s / 3600 == s / 60 / 60;
  }

  lemma StampIsValid(instant: int)
    requires Nameable(instant)
    ensures ValidStamp(StampOf(instant)) && InstantOf(StampOf(instant)) == instant
  {
    hide Calendar.DateOf, Calendar.DayNumber, Calendar.CalendarDays;
    Calendar.DateOfDay(instant / DAY);
    TimeParts(instant % DAY);
  }

  lemma DecodedIsValid(s: string)
    requires DecodeCursor(s).Ok?
    ensures ValidStamp(DecodeCursor(s).value.0)
  {
    hide ReadPayload, FromBytes, NumberAfter, Number, ReadFraction, ReadZone, ValidStamp;
  }

  /** The cursor's own encoding gives every key of a query's range back. */
  lemma CodecRoundTrips(start: int, end: int)
    requires Nameable(start) && Nameable(end)
    ensures RoundTrips(CODEC, start, end)
  {
    hide EncodeCursor, DecodeCursor, StampOf, InstantOf, ValidStamp, Calendar.CalendarDays;
    forall k: Key | start <= k.createdAt < end ensures CODEC.decode(CODEC.encode(k)) == Ok(k) {
      KeyRoundTrips(k);
    }
  }

  lemma KeyRoundTrips(k: Key)
    requires Nameable(k.createdAt)
    ensures DecodeKey(EncodeKey(k)) == Ok(k)
  {
    hide EncodeCursor, DecodeCursor, InstantOf, ValidStamp, Nameable, Calendar.DateOf;
    StampIsValid(k.createdAt);
    CursorRoundTrip(StampOf(k.createdAt), k.id);
  }

  /**
   * With the cursor text the API really hands out, a finished walk over any two moments returns every row
   * that is there and matches throughout, and returns no row twice, whatever is saved between the pages.
   */
  lemma RealCursorsMissNothing(ts: seq<Table>, q: Query, k: Key)
    requires Nameable(q.start) && Nameable(q.end) && Usable(CODEC, q) && AllOk(ts) && Finished(CODEC, ts, q)
    requires forall i :: 0 <= i < |ts| ==> Present(ts[i], q, k)
    requires CursorOf(CODEC, q).Some? ==> Before(q.order, CursorOf(CODEC, q).value, k)
    ensures StrictlySorted(q.order, Walk(CODEC, ts, q))
    ensures exists i :: 0 <= i < |Walk(CODEC, ts, q)| && KeyOf(Walk(CODEC, ts, q)[i]) == k
    ensures forall i, j :: 0 <= i < j < |Walk(CODEC, ts, q)| ==> KeyOf(Walk(CODEC, ts, q)[i]) != KeyOf(Walk(CODEC, ts, q)[j])
  {
    hide Usable, AllOk, Finished, Walk, Present, Before, RoundTrips, KeyOf, CursorOf;
    CodecRoundTrips(q.start, q.end);
    WalkIsStrictlySorted(CODEC, ts, q);
    WalkMissesNothing(CODEC, ts, q, k);
    forall i, j | 0 <= i < j < |Walk(CODEC, ts, q)|
      ensures KeyOf(Walk(CODEC, ts, q)[i]) != KeyOf(Walk(CODEC, ts, q)[j])
    {
      ReturnedOnce(CODEC, ts, q, i, j);
    }
  }
}
