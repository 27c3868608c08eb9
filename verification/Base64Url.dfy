/** Bytes as url-safe text: the encoding of RFC 4648, section 5, written without padding and padded again to be read. */
module Base64Url {
  import opened Wrappers

  type Byte = b: nat | b < 256

  function CharOf(v: nat): (c: char)
    requires v < 64
    ensures c != '='
  {
    if v < 26 then ('A' as int + v) as char
    else if v < 52 then ('a' as int + v - 26) as char
    else if v < 62 then ('0' as int + v - 52) as char
    else if v == 62 then '-' else '_'
  }

  /** The six bits a character stands for; the two characters of the ordinary alphabet are read as well. */
  function ValueOf(c: char): (v: Option<nat>)
    ensures v.Some? ==> v.value < 64
  {
    if 'A' <= c <= 'Z' then Some(c as int - 'A' as int)
    else if 'a' <= c <= 'z' then Some(c as int - 'a' as int + 26)
    else if '0' <= c <= '9' then Some(c as int - '0' as int + 52)
    else if c == '-' || c == '+' then Some(62)
    else if c == '_' || c == '/' then Some(63)
    else None
  }

  lemma ValueOfChar(v: nat)
    requires v < 64
    ensures ValueOf(CharOf(v)) == Some(v)
  {
  }

  // ----- Writing ------------------------------------------------------------

  function Group1(a: Byte): (s: string)
    ensures |s| == 2 && '=' !in s
  {
    [CharOf(a / 4), CharOf(a % 4 * 16)]
  }

  function Group2(a: Byte, b: Byte): (s: string)
    ensures |s| == 3 && '=' !in s
  {
    [CharOf(a / 4), CharOf(a % 4 * 16 + b / 16), CharOf(b % 16 * 4)]
  }

  function Group3(a: Byte, b: Byte, c: Byte): (s: string)
    ensures |s| == 4 && '=' !in s
  {
    [CharOf(a / 4), CharOf(a % 4 * 16 + b / 16), CharOf(b % 16 * 4 + c / 64), CharOf(c % 64)]
  }

  /** Four characters for three bytes; a shorter last group is filled up with padding. */
  function Encode(bytes: seq<Byte>): string {
    if |bytes| == 0 then ""
    else if |bytes| == 1 then Group1(bytes[0]) + "=="
    else if |bytes| == 2 then Group2(bytes[0], bytes[1]) + "="
    else Group3(bytes[0], bytes[1], bytes[2]) + Encode(bytes[3..])
  }

  function StripPadding(s: string): string {
    if s != [] && s[|s| - 1] == '=' then StripPadding(s[..|s| - 1]) else s
  }

  function Padding(k: nat): (s: string)
    ensures |s| == k
  {
    seq(k, _ => '=')
  }

  /** Add as many padding characters as the length lacks to a multiple of four. */
  function Repad(s: string): string {
    s + Padding((4 - |s| % 4) % 4)
  }

  function EncodeUnpadded(bytes: seq<Byte>): string {
    StripPadding(Encode(bytes))
  }

  // ----- Reading ------------------------------------------------------------

  /** How far the reader is in a group of four, the bits it holds, the padding it saw, and what it wrote. */
  datatype Reader = Reader(pos: nat, left: nat, pads: nat, out: seq<Byte>)

  predicate Good(r: Reader) {
    r.pos < 4 && r.left < (if r.pos == 1 then 64 else if r.pos == 2 then 16 else if r.pos == 3 then 4 else 1)
  }

  function Push(r: Reader, v: nat): (r': Reader)
    requires Good(r) && v < 64
    ensures Good(r')
  {
    if r.pos == 0 then Reader(1, v, 0, r.out)
    else if r.pos == 1 then Reader(2, v % 16, 0, r.out + [r.left * 4 + v / 16])
    else if r.pos == 2 then Reader(3, v % 4, 0, r.out + [r.left * 16 + v / 4])
    else Reader(0, 0, 0, r.out + [r.left * 64 + v])
  }

  /** Padding that completes a group ends the input, other characters outside the alphabet are passed over. */
  function Scan(s: string, r: Reader): Option<seq<Byte>>
    requires Good(r)
  {
    if s == [] then if r.pos == 0 then Some(r.out) else None
    else if s[0] == '=' then
      if r.pos < 2 then Scan(s[1..], r)
      else if r.pos + r.pads + 1 >= 4 then Some(r.out)
      else Scan(s[1..], r.(pads := r.pads + 1))
    else if ValueOf(s[0]).None? then Scan(s[1..], r)
    else Scan(s[1..], Push(r, ValueOf(s[0]).value))
  }

  function Decode(s: string): Option<seq<Byte>> {
    Scan(s, Reader(0, 0, 0, []))
  }

  // ----- Reading what was written -------------------------------------------

  lemma ScanChar(v: nat, rest: string, r: Reader)
    requires v < 64 && Good(r)
    ensures Scan([CharOf(v)] + rest, r) == Scan(rest, Push(r, v))
  {
    ValueOfChar(v);
    assert ([CharOf(v)] + rest)[1..] == rest;
  }

  lemma ScanChars2(v: nat, w: nat, rest: string, r: Reader)
    requires v < 64 && w < 64 && Good(r)
    ensures Scan([CharOf(v), CharOf(w)] + rest, r) == Scan(rest, Push(Push(r, v), w))
  {
    hide Push, Good;
    assert [CharOf(v), CharOf(w)] + rest == [CharOf(v)] + ([CharOf(w)] + rest);
    ScanChar(v, [CharOf(w)] + rest, r);
    ScanChar(w, rest, Push(r, v));
  }

  lemma ScanGroup3(a: Byte, b: Byte, c: Byte, rest: string, out: seq<Byte>)
    ensures Scan(Group3(a, b, c) + rest, Reader(0, 0, 0, out)) == Scan(rest, Reader(0, 0, 0, out + [a, b, c]))
  {
    hide Scan, CharOf;
    var v0, v1, v2, v3 := a / 4, a % 4 * 16 + b / 16, b % 16 * 4 + c / 64, c % 64;
    var last := [CharOf(v2), CharOf(v3)] + rest;
    assert Group3(a, b, c) + rest == [CharOf(v0), CharOf(v1)] + last;
    ScanChars2(v0, v1, last, Reader(0, 0, 0, out));
    var mid := Push(Push(Reader(0, 0, 0, out), v0), v1);
    ScanChars2(v2, v3, rest, mid);
    assert out + [a] + [b] + [c] == out + [a, b, c];
  }

  lemma ScanGroup2(a: Byte, b: Byte, out: seq<Byte>)
    ensures Scan(Group2(a, b) + "=", Reader(0, 0, 0, out)) == Some(out + [a, b])
  {
    hide CharOf;
    var v0, v1, v2 := a / 4, a % 4 * 16 + b / 16, b % 16 * 4;
    assert Group2(a, b) + "=" == [CharOf(v0), CharOf(v1)] + ([CharOf(v2)] + "=");
    ScanChars2(v0, v1, [CharOf(v2)] + "=", Reader(0, 0, 0, out));
    ScanChar(v2, "=", Push(Push(Reader(0, 0, 0, out), v0), v1));
    assert out + [a] + [b] == out + [a, b];
  }

  lemma ScanGroup1(a: Byte, out: seq<Byte>)
    ensures Scan(Group1(a) + "==", Reader(0, 0, 0, out)) == Some(out + [a])
  {
    hide CharOf;
    var v0, v1 := a / 4, a % 4 * 16;
    assert Group1(a) + "==" == [CharOf(v0), CharOf(v1)] + "==";
    ScanChars2(v0, v1, "==", Reader(0, 0, 0, out));
    assert "=="[1..] == "=";
  }

  lemma {:induction false} ScanOfEncode(bytes: seq<Byte>, out: seq<Byte>)
    ensures Scan(Encode(bytes), Reader(0, 0, 0, out)) == Some(out + bytes)
  {
    hide Group1, Group2, Group3;
    if |bytes| == 0 {
      assert out + bytes == out;
    } else if |bytes| == 1 {
      assert bytes == [bytes[0]];
      ScanGroup1(bytes[0], out);
    } else if |bytes| == 2 {
      assert bytes == [bytes[0], bytes[1]];
      ScanGroup2(bytes[0], bytes[1], out);
    } else {
      ScanGroup3(bytes[0], bytes[1], bytes[2], Encode(bytes[3..]), out);
      ScanOfEncode(bytes[3..], out + [bytes[0], bytes[1], bytes[2]]);
      assert out + [bytes[0], bytes[1], bytes[2]] + bytes[3..] == out + bytes;
    }
  }

  /** The characters an encoding carries, without its padding. */
  function Data(bytes: seq<Byte>): (s: string)
    ensures '=' !in s
  {
    if |bytes| == 0 then ""
    else if |bytes| == 1 then Group1(bytes[0])
    else if |bytes| == 2 then Group2(bytes[0], bytes[1])
    else Group3(bytes[0], bytes[1], bytes[2]) + Data(bytes[3..])
  }

  lemma {:induction false} EncodeIsDataAndPadding(bytes: seq<Byte>)
    ensures Encode(bytes) == Repad(Data(bytes))
  {
    hide Group1, Group2, Group3, Repad, Padding;
    if |bytes| > 2 {
      EncodeIsDataAndPadding(bytes[3..]);
      RepadAfterFour(Group3(bytes[0], bytes[1], bytes[2]), Data(bytes[3..]));
    } else if |bytes| == 0 {
      RepadShort("");
    } else {
      RepadShort(Data(bytes));
    }
  }

  /** A whole group in front needs no padding of its own. */
  lemma RepadAfterFour(group: string, rest: string)
    requires |group| == 4
    ensures Repad(group + rest) == group + Repad(rest)
  {
    hide Padding;
    assert |group + rest| % 4 == |rest| % 4;
    var padding := Padding((4 - |rest| % 4) % 4);
    assert group + rest + padding == group + (rest + padding);
  }

  lemma RepadShort(s: string)
    ensures |s| == 0 ==> Repad(s) == ""
    ensures |s| == 2 ==> Repad(s) == s + "=="
    ensures |s| == 3 ==> Repad(s) == s + "="
  {
    assert Padding(2) == "==" && Padding(1) == "=" && Padding(0) == "";
  }

  lemma {:induction false} StripPaddingOf(data: string, k: nat)
    requires '=' !in data
    ensures StripPadding(data + Padding(k)) == data
  {
    if k == 0 {
      assert data + Padding(k) == data;
    } else {
      var s := data + Padding(k);
      assert s[..|s| - 1] == data + Padding(k - 1);
      StripPaddingOf(data, k - 1);
    }
  }

  lemma UnpaddedIsData(bytes: seq<Byte>)
    ensures EncodeUnpadded(bytes) == Data(bytes)
  {
    hide Data;
    EncodeIsDataAndPadding(bytes);
    StripPaddingOf(Data(bytes), (4 - |Data(bytes)| % 4) % 4);
  }

  /** Whatever the number of bytes, padding to a multiple of four puts back exactly what was taken off. */
  lemma RepadInvertsStrip(bytes: seq<Byte>)
    ensures Repad(EncodeUnpadded(bytes)) == Encode(bytes)
    ensures '=' !in EncodeUnpadded(bytes)
  {
    hide Repad, Encode, EncodeUnpadded, Data;
    EncodeIsDataAndPadding(bytes);
    UnpaddedIsData(bytes);
  }

  /** A character that needs no escaping in a URL. */
  predicate IsUrlSafe(c: char) {
    'A' <= c <= 'Z' || 'a' <= c <= 'z' || '0' <= c <= '9' || c == '-' || c == '_'
  }

  lemma {:induction false} DataIsUrlSafe(bytes: seq<Byte>)
    ensures forall i :: 0 <= i < |Data(bytes)| ==> IsUrlSafe(Data(bytes)[i])
  {
    if |bytes| > 2 {
      DataIsUrlSafe(bytes[3..]);
    }
  }

  /** The text has none but letters, digits, hyphens and underscores. */
  lemma TextIsUrlSafe(bytes: seq<Byte>)
    ensures forall i :: 0 <= i < |EncodeUnpadded(bytes)| ==> IsUrlSafe(EncodeUnpadded(bytes)[i])
  {
    hide EncodeUnpadded, Data, IsUrlSafe;
    UnpaddedIsData(bytes);
    DataIsUrlSafe(bytes);
  }

  lemma DecodeInvertsEncode(bytes: seq<Byte>)
    ensures Decode(Repad(EncodeUnpadded(bytes))) == Some(bytes)
  {
    RepadInvertsStrip(bytes);
    ScanOfEncode(bytes, []);
    assert [] + bytes == bytes;
  }
}
