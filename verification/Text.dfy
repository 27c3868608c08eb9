/** White space around a value, and values that hold nothing else. */
module Text {

  predicate IsSpace(c: char) {
    c in "\t\n\r \U{B}\U{C}\U{1C}\U{1D}\U{1E}\U{1F}\U{85}\U{A0}\U{1680}\U{2028}\U{2029}\U{202F}\U{205F}\U{3000}"
    || '\U{2000}' <= c <= '\U{200A}'
  }

  function StripLeft(s: string): string {
    if s != [] && IsSpace(s[0]) then StripLeft(s[1..]) else s
  }

  function StripRight(s: string): string {
    if s != [] && IsSpace(s[|s| - 1]) then StripRight(s[..|s| - 1]) else s
  }

  /** The text without the white space around it. */
  function Strip(s: string): string {
    StripRight(StripLeft(s))
  }

  predicate Blank(s: string) {
    forall i :: 0 <= i < |s| ==> IsSpace(s[i])
  }

  /** A value is blank exactly when nothing of it is left once it is stripped. */
  lemma {:induction false} BlankStripsToNothing(s: string)
    ensures Strip(s) == [] <==> Blank(s)
  {
    StripLeftIsEmpty(s);
    if !Blank(s) {
      StripLeftStops(s);
      StripRightKeeps(StripLeft(s));
    }
  }

  lemma {:induction false} StripLeftIsEmpty(s: string)
    ensures StripLeft(s) == [] <==> Blank(s)
  {
    if s != [] {
      StripLeftIsEmpty(s[1..]);
      assert s == [s[0]] + s[1..];
    }
  }

  lemma {:induction false} StripLeftStops(s: string)
    ensures StripLeft(s) != [] ==> !IsSpace(StripLeft(s)[0])
  {
    if s != [] && IsSpace(s[0]) {
      StripLeftStops(s[1..]);
    }
  }

  lemma {:induction false} StripRightKeeps(s: string)
    requires s != [] && !IsSpace(s[0])
    ensures StripRight(s) != []
  {
    if IsSpace(s[|s| - 1]) {
      StripRightKeeps(s[..|s| - 1]);
    }
  }

  lemma {:induction false} StripLeading(space: string, s: string)
    requires Blank(space)
    ensures Strip(space + s) == Strip(s)
  {
    if space == [] {
      assert space + s == s;
    } else {
      assert (space + s)[1..] == space[1..] + s;
      StripLeading(space[1..], s);
    }
  }

  /** Stripping takes exactly the white space after a text that begins and ends with something else. */
  lemma {:induction false} StripOf(body: string, tail: string)
    requires body != [] && !IsSpace(body[0]) && !IsSpace(body[|body| - 1])
    requires forall i :: 0 <= i < |tail| ==> IsSpace(tail[i])
    ensures Strip(body + tail) == body
  {
    hide IsSpace;
    var s := body + tail;
    assert StripLeft(s) == s;
    if tail == [] {
      assert s == body;
    } else {
      StripOf(body, tail[..|tail| - 1]);
      assert s[..|s| - 1] == body + tail[..|tail| - 1];
    }
  }
}
