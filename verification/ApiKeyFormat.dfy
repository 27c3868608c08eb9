/** The written form of an API key: how one is put together, and how one is taken apart. */
module ApiKeyFormat {
  import opened Wrappers
  import opened Decimal
  import opened Text

  const PREFIX := "aegis_sk_"
  /** The longest id the pattern accepts, in digits. */
  const ID_DIGITS := 19

  datatype ParsedKey = ParsedKey(id: nat, secret: string)
  datatype FormatError = BadId | BadSecret

  predicate IsSecretChar(c: char) {
    'A' <= c <= 'Z' || 'a' <= c <= 'z' || '0' <= c <= '9' || c == '_' || c == '-'
  }

  predicate IsSecret(s: string) {
    s != [] && forall i :: 0 <= i < |s| ==> IsSecretChar(s[i])
  }

  /** What a pattern anchored at the end sees: the anchor also matches before one final line feed. */
  function BeforeEnd(s: string): string {
    if s != [] && s[|s| - 1] == '\n' then s[..|s| - 1] else s
  }

  function FormatKey(id: int, secret: string): Result<string, FormatError> {
    if id < 1 then Err(BadId)
    else if !IsSecret(BeforeEnd(secret)) then Err(BadSecret)
    else Ok(PREFIX + Show(id) + "_" + secret)
  }

  function UpToUnderscore(s: string): (n: nat)
    ensures n <= |s|
    ensures n < |s| ==> s[n] == '_'
    ensures forall i :: 0 <= i < n ==> s[i] != '_'
  {
    if s == [] || s[0] == '_' then 0 else 1 + UpToUnderscore(s[1..])
  }

  /** Read the prefix, the digits up to the next underscore, and the rest. */
  function Match(s: string): Option<ParsedKey> {
    if !(PREFIX <= s) then None
    else
      var rest := s[|PREFIX|..];
      var n := UpToUnderscore(rest);
      if n == |rest| || n == 0 || n > ID_DIGITS then None
      else if !AllDigits(rest[..n]) || !IsSecret(rest[n + 1..]) then None
      else Some(ParsedKey(Value(rest[..n]), rest[n + 1..]))
  }

  function ParseKey(presented: string): Option<ParsedKey> {
    Match(BeforeEnd(Strip(presented)))
  }

  /** The pattern, said without a parser: some digits and some secret make up the string. */
  ghost predicate IsWritten(s: string, digits: string, secret: string) {
    && s == PREFIX + digits + "_" + secret
    && 1 <= |digits| <= ID_DIGITS && AllDigits(digits)
    && IsSecret(secret)
  }

  /** Reading succeeds on exactly the strings of the pattern, and gives their only parts. */
  lemma MatchIsThePattern(s: string)
    ensures Match(s).Some? <==> exists digits, secret :: IsWritten(s, digits, secret)
    ensures forall digits, secret :: IsWritten(s, digits, secret) ==> Match(s) == Some(ParsedKey(Value(digits), secret))
  {
    if Match(s).Some? {
      var rest := s[|PREFIX|..];
      var n := UpToUnderscore(rest);
      assert s == PREFIX + rest[..n] + "_" + rest[n + 1..];
      assert IsWritten(s, rest[..n], rest[n + 1..]);
    }
    forall digits, secret | IsWritten(s, digits, secret)
      ensures Match(s) == Some(ParsedKey(Value(digits), secret))
    {
      MatchOfParts(digits, secret);
    }
  }

  /** Digits hold no underscore, so the first one ends them. */
  lemma UnderscoreAfterDigits(digits: string, secret: string)
    requires AllDigits(digits)
    ensures var rest := digits + "_" + secret;
            UpToUnderscore(rest) == |digits| && rest[..|digits|] == digits && rest[|digits| + 1..] == secret
  {
    hide UpToUnderscore;
    var rest := digits + "_" + secret;
    assert rest[|digits|] == '_';
    assert forall i :: 0 <= i < |digits| ==> rest[i] == digits[i] && IsDigit(digits[i]);
  }

  lemma MatchOfParts(digits: string, secret: string)
    requires AllDigits(digits) && IsSecret(secret)
    ensures Match(PREFIX + digits + "_" + secret)
            == if 1 <= |digits| <= ID_DIGITS then Some(ParsedKey(Value(digits), secret)) else None
  {
    hide UpToUnderscore, Value, IsSecret, AllDigits;
    var s := PREFIX + digits + "_" + secret;
    var rest := digits + "_" + secret;
    assert s == PREFIX + rest;
    assert s[|PREFIX|..] == rest;
    UnderscoreAfterDigits(digits, secret);
  }

  /** The secret a key carries is read back without the line feed that the anchor lets through. */
  lemma ParseOfFormatted(id: nat, secret: string)
    requires id >= 1 && IsSecret(BeforeEnd(secret))
    ensures ParseKey(PREFIX + Show(id) + "_" + secret)
            == if |Show(id)| <= ID_DIGITS then Some(ParsedKey(id, BeforeEnd(secret))) else None
  {
    hide Match, Strip, Show;
    var body := PREFIX + Show(id) + "_" + BeforeEnd(secret);
    var tail := secret[|BeforeEnd(secret)|..];
    assert body + tail == PREFIX + Show(id) + "_" + secret;
    assert body[0] == 'a' && body[|body| - 1] == BeforeEnd(secret)[|BeforeEnd(secret)| - 1];
    StripOf(body, tail);
    assert IsSecretChar(body[|body| - 1]);
    assert BeforeEnd(body) == body;
    MatchOfParts(Show(id), BeforeEnd(secret));
    ValueOfShow(id);
  }

  /**
   * A key that was put together is read back as its id and secret exactly when the id has at most
   * nineteen digits and the secret does not end in a line feed; `FormatKey` refuses neither.
   */
  lemma RoundTripExactly(id: int, secret: string)
    requires FormatKey(id, secret).Ok?
    ensures ParseKey(FormatKey(id, secret).value) == Some(ParsedKey(id, secret))
            <==> id < Pow10(ID_DIGITS) && secret[|secret| - 1] != '\n'
    ensures ParseKey(FormatKey(id, secret).value).Some? <==> id < Pow10(ID_DIGITS)
  {
    hide ParseKey, Show, Pow10;
    ParseOfFormatted(id, secret);
    ShowLength(id, ID_DIGITS);
  }

  /** White space around a key changes nothing in what is read from it. */
  lemma SpaceIsIgnored(id: int, secret: string, before: string, after: string)
    requires 1 <= id && IsSecret(secret) && Blank(before) && Blank(after)
    ensures ParseKey(before + (PREFIX + Show(id) + "_" + secret + after))
            == if id < Pow10(ID_DIGITS) then Some(ParsedKey(id, secret)) else None
  {
    hide Match, Strip, Show, Pow10, IsSpace;
    var body := PREFIX + Show(id) + "_" + secret;
    assert IsSecretChar(secret[|secret| - 1]);
    assert body[0] == 'a' && body[|body| - 1] == secret[|secret| - 1];
    SecretIsNoSpace(secret[|secret| - 1]);
    StripLeading(before, body + after);
    StripOf(body, after);
    assert BeforeEnd(body) == body;
    MatchOfParts(Show(id), secret);
    ValueOfShow(id);
    ShowLength(id, ID_DIGITS);
  }

  lemma SecretIsNoSpace(c: char)
    ensures IsSecretChar(c) ==> !IsSpace(c)
    ensures !IsSpace('a')
  {
  }

  /** Two keys that are put together without complaint: one is read back with another secret, one is not read at all. */
  lemma KeysThatDoNotComeBack(id: int, secret: string)
    requires 1 <= id && IsSecret(secret)
    ensures id < Pow10(ID_DIGITS) ==>
              && FormatKey(id, secret + "\n").Ok?
              && ParseKey(FormatKey(id, secret + "\n").value) == Some(ParsedKey(id, secret))
    ensures id >= Pow10(ID_DIGITS) ==> FormatKey(id, secret).Ok? && ParseKey(FormatKey(id, secret).value).None?
  {
    hide ParseKey, Show, Pow10;
    assert BeforeEnd(secret + "\n") == secret;
    assert IsSecretChar(secret[|secret| - 1]);
    assert BeforeEnd(secret) == secret;
    ParseOfFormatted(id, secret + "\n");
    ParseOfFormatted(id, secret);
    ShowLength(id, ID_DIGITS);
  }

  /** The id of a key, and its secret, are fixed by the key. */
  lemma FormatKeyInjective(id: int, secret: string, id': int, secret': string)
    requires FormatKey(id, secret).Ok? && FormatKey(id, secret) == FormatKey(id', secret')
    ensures id == id' && secret == secret'
  {
    hide Show, UpToUnderscore, AllDigits, IsSecret;
    var d, d' := Show(id), Show(id');
    var rest, rest' := d + "_" + secret, d' + "_" + secret';
    var key := PREFIX + d + "_" + secret;
    assert key == PREFIX + rest && key == PREFIX + rest';
    assert rest == key[|PREFIX|..] && rest' == key[|PREFIX|..];
    UnderscoreAfterDigits(d, secret);
    UnderscoreAfterDigits(d', secret');
    ShowInjective(id, id');
  }
}
