/** Page tokens: "<nanoseconds>|<uuid>", printed with fmt.Sprintf and read with fmt.Sscanf
    and uuid.Parse. */
module PageTokens {
  import opened Domain

  predicate IsDigit(c: char) {
    '0' <= c <= '9'
  }

  // ---------- UUID text ----------

  predicate IsDash(i: int) {
    i == 8 || i == 13 || i == 18 || i == 23
  }

  predicate IsLowerHex(c: char) {
    IsDigit(c) || 'a' <= c <= 'f'
  }

  function Lower(c: char): char {
    if 'A' <= c <= 'F' then 'a' + (c - 'A') else c
  }

  /** The text uuid.NewString returns and PostgreSQL prints. */
  predicate IsCanonical(s: string) {
    |s| == 36 && forall i | 0 <= i < 36 :: if IsDash(i) then s[i] == '-' else IsLowerHex(s[i])
  }

  /** The canonical UUID with one digit throughout. */
  function Repdigit(c: char): string {
    seq(36, i => if IsDash(i) then '-' else c)
  }

  lemma RepdigitIsCanonical(c: char)
    requires IsLowerHex(c)
    ensures IsCanonical(Repdigit(c))
  {
  }

  /** uuid.Parse on the 36-character form: the value, as its canonical text. */
  function ParseUuid(s: string): Option<string> {
    if |s| == 36 then
      var lowered := seq(36, i requires 0 <= i < 36 => Lower(s[i]));
      if IsCanonical(lowered) then Some(lowered) else None
    else None
  }

  /** l is c, or the small letter of the hexadecimal digit c. */
  predicate IsLowerOf(l: char, c: char) {
    if 'A' <= c <= 'F' then l as int == c as int + 32 else l == c
  }

  lemma ParseCanonical(s: string)
    requires IsCanonical(s)
    ensures ParseUuid(s) == Some(s)
    ensures forall i | 0 <= i < 36 :: IsLowerOf(s[i], s[i])
  {
    assert seq(36, i requires 0 <= i < 36 => Lower(s[i])) == s;
  }

  // ---------- decimal numbers ----------

  function DigitChar(d: nat): char
    requires d < 10
  {
    '0' + d as char
  }

  function Digits(n: nat): (r: string)
    ensures |r| >= 1
  {
    if n < 10 then [DigitChar(n)] else Digits(n / 10) + [DigitChar(n % 10)]
  }

  function Value(s: string): nat
    requires forall c | c in s :: IsDigit(c)
  {
    if s == "" then 0
    else
      assert s[|s| - 1] in s && IsDigit(s[|s| - 1]);
      Value(s[..|s| - 1]) * 10 + (s[|s| - 1] as int - '0' as int)
  }

  /** Printing a number and reading the digits back. */
  lemma {:induction false} ValueOfDigits(n: nat)
    ensures forall c | c in Digits(n) :: IsDigit(c)
    ensures Value(Digits(n)) == n
  {
    if n >= 10 {
      ValueOfDigits(n / 10);
      var d := Digits(n);
      assert d[..|d| - 1] == Digits(n / 10);
    }
  }

  lemma {:induction false} NoLeadingZero(n: nat)
    requires n > 0
    ensures Digits(n)[0] != '0'
  {
    if n >= 10 { NoLeadingZero(n / 10); }
  }

  /** Length of the longest prefix of digits. */
  function DigitSpan(s: string): (k: nat)
    ensures k <= |s|
    ensures forall i | 0 <= i < k :: IsDigit(s[i])
    ensures k < |s| ==> !IsDigit(s[k])
  {
    if s == "" || !IsDigit(s[0]) then 0 else 1 + DigitSpan(s[1..])
  }

  function Magnitude(n: int): nat {
    if n < 0 then -n else n
  }

  function FormatInt(n: int64): string {
    (if n < 0 then "-" else "") + Digits(Magnitude(n))
  }

  // ---------- tokens ----------

  function Encode(time: int64, id: string): string {
    FormatInt(time) + "|" + id
  }

  function DecodeUnsigned(negative: bool, rest: string): Option<(int64, string)> {
    var k := DigitSpan(rest);
    if k == 0 then None
    else
      var n: int := if negative then 0 - Value(rest[..k]) else Value(rest[..k]);
      if !(MIN_INT64 <= n <= MAX_INT64) || k == |rest| || rest[k] != '|' then None
      else
        match ParseUuid(rest[k + 1..])
        case None => None
        case Some(id) => Some((n, id))
  }

  /** The scan "%d|%s": an optional sign, at least one digit, a value in int64, the bar, and
      the rest of the token, which must be a UUID. */
  function Decode(token: string): Option<(int64, string)> {
    if token != "" && (token[0] == '-' || token[0] == '+')
    then DecodeUnsigned(token[0] == '-', token[1..])
    else DecodeUnsigned(false, token)
  }

  /** Nanoseconds from the Unix epoch to Go's zero time, 1 January of year 1. */
  const ZERO_TIME: int := -62135596800 * 1_000_000_000

  lemma SpanStopsAtBar(digits: string, id: string)
    requires forall c | c in digits :: IsDigit(c)
    ensures DigitSpan(digits + "|" + id) == |digits|
  {
    var s := digits + "|" + id;
    var k := DigitSpan(s);
    assert s[|digits|] == '|';
    forall i | 0 <= i < |digits| ensures IsDigit(s[i]) {
      assert s[i] == digits[i] && digits[i] in digits;
    }
  }

  /** A token is the decimal numeral of the nanoseconds, a bar and the id. */
  lemma TokenText(time: int64, id: string) returns (digits: string)
    ensures Encode(time, id) == FormatInt(time) + "|" + id
    ensures FormatInt(time) == if time < 0 then "-" + digits else digits
    ensures digits != "" && (forall c | c in digits :: IsDigit(c))
    ensures Value(digits) == Magnitude(time) && (digits[0] == '0' <==> time == 0)
  {
    digits := Digits(Magnitude(time));
    ValueOfDigits(Magnitude(time));
    if time != 0 { NoLeadingZero(Magnitude(time)); }
  }

  /** An optional sign, a decimal numeral, a bar, and the id in either case. */
  predicate Spells(token: string, sign: string, digits: string, u: string, time: int64, id: string) {
    && token == sign + (digits + "|" + u) && (sign == "" || sign == "-" || sign == "+")
    && digits != "" && (forall c | c in digits :: IsDigit(c))
    && time == (if sign == "-" then 0 - Value(digits) else Value(digits))
    && IsCanonical(id) && |u| == 36 && forall i | 0 <= i < 36 :: IsLowerOf(id[i], u[i])
  }

  lemma LoweredParses(u: string, id: string)
    requires IsCanonical(id) && |u| == 36 && forall i | 0 <= i < 36 :: IsLowerOf(id[i], u[i])
    ensures ParseUuid(u) == Some(id)
  {
    forall i | 0 <= i < 36 ensures Lower(u[i]) == id[i] {
      assert IsLowerOf(id[i], u[i]);
    }
    assert seq(36, i requires 0 <= i < 36 => Lower(u[i])) == id;
  }

  lemma NumeralDecodes(negative: bool, digits: string, u: string, time: int64, id: string)
    requires digits != "" && (forall c | c in digits :: IsDigit(c)) && ParseUuid(u) == Some(id)
    requires time == if negative then 0 - Value(digits) else Value(digits)
    ensures DecodeUnsigned(negative, digits + "|" + u) == Some((time, id))
  {
    var rest := digits + "|" + u;
    SpanStopsAtBar(digits, u);
    assert rest[..|digits|] == digits && rest[|digits| + 1..] == u;
  }

  lemma SpelledDecodes(token: string, sign: string, digits: string, u: string, time: int64, id: string)
    requires Spells(token, sign, digits, u, time, id)
    ensures Decode(token) == Some((time, id))
  {
    var rest := digits + "|" + u;
    LoweredParses(u, id);
    NumeralDecodes(sign == "-", digits, u, time, id);
    if sign == "" {
      assert token == rest && token[0] == digits[0] && digits[0] in digits;
    } else {
      assert token[0] == sign[0] && token[1..] == rest;
    }
  }

  lemma DecodedNumeral(negative: bool, rest: string) returns (digits: string, u: string)
    requires DecodeUnsigned(negative, rest).Some?
    ensures var (time, id) := DecodeUnsigned(negative, rest).value;
            && rest == digits + "|" + u && digits != "" && (forall c | c in digits :: IsDigit(c))
            && time == (if negative then 0 - Value(digits) else Value(digits))
            && IsCanonical(id) && |u| == 36 && forall i | 0 <= i < 36 :: IsLowerOf(id[i], u[i])
  {
    var k := DigitSpan(rest);
    digits, u := rest[..k], rest[k + 1..];
    assert rest == rest[..k] + [rest[k]] + rest[k + 1..];
  }

  /** A token is accepted exactly when it spells an instant that fits int64 nanoseconds and an id. */
  lemma DecodeIff(token: string, time: int64, id: string)
    ensures Decode(token) == Some((time, id)) <==> exists sign, digits, u :: Spells(token, sign, digits, u, time, id)
  {
    if Decode(token) == Some((time, id)) {
      var signed := token[0] == '-' || token[0] == '+';
      var sign, rest := if signed then token[..1] else "", if signed then token[1..] else token;
      var digits, u := DecodedNumeral(sign == "-", rest);
      assert token == sign + rest;
      assert Spells(token, sign, digits, u, time, id);
    }
    if exists sign, digits, u :: Spells(token, sign, digits, u, time, id) {
      var sign, digits, u :| Spells(token, sign, digits, u, time, id);
      SpelledDecodes(token, sign, digits, u, time, id);
    }
  }

  /** Every instant that fits int64 nanoseconds, negative ones included, and every canonical
      id survive the round trip through the printed token. */
  lemma TokenRoundTrip(time: int64, id: string)
    requires IsCanonical(id)
    ensures Decode(Encode(time, id)) == Some((time, id))
    ensures Encode(time, id) != ""
  {
    var sign := if time < 0 then "-" else "";
    var digits := TokenText(time, id);
    ParseCanonical(id);
    assert sign + digits + "|" + id == sign + (digits + "|" + id);
    SpelledDecodes(Encode(time, id), sign, digits, id, time, id);
  }

  lemma TokensAreInjective(t1: int64, id1: string, t2: int64, id2: string)
    requires IsCanonical(id1) && IsCanonical(id2)
    requires Encode(t1, id1) == Encode(t2, id2)
    ensures t1 == t2 && id1 == id2
  {
    TokenRoundTrip(t1, id1);
    TokenRoundTrip(t2, id2);
  }

  /** A decoded cursor is never Go's zero time, so a token that decodes always filters. */
  lemma DecodedTimeIsNotZero(token: string)
    requires Decode(token).Some?
    ensures Decode(token).value.0 != ZERO_TIME
    ensures IsCanonical(Decode(token).value.1)
  {
  }
}
