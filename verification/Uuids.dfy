/** How the UUID column reads an id. PostgreSQL compares by value and accepts many spellings of
    one value: either case, braces around it, and hyphens after any group of four digits. */
module Uuids {
  import opened Domain
  import opened PageTokens

  predicate IsHex(c: char) {
    IsLowerHex(Lower(c))
  }

  function SkipHyphen(s: string, allowed: bool): string {
    if allowed && s != "" && s[0] == '-' then s[1..] else s
  }

  /** The digits of so many groups of four, with an optional hyphen between groups. */
  function ScanGroups(s: string, groups: nat): Option<string> {
    if groups == 0 then (if s == "" then Some("") else None)
    else if |s| < 4 || !(IsHex(s[0]) && IsHex(s[1]) && IsHex(s[2]) && IsHex(s[3])) then None
    else
      match ScanGroups(SkipHyphen(s[4..], groups > 1), groups - 1)
      case None => None
      case Some(digits) => Some([Lower(s[0]), Lower(s[1]), Lower(s[2]), Lower(s[3])] + digits)
  }

  /** Where the digit at position i of a canonical text stands among the 32. */
  function DigitAt(i: nat): nat {
    if i < 8 then i else if i < 13 then i - 1 else if i < 18 then i - 2 else if i < 23 then i - 3 else i - 4
  }

  /** The canonical text of 32 digits. */
  function Hyphenate(d: string): string
    requires |d| == 32
  {
    seq(36, i requires 0 <= i < 36 => if IsDash(i) then '-' else d[DigitAt(i)])
  }

  function Unbraced(text: string): string {
    if |text| >= 2 && text[0] == '{' && text[|text| - 1] == '}' then text[1..|text| - 1] else text
  }

  /** The value a text stands for, as canonical text; None is the column's syntax error. */
  function Parse(text: string): Option<string> {
    match ScanGroups(Unbraced(text), 8)
    case None => None
    case Some(digits) => if |digits| == 32 then Some(Hyphenate(digits)) else None
  }

  /** The id a request names: the canonical text where there is one. */
  function Canon(text: string): string {
    match Parse(text)
    case None => text
    case Some(id) => id
  }

  lemma {:induction false} ScannedDigits(s: string, groups: nat)
    requires ScanGroups(s, groups).Some?
    ensures |ScanGroups(s, groups).value| == 4 * groups
    ensures forall c | c in ScanGroups(s, groups).value :: IsLowerHex(c)
    decreases groups
  {
    if groups > 0 {
      ScannedDigits(SkipHyphen(s[4..], groups > 1), groups - 1);
    }
  }

  lemma HyphenatedIsCanonical(d: string)
    requires |d| == 32 && forall c | c in d :: IsLowerHex(c)
    ensures IsCanonical(Hyphenate(d))
  {
    var h := Hyphenate(d);
    forall i | 0 <= i < 36 ensures if IsDash(i) then h[i] == '-' else IsLowerHex(h[i]) {
      if !IsDash(i) { assert h[i] == d[DigitAt(i)] && d[DigitAt(i)] in d; }
    }
  }

  /** What the column accepts it prints as canonical text. */
  lemma ParsedIsCanonical(text: string)
    requires Parse(text).Some?
    ensures IsCanonical(Parse(text).value)
  {
    ScannedDigits(Unbraced(text), 8);
    HyphenatedIsCanonical(ScanGroups(Unbraced(text), 8).value);
  }

  /** One group of lower-case digits, with or without a hyphen after it. */
  lemma ScanGroup(group: string, hyphen: bool, rest: string, groups: nat)
    requires |group| == 4 && (forall i | 0 <= i < 4 :: IsLowerHex(group[i])) && groups > 0
    requires if hyphen then groups > 1 else rest == "" || rest[0] != '-'
    ensures var s := group + (if hyphen then "-" + rest else rest);
            ScanGroups(s, groups) ==
            match ScanGroups(rest, groups - 1) case None => None case Some(d) => Some(group + d)
  {
    var tail := if hyphen then "-" + rest else rest;
    var s := group + tail;
    assert s[..4] == group && s[4..] == tail;
    assert SkipHyphen(tail, groups > 1) == rest;
    assert [group[0], group[1], group[2], group[3]] == group;
  }

  predicate GroupStart(from: nat) {
    from == 0 || from == 4 || from == 9 || from == 14 || from == 19 || from == 24 || from == 28 || from == 32
  }

  /** Four digits, and after some groups a hyphen. */
  lemma CanonicalGroup(id: string, from: nat)
    requires IsCanonical(id) && GroupStart(from)
    ensures var group, hyphen := id[from..from + 4], IsDash(from + 4);
            && (forall i | 0 <= i < 4 :: IsLowerHex(group[i]))
            && (hyphen ==> id[from + 4] == '-' && id[from..] == group + ("-" + id[from + 5..]))
            && (!hyphen ==> id[from..] == group + id[from + 4..] && (from == 32 || id[from + 4] != '-'))
  {
    var group := id[from..from + 4];
    forall i | 0 <= i < 4 ensures IsLowerHex(group[i]) {
      assert !IsDash(from + i);
      assert group[i] == id[from + i];
    }
    if IsDash(from + 4) {
      assert id[from + 4] == '-';
    } else if from < 32 {
      assert IsLowerHex(id[from + 4]);
    }
  }

  function GroupsFrom(from: nat): nat {
    if from == 0 then 8 else if from == 4 then 7 else if from == 9 then 6 else if from == 14 then 5
    else if from == 19 then 4 else if from == 24 then 3 else if from == 28 then 2 else 1
  }

  function DigitsFrom(id: string, from: nat): string
    requires |id| == 36 && GroupStart(from)
    decreases 36 - from
  {
    if from == 32 then id[32..]
    else id[from..from + 4] + DigitsFrom(id, if IsDash(from + 4) then from + 5 else from + 4)
  }

  lemma {:induction false} CanonicalTail(id: string, from: nat)
    requires IsCanonical(id) && GroupStart(from)
    ensures ScanGroups(id[from..], GroupsFrom(from)) == Some(DigitsFrom(id, from))
    decreases 36 - from
  {
    var hyphen := IsDash(from + 4);
    var next := if hyphen then from + 5 else from + 4;
    var group, rest := id[from..from + 4], id[next..];
    CanonicalGroup(id, from);
    ScanGroup(group, hyphen, rest, GroupsFrom(from));
    if from < 32 {
      CanonicalTail(id, next);
    } else {
      assert rest == "";
    }
  }

  lemma CanonicalDigits(id: string)
    requires IsCanonical(id)
    ensures |DigitsFrom(id, 0)| == 32 && Hyphenate(DigitsFrom(id, 0)) == id
  {
    assert DigitsFrom(id, 24) == id[24..28] + (id[28..32] + id[32..]) == id[24..];
    assert DigitsFrom(id, 14) == id[14..18] + (id[19..23] + id[24..]);
    var d := DigitsFrom(id, 0);
    assert d == id[0..4] + (id[4..8] + (id[9..13] + DigitsFrom(id, 14)));
    assert d[..8] == id[..8] && d[8..12] == id[9..13] && d[12..16] == id[14..18] && d[16..20] == id[19..23];
    assert d[20..] == id[24..];
    assert id[8] == '-' && id[13] == '-' && id[18] == '-' && id[23] == '-';
  }

  lemma CanonicalIsBare(id: string)
    requires IsCanonical(id)
    ensures Unbraced(id) == id
  {
    assert !IsDash(0);
    assert IsLowerHex(id[0]);
  }

  /** The canonical text stands for itself. */
  lemma CanonicalParses(id: string)
    requires IsCanonical(id)
    ensures Parse(id) == Some(id) && Canon(id) == id
  {
    assert id[0..] == id;
    CanonicalIsBare(id);
    CanonicalTail(id, 0);
    CanonicalDigits(id);
  }

  /** Braces are one of the other spellings. */
  lemma BracedParses(id: string)
    requires IsCanonical(id)
    ensures Canon("{" + id + "}") == id && "{" + id + "}" != id
  {
    var text := "{" + id + "}";
    assert Unbraced(text) == id by { assert text[1..|text| - 1] == id; }
    CanonicalIsBare(id);
    CanonicalParses(id);
  }

  lemma EmptyIsNoUuid()
    ensures Canon("") == "" && !IsCanonical("")
  {
    assert ScanGroups("", 8) == None;
  }

  /** A text names a row exactly when the column accepts it; then its canonical text does. */
  lemma CanonIsCanonicalIff(text: string)
    ensures IsCanonical(Canon(text)) <==> Parse(text).Some?
    ensures Canon(Canon(text)) == Canon(text)
    ensures IsCanonical(text) ==> Canon(text) == text
  {
    if Parse(text).Some? {
      ParsedIsCanonical(text);
      CanonicalParses(Canon(text));
    }
    if IsCanonical(text) { CanonicalParses(text); }
  }

  // ---------- what a spelling may vary ----------

  /** The hexadecimal digits of a text, in lower case. */
  function HexOf(s: string): string {
    if s == "" then "" else (if IsHex(s[0]) then [Lower(s[0])] else "") + HexOf(s[1..])
  }

  lemma {:induction false} HexOfConcat(a: string, b: string)
    ensures HexOf(a + b) == HexOf(a) + HexOf(b)
  {
    if a == "" {
      assert a + b == b;
    } else {
      HexOfConcat(a[1..], b);
      assert (a + b)[0] == a[0] && (a + b)[1..] == a[1..] + b;
      var h := if IsHex(a[0]) then [Lower(a[0])] else "";
      assert HexOf(a) == h + HexOf(a[1..]) && HexOf(a + b) == h + (HexOf(a[1..]) + HexOf(b));
    }
  }

  lemma HexHead(s: string, c: char, rest: string)
    requires s == [c] + rest && IsHex(c)
    ensures HexOf(s) == [Lower(c)] + HexOf(rest)
  {
    assert s[1..] == rest;
  }

  lemma FourAndRest(a: char, b: char, c: char, d: char, rest: string)
    ensures [a, b, c, d] + rest == [a] + ([b] + ([c] + ([d] + rest)))
  {
  }

  lemma HexOfGroup(s: string, a: char, b: char, c: char, d: char, rest: string)
    requires s == [a] + ([b] + ([c] + ([d] + rest))) && IsHex(a) && IsHex(b) && IsHex(c) && IsHex(d)
    ensures HexOf(s) == [Lower(a)] + ([Lower(b)] + ([Lower(c)] + ([Lower(d)] + HexOf(rest))))
  {
    var t, u, v := [b] + ([c] + ([d] + rest)), [c] + ([d] + rest), [d] + rest;
    HexHead(s, a, t);
    HexHead(t, b, u);
    HexHead(u, c, v);
    HexHead(v, d, rest);
  }

  lemma HyphenIsNoDigit(s: string, allowed: bool)
    ensures HexOf(SkipHyphen(s, allowed)) == HexOf(s)
  {
  }

  lemma {:induction false} ScannedHex(s: string, groups: nat)
    requires ScanGroups(s, groups).Some?
    ensures ScanGroups(s, groups).value == HexOf(s)
    decreases groups
  {
    if groups > 0 {
      assert s == [s[0], s[1], s[2], s[3]] + s[4..];
      FourAndRest(s[0], s[1], s[2], s[3], s[4..]);
      HexOfGroup(s, s[0], s[1], s[2], s[3], s[4..]);
      FourAndRest(Lower(s[0]), Lower(s[1]), Lower(s[2]), Lower(s[3]), HexOf(s[4..]));
      HyphenIsNoDigit(s[4..], groups > 1);
      ScannedHex(SkipHyphen(s[4..], groups > 1), groups - 1);
    }
  }

  lemma UnbracedHex(text: string)
    ensures HexOf(Unbraced(text)) == HexOf(text)
  {
    if Unbraced(text) != text {
      var inner := Unbraced(text);
      assert text == ("{" + inner) + "}";
      HexOfConcat("{" + inner, "}");
      HexOfConcat("{", inner);
    }
  }

  lemma HyphenateKeepsDigits(d: string, e: string)
    requires |d| == 32 && |e| == 32 && Hyphenate(d) == Hyphenate(e)
    ensures d == e
  {
    forall k | 0 <= k < 32 ensures d[k] == e[k] {
      var i := if k < 8 then k else if k < 12 then k + 1 else if k < 16 then k + 2 else if k < 20 then k + 3 else k + 4;
      assert DigitAt(i) == k && !IsDash(i);
      assert Hyphenate(d)[i] == d[k] && Hyphenate(e)[i] == e[k];
    }
  }

  /** Whatever spelling names an id, its 32 digits are those of the canonical text. */
  lemma ParsedSameDigits(text: string)
    requires Parse(text).Some?
    ensures HexOf(Canon(text)) == HexOf(text) && |HexOf(text)| == 32
  {
    var id := Canon(text);
    ParsedIsCanonical(text);
    CanonicalParses(id);
    ScannedHex(Unbraced(text), 8);
    UnbracedHex(text);
    ScannedHex(Unbraced(id), 8);
    UnbracedHex(id);
    HyphenateKeepsDigits(HexOf(text), HexOf(id));
  }

  /** The same text but for the case of its digits. */
  predicate SameButCase(a: string, b: string) {
    |a| == |b| && forall i | 0 <= i < |a| :: a[i] == b[i] || IsLowerOf(a[i], b[i]) || IsLowerOf(b[i], a[i])
  }

  lemma LowerKeepsMarks(a: char, b: char)
    requires a == b || IsLowerOf(a, b) || IsLowerOf(b, a)
    ensures Lower(a) == Lower(b)
    ensures (a == '-' <==> b == '-') && (a == '{' <==> b == '{') && (a == '}' <==> b == '}') && (IsHex(a) <==> IsHex(b))
  {
  }

  lemma {:induction false} ScanIgnoresCase(a: string, b: string, groups: nat)
    requires SameButCase(a, b)
    ensures ScanGroups(a, groups) == ScanGroups(b, groups)
    decreases groups
  {
    forall i | 0 <= i < |a|
      ensures Lower(a[i]) == Lower(b[i]) && (a[i] == '-' <==> b[i] == '-') && (IsHex(a[i]) <==> IsHex(b[i]))
    {
      LowerKeepsMarks(a[i], b[i]);
    }
    if groups > 0 && |a| >= 4 {
      ScanIgnoresCase(SkipHyphen(a[4..], groups > 1), SkipHyphen(b[4..], groups > 1), groups - 1);
    }
  }

  /** The case of the digits makes no difference. */
  lemma CaseIsFolded(a: string, b: string)
    requires SameButCase(a, b)
    ensures Parse(a) == Parse(b)
  {
    forall i | 0 <= i < |a| ensures (a[i] == '{' <==> b[i] == '{') && (a[i] == '}' <==> b[i] == '}') {
      LowerKeepsMarks(a[i], b[i]);
    }
    ScanIgnoresCase(Unbraced(a), Unbraced(b), 8);
  }

  lemma {:induction false} PlainDigitsScan(d: string, groups: nat)
    requires |d| == 4 * groups && forall c | c in d :: IsLowerHex(c)
    ensures ScanGroups(d, groups) == Some(d)
    decreases groups
  {
    if groups > 0 {
      var group, rest := d[..4], d[4..];
      assert group + rest == d;
      assert forall i | 0 <= i < 4 :: group[i] in d;
      if rest != "" { assert rest[0] in d; }
      ScanGroup(group, false, rest, groups);
      PlainDigitsScan(rest, groups - 1);
    }
  }

  /** The digits without hyphens are a spelling of the id, in either case. */
  lemma UndashedParses(id: string, text: string)
    requires IsCanonical(id) && SameButCase(text, HexOf(id))
    ensures Canon(text) == id
  {
    var d := HexOf(id);
    CanonicalParses(id);
    ScannedHex(Unbraced(id), 8);
    UnbracedHex(id);
    ScannedDigits(Unbraced(id), 8);
    PlainDigitsScan(d, 8);
    assert Unbraced(d) == d by { assert d[0] in d; }
    CaseIsFolded(text, d);
  }

  // ---------- which texts are accepted ----------

  predicate IsGroup(g: string) {
    |g| == 4 && IsHex(g[0]) && IsHex(g[1]) && IsHex(g[2]) && IsHex(g[3])
  }

  /** Groups one after the other, each with or without a hyphen behind it. */
  function Spelled(groups: seq<string>, hyphens: seq<bool>): string
    requires |groups| == |hyphens|
  {
    if groups == [] then ""
    else groups[0] + ((if hyphens[0] then "-" else "") + Spelled(groups[1..], hyphens[1..]))
  }

  /** The text is n groups of four digits, with at most one hyphen between two of them. */
  predicate IsSpelling(s: string, groups: seq<string>, hyphens: seq<bool>, n: nat) {
    && |groups| == n && |hyphens| == n && (forall g | g in groups :: IsGroup(g))
    && (n > 0 ==> !hyphens[n - 1]) && s == Spelled(groups, hyphens)
  }

  lemma {:induction false} ScannedIsSpelling(s: string, n: nat) returns (groups: seq<string>, hyphens: seq<bool>)
    requires ScanGroups(s, n).Some?
    ensures IsSpelling(s, groups, hyphens, n)
    decreases n
  {
    if n == 0 {
      groups, hyphens := [], [];
    } else {
      var rest := SkipHyphen(s[4..], n > 1);
      var gs, hs := ScannedIsSpelling(rest, n - 1);
      var hyphen := rest != s[4..];
      groups, hyphens := [s[..4]] + gs, [hyphen] + hs;
      assert groups[1..] == gs && hyphens[1..] == hs;
      assert s == s[..4] + ((if hyphen then "-" else "") + rest);
    }
  }

  lemma SpellingTail(groups: seq<string>, hyphens: seq<bool>, n: nat)
    requires |groups| == |hyphens| == n > 0 && IsSpelling(Spelled(groups, hyphens), groups, hyphens, n)
    ensures IsSpelling(Spelled(groups[1..], hyphens[1..]), groups[1..], hyphens[1..], n - 1)
    ensures var rest := Spelled(groups[1..], hyphens[1..]); rest == "" || rest[0] != '-'
    ensures n == 1 ==> Spelled(groups[1..], hyphens[1..]) == ""
  {
    assert forall g | g in groups[1..] :: g in groups;
    if n > 1 { assert groups[1..][0] in groups; }
  }

  lemma {:induction false} SpellingScans(s: string, groups: seq<string>, hyphens: seq<bool>, n: nat)
    requires IsSpelling(s, groups, hyphens, n)
    ensures ScanGroups(s, n).Some?
    decreases n
  {
    if n > 0 {
      var rest := Spelled(groups[1..], hyphens[1..]);
      var tail := (if hyphens[0] then "-" else "") + rest;
      SpellingTail(groups, hyphens, n);
      SpellingScans(rest, groups[1..], hyphens[1..], n - 1);
      assert groups[0] in groups;
      assert s == groups[0] + tail && s[4..] == tail;
      assert SkipHyphen(tail, n > 1) == rest;
    }
  }

  /** The column accepts exactly eight groups of four digits, with or without a hyphen between two
      of them and with or without braces around the whole. */
  lemma AcceptedIff(text: string)
    ensures Parse(text).Some? <==> exists groups, hyphens :: IsSpelling(Unbraced(text), groups, hyphens, 8)
  {
    if Parse(text).Some? {
      var groups, hyphens := ScannedIsSpelling(Unbraced(text), 8);
    }
    if exists groups, hyphens :: IsSpelling(Unbraced(text), groups, hyphens, 8) {
      var groups, hyphens :| IsSpelling(Unbraced(text), groups, hyphens, 8);
      SpellingScans(Unbraced(text), groups, hyphens, 8);
      ScannedDigits(Unbraced(text), 8);
    }
  }
}
