/** The string operations the service uses: trimming, splitting and replacing. */
module Text {

  /** unicode.IsSpace */
  predicate IsSpace(c: char) {
    || c in "\t\n\U{0B}\U{0C}\r "
    || c in "\U{85}\U{A0}\U{1680}\U{2028}\U{2029}\U{202F}\U{205F}\U{3000}"
    || '\U{2000}' <= c <= '\U{200A}'
  }

  /** The same characters by code point. */
  lemma SpaceIff(c: char)
    ensures IsSpace(c) <==>
            var p := c as int;
            || 9 <= p <= 13 || p == 32 || p == 0x85 || p == 0xA0 || p == 0x1680 || 0x2000 <= p <= 0x200A
            || p == 0x2028 || p == 0x2029 || p == 0x202F || p == 0x205F || p == 0x3000
  {
  }

  predicate IsQuote(c: char) {
    c == '\"'
  }

  function TrimLeft(s: string, cut: char -> bool): string {
    if s != "" && cut(s[0]) then TrimLeft(s[1..], cut) else s
  }

  function TrimRight(s: string, cut: char -> bool): string {
    if s != "" && cut(s[|s| - 1]) then TrimRight(s[..|s| - 1], cut) else s
  }

  function Trim(s: string, cut: char -> bool): string {
    TrimRight(TrimLeft(s, cut), cut)
  }

  /** No character to cut at either end. */
  predicate Trimmed(s: string, cut: char -> bool) {
    s == "" || (!cut(s[0]) && !cut(s[|s| - 1]))
  }

  lemma {:induction false} TrimRightTrims(s: string, cut: char -> bool)
    ensures TrimRight(s, cut) <= s
    ensures TrimRight(s, cut) == "" || !cut(TrimRight(s, cut)[|TrimRight(s, cut)| - 1])
  {
    if s != "" && cut(s[|s| - 1]) {
      TrimRightTrims(s[..|s| - 1], cut);
    }
  }

  lemma {:induction false} TrimLeftTrims(s: string, cut: char -> bool)
    ensures TrimLeft(s, cut) == "" || !cut(TrimLeft(s, cut)[0])
    ensures forall c | c in TrimLeft(s, cut) :: c in s
  {
    if s != "" && cut(s[0]) {
      TrimLeftTrims(s[1..], cut);
    }
  }

  /** A trimmed string has nothing left to trim, and keeps only characters of its source. */
  lemma TrimTrims(s: string, cut: char -> bool)
    ensures Trimmed(Trim(s, cut), cut)
    ensures forall c | c in Trim(s, cut) :: c in s
  {
    TrimLeftTrims(s, cut);
    TrimRightTrims(TrimLeft(s, cut), cut);
  }

  lemma TrimFixesTrimmed(s: string, cut: char -> bool)
    requires Trimmed(s, cut)
    ensures Trim(s, cut) == s
  {
  }

  predicate All(s: string, cut: char -> bool) {
    forall c | c in s :: cut(c)
  }

  lemma {:induction false} TrimLeftStops(a: string, s: string, cut: char -> bool)
    requires All(a, cut) && (s == "" || !cut(s[0]))
    ensures TrimLeft(a + s, cut) == s
  {
    if a == "" {
      assert a + s == s;
    } else {
      assert (a + s)[1..] == a[1..] + s;
      TrimLeftStops(a[1..], s, cut);
    }
  }

  lemma {:induction false} TrimRightStops(s: string, d: string, cut: char -> bool)
    requires All(d, cut) && (s == "" || !cut(s[|s| - 1]))
    ensures TrimRight(s + d, cut) == s
  {
    if d == "" {
      assert s + d == s;
    } else {
      assert (s + d)[..|s + d| - 1] == s + d[..|d| - 1];
      TrimRightStops(s, d[..|d| - 1], cut);
    }
  }

  lemma {:induction false} TrimLeftSplits(s: string, cut: char -> bool) returns (a: string)
    ensures s == a + TrimLeft(s, cut) && All(a, cut)
  {
    a := "";
    if s != "" && cut(s[0]) {
      var rest := TrimLeftSplits(s[1..], cut);
      a := [s[0]] + rest;
    }
  }

  lemma {:induction false} TrimRightSplits(s: string, cut: char -> bool) returns (d: string)
    ensures s == TrimRight(s, cut) + d && All(d, cut)
  {
    d := "";
    if s != "" && cut(s[|s| - 1]) {
      var rest := TrimRightSplits(s[..|s| - 1], cut);
      d := rest + [s[|s| - 1]];
    }
  }

  /** A string is what trimming leaves, between characters to cut. */
  lemma TrimSplits(s: string, cut: char -> bool) returns (a: string, d: string)
    ensures s == a + Trim(s, cut) + d && All(a, cut) && All(d, cut)
  {
    a := TrimLeftSplits(s, cut);
    d := TrimRightSplits(TrimLeft(s, cut), cut);
    assert a + (Trim(s, cut) + d) == a + Trim(s, cut) + d;
  }

  /** There is only one way to split it so. */
  lemma TrimIsUnique(a: string, m: string, d: string, cut: char -> bool)
    requires All(a, cut) && All(d, cut) && Trimmed(m, cut)
    ensures Trim(a + m + d, cut) == m
  {
    if m == "" {
      assert a + m + d == a + d + "";
      TrimLeftStops(a + d, "", cut);
    } else {
      assert a + m + d == a + (m + d);
      TrimLeftStops(a, m + d, cut);
      TrimRightStops(m, d, cut);
    }
  }

  function ReplaceAll(s: string, from: char, to: char): (r: string)
    ensures |r| == |s|
    ensures forall i | 0 <= i < |s| :: r[i] == if s[i] == from then to else s[i]
  {
    seq(|s|, i requires 0 <= i < |s| => if s[i] == from then to else s[i])
  }

  /** The slash-separated segments of a path; there is always at least one. */
  function Split(s: string): (r: seq<string>)
    ensures |r| >= 1
  {
    if s == "" then [""]
    else
      var rest := Split(s[1..]);
      if s[0] == '/' then [""] + rest else [[s[0]] + rest[0]] + rest[1..]
  }

  lemma {:induction false} SplitSegment(a: string, rest: string)
    requires '/' !in a
    ensures Split(a) == [a]
    ensures Split(a + "/" + rest) == [a] + Split(rest)
  {
    if a == "" {
      assert a + "/" + rest == "/" + rest;
      assert ("/" + rest)[1..] == rest;
    } else {
      SplitSegment(a[1..], rest);
      assert (a + "/" + rest)[1..] == a[1..] + "/" + rest;
      assert [a[0]] + a[1..] == a;
    }
  }

  lemma {:induction false} SplitAlone(s: string)
    requires |Split(s)| == 1
    ensures Split(s) == [s]
  {
    if s != "" {
      SplitAlone(s[1..]);
      assert s == [s[0]] + s[1..];
    }
  }

  /** Two segments are what stands before and after the only slash. */
  lemma {:induction false} SplitInTwo(s: string)
    requires |Split(s)| == 2
    ensures s == Split(s)[0] + "/" + Split(s)[1]
  {
    if s[0] == '/' {
      SplitAlone(s[1..]);
    } else {
      SplitInTwo(s[1..]);
      assert s == [s[0]] + s[1..];
    }
  }
}
