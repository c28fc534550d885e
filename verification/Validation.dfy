/** Request validation (internal/validation/validation.go). Each pattern is anchored at both
    ends, so it is a statement about every character. */
module Validation {
  import opened Domain
  import Text

  predicate IsAlnum(c: char) {
    'a' <= c <= 'z' || 'A' <= c <= 'Z' || '0' <= c <= '9'
  }

  predicate ContainsDots(s: string) {
    exists i | 0 <= i < |s| - 1 :: s[i] == '.' && s[i + 1] == '.'
  }

  predicate ValidOwner(owner: string) {
    && 1 <= |owner| <= 128
    && (forall c | c in owner :: IsAlnum(c) || c == '_' || c == '-')
    && !ContainsDots(owner)
  }

  /** One half of a media type: a letter or digit, then at most 126 token characters. */
  predicate IsMediaToken(s: string) {
    && 1 <= |s| <= 127
    && IsAlnum(s[0])
    && (forall i | 1 <= i < |s| :: IsAlnum(s[i]) || s[i] in "!#$&^_.+-")
  }

  predicate ValidContentType(s: string) {
    exists i | 0 <= i < |s| :: s[i] == '/' && IsMediaToken(s[..i]) && IsMediaToken(s[i + 1..])
  }

  /** Empty, or 64 hexadecimal digits in either case. */
  predicate ValidChecksum(s: string) {
    s == "" ||
    (|s| == 64 && forall c | c in s :: '0' <= c <= '9' || 'a' <= c <= 'f' || 'A' <= c <= 'F')
  }

  predicate ValidSize(size: int64, maxSize: int64) {
    size > 0 && (maxSize > 0 ==> size <= maxSize)
  }

  predicate ValidCreate(owner: string, name: string, contentType: string, size: int64, maxSize: int64) {
    && name != "" && contentType != ""
    && ValidOwner(owner)
    && ValidContentType(contentType)
    && ValidSize(size, maxSize)
  }

  // ---------- the alphabets, written out ----------

  const LOWER := "abcdefghijklmnopqrstuvwxyz"
  const UPPER := "ABCDEFGHIJKLMNOPQRSTUVWXYZ"
  const DIGITS := "0123456789"
  const TOKEN_MARKS := "!#$&^_.+-"
  const HEX_DIGITS := "0123456789abcdefABCDEF"

  predicate LetterOrDigit(c: char) {
    c in LOWER || c in UPPER || c in DIGITS
  }

  lemma InLower(c: char)
    ensures 'a' <= c <= 'z' <==> c in LOWER
  {
    if 'a' <= c <= 'z' { assert LOWER[c as int - 'a' as int] == c; }
  }

  lemma InUpper(c: char)
    ensures 'A' <= c <= 'Z' <==> c in UPPER
  {
    if 'A' <= c <= 'Z' { assert UPPER[c as int - 'A' as int] == c; }
  }

  lemma InDigits(c: char)
    ensures '0' <= c <= '9' <==> c in DIGITS
  {
    if '0' <= c <= '9' { assert DIGITS[c as int - '0' as int] == c; }
  }

  lemma AlnumIff(c: char)
    ensures IsAlnum(c) <==> LetterOrDigit(c)
  {
    InLower(c);
    InUpper(c);
    InDigits(c);
  }

  lemma HexIff(c: char)
    ensures ('0' <= c <= '9' || 'a' <= c <= 'f' || 'A' <= c <= 'F') <==> c in HEX_DIGITS
  {
    if '0' <= c <= '9' {
      assert HEX_DIGITS[c as int - '0' as int] == c;
    } else if 'a' <= c <= 'f' {
      assert HEX_DIGITS[10 + c as int - 'a' as int] == c;
    } else if 'A' <= c <= 'F' {
      assert HEX_DIGITS[16 + c as int - 'A' as int] == c;
    }
  }

  /** The pattern of an owner decides alone: the search for ".." finds nothing in what it admits. */
  lemma ValidOwnerIff(owner: string)
    ensures ValidOwner(owner) <==>
            1 <= |owner| <= 128 &&
            forall i | 0 <= i < |owner| :: LetterOrDigit(owner[i]) || owner[i] == '_' || owner[i] == '-'
  {
    forall c: char ensures IsAlnum(c) <==> LetterOrDigit(c) {
      AlnumIff(c);
    }
    assert forall i | 0 <= i < |owner| :: owner[i] in owner;
    assert !LetterOrDigit('.');
  }

  /** A checksum is accepted in either case. */
  lemma ValidChecksumIff(s: string)
    ensures ValidChecksum(s) <==> s == "" || (|s| == 64 && forall i | 0 <= i < 64 :: s[i] in HEX_DIGITS)
  {
    forall c: char ensures ('0' <= c <= '9' || 'a' <= c <= 'f' || 'A' <= c <= 'F') <==> c in HEX_DIGITS {
      HexIff(c);
    }
    assert forall i | 0 <= i < |s| :: s[i] in s;
  }

  /** A name of a media type or subtype, over the alphabets. */
  predicate IsName(s: string) {
    && 1 <= |s| <= 127 && LetterOrDigit(s[0])
    && forall i | 0 <= i < |s| :: LetterOrDigit(s[i]) || s[i] in TOKEN_MARKS
  }

  lemma MediaTokenIff(s: string)
    ensures IsMediaToken(s) <==> IsName(s)
  {
    if s != "" { AlnumIff(s[0]); }
    forall i | 0 <= i < |s| ensures IsAlnum(s[i]) <==> LetterOrDigit(s[i]) {
      AlnumIff(s[i]);
    }
  }

  lemma NameHasNoSlash(s: string)
    requires IsMediaToken(s)
    ensures '/' !in s
  {
    assert !IsAlnum('/') && '/' !in "!#$&^_.+-";
  }

  lemma SlashSplits(s: string, i: nat)
    requires i < |s| && s[i] == '/' && '/' !in s[..i] && '/' !in s[i + 1..]
    ensures Text.Split(s) == [s[..i], s[i + 1..]]
  {
    assert s == s[..i] + "/" + s[i + 1..];
    Text.SplitSegment(s[..i], s[i + 1..]);
    Text.SplitSegment(s[i + 1..], "");
  }

  lemma JoinedHasSlash(s: string, a: string, b: string)
    requires s == a + "/" + b
    ensures |a| < |s| && s[|a|] == '/' && s[..|a|] == a && s[|a| + 1..] == b
  {
  }

  /** A content type has exactly one slash, with a name on either side. */
  lemma ValidContentTypeIff(s: string)
    ensures ValidContentType(s) <==> |Text.Split(s)| == 2 && IsName(Text.Split(s)[0]) && IsName(Text.Split(s)[1])
  {
    if ValidContentType(s) {
      var i :| 0 <= i < |s| && s[i] == '/' && IsMediaToken(s[..i]) && IsMediaToken(s[i + 1..]);
      NameHasNoSlash(s[..i]);
      NameHasNoSlash(s[i + 1..]);
      SlashSplits(s, i);
      MediaTokenIff(s[..i]);
      MediaTokenIff(s[i + 1..]);
    } else if |Text.Split(s)| == 2 {
      var a, b := Text.Split(s)[0], Text.Split(s)[1];
      Text.SplitInTwo(s);
      JoinedHasSlash(s, a, b);
      MediaTokenIff(a);
      MediaTokenIff(b);
    }
  }

  /** A creation is accepted exactly with a name, an owner and a content type of this kind, and a
      size from 1 up to the cap; a cap that is not positive is no cap. */
  lemma ValidCreateIff(owner: string, name: string, contentType: string, size: int64, maxSize: int64)
    ensures ValidCreate(owner, name, contentType, size, maxSize) <==>
            && |name| > 0 && ValidOwner(owner) && ValidContentType(contentType)
            && 1 <= size <= if maxSize > 0 then maxSize else MAX_INT64
  {
    if ValidContentType(contentType) { assert contentType != ""; }
  }

  lemma PlainContentType()
    ensures ValidContentType("a/b")
  {
    assert "a/b"[1] == '/' && "a/b"[..1] == "a" && "a/b"[2..] == "b";
  }
}
