/** Part arithmetic of multipart uploads: when the machine count is the true count, and how
    the parts tile the file. */
module PartSizes {
  import opened Domain
  import Validation

  /** Smallest part size the configuration accepts. */
  const MIN_PART_SIZE: int64 := 5 * 1024 * 1024
  const DEFAULT_MAX_FILE_SIZE: int64 := 5 * 1024 * 1024 * 1024

  /** The mathematical number of parts. */
  function Ceiling(size: int, partSize: int): int
    requires partSize > 0
  {
    (size + partSize - 1) / partSize
  }

  predicate ValidPartNumber(n: int32, total: int32) {
    1 <= n <= total
  }

  /** partSizeForNumber, for a file of `total` parts. */
  function PartLength(size: int, partSize: int, total: int, n: int): int
    requires partSize > 0
  {
    if n < total then partSize
    else
      var remainder := size % partSize;
      if remainder == 0 then partSize else remainder
  }

  /** The size handed out for part n; a caller gets here only after ValidPartNumber. */
  function SizeOfPart(size: int64, partSize: int64, n: int32): int64
    requires ValidPartNumber(n, MachineParts(size, partSize))
  {
    PartLength(size, partSize, MachineParts(size, partSize), n)
  }

  /** A multipart creation passes validation.FileSize and the part-size comparison. */
  predicate AcceptsMultipart(size: int64, partSize: int64, maxSize: int64) {
    Validation.ValidSize(size, maxSize) && size > partSize
  }

  // ---------- machine arithmetic ----------

  /** The sum stays in int64 and the count fits int32. */
  predicate FitsMachine(size: int64, partSize: int64)
    requires partSize > 0
  {
    size + partSize - 1 <= MAX_INT64 && Ceiling(size, partSize) <= MAX_INT32
  }

  lemma DivBounds(a: int, b: int)
    requires b > 0
    ensures b * (a / b) <= a < b * (a / b) + b
  {
  }

  lemma MulMonotone(b: int, x: int, y: int)
    requires b >= 0 && x <= y
    ensures b * x <= b * y
  {
  }

  lemma DivUnique(a: int, b: int, q: int)
    requires b > 0
    requires b * q <= a < b * q + b
    ensures a / b == q
  {
    DivBounds(a, b);
    if a / b < q {
      MulMonotone(b, a / b + 1, q);
    } else if a / b > q {
      MulMonotone(b, q + 1, a / b);
    }
  }

  lemma WrapTwice(size: int64, partSize: int64)
    requires size > 0 && partSize > 0
    ensures WrapInt64(WrapInt64(size + partSize) - 1) ==
            if size + partSize - 1 <= MAX_INT64 then size + partSize - 1
            else size + partSize - 1 - 0x1_0000_0000_0000_0000
  {
  }

  /** Two quotients of numbers that add up to 2^64, the first at least 2^63 over the divisor. */
  lemma QuotientsStayApart(sum: int, b: int, c: int, d: int)
    requires b > 0 && 0x8000_0000_0000_0000 <= sum
    requires sum < b * c + b && c <= MAX_INT32
    requires b * c <= sum && b * d <= 0x1_0000_0000_0000_0000 - sum
    ensures c + d <= 0xFFFF_FFFF
  {
    MulMonotone(b, c + 1, 0x8000_0000);
    assert b * (c + 1) == b * c + b;
    assert b > 0x1_0000_0000;
    assert b * (c + d) == b * c + b * d;
    if c + d > 0xFFFF_FFFF {
      MulMonotone(b, 0x1_0000_0000, c + d);
      assert false;
    }
  }

  /** int32 of a negative quotient is never a positive one that is close to it. */
  lemma NegativeWrapDiffers(c: int, d: int)
    requires 1 <= c && 0 <= d && (c <= MAX_INT32 ==> c + d <= 0xFFFF_FFFF)
    ensures WrapInt32(-d) != c
  {
  }

  lemma OverflowedParts(size: int64, partSize: int64, sum: int)
    requires size > 0 && partSize > 0
    requires sum == size + partSize - 1 > MAX_INT64
    ensures MachineParts(size, partSize) == WrapInt32(-((0x1_0000_0000_0000_0000 - sum) / partSize))
  {
    WrapTwice(size, partSize);
  }

  lemma NonNegativeQuotient(a: int, b: int)
    requires 0 < b && 0 <= a
    ensures a / b >= 0
  {
  }

  lemma PositiveQuotient(a: int, b: int)
    requires 0 < b <= a
    ensures a / b >= 1
  {
    DivBounds(a, b);
    if a / b <= 0 {
      MulMonotone(b, a / b, 0);
      assert false;
    }
  }

  lemma QuotientsDiffer(sum: int, b: int)
    requires 0 < b <= sum && MAX_INT64 < sum < 0x1_0000_0000_0000_0000
    ensures WrapInt32(-((0x1_0000_0000_0000_0000 - sum) / b)) != sum / b
  {
    var rest := 0x1_0000_0000_0000_0000 - sum;
    DivBounds(sum, b);
    DivBounds(rest, b);
    if sum / b <= MAX_INT32 {
      QuotientsStayApart(sum, b, sum / b, rest / b);
    }
    PositiveQuotient(sum, b);
    NonNegativeQuotient(rest, b);
    NegativeWrapDiffers(sum / b, rest / b);
  }

  /** A wrapped sum never yields the true count by accident. */
  lemma OverflowMissesCeiling(size: int64, partSize: int64)
    requires size > 0 && partSize > 0
    requires size + partSize - 1 > MAX_INT64
    ensures MachineParts(size, partSize) != Ceiling(size, partSize)
  {
    var sum := size + partSize - 1;
    OverflowedParts(size, partSize, sum);
    QuotientsDiffer(sum, partSize);
  }

  lemma UnwrappedParts(size: int64, partSize: int64, c: int)
    requires size > 0 && partSize > 0
    requires size + partSize - 1 <= MAX_INT64 && c == Ceiling(size, partSize)
    ensures MachineParts(size, partSize) == WrapInt32(c)
  {
    WrapTwice(size, partSize);
  }

  lemma WrapExactIff(c: int)
    requires 0 <= c
    ensures WrapInt32(c) == c <==> c <= MAX_INT32
  {
  }

  /** TotalParts is the mathematical ceiling exactly when neither conversion overflows. */
  lemma TotalPartsExactIff(size: int64, partSize: int64)
    requires size > 0 && partSize > 0
    ensures MachineParts(size, partSize) == Ceiling(size, partSize) <==> FitsMachine(size, partSize)
  {
    if size + partSize - 1 > MAX_INT64 {
      OverflowMissesCeiling(size, partSize);
    } else {
      var c := Ceiling(size, partSize);
      UnwrappedParts(size, partSize, c);
      PositiveQuotient(size + partSize - 1, partSize);
      WrapExactIff(c);
    }
  }

  /** With the configured lower bound and a positive cap, every accepted multipart creation
      counts its parts exactly and has at least two of them. */
  lemma AcceptedCreateIsExact(size: int64, partSize: int64, maxSize: int64)
    requires AcceptsMultipart(size, partSize, maxSize)
    requires MIN_PART_SIZE <= partSize
    requires 0 < maxSize <= MIN_PART_SIZE * MAX_INT32
    ensures FitsMachine(size, partSize)
    ensures MachineParts(size, partSize) == Ceiling(size, partSize) >= 2
    ensures maxSize <= DEFAULT_MAX_FILE_SIZE ==> MachineParts(size, partSize) <= 1024
  {
    var c := Ceiling(size, partSize);
    DivBounds(size + partSize - 1, partSize);
    if c > MAX_INT32 {
      MulMonotone(partSize, MAX_INT32 + 1, c);
      MulMonotone(MAX_INT32, MIN_PART_SIZE, partSize);
      assert false;
    }
    if c < 2 {
      MulMonotone(partSize, c + 1, 2);
      assert false;
    }
    if maxSize <= DEFAULT_MAX_FILE_SIZE && c > 1024 {
      MulMonotone(partSize, 1025, c);
      assert false;
    }
    TotalPartsExactIff(size, partSize);
  }

  /** A cap that is not positive is no cap: this creation is accepted and miscounted. */
  lemma UncappedCreateMiscounts()
    ensures AcceptsMultipart(MAX_INT64, MIN_PART_SIZE, 0)
    ensures MachineParts(MAX_INT64, MIN_PART_SIZE) != Ceiling(MAX_INT64, MIN_PART_SIZE)
  {
    OverflowMissesCeiling(MAX_INT64, MIN_PART_SIZE);
  }

  // ---------- tiling ----------

  /** `total` parts of partSize bytes, and no fewer, hold the file. */
  predicate Counts(size: int, partSize: int, total: int) {
    partSize > 0 && total >= 1 && partSize * (total - 1) < size <= partSize * total
  }

  lemma CeilingCounts(size: int, partSize: int)
    requires partSize > 0 && size > 0
    ensures Counts(size, partSize, Ceiling(size, partSize))
  {
    var c := Ceiling(size, partSize);
    DivBounds(size + partSize - 1, partSize);
    PositiveQuotient(size + partSize - 1, partSize);
    assert partSize * (c - 1) == partSize * c - partSize;
  }

  lemma MachineCounts(size: int64, partSize: int64)
    requires partSize > 0 && size > 0 && FitsMachine(size, partSize)
    ensures Counts(size, partSize, MachineParts(size, partSize))
  {
    TotalPartsExactIff(size, partSize);
    CeilingCounts(size, partSize);
  }

  /** First byte of part n. */
  function Offset(partSize: int, n: int): int {
    partSize * (n - 1)
  }

  /** A part number that passes validation rules out the zero divisor. */
  lemma ValidPartHasDivisor(size: int64, partSize: int64, n: int32)
    requires ValidPartNumber(n, MachineParts(size, partSize))
    ensures partSize > 0 && size > 0
  {
  }

  lemma LastPartReachesEnd(size: int, partSize: int, total: int)
    requires Counts(size, partSize, total)
    ensures 1 <= PartLength(size, partSize, total, total) <= partSize
    ensures Offset(partSize, total) + PartLength(size, partSize, total, total) == size
  {
    assert partSize * total == partSize * (total - 1) + partSize;
    if size == partSize * total {
      DivUnique(size, partSize, total);
    } else {
      DivUnique(size, partSize, total - 1);
    }
  }

  /** Each part holds between one byte and partSize bytes and ends where the next one starts;
      the last one ends at the end of the file. */
  lemma PartsAreContiguous(size: int64, partSize: int64, n: int32)
    requires partSize > 0 && size > 0 && FitsMachine(size, partSize)
    requires ValidPartNumber(n, MachineParts(size, partSize))
    ensures 1 <= SizeOfPart(size, partSize, n) <= partSize
    ensures Offset(partSize, n) + SizeOfPart(size, partSize, n) ==
            if n < MachineParts(size, partSize) then Offset(partSize, n + 1) else size
  {
    var total := MachineParts(size, partSize);
    MachineCounts(size, partSize);
    if n < total {
      assert partSize * n == partSize * (n - 1) + partSize;
    } else {
      LastPartReachesEnd(size, partSize, total);
    }
  }

  function SumOfParts(size: int64, partSize: int64, n: nat): int
    requires n <= MachineParts(size, partSize)
  {
    if n == 0 then 0 else SumOfParts(size, partSize, n - 1) + SizeOfPart(size, partSize, n)
  }

  lemma {:induction false} SumIsNextOffset(size: int64, partSize: int64, n: nat)
    requires partSize > 0 && size > 0 && FitsMachine(size, partSize)
    requires n <= MachineParts(size, partSize)
    ensures SumOfParts(size, partSize, n) ==
            if n < MachineParts(size, partSize) then Offset(partSize, n + 1) else size
  {
    MachineCounts(size, partSize);
    if n > 0 {
      SumIsNextOffset(size, partSize, n - 1);
      PartsAreContiguous(size, partSize, n);
    }
  }

  /** The sizes handed out with the part URLs add up to the file. */
  lemma PartSizesSumToFile(size: int64, partSize: int64)
    requires partSize > 0 && size > 0 && FitsMachine(size, partSize)
    ensures MachineParts(size, partSize) >= 1
    ensures SumOfParts(size, partSize, MachineParts(size, partSize)) == size
  {
    MachineCounts(size, partSize);
    SumIsNextOffset(size, partSize, MachineParts(size, partSize));
  }

  predicate InPart(size: int64, partSize: int64, n: int32, byte: int)
    requires ValidPartNumber(n, MachineParts(size, partSize))
  {
    Offset(partSize, n) <= byte < Offset(partSize, n) + SizeOfPart(size, partSize, n)
  }

  lemma PartIndexInRange(size: int, partSize: int, total: int, byte: int)
    requires Counts(size, partSize, total) && 0 <= byte < size
    ensures 0 <= byte / partSize < total
  {
    DivBounds(byte, partSize);
    NonNegativeQuotient(byte, partSize);
    if byte / partSize >= total {
      MulMonotone(partSize, total, byte / partSize);
      assert false;
    }
  }

  /** Every byte of the file lies in a part. */
  lemma PartsCoverFile(size: int64, partSize: int64, byte: int)
    requires partSize > 0 && size > 0 && FitsMachine(size, partSize)
    requires 0 <= byte < size
    ensures ValidPartNumber(byte / partSize + 1, MachineParts(size, partSize))
    ensures InPart(size, partSize, byte / partSize + 1, byte)
  {
    var k := byte / partSize;
    MachineCounts(size, partSize);
    PartIndexInRange(size, partSize, MachineParts(size, partSize), byte);
    DivBounds(byte, partSize);
    PartsAreContiguous(size, partSize, k + 1);
    assert Offset(partSize, k + 2) == partSize * k + partSize;
  }

  /** A part reaches no byte outside the file, and no byte of another part. */
  lemma PartsAreDisjoint(size: int64, partSize: int64, n: int32, byte: int)
    requires partSize > 0 && size > 0 && FitsMachine(size, partSize)
    requires ValidPartNumber(n, MachineParts(size, partSize))
    requires InPart(size, partSize, n, byte)
    ensures 0 <= byte < size && n == byte / partSize + 1
  {
    MachineCounts(size, partSize);
    PartsAreContiguous(size, partSize, n);
    MulMonotone(partSize, 0, n - 1);
    DivUnique(byte, partSize, n - 1);
    if n < MachineParts(size, partSize) {
      MulMonotone(partSize, n, MachineParts(size, partSize) - 1);
    }
  }
}
