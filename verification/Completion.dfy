/** The part checks of CompleteMultipartUpload, over the ordered listing of the stored parts. */
module Completion {
  import opened Domain
  import opened Ordering
  import PartSizes

  /** A row of upload_parts, as the listing returns it. */
  datatype ListedPart = ListedPart(number: int32, part: UploadPart)

  predicate Ascending(a: int32, b: int32) {
    a < b
  }

  lemma AscendingIsTotal()
    ensures StrictTotal(Ascending)
  {
  }

  /** SELECT ... ORDER BY part_number ASC */
  function Listing(parts: map<int32, UploadPart>): (r: seq<ListedPart>) {
    AscendingIsTotal();
    SortSorts(parts.Keys, Ascending);
    var numbers := Sort(parts.Keys, Ascending);
    assert forall i | 0 <= i < |numbers| :: numbers[i] in parts.Keys;
    seq(|numbers|, i requires 0 <= i < |numbers| => ListedPart(numbers[i], parts[numbers[i]]))
  }

  /** The part numbers of a listing. */
  ghost function Numbers(listed: seq<ListedPart>): set<int32> {
    set p | p in listed :: p.number
  }

  predicate UpTo(n: int, total: int) {
    1 <= n <= total
  }

  /** {1, ..., total} */
  ghost function AllNumbers(total: int): set<int32> {
    set n: int32 | 1 <= n <= total && UpTo(n, total)
  }

  ghost predicate Distinct(listed: seq<ListedPart>) {
    forall i, j | 0 <= i < j < |listed| :: listed[i].number != listed[j].number
  }

  /** What the count, range and duplicate checks look at. */
  ghost predicate PassesChecks(listed: seq<ListedPart>, total: int32) {
    && WrapInt32(|listed|) == total
    && (forall i | 0 <= i < |listed| :: PartSizes.ValidPartNumber(listed[i].number, total))
    && Distinct(listed)
  }

  function Handed(listed: seq<ListedPart>): seq<CompletedPart> {
    seq(|listed|, i requires 0 <= i < |listed| => CompletedPart(listed[i].number, listed[i].part.etag))
  }

  // ---------- the validation loop ----------

  lemma RepeatedNumber(listed: seq<ListedPart>, i: nat)
    requires i < |listed| && listed[i].number in Numbers(listed[..i])
    ensures !Distinct(listed)
  {
    var p :| p in listed[..i] && p.number == listed[i].number;
    var k :| 0 <= k < i && listed[k] == p;
    assert listed[k].number == listed[i].number;
  }

  lemma NumbersExtend(listed: seq<ListedPart>, i: nat)
    requires i < |listed|
    ensures Numbers(listed[..i + 1]) == Numbers(listed[..i]) + {listed[i].number}
    ensures Distinct(listed[..i]) && listed[i].number !in Numbers(listed[..i]) ==> Distinct(listed[..i + 1])
  {
    assert listed[..i + 1] == listed[..i] + [listed[i]];
    forall n | n in Numbers(listed[..i]) + {listed[i].number}
      ensures n in Numbers(listed[..i + 1])
    {
      if n == listed[i].number {
        assert listed[i] in listed[..i + 1];
      } else {
        var p :| p in listed[..i] && p.number == n;
        assert p in listed[..i + 1];
      }
    }
    forall k | 0 <= k < i ensures listed[k].number in Numbers(listed[..i]) {
      assert listed[..i][k] in listed[..i];
    }
  }

  lemma {:induction false} CountNumbers(total: nat)
    requires total <= MAX_INT32
    ensures |AllNumbers(total)| == total
  {
    if total == 0 {
      assert AllNumbers(0) == {};
    } else {
      CountNumbers(total - 1);
      var t: int32 := total;
      assert AllNumbers(total) == AllNumbers(total - 1) + {t};
    }
  }

  lemma {:induction false} DistinctCount(listed: seq<ListedPart>)
    ensures |Numbers(listed)| <= |listed|
    ensures |Numbers(listed)| == |listed| <==> Distinct(listed)
  {
    if listed == [] {
      assert Numbers(listed) == {};
    } else {
      var i := |listed| - 1;
      assert listed[..i + 1] == listed;
      DistinctCount(listed[..i]);
      NumbersExtend(listed, i);
      if listed[i].number in Numbers(listed[..i]) {
        RepeatedNumber(listed, i);
        assert Numbers(listed) == Numbers(listed[..i]);
      } else {
        assert !Distinct(listed[..i]) ==> !Distinct(listed) by {
          if !Distinct(listed[..i]) {
            var a, b :| 0 <= a < b < i && listed[..i][a].number == listed[..i][b].number;
            assert listed[a].number == listed[b].number;
          }
        }
      }
    }
  }

  lemma SubsetCount(a: set<int32>, b: set<int32>)
    requires a <= b
    ensures |a| <= |b|
    ensures |a| == |b| ==> a == b
  {
    assert b == a + (b - a);
    assert |b| == |a| + |b - a|;
  }

  /** The three checks pass exactly when the listing is a permutation of 1..total: in range and
      without repeats leaves no number out, even where the int32 length wraps. */
  lemma CheckedIff(listed: seq<ListedPart>, total: int32)
    ensures PassesChecks(listed, total) <==> |listed| == total && Numbers(listed) == AllNumbers(total)
  {
    DistinctCount(listed);
    if total >= 0 { CountNumbers(total); }
    if PassesChecks(listed, total) {
      assert Numbers(listed) <= AllNumbers(total);
      SubsetCount(Numbers(listed), AllNumbers(total));
    }
    if |listed| == total && Numbers(listed) == AllNumbers(total) {
      forall i | 0 <= i < |listed| ensures PartSizes.ValidPartNumber(listed[i].number, total) {
        assert listed[i].number in Numbers(listed);
      }
    }
  }

  /** The validation loop: it fills the list for storage and the set of numbers seen. */
  method CheckParts(listed: seq<ListedPart>, total: int32) returns (r: Result<seq<CompletedPart>>)
    ensures r.Ok? <==> |listed| == total && Numbers(listed) == AllNumbers(total)
    ensures r.Ok? ==> r.value == Handed(listed)
    ensures r.Err? ==> r.error == InvalidInput
  {
    CheckedIff(listed, total);
    if WrapInt32(|listed|) != total {
      return Err(InvalidInput);
    }
    var completed := new CompletedPart[|listed|](_ => CompletedPart(0, ""));
    var seen: set<int32> := {};
    for i := 0 to |listed|
      invariant forall k | 0 <= k < i :: PartSizes.ValidPartNumber(listed[k].number, total)
      invariant Distinct(listed[..i])
      invariant seen == Numbers(listed[..i])
      invariant forall k | 0 <= k < i :: completed[k] == CompletedPart(listed[k].number, listed[k].part.etag)
    {
      var p := listed[i];
      if !PartSizes.ValidPartNumber(p.number, total) {
        return Err(InvalidInput);
      }
      if p.number in seen {
        RepeatedNumber(listed, i);
        return Err(InvalidInput);
      }
      NumbersExtend(listed, i);
      seen := seen + {p.number};
      completed[i] := CompletedPart(p.number, p.part.etag);
    }
    assert listed[..|listed|] == listed;
    assert completed[..] == Handed(listed);
    return Ok(completed[..]);
  }

  // ---------- the stored parts ----------

  /** The listing, entry by entry. */
  lemma ListingEntries(parts: map<int32, UploadPart>)
    ensures var numbers, listed := Sort(parts.Keys, Ascending), Listing(parts);
            && |listed| == |numbers| == |parts.Keys| && SortedBy(numbers, Ascending)
            && (forall n :: n in numbers <==> n in parts.Keys)
            && forall i | 0 <= i < |listed| ::
                 numbers[i] in parts && listed[i] == ListedPart(numbers[i], parts[numbers[i]])
  {
    AscendingIsTotal();
    SortSorts(parts.Keys, Ascending);
    var numbers := Sort(parts.Keys, Ascending);
    assert forall i | 0 <= i < |numbers| :: numbers[i] in numbers;
  }

  lemma EntriesInOrder(parts: map<int32, UploadPart>, numbers: seq<int32>, listed: seq<ListedPart>)
    requires |listed| == |numbers| && SortedBy(numbers, Ascending) && (forall n :: n in numbers <==> n in parts.Keys)
    requires forall i | 0 <= i < |listed| :: numbers[i] in parts && listed[i] == ListedPart(numbers[i], parts[numbers[i]])
    ensures Numbers(listed) == parts.Keys && Distinct(listed)
    ensures forall p | p in listed :: p.number in parts && parts[p.number] == p.part
    ensures forall i, j | 0 <= i < j < |listed| :: listed[i].number < listed[j].number
  {
    forall i, j | 0 <= i < j < |listed| ensures listed[i].number < listed[j].number {
      assert Ascending(numbers[i], numbers[j]);
    }
    forall n | n in parts.Keys ensures n in Numbers(listed) {
      assert n in numbers;
      var i :| 0 <= i < |numbers| && numbers[i] == n;
      assert listed[i] in listed;
    }
  }

  lemma ListingFacts(parts: map<int32, UploadPart>)
    ensures Numbers(Listing(parts)) == parts.Keys
    ensures |Listing(parts)| == |parts.Keys|
    ensures Distinct(Listing(parts))
    ensures forall p | p in Listing(parts) :: p.number in parts && parts[p.number] == p.part
    ensures forall i, j | 0 <= i < j < |Listing(parts)| :: Listing(parts)[i].number < Listing(parts)[j].number
  {
    ListingEntries(parts);
    EntriesInOrder(parts, Sort(parts.Keys, Ascending), Listing(parts));
  }

  /** The complete list for N parts: 1..N in order, each with its stored ETag. */
  function InOrder(parts: map<int32, UploadPart>, total: int32): seq<CompletedPart>
    requires 0 <= total
    requires forall n: int32 | 1 <= n <= total :: n in parts
  {
    seq(total, i requires 0 <= i < total => CompletedPart(i + 1, parts[i + 1].etag))
  }

  ghost predicate AscendingIn(listed: seq<ListedPart>, total: int32) {
    && (forall i | 0 <= i < |listed| :: 1 <= listed[i].number <= total)
    && (forall i, j | 0 <= i < j < |listed| :: listed[i].number < listed[j].number)
  }

  lemma {:induction false} AtLeastPosition(listed: seq<ListedPart>, total: int32, i: nat)
    requires AscendingIn(listed, total) && i < |listed|
    ensures i + 1 <= listed[i].number
  {
    if i > 0 {
      AtLeastPosition(listed, total, i - 1);
      assert listed[i - 1].number < listed[i].number;
    }
  }

  lemma {:induction false} AtMostPosition(listed: seq<ListedPart>, total: int32, i: nat)
    requires AscendingIn(listed, total) && i < |listed| == total
    ensures listed[i].number <= i + 1
    decreases |listed| - i
  {
    if i + 1 < |listed| {
      AtMostPosition(listed, total, i + 1);
      assert listed[i].number < listed[i + 1].number;
    }
  }

  lemma SameParts(listed: seq<ListedPart>, parts: map<int32, UploadPart>, total: int32)
    requires |listed| == total && parts.Keys == AllNumbers(total)
    requires forall i | 0 <= i < |listed| ::
               listed[i].number == i + 1 && listed[i].number in parts && parts[listed[i].number] == listed[i].part
    ensures Handed(listed) == InOrder(parts, total)
  {
  }

  lemma HandedInOrder(parts: map<int32, UploadPart>, total: int32)
    requires 0 <= total && parts.Keys == AllNumbers(total)
    ensures Handed(Listing(parts)) == InOrder(parts, total)
  {
    var listed := Listing(parts);
    ListingFacts(parts);
    CountNumbers(total);
    forall i | 0 <= i < |listed| ensures listed[i].number in AllNumbers(total) {
      assert listed[i] in listed;
    }
    assert AscendingIn(listed, total);
    forall i | 0 <= i < |listed| ensures listed[i].number == i + 1 && parts[listed[i].number] == listed[i].part {
      AtLeastPosition(listed, total, i);
      AtMostPosition(listed, total, i);
      assert listed[i] in listed;
    }
    SameParts(listed, parts, total);
  }

  /** Completion passes its part checks exactly when the reported numbers are {1..total}, and
      storage then receives (1,e1), ..., (N,eN) in this order. */
  lemma CompletionIff(parts: map<int32, UploadPart>, total: int32)
    ensures PassesChecks(Listing(parts), total) <==> 0 <= total && parts.Keys == AllNumbers(total)
    ensures 0 <= total && parts.Keys == AllNumbers(total) ==> Handed(Listing(parts)) == InOrder(parts, total)
  {
    var listed := Listing(parts);
    ListingFacts(parts);
    CheckedIff(listed, total);
    if 0 <= total { CountNumbers(total); }
    if 0 <= total && parts.Keys == AllNumbers(total) {
      HandedInOrder(parts, total);
    }
  }

  /** Stored numbers that are in range make the count the only check that can fail. */
  lemma OnlyMissingPartsFail(parts: map<int32, UploadPart>, total: int32)
    requires forall n | n in parts :: PartSizes.ValidPartNumber(n, total)
    ensures PassesChecks(Listing(parts), total) <==> |parts.Keys| == total
    ensures 0 <= total && !PassesChecks(Listing(parts), total) ==> exists n: int32 :: 1 <= n <= total && n !in parts
  {
    ListingFacts(parts);
    CompletionIff(parts, total);
    if 0 <= total { CountNumbers(total); }
    assert parts.Keys <= AllNumbers(total);
    SubsetCount(parts.Keys, AllNumbers(total));
    if 0 <= total && !PassesChecks(Listing(parts), total) {
      assert exists n :: n in AllNumbers(total) && n !in parts.Keys;
    }
  }
}
