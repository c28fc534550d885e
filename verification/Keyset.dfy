/** Keyset pagination in the abstract: queries chained by the last element each one delivered. */
module Keyset {
  import opened Domain
  import opened Ordering

  /** One query: the cursor it starts from, everything it matches, and how much it may deliver. */
  datatype Turn<T> = Turn(cursor: Option<T>, matches: seq<T>, size: nat)

  function Take<T>(t: Turn<T>): seq<T> {
    if |t.matches| <= t.size then t.matches else t.matches[..t.size]
  }

  function Taken<T>(turns: seq<Turn<T>>): seq<T> {
    if turns == [] then [] else Take(turns[0]) + Taken(turns[1..])
  }

  predicate Past<T>(cursor: Option<T>, x: T, before: (T, T) -> bool) {
    cursor.Some? ==> before(cursor.value, x)
  }

  /** The last query delivered all it matched. */
  predicate Ended<T>(turns: seq<Turn<T>>) {
    turns != [] && |turns[|turns| - 1].matches| <= turns[|turns| - 1].size
  }

  /** Each query is ordered and past its cursor, and the next one starts where it stopped. */
  ghost predicate Chained<T(!new)>(turns: seq<Turn<T>>, cursor: Option<T>, before: (T, T) -> bool) {
    turns == [] ||
    var t := turns[0];
    && t.cursor == cursor && t.size > 0 && SortedBy(t.matches, before)
    && (forall x | x in t.matches :: Past(cursor, x, before))
    && if |t.matches| <= t.size then |turns| == 1
       else Chained(turns[1..], Some(t.matches[t.size - 1]), before)
  }

  lemma ChainedCons<T(!new)>(t: Turn<T>, rest: seq<Turn<T>>, before: (T, T) -> bool)
    requires t.size > 0 && SortedBy(t.matches, before)
    requires forall x | x in t.matches :: Past(t.cursor, x, before)
    requires if |t.matches| <= t.size then rest == []
             else Chained(rest, Some(t.matches[t.size - 1]), before)
    ensures Chained([t] + rest, t.cursor, before)
  {
    assert ([t] + rest)[1..] == rest;
  }

  /** What the chain delivers is strictly ordered and past its starting cursor. */
  lemma {:induction false} TakenIsSorted<T(!new)>(turns: seq<Turn<T>>, cursor: Option<T>, before: (T, T) -> bool)
    requires StrictTotal(before) && Chained(turns, cursor, before)
    ensures SortedBy(Taken(turns), before)
    ensures forall x | x in Taken(turns) :: Past(cursor, x, before)
    decreases |turns|
  {
    if turns != [] {
      var t := turns[0];
      if |t.matches| <= t.size {
        assert turns[1..] == [];
        assert Taken(turns) == t.matches;
      } else {
        var last, front, back := t.matches[t.size - 1], Take(t), Taken(turns[1..]);
        TakenIsSorted(turns[1..], Some(last), before);
        SortedConcat(front, back, before);
        assert last in t.matches;
        forall x | x in back ensures Past(cursor, x, before) {
          assert Past(Some(last), x, before) && Past(cursor, last, before);
        }
      }
    }
  }

  /** A first query that stops short hands its remaining matches m[size..] to the rest. */
  lemma TakenFromRest<T>(t: Turn<T>, rest: seq<Turn<T>>)
    requires |t.matches| > t.size
    requires Taken(rest) <= t.matches[t.size..]
    ensures Taken([t] + rest) <= t.matches
    ensures Ended([t] + rest) ==> Ended(rest)
    ensures Taken(rest) == t.matches[t.size..] ==> Taken([t] + rest) == t.matches
  {
    assert ([t] + rest)[1..] == rest;
    assert t.matches == t.matches[..t.size] + t.matches[t.size..];
  }

  lemma EndedWithRest<T>(t: Turn<T>, rest: seq<Turn<T>>)
    requires if |t.matches| <= t.size then rest == [] else Ended(rest)
    ensures Ended([t] + rest)
  {
  }

  /** If the rest of the chain delivers a prefix of what the first query left over, the whole
      chain delivers a prefix of what the first query matched, and all of it once it has ended. */
  lemma TakenWithRest<T>(t: Turn<T>, rest: seq<Turn<T>>)
    requires if |t.matches| <= t.size then rest == []
             else Taken(rest) <= t.matches[t.size..] && (Ended(rest) ==> Taken(rest) == t.matches[t.size..])
    ensures Taken([t] + rest) <= t.matches
    ensures Ended([t] + rest) ==> Taken([t] + rest) == t.matches
  {
    if |t.matches| <= t.size {
      assert ([t] + rest)[1..] == [];
    } else {
      TakenFromRest(t, rest);
    }
  }

  /** A query that has not passed x by matches it. */
  ghost predicate Offers<T>(t: Turn<T>, x: T, before: (T, T) -> bool) {
    Past(t.cursor, x, before) ==> x in t.matches
  }

  /** An element every query of an ended chain offers has been delivered. */
  lemma {:induction false} TakenFinds<T(!new)>(turns: seq<Turn<T>>, cursor: Option<T>, x: T, before: (T, T) -> bool)
    requires StrictTotal(before) && Chained(turns, cursor, before) && Ended(turns)
    requires Past(cursor, x, before) && forall t | t in turns :: Offers(t, x, before)
    ensures x in Taken(turns)
    decreases |turns|
  {
    var t := turns[0];
    assert Offers(t, x, before);
    if |t.matches| > t.size && x !in Take(t) {
      TailAfter(t.matches, t.size, x, before);
      assert t.matches == t.matches[..t.size] + t.matches[t.size..];
      assert turns[1..] != [];
      TakenFinds(turns[1..], Some(t.matches[t.size - 1]), x, before);
    }
  }
}
