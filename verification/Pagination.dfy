/** Keyset pagination: List of internal/repository/postgres/file.go, and walks that follow the
    tokens it returns. */
module Pagination {
  import opened Domain
  import opened Ordering
  import opened Keyset
  import PageTokens
  import PartSizes

  // ---------- the index order ----------

  /** Byte order of text; on canonical UUID text it is PostgreSQL's order of the UUIDs. */
  predicate TextBefore(a: string, b: string) {
    b != "" && (a == "" || a[0] < b[0] || (a[0] == b[0] && TextBefore(a[1..], b[1..])))
  }

  lemma {:induction false} TextBeforeTotal(a: string, b: string)
    ensures a == b ==> !TextBefore(a, b)
    ensures a != b ==> TextBefore(a, b) || TextBefore(b, a)
  {
    if a != "" && b != "" {
      TextBeforeTotal(a[1..], b[1..]);
      assert a == [a[0]] + a[1..] && b == [b[0]] + b[1..];
    }
  }

  lemma {:induction false} TextBeforeTransitive(a: string, b: string, c: string)
    requires TextBefore(a, b) && TextBefore(b, c)
    ensures TextBefore(a, c)
  {
    if a != "" && a[0] == b[0] && b[0] == c[0] {
      TextBeforeTransitive(a[1..], b[1..], c[1..]);
    }
  }

  /** The first place n where a and b differ, and there a comes first. */
  predicate DiffersAt(a: string, b: string, n: nat) {
    n <= |a| && n < |b| && a[..n] == b[..n] && (n == |a| || a[n] < b[n])
  }

  lemma DiffersLater(a: string, b: string, n: nat)
    requires a != "" && b != "" && a[0] == b[0]
    ensures DiffersAt(a, b, n + 1) <==> DiffersAt(a[1..], b[1..], n)
  {
    if n + 1 <= |a| && n + 1 <= |b| {
      assert a[..n + 1] == [a[0]] + a[1..][..n] && b[..n + 1] == [b[0]] + b[1..][..n];
      if a[..n + 1] == b[..n + 1] { assert a[..n + 1][1..] == b[..n + 1][1..]; }
    }
  }

  lemma DiffersHead(a: string, b: string, n: nat)
    requires DiffersAt(a, b, n) && n > 0
    ensures a != "" && b != "" && a[0] == b[0]
  {
    assert a[..n][0] == b[..n][0];
  }

  /** The order is decided at the first difference. */
  lemma {:induction false} TextBeforeIff(a: string, b: string)
    ensures TextBefore(a, b) <==> exists n: nat :: DiffersAt(a, b, n)
  {
    if a == "" || b == "" || a[0] != b[0] {
      if TextBefore(a, b) { assert DiffersAt(a, b, 0); }
      forall n: nat | DiffersAt(a, b, n) ensures TextBefore(a, b) {
        if n > 0 { DiffersHead(a, b, n); }
      }
    } else {
      TextBeforeIff(a[1..], b[1..]);
      if TextBefore(a, b) {
        var n: nat :| DiffersAt(a[1..], b[1..], n);
        DiffersLater(a, b, n);
        assert DiffersAt(a, b, n + 1);
      }
      if exists n: nat :: DiffersAt(a, b, n) {
        var n: nat :| DiffersAt(a, b, n);
        DiffersLater(a, b, n - 1);
      }
    }
  }

  /** (created_at, id), the pair a cursor holds. */
  datatype Key = Key(time: int64, id: string)

  /** ORDER BY created_at DESC, id DESC */
  predicate Newer(a: Key, b: Key) {
    a.time > b.time || (a.time == b.time && TextBefore(b.id, a.id))
  }

  lemma NewerIsTotal()
    ensures StrictTotal(Newer)
  {
    forall a: Key, b: Key
      ensures !Newer(a, a)
      ensures a != b ==> Newer(a, b) || Newer(b, a)
    {
      TextBeforeTotal(a.id, a.id);
      TextBeforeTotal(a.id, b.id);
    }
    forall a: Key, b: Key, c: Key | Newer(a, b) && Newer(b, c) ensures Newer(a, c) {
      if a.time == b.time == c.time { TextBeforeTransitive(c.id, b.id, a.id); }
    }
  }

  // ---------- one page ----------

  type Table = map<string, FileMetadata>

  ghost predicate ValidTable(rows: Table) {
    forall id | id in rows :: rows[id].id == id && PageTokens.IsCanonical(id)
  }

  predicate Live(rows: Table, owner: string, id: string) {
    id in rows && rows[id].owner == owner && rows[id].status != Deleted
  }

  function KeyOf(rows: Table, id: string): Key
    requires id in rows
  {
    Key(rows[id].createdAt, id)
  }

  predicate After(cursor: Option<Key>, k: Key) {
    cursor.Some? ==> Newer(cursor.value, k)
  }

  /** The rows the WHERE clause admits. */
  function Candidates(rows: Table, owner: string, cursor: Option<Key>): set<Key> {
    set id | id in rows && Live(rows, owner, id) && After(cursor, KeyOf(rows, id)) :: KeyOf(rows, id)
  }

  /** The query without its LIMIT. */
  function Matching(rows: Table, owner: string, cursor: Option<Key>): seq<Key> {
    NewerIsTotal();
    Sort(Candidates(rows, owner, cursor), Newer)
  }

  lemma MatchingFacts(rows: Table, owner: string, cursor: Option<Key>)
    ensures SortedBy(Matching(rows, owner, cursor), Newer)
    ensures forall k: Key :: k in Matching(rows, owner, cursor) <==>
              Live(rows, owner, k.id) && KeyOf(rows, k.id) == k && After(cursor, k)
  {
    NewerIsTotal();
    SortSorts(Candidates(rows, owner, cursor), Newer);
  }

  function EffectiveSize(pageSize: int32): (n: nat)
    ensures 1 <= n <= 100
  {
    if pageSize <= 0 || pageSize > 100 then 20 else pageSize
  }

  function Rows(rows: Table, keys: seq<Key>): seq<FileMetadata>
    requires forall k | k in keys :: k.id in rows
  {
    seq(|keys|, i requires 0 <= i < |keys| => assert keys[i] in keys; rows[keys[i].id])
  }

  function FileKey(f: FileMetadata): Key {
    Key(f.createdAt, f.id)
  }

  function FileKeys(files: seq<FileMetadata>): seq<Key> {
    seq(|files|, i requires 0 <= i < |files| => FileKey(files[i]))
  }

  datatype ListResult = ListResult(files: seq<FileMetadata>, nextPageToken: string)

  /** The cursor a token stands for. The zero time would switch the filter off. */
  function CursorOf(token: string): Result<Option<Key>> {
    if token == "" then Ok(None)
    else
      match PageTokens.Decode(token)
      case None => Err(InvalidInput)
      case Some((t, id)) => if t == PageTokens.ZERO_TIME then Ok(None) else Ok(Some(Key(t, id)))
  }

  /** A page is the first EffectiveSize matches, with a token when some are left over. */
  function Page(rows: Table, owner: string, pageSize: int32, token: string): Result<ListResult> {
    match CursorOf(token)
    case Err(e) => Err(e)
    case Ok(cursor) =>
      MatchingFacts(rows, owner, cursor);
      var matches, n := Matching(rows, owner, cursor), EffectiveSize(pageSize);
      if |matches| <= n then Ok(ListResult(Rows(rows, matches), ""))
      else
        var last := matches[n - 1];
        Ok(ListResult(Rows(rows, matches[..n]), PageTokens.Encode(last.time, last.id)))
  }

  function First(keys: seq<Key>, limit: nat): seq<Key> {
    if limit < |keys| then keys[..limit] else keys
  }

  /** SELECT ... LIMIT limit */
  function Query(rows: Table, owner: string, cursor: Option<Key>, limit: nat): seq<FileMetadata> {
    MatchingFacts(rows, owner, cursor);
    var matches := Matching(rows, owner, cursor);
    Rows(rows, First(matches, limit))
  }

  lemma PrefixOfRows(rows: Table, keys: seq<Key>, n: nat)
    requires (forall k | k in keys :: k.id in rows) && n <= |keys|
    ensures (forall k | k in keys[..n] :: k.id in rows) && Rows(rows, keys)[..n] == Rows(rows, keys[..n])
  {
  }

  lemma LookAhead(rows: Table, owner: string, cursor: Option<Key>, n: nat)
    requires ValidTable(rows) && n > 0
    ensures var found, m := Query(rows, owner, cursor, n + 1), Matching(rows, owner, cursor);
            && (|found| > n <==> |m| > n)
            && (forall k | k in m :: k.id in rows)
            && (|m| <= n ==> found == Rows(rows, m))
            && (|m| > n ==> found[..n] == Rows(rows, m[..n]) && FileKey(found[n - 1]) == m[n - 1])
  {
    MatchingFacts(rows, owner, cursor);
    var m := Matching(rows, owner, cursor);
    if |m| > n {
      PrefixOfRows(rows, First(m, n + 1), n);
      assert First(m, n + 1)[..n] == m[..n];
      assert m[n - 1] in m;
    }
  }

  /** How many rows the query of a page returns. */
  function Fetched(rows: Table, owner: string, pageSize: int32, token: string): nat {
    match CursorOf(token)
    case Err(_) => 0
    case Ok(cursor) => |First(Matching(rows, owner, cursor), EffectiveSize(pageSize) + 1)|
  }

  /** The rows.Next loop and rows.Err. A failure is the number of rows that arrive before the
      connection breaks; what has arrived by then is dropped. */
  method Receive(found: seq<FileMetadata>, failure: Option<nat>) returns (r: Result<seq<FileMetadata>>)
    ensures r == if failure.Some? && failure.value <= |found| then Err(Internal) else Ok(found)
  {
    var files := [];
    for i := 0 to |found|
      invariant files == found[..i] && (failure.Some? ==> i <= failure.value)
    {
      if failure == Some(i) {
        return Err(Internal);
      }
      files := files + [found[i]];
    }
    if failure == Some(|found|) {
      return Err(Internal);
    }
    assert found[..|found|] == found;
    return Ok(files);
  }

  /** The first n of the matches, with a token exactly when there are more. */
  ghost predicate Serves(page: ListResult, m: seq<Key>, n: nat) {
    && |page.files| == (if |m| < n then |m| else n)
    && FileKeys(page.files) == m[..|page.files|]
    && (page.nextPageToken != "" <==> |m| > n)
  }

  /** The matches of a query, without the query. */
  ghost predicate Matches(m: seq<Key>, rows: Table, owner: string, cursor: Option<Key>) {
    && SortedBy(m, Newer)
    && forall k: Key :: k in m <==> Live(rows, owner, k.id) && KeyOf(rows, k.id) == k && After(cursor, k)
  }

  lemma RowsOfKeys(rows: Table, keys: seq<Key>)
    requires ValidTable(rows)
    requires forall k | k in keys :: k.id in rows && KeyOf(rows, k.id) == k
    ensures FileKeys(Rows(rows, keys)) == keys
    ensures forall f | f in Rows(rows, keys) :: f.id in rows && rows[f.id] == f
  {
    assert forall i | 0 <= i < |keys| :: keys[i] in keys;
  }

  /** What the page delivered, among the matches m, and where the next page starts. */
  ghost predicate Turned(page: ListResult, m: seq<Key>, n: nat) {
    if |m| <= n then page.nextPageToken == "" && FileKeys(page.files) == m
    else n > 0 && page.nextPageToken != "" && FileKeys(page.files) == m[..n] &&
         CursorOf(page.nextPageToken) == Ok(Some(m[n - 1]))
  }

  lemma EncodedCursor(k: Key)
    requires PageTokens.IsCanonical(k.id)
    ensures PageTokens.Encode(k.time, k.id) != ""
    ensures CursorOf(PageTokens.Encode(k.time, k.id)) == Ok(Some(k))
  {
    PageTokens.TokenRoundTrip(k.time, k.id);
    PageTokens.DecodedTimeIsNotZero(PageTokens.Encode(k.time, k.id));
  }

  /** A page delivers a prefix of the matches and, unless it is the last, hands back a token
      that decodes to the last key it delivered. */
  lemma PageFacts(rows: Table, owner: string, pageSize: int32, token: string, cursor: Option<Key>)
    requires ValidTable(rows) && CursorOf(token) == Ok(cursor)
    ensures Page(rows, owner, pageSize, token).Ok?
    ensures Turned(Page(rows, owner, pageSize, token).value, Matching(rows, owner, cursor), EffectiveSize(pageSize))
    ensures forall f | f in Page(rows, owner, pageSize, token).value.files :: f.id in rows && rows[f.id] == f
  {
    MatchingFacts(rows, owner, cursor);
    var m, n := Matching(rows, owner, cursor), EffectiveSize(pageSize);
    if |m| > n {
      assert m[n - 1] in m;
      EncodedCursor(m[n - 1]);
      RowsOfKeys(rows, m[..n]);
    } else {
      RowsOfKeys(rows, m);
    }
  }

  /** A page holds as many of the matches as were asked for; a size outside 1..100 counts as 20. */
  lemma PageServes(rows: Table, owner: string, pageSize: int32, token: string)
    requires ValidTable(rows) && CursorOf(token).Ok?
    ensures var page, m := Page(rows, owner, pageSize, token), Matching(rows, owner, CursorOf(token).value);
            && page.Ok? && Matches(m, rows, owner, CursorOf(token).value)
            && (1 <= pageSize <= 100 ==> Serves(page.value, m, pageSize))
            && (!(1 <= pageSize <= 100) ==> Serves(page.value, m, 20))
            && forall f | f in page.value.files :: f.id in rows && rows[f.id] == f
  {
    PageFacts(rows, owner, pageSize, token, CursorOf(token).value);
    MatchingFacts(rows, owner, CursorOf(token).value);
    var page, m := Page(rows, owner, pageSize, token), Matching(rows, owner, CursorOf(token).value);
    assert |FileKeys(page.value.files)| == |page.value.files|;
    assert m == m[..|m|];
  }

  /** List fetches one row more than the page and keeps it only as the sign that there is more. */
  method List(rows: Table, owner: string, pageSize: int32, token: string, failure: Option<nat>)
    returns (r: Result<ListResult>)
    requires ValidTable(rows)
    ensures var page := Page(rows, owner, pageSize, token);
            if page.Ok? && failure.Some? && failure.value <= Fetched(rows, owner, pageSize, token) then r == Err(Internal)
            else r == page
    ensures token != "" && PageTokens.Decode(token).None? ==> r == Err(InvalidInput)
    ensures r.Ok? && 1 <= pageSize <= 100 ==>
              CursorOf(token).Ok? && Serves(r.value, Matching(rows, owner, CursorOf(token).value), pageSize)
    ensures r.Ok? && !(1 <= pageSize <= 100) ==>
              CursorOf(token).Ok? && Serves(r.value, Matching(rows, owner, CursorOf(token).value), 20)
    ensures r.Ok? ==> forall f | f in r.value.files :: f.id in rows && rows[f.id] == f
  {
    if CursorOf(token).Ok? { PageServes(rows, owner, pageSize, token); }
    var size := pageSize;
    if size <= 0 || size > 100 {
      size := 20;
    }
    var cursorTime, cursorId := PageTokens.ZERO_TIME, "";
    if token != "" {
      var decoded := PageTokens.Decode(token);
      if decoded.None? {
        return Err(InvalidInput);
      }
      cursorTime, cursorId := decoded.value.0, decoded.value.1;
    }
    var cursor := None;
    if cursorTime != PageTokens.ZERO_TIME {
      cursor := Some(Key(cursorTime, cursorId));
    }

    var received := Receive(Query(rows, owner, cursor, size + 1), failure);
    if received.Err? {
      return Err(received.error);
    }
    var files := received.value;
    LookAhead(rows, owner, cursor, size);
    var next := "";
    if |files| > size {
      var last := files[size - 1];
      next := PageTokens.Encode(last.createdAt, last.id);
      files := files[..size];
    }
    return Ok(ListResult(files, next));
  }

  // ---------- walks ----------

  /** One request of a walk: the table as it is at that moment, and the size asked for. */
  datatype Visit = Visit(rows: Table, pageSize: int32)

  /** Follow the tokens through the visits until a page has none. */
  function Walk(visits: seq<Visit>, owner: string, token: string): seq<ListResult> {
    if visits == [] then []
    else
      match Page(visits[0].rows, owner, visits[0].pageSize, token)
      case Err(_) => []
      case Ok(page) =>
        [page] + (if page.nextPageToken == "" then [] else Walk(visits[1..], owner, page.nextPageToken))
  }

  function Delivered(pages: seq<ListResult>): seq<FileMetadata> {
    if pages == [] then [] else pages[0].files + Delivered(pages[1..])
  }

  predicate Finished(pages: seq<ListResult>) {
    pages != [] && pages[|pages| - 1].nextPageToken == ""
  }

  ghost predicate ValidVisits(visits: seq<Visit>) {
    forall i | 0 <= i < |visits| :: ValidTable(visits[i].rows)
  }

  /** Rows come, go and change between pages, but no row changes its creation time. */
  ghost predicate KeysImmutable(visits: seq<Visit>) {
    forall i, j, id | 0 <= i < |visits| && 0 <= j < |visits| && id in visits[i].rows && id in visits[j].rows ::
      visits[i].rows[id].createdAt == visits[j].rows[id].createdAt
  }

  lemma DeliveredSplits(page: ListResult, rest: seq<ListResult>)
    ensures Delivered([page] + rest) == page.files + Delivered(rest)
    ensures FileKeys(Delivered([page] + rest)) == FileKeys(page.files) + FileKeys(Delivered(rest))
  {
    assert ([page] + rest)[1..] == rest;
  }

  /** A walk is its first page and the walk from that page's token. */
  lemma WalkStep(visits: seq<Visit>, owner: string, token: string, cursor: Option<Key>)
    returns (page: ListResult, rest: seq<ListResult>)
    requires visits != [] && ValidTable(visits[0].rows) && CursorOf(token) == Ok(cursor)
    ensures Walk(visits, owner, token) == [page] + rest
    ensures rest == if page.nextPageToken == "" then [] else Walk(visits[1..], owner, page.nextPageToken)
    ensures Turned(page, Matching(visits[0].rows, owner, cursor), EffectiveSize(visits[0].pageSize))
    ensures forall f | f in page.files :: f.id in visits[0].rows && visits[0].rows[f.id] == f
  {
    PageFacts(visits[0].rows, owner, visits[0].pageSize, token, cursor);
    page := Page(visits[0].rows, owner, visits[0].pageSize, token).value;
    rest := if page.nextPageToken == "" then [] else Walk(visits[1..], owner, page.nextPageToken);
  }

  /** The queries behind a walk, with the tokens read as cursors. */
  ghost function Turns(visits: seq<Visit>, owner: string, cursor: Option<Key>): seq<Turn<Key>> {
    if visits == [] then []
    else
      var m, n := Matching(visits[0].rows, owner, cursor), EffectiveSize(visits[0].pageSize);
      [Turn(cursor, m, n)] + (if |m| <= n then [] else Turns(visits[1..], owner, Some(m[n - 1])))
  }

  /** Pages and queries in step: the same files in the same order, and the same end. */
  ghost predicate Tracks(pages: seq<ListResult>, turns: seq<Turn<Key>>) {
    && FileKeys(Delivered(pages)) == Taken(turns)
    && |pages| == |turns|
    && (Finished(pages) <==> Ended(turns))
  }

  /** The pages of a walk, told by the cursors alone. */
  ghost predicate Follows(pages: seq<ListResult>, visits: seq<Visit>, owner: string, cursor: Option<Key>)
    decreases |visits|
  {
    if visits == [] then pages == []
    else
      var m, n := Matching(visits[0].rows, owner, cursor), EffectiveSize(visits[0].pageSize);
      && pages != [] && Turned(pages[0], m, n)
      && if |m| <= n then pages[1..] == [] else Follows(pages[1..], visits[1..], owner, Some(m[n - 1]))
  }

  lemma FollowsFirst(page: ListResult, rest: seq<ListResult>, visits: seq<Visit>, owner: string, cursor: Option<Key>)
    requires visits != []
    requires var m, n := Matching(visits[0].rows, owner, cursor), EffectiveSize(visits[0].pageSize);
             && Turned(page, m, n)
             && if |m| <= n then rest == [] else Follows(rest, visits[1..], owner, Some(m[n - 1]))
    ensures Follows([page] + rest, visits, owner, cursor)
  {
    assert ([page] + rest)[1..] == rest;
  }

  lemma {:induction false} WalkFollows(visits: seq<Visit>, owner: string, token: string, cursor: Option<Key>)
    requires ValidVisits(visits) && CursorOf(token) == Ok(cursor)
    ensures Follows(Walk(visits, owner, token), visits, owner, cursor)
    decreases |visits|
  {
    if visits != [] {
      var page, rest := WalkStep(visits, owner, token, cursor);
      var m, n := Matching(visits[0].rows, owner, cursor), EffectiveSize(visits[0].pageSize);
      if |m| > n {
        WalkFollows(visits[1..], owner, page.nextPageToken, Some(m[n - 1]));
      }
      FollowsFirst(page, rest, visits, owner, cursor);
    }
  }

  lemma NoPagesTrack()
    ensures Tracks([], [])
  {
  }

  ghost function RestOfTurns(visits: seq<Visit>, owner: string, m: seq<Key>, n: nat): seq<Turn<Key>>
    requires visits != [] && n > 0
  {
    if |m| <= n then [] else Turns(visits[1..], owner, Some(m[n - 1]))
  }

  lemma TurnsSplit(visits: seq<Visit>, owner: string, cursor: Option<Key>)
    requires visits != []
    ensures var m, n := Matching(visits[0].rows, owner, cursor), EffectiveSize(visits[0].pageSize);
            Turns(visits, owner, cursor) == [Turn(cursor, m, n)] + RestOfTurns(visits, owner, m, n)
  {
  }

  /** The correspondence of pages and queries, one page longer. */
  lemma PageIsTurn(page: ListResult, rest: seq<ListResult>, t: Turn<Key>, turns: seq<Turn<Key>>)
    requires Turned(page, t.matches, t.size)
    requires if |t.matches| <= t.size then rest == [] && turns == [] else Tracks(rest, turns)
    ensures Tracks([page] + rest, [t] + turns)
  {
    DeliveredSplits(page, rest);
    assert ([t] + turns)[1..] == turns;
  }

  lemma FirstPageTracks(visits: seq<Visit>, owner: string, cursor: Option<Key>, page: ListResult, rest: seq<ListResult>)
    requires visits != []
    requires var m, n := Matching(visits[0].rows, owner, cursor), EffectiveSize(visits[0].pageSize);
             && Turned(page, m, n)
             && if |m| <= n then rest == [] else Tracks(rest, Turns(visits[1..], owner, Some(m[n - 1])))
    ensures Tracks([page] + rest, Turns(visits, owner, cursor))
  {
    var m, n := Matching(visits[0].rows, owner, cursor), EffectiveSize(visits[0].pageSize);
    TurnsSplit(visits, owner, cursor);
    PageIsTurn(page, rest, Turn(cursor, m, n), RestOfTurns(visits, owner, m, n));
  }

  lemma {:induction false} FollowsTracks(pages: seq<ListResult>, visits: seq<Visit>, owner: string, cursor: Option<Key>)
    requires Follows(pages, visits, owner, cursor)
    ensures Tracks(pages, Turns(visits, owner, cursor))
    decreases |visits|
  {
    if visits == [] {
      NoPagesTrack();
    } else {
      var m, n := Matching(visits[0].rows, owner, cursor), EffectiveSize(visits[0].pageSize);
      if |m| > n {
        FollowsTracks(pages[1..], visits[1..], owner, Some(m[n - 1]));
      }
      FirstPageTracks(visits, owner, cursor, pages[0], pages[1..]);
      assert [pages[0]] + pages[1..] == pages;
    }
  }

  /** The printed tokens carry a walk from page to page exactly as the cursors would. */
  lemma WalkIsTurns(visits: seq<Visit>, owner: string, token: string, cursor: Option<Key>)
    requires ValidVisits(visits) && CursorOf(token) == Ok(cursor)
    ensures Tracks(Walk(visits, owner, token), Turns(visits, owner, cursor))
  {
    WalkFollows(visits, owner, token, cursor);
    FollowsTracks(Walk(visits, owner, token), visits, owner, cursor);
  }

  /** Successive queries are chained by the last key each one delivered. */
  lemma {:induction false} TurnsAreChained(visits: seq<Visit>, owner: string, cursor: Option<Key>)
    ensures Chained(Turns(visits, owner, cursor), cursor, Newer)
    decreases |visits|
  {
    if visits != [] {
      MatchingFacts(visits[0].rows, owner, cursor);
      var m, n := Matching(visits[0].rows, owner, cursor), EffectiveSize(visits[0].pageSize);
      if |m| > n {
        TurnsAreChained(visits[1..], owner, Some(m[n - 1]));
        ChainedCons(Turn(cursor, m, n), Turns(visits[1..], owner, Some(m[n - 1])), Newer);
      } else {
        ChainedCons(Turn(cursor, m, n), [], Newer);
      }
    }
  }

  /** All keys of a walk are past its starting cursor and strictly descending, whatever happens
      to the table between pages. */
  lemma WalkDescends(visits: seq<Visit>, owner: string, token: string, cursor: Option<Key>)
    requires ValidVisits(visits) && CursorOf(token) == Ok(cursor)
    ensures SortedBy(FileKeys(Delivered(Walk(visits, owner, token))), Newer)
    ensures forall k | k in FileKeys(Delivered(Walk(visits, owner, token))) :: After(cursor, k)
  {
    NewerIsTotal();
    WalkIsTurns(visits, owner, token, cursor);
    TurnsAreChained(visits, owner, cursor);
    TakenIsSorted(Turns(visits, owner, cursor), cursor, Newer);
  }

  ghost predicate RowOfVisit(visits: seq<Visit>, f: FileMetadata) {
    exists i :: 0 <= i < |visits| && f.id in visits[i].rows && visits[i].rows[f.id] == f
  }

  lemma RowOfLaterVisit(visits: seq<Visit>, f: FileMetadata)
    requires visits != [] && RowOfVisit(visits[1..], f)
    ensures RowOfVisit(visits, f)
  {
    var i :| 0 <= i < |visits[1..]| && f.id in visits[1..][i].rows && visits[1..][i].rows[f.id] == f;
    assert visits[i + 1] == visits[1..][i];
  }

  lemma DeliveredRows(visits: seq<Visit>, page: ListResult, rest: seq<ListResult>)
    requires visits != []
    requires forall f | f in page.files :: f.id in visits[0].rows && visits[0].rows[f.id] == f
    requires forall f | f in Delivered(rest) :: RowOfVisit(visits[1..], f)
    ensures forall f | f in Delivered([page] + rest) :: RowOfVisit(visits, f)
  {
    DeliveredSplits(page, rest);
    forall f | f in Delivered(rest) ensures RowOfVisit(visits, f) {
      RowOfLaterVisit(visits, f);
    }
  }

  /** Every file delivered is a row of a visited table. */
  lemma {:induction false} WalkDeliversRows(visits: seq<Visit>, owner: string, token: string, cursor: Option<Key>)
    requires ValidVisits(visits) && CursorOf(token) == Ok(cursor)
    ensures forall f | f in Delivered(Walk(visits, owner, token)) :: RowOfVisit(visits, f)
    decreases |visits|
  {
    if visits != [] {
      var page, rest := WalkStep(visits, owner, token, cursor);
      if page.nextPageToken != "" {
        var m, n := Matching(visits[0].rows, owner, cursor), EffectiveSize(visits[0].pageSize);
        WalkDeliversRows(visits[1..], owner, page.nextPageToken, Some(m[n - 1]));
      }
      DeliveredRows(visits, page, rest);
    }
  }

  /** No walk returns a file twice, with any page sizes and any changes between pages. */
  lemma WalkNeverRepeats(visits: seq<Visit>, owner: string, x: nat, y: nat)
    requires ValidVisits(visits) && KeysImmutable(visits)
    requires x < y < |Delivered(Walk(visits, owner, ""))|
    ensures Delivered(Walk(visits, owner, ""))[x].id != Delivered(Walk(visits, owner, ""))[y].id
  {
    NewerIsTotal();
    WalkDescends(visits, owner, "", None);
    WalkDeliversRows(visits, owner, "", None);
    var d := Delivered(Walk(visits, owner, ""));
    var f, g := d[x], d[y];
    assert f in d && g in d;
    var i :| 0 <= i < |visits| && f.id in visits[i].rows && visits[i].rows[f.id] == f;
    var j :| 0 <= j < |visits| && g.id in visits[j].rows && visits[j].rows[g.id] == g;
    assert Newer(FileKeys(d)[x], FileKeys(d)[y]);
  }

  /** A file that stays live and keeps its key is offered by every query before its key. */
  lemma {:induction false} TurnsOffer(visits: seq<Visit>, owner: string, cursor: Option<Key>, k: Key)
    requires forall i | 0 <= i < |Turns(visits, owner, cursor)| && i < |visits| ::
               Live(visits[i].rows, owner, k.id) && visits[i].rows[k.id].createdAt == k.time
    ensures forall t | t in Turns(visits, owner, cursor) :: Offers(t, k, Newer)
    decreases |visits|
  {
    if visits != [] {
      MatchingFacts(visits[0].rows, owner, cursor);
      var m, n := Matching(visits[0].rows, owner, cursor), EffectiveSize(visits[0].pageSize);
      var turns := Turns(visits, owner, cursor);
      assert Offers(turns[0], k, Newer);
      if |m| > n {
        assert turns[1..] == Turns(visits[1..], owner, Some(m[n - 1]));
        assert forall i | 0 <= i < |visits[1..]| :: visits[1..][i] == visits[i + 1];
        TurnsOffer(visits[1..], owner, Some(m[n - 1]), k);
      }
    }
  }

  /** A walk that reaches its end has returned every file that stayed live at each page. */
  lemma FinishedWalkIsComplete(visits: seq<Visit>, owner: string, id: string)
    requires ValidVisits(visits) && KeysImmutable(visits)
    requires Finished(Walk(visits, owner, ""))
    requires forall i | 0 <= i < |Walk(visits, owner, "")| && i < |visits| :: Live(visits[i].rows, owner, id)
    ensures exists x :: 0 <= x < |Delivered(Walk(visits, owner, ""))| &&
                        Delivered(Walk(visits, owner, ""))[x].id == id
  {
    if visits != [] {
      NewerIsTotal();
      var k, turns := KeyOf(visits[0].rows, id), Turns(visits, owner, None);
      WalkIsTurns(visits, owner, "", None);
      TurnsAreChained(visits, owner, None);
      TurnsOffer(visits, owner, None, k);
      TakenFinds(turns, None, k, Newer);
      var d := Delivered(Walk(visits, owner, ""));
      var x :| 0 <= x < |FileKeys(d)| && FileKeys(d)[x] == k;
      assert d[x].id == id;
    }
  }

  // ---------- a fixed table ----------

  /** Visits of one table, with any sequence of requested sizes. */
  function FixedVisits(rows: Table, sizes: seq<int32>): seq<Visit> {
    seq(|sizes|, i requires 0 <= i < |sizes| => Visit(rows, sizes[i]))
  }

  /** The query at the cursor of the i-th match is the rest of the matches. */
  lemma RestOfMatches(rows: Table, owner: string, cursor: Option<Key>, i: nat)
    requires 0 < i <= |Matching(rows, owner, cursor)|
    ensures Matching(rows, owner, Some(Matching(rows, owner, cursor)[i - 1])) == Matching(rows, owner, cursor)[i..]
  {
    NewerIsTotal();
    var m := Matching(rows, owner, cursor);
    var rest := Matching(rows, owner, Some(m[i - 1]));
    MatchingFacts(rows, owner, cursor);
    MatchingFacts(rows, owner, Some(m[i - 1]));
    forall k: Key ensures k in rest <==> k in m[i..] {
      TailAfter(m, i, k, Newer);
      assert m[i - 1] in m;
      assert k in rest ==> k in m;
    }
    assert SortedBy(m[i..], Newer);
    SortIsUnique(rest, m[i..], Newer);
  }

  lemma FixedTurnsSplit(rows: Table, owner: string, sizes: seq<int32>, cursor: Option<Key>)
    requires sizes != []
    ensures var m, n := Matching(rows, owner, cursor), EffectiveSize(sizes[0]);
            Turns(FixedVisits(rows, sizes), owner, cursor) ==
            [Turn(cursor, m, n)] +
            if |m| <= n then [] else Turns(FixedVisits(rows, sizes[1..]), owner, Some(m[n - 1]))
  {
    assert FixedVisits(rows, sizes)[1..] == FixedVisits(rows, sizes[1..]);
  }

  lemma {:induction false} FixedTurns(rows: Table, owner: string, sizes: seq<int32>, cursor: Option<Key>)
    ensures Taken(Turns(FixedVisits(rows, sizes), owner, cursor)) <= Matching(rows, owner, cursor)
    ensures Ended(Turns(FixedVisits(rows, sizes), owner, cursor)) ==>
              Taken(Turns(FixedVisits(rows, sizes), owner, cursor)) == Matching(rows, owner, cursor)
    decreases |sizes|
  {
    if sizes != [] {
      var m, n := Matching(rows, owner, cursor), EffectiveSize(sizes[0]);
      FixedTurnsSplit(rows, owner, sizes, cursor);
      var rest := if |m| <= n then [] else Turns(FixedVisits(rows, sizes[1..]), owner, Some(m[n - 1]));
      if |m| > n {
        FixedTurns(rows, owner, sizes[1..], Some(m[n - 1]));
        RestOfMatches(rows, owner, cursor, n);
      }
      TakenWithRest(Turn(cursor, m, n), rest);
    }
  }

  /** Every page that is not the last delivers a file, so what is left over shrinks. */
  lemma {:induction false} FixedTurnsEnd(rows: Table, owner: string, sizes: seq<int32>, cursor: Option<Key>)
    requires |sizes| >= 1 && |sizes| >= |Matching(rows, owner, cursor)|
    ensures Ended(Turns(FixedVisits(rows, sizes), owner, cursor))
    decreases |Matching(rows, owner, cursor)|
  {
    var m, n := Matching(rows, owner, cursor), EffectiveSize(sizes[0]);
    if |m| > n {
      RestOfMatches(rows, owner, cursor, n);
      FixedTurnsEnd(rows, owner, sizes[1..], Some(m[n - 1]));
    }
    FixedTurnsSplit(rows, owner, sizes, cursor);
    EndedWithRest(Turn(cursor, m, n), if |m| <= n then [] else Turns(FixedVisits(rows, sizes[1..]), owner, Some(m[n - 1])));
  }

  /** With any mixture of page sizes a walk ends after at most max(1, m) pages. */
  lemma FixedWalkFinishes(rows: Table, owner: string, sizes: seq<int32>)
    requires ValidTable(rows) && |sizes| >= 1 && |sizes| >= |Matching(rows, owner, None)|
    ensures Finished(Walk(FixedVisits(rows, sizes), owner, ""))
  {
    FixedTurnsEnd(rows, owner, sizes, None);
    WalkIsTurns(FixedVisits(rows, sizes), owner, "", None);
  }

  /** Pages needed for m files at n a page: max(1, ceil(m / n)). */
  function PagesNeeded(m: nat, n: nat): nat
    requires n > 0
  {
    if m <= n then 1 else (m + n - 1) / n
  }

  lemma PagesNeededStep(m: nat, n: nat)
    requires 0 < n < m
    ensures PagesNeeded(m, n) == 1 + PagesNeeded(m - n, n)
  {
    PartSizes.DivBounds(m - 1, n);
    PartSizes.DivUnique(m + n - 1, n, (m - 1) / n + 1);
    if m - n <= n {
      PartSizes.DivUnique(m - 1, n, 1);
    }
  }

  /** The same count, page by page. */
  function PageCount(m: nat, n: nat): nat
    requires n > 0
  {
    if m <= n then 1 else 1 + PageCount(m - n, n)
  }

  lemma {:induction false} PageCountIsNeeded(m: nat, n: nat)
    requires n > 0
    ensures PageCount(m, n) == PagesNeeded(m, n)
  {
    if m > n {
      PageCountIsNeeded(m - n, n);
      PagesNeededStep(m, n);
    }
  }

  lemma {:induction false} FixedTurnCount(rows: Table, owner: string, sizes: seq<int32>, n: nat, cursor: Option<Key>)
    requires forall i | 0 <= i < |sizes| :: EffectiveSize(sizes[i]) == n
    requires n > 0 && |sizes| >= PageCount(|Matching(rows, owner, cursor)|, n)
    ensures var turns := Turns(FixedVisits(rows, sizes), owner, cursor);
            Ended(turns) && |turns| == PageCount(|Matching(rows, owner, cursor)|, n)
    decreases |sizes|
  {
    var m := Matching(rows, owner, cursor);
    if |m| > n {
      RestOfMatches(rows, owner, cursor, n);
      FixedTurnCount(rows, owner, sizes[1..], n, Some(m[n - 1]));
    }
    FixedTurnsSplit(rows, owner, sizes, cursor);
    EndedWithRest(Turn(cursor, m, n), if |m| <= n then [] else Turns(FixedVisits(rows, sizes[1..]), owner, Some(m[n - 1])));
  }

  /** A walk that asks for p files at a time, p in 1..100, ends after exactly max(1, ceil(m / p))
      pages; any other size counts as 20. */
  lemma FixedWalkLength(rows: Table, owner: string, sizes: seq<int32>, size: int32)
    requires ValidTable(rows) && forall i | 0 <= i < |sizes| :: sizes[i] == size
    requires |sizes| >= PagesNeeded(|Matching(rows, owner, None)|, if 1 <= size <= 100 then size else 20)
    ensures Finished(Walk(FixedVisits(rows, sizes), owner, ""))
    ensures 1 <= size <= 100 ==>
              |Walk(FixedVisits(rows, sizes), owner, "")| == PagesNeeded(|Matching(rows, owner, None)|, size)
    ensures !(1 <= size <= 100) ==>
              |Walk(FixedVisits(rows, sizes), owner, "")| == PagesNeeded(|Matching(rows, owner, None)|, 20)
  {
    var n: nat := if 1 <= size <= 100 then size else 20;
    PageCountIsNeeded(|Matching(rows, owner, None)|, n);
    FixedTurnCount(rows, owner, sizes, n, None);
    WalkIsTurns(FixedVisits(rows, sizes), owner, "", None);
  }

  lemma FilesByKey(rows: Table, files: seq<FileMetadata>)
    requires forall f | f in files :: f.id in rows && rows[f.id] == f
    ensures forall k | k in FileKeys(files) :: k.id in rows
    ensures files == Rows(rows, FileKeys(files))
  {
    assert forall i | 0 <= i < |files| :: files[i] in files && FileKeys(files)[i].id == files[i].id;
  }

  /** a is listed before b: created later, or at the same time with the greater id. */
  ghost predicate ListedBefore(a: FileMetadata, b: FileMetadata) {
    a.createdAt > b.createdAt || (a.createdAt == b.createdAt && exists n: nat :: DiffersAt(b.id, a.id, n))
  }

  lemma KeysDescend(files: seq<FileMetadata>)
    requires SortedBy(FileKeys(files), Newer)
    ensures forall i, j | 0 <= i < j < |files| :: ListedBefore(files[i], files[j])
  {
    forall i, j | 0 <= i < j < |files| ensures ListedBefore(files[i], files[j]) {
      assert Newer(FileKeys(files)[i], FileKeys(files)[j]);
      TextBeforeIff(files[j].id, files[i].id);
    }
  }

  /** Exactly the owner's live files are among the rows of the matches. */
  lemma MatchesAreLive(rows: Table, owner: string, m: seq<Key>, f: FileMetadata)
    requires ValidTable(rows) && Matches(m, rows, owner, None) && forall k | k in m :: k.id in rows
    ensures f in Rows(rows, m) <==> f.id in rows && rows[f.id] == f && f.owner == owner && f.status != Deleted
  {
    var files := Rows(rows, m);
    if f in files {
      var i :| 0 <= i < |files| && files[i] == f;
      assert m[i] in m;
    }
    if f.id in rows && rows[f.id] == f && f.owner == owner && f.status != Deleted {
      assert FileKey(f) in m;
      var i :| 0 <= i < |m| && m[i] == FileKey(f);
      assert files[i] == f;
    }
  }

  /** Concatenating the pages of a finished walk, for any requested sizes, gives exactly the
      owner's live files, newest first; an unfinished walk has delivered the first of them. */
  lemma FixedTableListing(rows: Table, owner: string, sizes: seq<int32>)
    requires ValidTable(rows)
    ensures var pages := Walk(FixedVisits(rows, sizes), owner, "");
            var files := Delivered(pages);
            && (forall i, j | 0 <= i < j < |files| :: ListedBefore(files[i], files[j]))
            && FileKeys(files) <= Matching(rows, owner, None)
            && (Finished(pages) ==>
                  forall f :: f in files <==> f.id in rows && rows[f.id] == f && f.owner == owner && f.status != Deleted)
  {
    var visits, files, m := FixedVisits(rows, sizes), Delivered(Walk(FixedVisits(rows, sizes), owner, "")),
                            Matching(rows, owner, None);
    WalkDescends(visits, owner, "", None);
    KeysDescend(files);
    WalkDeliversRows(visits, owner, "", None);
    forall f | f in files ensures f.id in rows && rows[f.id] == f {
      assert RowOfVisit(visits, f);
    }
    FilesByKey(rows, files);
    MatchingFacts(rows, owner, None);
    FixedTurns(rows, owner, sizes, None);
    WalkIsTurns(visits, owner, "", None);
    forall f | Finished(Walk(visits, owner, ""))
      ensures f in files <==> f.id in rows && rows[f.id] == f && f.owner == owner && f.status != Deleted
    {
      MatchesAreLive(rows, owner, m, f);
    }
  }
}
