/** Listing while the service runs: a token-following walk whose pages are read at successive
    moments of an interleaved run. */
module LiveWalk {
  import opened Domain
  import opened Protocol
  import opened Lifecycle
  import opened Pagination
  import OwnerFrame

  /** Page i is read after moments[i] actions of the run, with requested size sizes[i]. */
  ghost predicate Schedule(actions: seq<Action>, moments: seq<nat>, sizes: seq<int32>) {
    && |moments| == |sizes|
    && (forall i | 0 <= i < |moments| :: moments[i] <= |actions|)
    && (forall i, j | 0 <= i < j < |moments| :: moments[i] <= moments[j])
  }

  ghost function Reads(cfg: Config, actions: seq<Action>, moments: seq<nat>, sizes: seq<int32>): seq<Visit>
    requires Schedule(actions, moments, sizes)
  {
    seq(|moments|, i requires 0 <= i < |moments| =>
      Visit(Run(cfg, INIT, actions[..moments[i]]).store.rows, sizes[i]))
  }

  lemma TableIsValid(cfg: Config, actions: seq<Action>)
    ensures ValidTable(Run(cfg, INIT, actions).store.rows)
  {
    var sys := Run(cfg, INIT, actions);
    assert Reachable(cfg, sys);
    ReachableInv(cfg, sys);
    OwnerFrame.IdentitiesHold(cfg, sys);
    forall id | id in sys.store.rows ensures OwnerFrame.IdentityOk(sys.store.rows[id]) {
    }
  }

  lemma KeyNeverChanges(cfg: Config, actions: seq<Action>, m: nat, n: nat, id: string)
    requires m <= n <= |actions|
    requires id in Run(cfg, INIT, actions[..m]).store.rows
    ensures id in Run(cfg, INIT, actions[..n]).store.rows
    ensures Run(cfg, INIT, actions[..n]).store.rows[id].createdAt == Run(cfg, INIT, actions[..m]).store.rows[id].createdAt
  {
    assert actions[..m] + actions[m..n] == actions[..n];
    RowsOnlyMoveForward(cfg, actions[..m], actions[m..n], id);
  }

  lemma ReadsAreConsistent(cfg: Config, actions: seq<Action>, moments: seq<nat>, sizes: seq<int32>)
    requires Schedule(actions, moments, sizes)
    ensures ValidVisits(Reads(cfg, actions, moments, sizes))
    ensures KeysImmutable(Reads(cfg, actions, moments, sizes))
  {
    var visits := Reads(cfg, actions, moments, sizes);
    forall i | 0 <= i < |visits| ensures ValidTable(visits[i].rows) {
      TableIsValid(cfg, actions[..moments[i]]);
    }
    forall i, j, id | 0 <= i < |visits| && 0 <= j < |visits| && id in visits[i].rows && id in visits[j].rows
      ensures visits[i].rows[id].createdAt == visits[j].rows[id].createdAt
    {
      if i < j {
        KeyNeverChanges(cfg, actions, moments[i], moments[j], id);
      } else if j < i {
        KeyNeverChanges(cfg, actions, moments[j], moments[i], id);
      }
    }
  }

  /** While files are created, confirmed and deleted in any interleaving between the pages, and
      for any requested sizes, a walk returns no file twice. */
  lemma NoFileTwice(cfg: Config, actions: seq<Action>, moments: seq<nat>, sizes: seq<int32>, owner: string, x: nat, y: nat)
    requires Schedule(actions, moments, sizes)
    requires x < y < |Delivered(Walk(Reads(cfg, actions, moments, sizes), owner, ""))|
    ensures Delivered(Walk(Reads(cfg, actions, moments, sizes), owner, ""))[x].id !=
            Delivered(Walk(Reads(cfg, actions, moments, sizes), owner, ""))[y].id
  {
    ReadsAreConsistent(cfg, actions, moments, sizes);
    WalkNeverRepeats(Reads(cfg, actions, moments, sizes), owner, x, y);
  }

  lemma OnlyPlace(visits: seq<Visit>, owner: string, x: nat)
    requires ValidVisits(visits) && KeysImmutable(visits) && x < |Delivered(Walk(visits, owner, ""))|
    ensures var d := Delivered(Walk(visits, owner, ""));
            forall y | 0 <= y < |d| && y != x :: d[y].id != d[x].id
  {
    var d := Delivered(Walk(visits, owner, ""));
    forall y | 0 <= y < |d| && y != x ensures d[y].id != d[x].id {
      if y < x { WalkNeverRepeats(visits, owner, y, x); } else { WalkNeverRepeats(visits, owner, x, y); }
    }
  }

  lemma StatusBetween(cfg: Config, actions: seq<Action>, a: nat, b: nat, id: string)
    requires a <= b <= |actions| && id in Run(cfg, INIT, actions[..a]).store.rows
    ensures id in Run(cfg, INIT, actions[..b]).store.rows
    ensures var f, g := Run(cfg, INIT, actions[..a]).store.rows[id], Run(cfg, INIT, actions[..b]).store.rows[id];
            f.owner == g.owner && Rank(f.status) <= Rank(g.status)
  {
    assert actions[..a] + actions[a..b] == actions[..b];
    RowsOnlyMoveForward(cfg, actions[..a], actions[a..b], id);
  }

  /** A file live at two moments is live in between: deletion is final. */
  lemma LiveBetween(cfg: Config, actions: seq<Action>, a: nat, b: nat, c: nat, owner: string, id: string)
    requires a <= b <= c <= |actions|
    requires Live(Run(cfg, INIT, actions[..a]).store.rows, owner, id)
    requires Live(Run(cfg, INIT, actions[..c]).store.rows, owner, id)
    ensures Live(Run(cfg, INIT, actions[..b]).store.rows, owner, id)
  {
    StatusBetween(cfg, actions, a, b, id);
    StatusBetween(cfg, actions, b, c, id);
  }

  /** A file that was there at the first page and is not deleted by the last page of a walk that
      reached its end was returned, at exactly one place. */
  lemma LastingFileReturnedOnce(cfg: Config, actions: seq<Action>, moments: seq<nat>, sizes: seq<int32>, owner: string, id: string)
    requires Schedule(actions, moments, sizes) && moments != []
    requires Finished(Walk(Reads(cfg, actions, moments, sizes), owner, ""))
    requires Live(Run(cfg, INIT, actions[..moments[0]]).store.rows, owner, id)
    requires Live(Run(cfg, INIT, actions[..moments[|moments| - 1]]).store.rows, owner, id)
    ensures exists x ::
              && 0 <= x < |Delivered(Walk(Reads(cfg, actions, moments, sizes), owner, ""))|
              && Delivered(Walk(Reads(cfg, actions, moments, sizes), owner, ""))[x].id == id
              && forall y | 0 <= y < |Delivered(Walk(Reads(cfg, actions, moments, sizes), owner, ""))| && y != x ::
                   Delivered(Walk(Reads(cfg, actions, moments, sizes), owner, ""))[y].id != id
  {
    var visits := Reads(cfg, actions, moments, sizes);
    ReadsAreConsistent(cfg, actions, moments, sizes);
    var n := |moments| - 1;
    forall i | 0 <= i < |visits| ensures Live(visits[i].rows, owner, id) {
      LiveBetween(cfg, actions, moments[0], moments[i], moments[n], owner, id);
    }
    FinishedWalkIsComplete(visits, owner, id);
    var d := Delivered(Walk(visits, owner, ""));
    var x :| 0 <= x < |d| && d[x].id == id;
    OnlyPlace(visits, owner, x);
  }
}
