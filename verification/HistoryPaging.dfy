// TransferHistory::listing: pages over the union of live and archived transfers, newest first, with a
// cursor that names the last row of the page before.
module HistoryPaging {
  import opened Options
  import TransferRemoval

  datatype Key = Key(created: nat, id: nat)

  /** The order of the listing: created_at and then id, both descending. */
  predicate Above(a: Key, b: Key)
  {
    a.created > b.created || (a.created == b.created && a.id > b.id)
  }

  ghost predicate Descending(s: seq<Key>)
  {
    forall i, j | 0 <= i < j < |s| :: Above(s[i], s[j])
  }

  function Below(rows: set<Key>, cursor: Option<Key>): set<Key>
  {
    match cursor case None => rows case Some(c) => set k <- rows | Above(c, k)
  }

  lemma {:induction false} TopExists(rows: set<Key>) returns (top: Key)
    requires rows != {}
    ensures top in rows && forall k <- rows | k != top :: Above(top, k)
    decreases rows
  {
    var first :| first in rows;
    if rows == {first} {
      top := first;
    } else {
      var other := TopExists(rows - {first});
      top := if Above(first, other) then first else other;
      forall k <- rows | k != top ensures Above(top, k) {
        assert k == first || k in rows - {first};
      }
    }
  }

  ghost function Top(rows: set<Key>): (top: Key)
    requires rows != {}
    ensures top in rows && forall k <- rows | k != top :: Above(top, k)
  {
    TopOf(rows);
    var top :| top in rows && forall k <- rows | k != top :: Above(top, k);
    top
  }

  lemma TopOf(rows: set<Key>)
    requires rows != {}
    ensures exists top :: top in rows && forall k <- rows | k != top :: Above(top, k)
  {
    var top := TopExists(rows);
  }

  /** The first n rows in listing order. */
  ghost function Firsts(rows: set<Key>, n: nat): (page: seq<Key>)
    ensures |page| <= n && forall k <- page :: k in rows
  {
    if n == 0 || rows == {} then [] else [Top(rows)] + Firsts(rows - {Top(rows)}, n - 1)
  }

  lemma {:induction false} FirstsAreFirst(rows: set<Key>, n: nat)
    ensures Descending(Firsts(rows, n))
    ensures forall k <- rows | k !in Firsts(rows, n) :: |Firsts(rows, n)| == n && forall j <- Firsts(rows, n) :: Above(j, k)
    ensures Firsts(rows, n) == [] <==> n == 0 || rows == {}
    ensures |rows| <= n ==> forall k <- rows :: k in Firsts(rows, n)
  {
    EmptyIsZero(rows);
    if n > 0 && rows != {} {
      var top := Top(rows);
      assert |rows - {top}| == |rows| - 1;
      FirstsAreFirst(rows - {top}, n - 1);
      TopFirst(rows, top, Firsts(rows - {top}, n - 1), n);
      assert Firsts(rows, n) == [top] + Firsts(rows - {top}, n - 1);
    }
  }

  lemma TopFirst(rows: set<Key>, top: Key, page: seq<Key>, n: nat)
    requires n > 0 && top in rows && forall k <- rows | k != top :: Above(top, k)
    requires Descending(page) && forall k <- page :: k in rows - {top}
    requires forall k <- rows - {top} | k !in page :: |page| == n - 1 && forall j <- page :: Above(j, k)
    ensures Descending([top] + page)
    ensures forall k <- rows | k !in [top] + page :: |[top] + page| == n && forall j <- [top] + page :: Above(j, k)
  {
    forall j | 0 <= j < |page| ensures Above(top, page[j]) {
      assert page[j] in page;
    }
    forall k <- rows | k !in [top] + page ensures |page| == n - 1 && forall j <- [top] + page :: Above(j, k) {
      assert k != ([top] + page)[0];
      assert k !in page by {
        assert forall i | 0 <= i < |page| :: ([top] + page)[i + 1] == page[i];
      }
    }
  }

  lemma EmptyIsZero(rows: set<Key>)
    ensures |rows| == 0 <==> rows == {}
  {
  }

  ghost function Page(rows: set<Key>, cursor: Option<Key>, n: nat): seq<Key>
  {
    Firsts(Below(rows, cursor), n)
  }

  /** A page has a next cursor exactly if more rows follow than fit on it. */
  ghost predicate HasNext(rows: set<Key>, cursor: Option<Key>, n: nat)
  {
    |Below(rows, cursor)| > n
  }

  /** Pages fetched one after another, each from its own snapshot of the table, until one has no next
      cursor. */
  ghost function Walk(snapshots: seq<set<Key>>, cursor: Option<Key>, n: nat): seq<Key>
    requires n > 0
  {
    if snapshots == [] then []
    else
      var page := Page(snapshots[0], cursor, n);
      if !HasNext(snapshots[0], cursor, n) then page
      else
        FirstsAreFirst(Below(snapshots[0], cursor), n);
        page + Walk(snapshots[1..], Some(page[|page| - 1]), n)
  }

  ghost predicate Ends(snapshots: seq<set<Key>>, cursor: Option<Key>, n: nat)
    requires n > 0
  {
    snapshots != []
    && var page := Page(snapshots[0], cursor, n);
       HasNext(snapshots[0], cursor, n) ==> page != [] && Ends(snapshots[1..], Some(page[|page| - 1]), n)
  }

  lemma {:induction false} WalkDescends(snapshots: seq<set<Key>>, cursor: Option<Key>, n: nat)
    requires n > 0
    ensures Descending(Walk(snapshots, cursor, n))
    ensures cursor.Some? ==> forall k <- Walk(snapshots, cursor, n) :: Above(cursor.value, k)
  {
    if snapshots != [] {
      var page := Page(snapshots[0], cursor, n);
      FirstsAreFirst(Below(snapshots[0], cursor), n);
      if HasNext(snapshots[0], cursor, n) {
        var last := page[|page| - 1];
        WalkDescends(snapshots[1..], Some(last), n);
        assert last in page;
        Concatenated(page, Walk(snapshots[1..], Some(last), n), cursor);
      }
    }
  }

  lemma Concatenated(page: seq<Key>, more: seq<Key>, cursor: Option<Key>)
    requires page != [] && Descending(page) && Descending(more) && forall k <- more :: Above(page[|page| - 1], k)
    requires cursor.Some? ==> forall k <- page :: Above(cursor.value, k)
    ensures Descending(page + more)
    ensures cursor.Some? ==> forall k <- page + more :: Above(cursor.value, k)
  {
    forall i, j | 0 <= i < |page| && 0 <= j < |more| ensures Above(page[i], more[j]) {
      var last := page[|page| - 1];
      assert more[j] in more && Above(last, more[j]);
      assert i == |page| - 1 || Above(page[i], last);
    }
    assert page[|page| - 1] in page;
  }

  lemma {:induction false} WalkFinds(snapshots: seq<set<Key>>, cursor: Option<Key>, n: nat, k: Key)
    requires n > 0 && Ends(snapshots, cursor, n)
    requires forall s <- snapshots :: k in s
    requires cursor.Some? ==> Above(cursor.value, k)
    ensures k in Walk(snapshots, cursor, n)
  {
    var page := Page(snapshots[0], cursor, n);
    FirstsAreFirst(Below(snapshots[0], cursor), n);
    assert k in Below(snapshots[0], cursor);
    if HasNext(snapshots[0], cursor, n) && k !in page {
      assert page[|page| - 1] in page;
      WalkFinds(snapshots[1..], Some(page[|page| - 1]), n, k);
    }
  }

  /** Unfiltered paging is stable: whatever is archived, added or purged between the requests, a walk
      that reaches its end has shown every row that was there all along exactly once, in order, and no
      row twice. */
  lemma WalkShowsEverythingOnce(snapshots: seq<set<Key>>, n: nat, k: Key)
    requires n > 0 && Ends(snapshots, None, n) && forall s <- snapshots :: k in s
    ensures var shown := Walk(snapshots, None, n);
            && Descending(shown)
            && (exists i :: 0 <= i < |shown| && shown[i] == k)
            && (forall i, j | 0 <= i < |shown| && 0 <= j < |shown| && shown[i] == shown[j] :: i == j)
  {
    WalkDescends(snapshots, None, n);
    WalkFinds(snapshots, None, n, k);
  }

  // ---------------------------------------------------------------- the rows of one owner

  ghost function LiveKeys(s: TransferRemoval.State, owner: nat): set<Key>
  {
    set id <- s.transfers | s.transfers[id].owner == Some(owner) :: Key(s.transfers[id].created, id)
  }

  ghost function ArchivedKeys(s: TransferRemoval.State, owner: nat): set<Key>
  {
    set id <- s.history | s.history[id].owner == owner :: Key(s.history[id].created, id)
  }

  ghost function View(s: TransferRemoval.State, owner: nat): set<Key>
  {
    LiveKeys(s, owner) + ArchivedKeys(s, owner)
  }

  lemma InLive(s: TransferRemoval.State, owner: nat, k: Key)
    ensures k in LiveKeys(s, owner) <==>
              k.id in s.transfers && s.transfers[k.id].owner == Some(owner) && s.transfers[k.id].created == k.created
  {
  }

  lemma InArchived(s: TransferRemoval.State, owner: nat, k: Key)
    ensures k in ArchivedKeys(s, owner) <==>
              k.id in s.history && s.history[k.id] == TransferRemoval.Entry(owner, k.created)
  {
  }

  /** What may take a row out of an owner's listing: the end of its time in the archive, or of the account. */
  predicate Withdraws(e: TransferRemoval.Event, owner: nat, id: nat)
  {
    e == TransferRemoval.Purge(id) || e == TransferRemoval.DeleteAccount(owner)
  }

  /** Archiving moves a row from one half of the union to the other without the listing noticing: while
      the account stands, no event of any run takes a row out of the owner's view except the end of its
      retention, and the halves never share a row. */
  lemma ViewOnlyGrows(events: seq<TransferRemoval.Event>, e: TransferRemoval.Event, owner: nat, k: Key)
    requires k in View(TransferRemoval.AfterAll(events), owner) && !Withdraws(e, owner, k.id)
    ensures k in View(TransferRemoval.After(TransferRemoval.AfterAll(events), e), owner)
    ensures LiveKeys(TransferRemoval.AfterAll(events), owner) !! ArchivedKeys(TransferRemoval.AfterAll(events), owner)
  {
    var s := TransferRemoval.AfterAll(events);
    var t := TransferRemoval.After(s, e);
    InLive(s, owner, k);
    InLive(t, owner, k);
    InArchived(s, owner, k);
    InArchived(t, owner, k);
    TransferRemoval.RowsVanishOnlyByFinishing(events, e, k.id);
    TransferRemoval.OwnerChangesOnlyWithAccount(events, e, k.id);
    if k.id in s.transfers && k.id !in t.transfers {
      TransferRemoval.FinishingArchives(events, e, k.id);
    }
    HalvesAreDisjoint(events, owner);
  }

  lemma HalvesAreDisjoint(events: seq<TransferRemoval.Event>, owner: nat)
    ensures LiveKeys(TransferRemoval.AfterAll(events), owner) !! ArchivedKeys(TransferRemoval.AfterAll(events), owner)
  {
    var s := TransferRemoval.AfterAll(events);
    forall k <- LiveKeys(s, owner) ensures k !in ArchivedKeys(s, owner) {
      InLive(s, owner, k);
      InArchived(s, owner, k);
      TransferRemoval.RemovalIsComplete(events, k.id);
    }
  }

  // ---------------------------------------------------------------- a walk along a run

  /** The owner's view after the first `n` events of a run. */
  ghost function ViewAt(events: seq<TransferRemoval.Event>, owner: nat, n: nat): set<Key>
    requires n <= |events|
  {
    View(TransferRemoval.AfterAll(events[..n]), owner)
  }

  ghost predicate Ascending(times: seq<nat>, n: nat)
  {
    (forall i | 0 <= i < |times| :: times[i] <= n) && forall i, j | 0 <= i < j < |times| :: times[i] <= times[j]
  }

  ghost function Snapshots(events: seq<TransferRemoval.Event>, owner: nat, times: seq<nat>): seq<set<Key>>
    requires Ascending(times, |events|)
  {
    seq(|times|, i requires 0 <= i < |times| => ViewAt(events, owner, times[i]))
  }

  lemma {:induction false} ViewLasts(events: seq<TransferRemoval.Event>, owner: nat, k: Key, first: nat, last: nat)
    requires first <= last <= |events| && k in ViewAt(events, owner, first)
    requires forall i | first <= i < last :: !Withdraws(events[i], owner, k.id)
    ensures k in ViewAt(events, owner, last)
    decreases last
  {
    if first < last {
      ViewLasts(events, owner, k, first, last - 1);
      assert events[..last][..last - 1] == events[..last - 1];
      ViewOnlyGrows(events[..last - 1], events[last - 1], owner, k);
    }
  }

  /** Requests for pages at any moments of any run of uploads, deletions and archivings: a walk that
      reaches its end has shown every row of the owner that was there at the first request and was not
      withdrawn before the last, exactly once and in order, whether it was archived meanwhile or not. */
  lemma WalkAlongRun(events: seq<TransferRemoval.Event>, owner: nat, times: seq<nat>, n: nat, k: Key)
    requires n > 0 && times != [] && Ascending(times, |events|) && Ends(Snapshots(events, owner, times), None, n)
    requires k in ViewAt(events, owner, times[0])
    requires forall i | times[0] <= i < times[|times| - 1] :: !Withdraws(events[i], owner, k.id)
    ensures var shown := Walk(Snapshots(events, owner, times), None, n);
            && (forall i, j | 0 <= i < j < |shown| ::
                  shown[i].created > shown[j].created || (shown[i].created == shown[j].created && shown[i].id > shown[j].id))
            && (exists i :: 0 <= i < |shown| && shown[i] == k)
            && (forall i, j | 0 <= i < |shown| && 0 <= j < |shown| && shown[i] == shown[j] :: i == j)
  {
    var snapshots := Snapshots(events, owner, times);
    forall s <- snapshots ensures k in s {
      var i :| 0 <= i < |snapshots| && snapshots[i] == s;
      assert times[i] <= times[|times| - 1] || i == |times| - 1;
      ViewLasts(events, owner, k, times[0], times[i]);
    }
    WalkShowsEverythingOnce(snapshots, n, k);
  }
}
