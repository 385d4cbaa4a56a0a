/**
 The main page's favorite-lookup map: a record from track id to a flag,
 built once from the track list by a `reduce` and changed afterwards only by
 `toggleFavorite`, which flips one entry.
 */
module FavoriteMap {
  import opened Tracks

  /** The `favorites` state: track id to "is a favorite". */
  type Favorites = map<Id, bool>

  /** What the pages read as `favorites[id]` in a boolean position: a key
      that was never recorded is `undefined`, which JavaScript treats as
      false. */
  function Lookup(m: Favorites, id: Id): (b: bool)
    ensures b ==> id in m
    ensures id in m ==> b == m[id]
  {
    id in m && m[id]
  }

  /** The `reduce` callback applied left to right: each track records its
      `favorite` flag under its id, overwriting what an earlier track with
      the same id recorded. */
  function FoldFavorites(acc: Favorites, ts: seq<Track>): (r: Favorites)
    ensures r.Keys == acc.Keys + Ids(ts)
    decreases |ts|
  {
    if |ts| == 0 then acc
    else
      IdsCons(ts);
      FoldFavorites(acc[ts[0].id := ts[0].favorite], ts[1..])
  }

  /** The initial `favorites` state, folded from the empty record. Its keys
      are exactly the ids of the list. */
  function InitFavorites(ts: seq<Track>): (r: Favorites)
    ensures r.Keys == Ids(ts)
  {
    FoldFavorites(map[], ts)
  }

  /** Keys the list never mentions keep the value the accumulator had. */
  lemma {:induction false} FoldKeepsUnlisted(acc: Favorites, ts: seq<Track>, k: Id)
    requires k in acc && k !in Ids(ts)
    ensures FoldFavorites(acc, ts)[k] == acc[k]
    decreases |ts|
  {
    if |ts| > 0 {
      IdsCons(ts);
      FoldKeepsUnlisted(acc[ts[0].id := ts[0].favorite], ts[1..], k);
    }
  }

  /** After the fold, every id holds the `favorite` flag of the LAST track
      carrying that id. */
  lemma {:induction false} FoldRecordsLast(acc: Favorites, ts: seq<Track>, i: nat)
    requires i < |ts| && IsLastWithId(ts, i)
    ensures FoldFavorites(acc, ts)[ts[i].id] == ts[i].favorite
    decreases |ts|
  {
    var acc' := acc[ts[0].id := ts[0].favorite];
    IdsCons(ts);
    if i == 0 {
      assert ts[0].id !in Ids(ts[1..]) by {
        forall j | 0 <= j < |ts[1..]|
          ensures ts[1..][j].id != ts[0].id
        {
          assert ts[1..][j] == ts[j + 1];
        }
      }
      FoldKeepsUnlisted(acc', ts[1..], ts[0].id);
    } else {
      assert IsLastWithId(ts[1..], i - 1) by {
        forall j | i - 1 < j < |ts[1..]|
          ensures ts[1..][j].id != ts[1..][i - 1].id
        {
          assert ts[1..][j] == ts[j + 1];
        }
      }
      FoldRecordsLast(acc', ts[1..], i - 1);
    }
  }

  /** The initial map agrees with the list at the last occurrence of each
      id, and, read through `Lookup`, gives every other id false. */
  lemma InitRecordsLast(ts: seq<Track>)
    ensures forall i :: 0 <= i < |ts| && IsLastWithId(ts, i) ==>
      InitFavorites(ts)[ts[i].id] == ts[i].favorite
    ensures forall k :: k !in Ids(ts) ==> !Lookup(InitFavorites(ts), k)
  {
    forall i | 0 <= i < |ts| && IsLastWithId(ts, i)
      ensures InitFavorites(ts)[ts[i].id] == ts[i].favorite
    {
      FoldRecordsLast(map[], ts, i);
    }
  }

  /** With pairwise distinct ids (as in the seed list) every track's flag
      is recorded under its id. */
  lemma InitRecordsFavorite(ts: seq<Track>)
    requires DistinctIds(ts)
    ensures forall t :: t in ts ==> InitFavorites(ts)[t.id] == t.favorite
    ensures forall t :: t in ts ==> Lookup(InitFavorites(ts), t.id) == t.favorite
  {
    InitRecordsLast(ts);
    forall t | t in ts
      ensures InitFavorites(ts)[t.id] == t.favorite
    {
      var i :| 0 <= i < |ts| && ts[i] == t;
      assert IsLastWithId(ts, i);
    }
  }

  /** With pairwise distinct ids the `reduce` never overwrites: the map has
      one entry per track. */
  lemma InitNeverOverwrites(ts: seq<Track>)
    requires DistinctIds(ts)
    ensures |InitFavorites(ts)| == |ts|
  {
    DistinctIdsCount(ts);
    assert |InitFavorites(ts)| == |InitFavorites(ts).Keys|;
  }

  /** `toggleFavorite(id)`: the entry for `id` becomes the negation of what
      it read before (a missing entry reads false, so it becomes true); every
      other entry, present or absent, is left as it was. */
  function Toggle(m: Favorites, id: Id): (r: Favorites)
    ensures r.Keys == m.Keys + {id}
    ensures r[id] == !Lookup(m, id)
    ensures Lookup(r, id) != Lookup(m, id)
    ensures forall k :: k != id && k in m ==> r[k] == m[k]
    ensures forall k :: k != id ==> Lookup(r, k) == Lookup(m, k)
  {
    m[id := !Lookup(m, id)]
  }

  /** Toggling a recorded id twice restores the map exactly. */
  lemma ToggleTwiceRestores(m: Favorites, id: Id)
    requires id in m
    ensures Toggle(Toggle(m, id), id) == m
  {
  }

  /** Toggling an unrecorded id twice leaves an explicit false entry behind,
      which every page reads exactly as it read the missing one. */
  lemma ToggleTwiceUnrecorded(m: Favorites, id: Id)
    requires id !in m
    ensures Toggle(Toggle(m, id), id) == m[id := false]
    ensures Toggle(Toggle(m, id), id) != m
    ensures forall k :: Lookup(Toggle(Toggle(m, id), id), k) == Lookup(m, k)
  {
  }

  /** Toggles commute: the order of two toggles never matters. */
  lemma ToggleCommutes(m: Favorites, a: Id, b: Id)
    ensures Toggle(Toggle(m, a), b) == Toggle(Toggle(m, b), a)
  {
  }
}
