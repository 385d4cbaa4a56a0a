/**
 The five example tracks the main page is seeded with, the favorite map it
 builds from them, and what the three tabs would hold for them.
 */
module Seed {
  import opened Tracks
  import opened Filtering
  import opened FavoriteMap
  import opened TrackViews

  /** The seed list. Its numeric ids 1 to 5 become the keys "1" to "5" of
      the favorite record; the seed records carry no `archived` field, which
      reads as false. */
  function SeedTracks(): (ts: seq<Track>)
    ensures |ts| == 5
    ensures forall i :: 0 <= i < |ts| ==> !ts[i].archived
    ensures ts[0].id == "1" && ts[1].id == "2" && ts[2].id == "3" && ts[3].id == "4" && ts[4].id == "5"
    ensures ts[1].favorite && ts[3].favorite && !ts[0].favorite && !ts[2].favorite && !ts[4].favorite
  {
    [ Track("1", "Track 1", "Data Structures & Algorithms", "#E3F2FD", "#2196F3", false, false),
      Track("2", "Track 2", "Calculus III & Linear Algebra", "#E8F5E9", "#4CAF50", true, false),
      Track("3", "Track 3", "Organic Chemistry II", "#F3E5F5", "#9C27B0", false, false),
      Track("4", "Track 4", "Modern American Literature", "#FFF3E0", "#FF9800", true, false),
      Track("5", "Track 5", "Cognitive Psychology", "#EDE7F6", "#673AB7", false, false) ]
  }

  /** The seed ids are pairwise distinct, so the `reduce` never overwrites
      an entry. */
  lemma SeedIdsDistinct()
    ensures DistinctIds(SeedTracks())
    ensures |InitFavorites(SeedTracks())| == |SeedTracks()|
  {
    var ts := SeedTracks();
    assert forall i, j :: 0 <= i < j < |ts| ==> ts[i].id[0] != ts[j].id[0];
    InitNeverOverwrites(ts);
  }

  /** The initial favorite record of the main page: tracks 2 and 4 marked,
      the other three recorded as not marked. */
  lemma SeedInitialFavorites()
    ensures InitFavorites(SeedTracks()) == map["1" := false, "2" := true, "3" := false, "4" := true, "5" := false]
  {
    var ts := SeedTracks();
    SeedIdsDistinct();
    InitRecordsFavorite(ts);
    var m := InitFavorites(ts);
    var expected := map["1" := false, "2" := true, "3" := false, "4" := true, "5" := false];
    assert ts[0] in ts && ts[1] in ts && ts[2] in ts && ts[3] in ts && ts[4] in ts;
    assert m.Keys == expected.Keys by {
      forall k | k in m
        ensures k in expected
      {
        var i :| 0 <= i < |ts| && ts[i].id == k;
      }
    }
  }

  /** The seed tracks whose own flag is set and that are not archived are
      tracks 2 and 4, in that order. */
  lemma SeedFlagged()
    ensures Filter(SeedTracks(), IsFlaggedFavorite) == [SeedTracks()[1], SeedTracks()[3]]
  {
  }

  /** Given the seed list and its initial map as props (the connection the
      planner leaves unwritten), the Recent tab would show all five tracks
      and the Archive page its empty-state notice. */
  lemma SeedRecentAndArchive()
    ensures Recent(Load(SeedTracks()).tracks) == SeedTracks()
    ensures ArchivePage(Load(SeedTracks())) == EmptyState
  {
    SeedNoneArchived();
    FilterKeepsAll(SeedTracks(), IsRecent);
  }

  /** No seed record is archived. */
  lemma SeedNoneArchived()
    ensures forall t :: t in SeedTracks() ==> !t.archived
  {
  }

  /** Given the seed list and its initial map as props (the connection the
      planner leaves unwritten), the Favorites page would show tracks 2 and 4,
      in that order. */
  lemma SeedFavoritesPage()
    ensures FavoritesPage(Load(SeedTracks())) == Cards([SeedTracks()[1], SeedTracks()[3]])
  {
    var ts := SeedTracks();
    SeedIdsDistinct();
    LoadedFavoritesMatchFlags(ts);
    SeedFlagged();
  }
}
