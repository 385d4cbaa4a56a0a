/**
 The three tabs the planner derives from one track list and the favorite
 map: Recent (not archived), Favorites (map says true and not archived) and
 Archive (archived), each a `filter` of the list, plus the empty-state
 choice the Favorites and Archive pages make.
 */
module TrackViews {
  import opened Tracks
  import opened Filtering
  import opened FavoriteMap

  /** The props every tab page declares: a track list and a favorite map.
      No page of the planner renders the tab pages, so nothing fixes which
      list and map they get; the lemmas about `Load` assume the main page's
      `tracks` and `favorites` are the ones passed. */
  datatype ViewModel = ViewModel(tracks: seq<Track>, favorites: Favorites)

  /** What a Favorites or Archive page shows: the empty-state notice, or one
      card per track, in list order. */
  datatype Screen = EmptyState | Cards(shown: seq<Track>)

  /** The main page's state right after mounting: its list, and the map the
      `reduce` builds from it, taken as the props a tab page would get. */
  function Load(ts: seq<Track>): (vm: ViewModel)
    ensures vm.tracks == ts
    ensures vm.favorites.Keys == Ids(ts)
  {
    ViewModel(ts, InitFavorites(ts))
  }

  /** A favorite button click: only the map changes. */
  function ToggleFavorite(vm: ViewModel, id: Id): (r: ViewModel)
    ensures r.tracks == vm.tracks
    ensures Lookup(r.favorites, id) == !Lookup(vm.favorites, id)
    ensures forall k :: k != id ==> Lookup(r.favorites, k) == Lookup(vm.favorites, k)
  {
    vm.(favorites := Toggle(vm.favorites, id))
  }

  predicate IsRecent(t: Track) {
    !t.archived
  }

  predicate IsArchived(t: Track) {
    t.archived
  }

  /** The test the track's own flags would give: marked and not archived. */
  predicate IsFlaggedFavorite(t: Track) {
    t.favorite && !t.archived
  }

  /** The Favorites page's test. It reads the map, never the track's own
      `favorite` field, and an archived track fails it whatever the map
      says. */
  predicate IsShownFavorite(m: Favorites, t: Track) {
    Lookup(m, t.id) && !t.archived
  }

  /** `recentTracks`: the tracks that are not archived. */
  function Recent(ts: seq<Track>): (r: seq<Track>)
    ensures forall t :: t in r <==> t in ts && !t.archived
    ensures |r| <= |ts|
  {
    Filter(ts, IsRecent)
  }

  /** `archivedTracks`: the archived tracks. */
  function Archive(ts: seq<Track>): (r: seq<Track>)
    ensures forall t :: t in r <==> t in ts && t.archived
    ensures |r| <= |ts|
  {
    Filter(ts, IsArchived)
  }

  /** `favoriteTracks`: the tracks the map marks as favorites, except the
      archived ones. */
  function FavoriteTracks(ts: seq<Track>, m: Favorites): (r: seq<Track>)
    ensures forall t :: t in r <==> t in ts && Lookup(m, t.id) && !t.archived
    ensures forall t :: t in r ==> t.id in m && m[t.id]
    ensures |r| <= |ts|
  {
    Filter(ts, t => IsShownFavorite(m, t))
  }

  /** The Favorites page: the empty-state notice exactly when no track
      passes its filter, otherwise the filtered cards. */
  function FavoritesPage(vm: ViewModel): (r: Screen)
    ensures r.EmptyState? <==> forall t :: t in vm.tracks ==> !(Lookup(vm.favorites, t.id) && !t.archived)
    ensures r.Cards? ==> |r.shown| > 0 && r.shown == FavoriteTracks(vm.tracks, vm.favorites)
  {
    var favoriteTracks := FavoriteTracks(vm.tracks, vm.favorites);
    if |favoriteTracks| == 0 then EmptyState
    else assert favoriteTracks[0] in favoriteTracks; Cards(favoriteTracks)
  }

  /** The Archive page: the empty-state notice exactly when no track is
      archived, otherwise the archived cards. */
  function ArchivePage(vm: ViewModel): (r: Screen)
    ensures r.EmptyState? <==> forall t :: t in vm.tracks ==> !t.archived
    ensures r.Cards? ==> |r.shown| > 0 && r.shown == Archive(vm.tracks)
  {
    var archivedTracks := Archive(vm.tracks);
    if |archivedTracks| == 0 then EmptyState
    else assert archivedTracks[0] in archivedTracks; Cards(archivedTracks)
  }

  /** Recent and Archive split the list: every track is in exactly one of
      them, their lengths add up to the list's, and together they hold each
      track as many times as the list does. */
  lemma RecentArchivePartition(ts: seq<Track>)
    ensures forall t :: t in ts ==> (t in Recent(ts) <==> t !in Archive(ts))
    ensures |Recent(ts)| + |Archive(ts)| == |ts|
    ensures multiset(Recent(ts)) + multiset(Archive(ts)) == multiset(ts)
  {
    FilterPartition(ts, IsRecent, IsArchived);
  }

  /** Each tab keeps the relative order of the list it is cut from, and the
      Favorites tab is also an ordered part of the Recent tab. */
  lemma ViewsPreserveOrder(ts: seq<Track>, m: Favorites)
    ensures IsSubsequence(Recent(ts), ts)
    ensures IsSubsequence(Archive(ts), ts)
    ensures IsSubsequence(FavoriteTracks(ts, m), ts)
    ensures IsSubsequence(FavoriteTracks(ts, m), Recent(ts))
  {
    FilterIsSubsequence(ts, IsRecent);
    FilterIsSubsequence(ts, IsArchived);
    FilterIsSubsequence(ts, t => IsShownFavorite(m, t));
    FavoritesWithinRecent(ts, m);
    FilterIsSubsequence(Recent(ts), (t: Track) => Lookup(m, t.id));
  }

  /** The Favorites tab is the Recent tab filtered by the map alone. */
  lemma FavoritesWithinRecent(ts: seq<Track>, m: Favorites)
    ensures FavoriteTracks(ts, m) == Filter(Recent(ts), (t: Track) => Lookup(m, t.id))
    ensures |FavoriteTracks(ts, m)| <= |Recent(ts)|
  {
    FilterFilter(ts, IsRecent, (t: Track) => Lookup(m, t.id), t => IsShownFavorite(m, t));
  }

  /** An archived track never reaches the Favorites tab, even when the map
      marks it, and the track's own `favorite` field decides nothing: a
      flagged track the map does not mark is left out, and an unflagged one
      the map marks is shown unless archived. */
  lemma FavoritesFollowMapNotFlag(ts: seq<Track>, m: Favorites)
    ensures forall t :: t in ts && t.archived && Lookup(m, t.id) ==> t !in FavoriteTracks(ts, m)
    ensures forall t :: t in ts && t.favorite && !Lookup(m, t.id) ==> t !in FavoriteTracks(ts, m)
    ensures forall t :: t in ts && !t.favorite && Lookup(m, t.id) && !t.archived ==> t in FavoriteTracks(ts, m)
  {
  }

  /** Toggling a favorite never changes the Recent or Archive tab. */
  lemma ToggleKeepsRecentAndArchive(vm: ViewModel, id: Id)
    ensures Recent(ToggleFavorite(vm, id).tracks) == Recent(vm.tracks)
    ensures Archive(ToggleFavorite(vm, id).tracks) == Archive(vm.tracks)
    ensures ArchivePage(ToggleFavorite(vm, id)) == ArchivePage(vm)
  {
  }

  /** Toggling `id` moves exactly the non-archived tracks with that id into
      or out of the Favorites tab; every other track's membership stays. */
  lemma ToggleMovesOnlyItsTracks(vm: ViewModel, id: Id)
    ensures forall t :: t in vm.tracks && t.id == id ==>
      ((t in FavoriteTracks(ToggleFavorite(vm, id).tracks, ToggleFavorite(vm, id).favorites))
       <==> !t.archived && !Lookup(vm.favorites, id))
    ensures forall t :: t in vm.tracks && t.id != id ==>
      ((t in FavoriteTracks(ToggleFavorite(vm, id).tracks, ToggleFavorite(vm, id).favorites))
       <==> t in FavoriteTracks(vm.tracks, vm.favorites))
  {
  }

  /** Toggling any id twice gives back the same Favorites page, even when
      the id was missing from the map and now holds an explicit false. */
  lemma ToggleTwiceKeepsFavorites(vm: ViewModel, id: Id)
    ensures FavoritesPage(ToggleFavorite(ToggleFavorite(vm, id), id)) == FavoritesPage(vm)
  {
    var m2 := ToggleFavorite(ToggleFavorite(vm, id), id).favorites;
    FilterAgreeing(vm.tracks, t => IsShownFavorite(m2, t), t => IsShownFavorite(vm.favorites, t));
  }

  /** If a tab page were given the main page's freshly mounted list (with
      distinct ids) and map, its Favorites tab would be exactly the
      non-archived tracks whose own flag is set. */
  lemma LoadedFavoritesMatchFlags(ts: seq<Track>)
    requires DistinctIds(ts)
    ensures FavoriteTracks(Load(ts).tracks, Load(ts).favorites) == Filter(ts, IsFlaggedFavorite)
  {
    var m := Load(ts).favorites;
    InitRecordsFavorite(ts);
    FilterAgreeing(ts, t => IsShownFavorite(m, t), IsFlaggedFavorite);
  }

  /** The Archive page shows its notice exactly when the Recent tab is the
      whole list. */
  lemma ArchiveEmptyIffAllRecent(vm: ViewModel)
    ensures ArchivePage(vm).EmptyState? <==> Recent(vm.tracks) == vm.tracks
  {
    if ArchivePage(vm).EmptyState? {
      FilterKeepsAll(vm.tracks, IsRecent);
    } else {
      RecentArchivePartition(vm.tracks);
    }
  }
}
