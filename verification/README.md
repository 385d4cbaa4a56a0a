# Course Planner track view-model, in Dafny

This project models the client-side track view-model of the Course Planner
front end: the main page's favorite map, and the Recent, Favorites and
Archive tab pages that filter a track list with such a map. It has two
parts, and both are pure.

- **The favorite-lookup map** (`favorites`). The main page builds it once
  from its track list with a `reduce` that records each track's `favorite`
  flag under its id. `toggleFavorite(id)` then replaces it by a copy whose
  entry for `id` is negated. A missing entry reads as `undefined`, which is
  falsy, so toggling it yields `true`. `frontend/src/pages/MainPage.tsx` and
  its untyped copy `frontend/src/pages/MainPage_backup.jsx` contain the same
  seed data apart from the icon components (track 3 uses `Beaker` in one
  and `Flask` in the other), the same `reduce` and the same
  `toggleFavorite`. The model
  states them once, and every row below that cites one of the two files
  applies to the other at the corresponding lines (MainPage_backup.jsx /
  MainPage.tsx): seed 22-78 / 36-92, `reduce` 80-85 / 94-99,
  `toggleFavorite` 87-92 / 101-106.
- **The three derived tabs.** Each is a `filter` of the track list.
  Recent keeps the tracks that are not archived. Favorites keeps the tracks
  the map marks, minus the archived ones. Archive keeps the archived
  tracks. The Favorites and Archive pages also show an empty-state notice
  when their filtered list is empty.

Modules, one per concept of the source:

- `Tracks` (`tracks.dfy`): the `Track` record of `frontend/src/types/Track.ts`.
  It keeps `id`, `title`, `course`, `iconBg`, `iconColor`, `favorite` and
  `archived`. It also defines id sets and distinct ids.
- `Filtering` (`filtering.dfy`): `Array.prototype.filter` over sequences.
  It covers membership, order preservation (witnessed by strictly
  increasing indices), partition by complementary predicates, and filter
  fusion.
- `FavoriteMap` (`favorite_map.dfy`): JavaScript truthiness of a map read
  (`Lookup`), the `reduce` (`FoldFavorites`, `InitFavorites`) and
  `toggleFavorite` (`Toggle`).
- `TrackViews` (`views.dfy`): the page props (`ViewModel`), the three tabs,
  and the two pages' empty-state choice.
- `Seed` (`seed.dfy`): the five seed tracks of the main page, the map it
  builds from them, and what the tabs would hold if given that list and map.

Track ids are `number` on some pages and `string` on others. Here a
single `Id`, a string, stands for both: a JavaScript object key is always a
string, so `acc[track.id]` with `id: 1` writes the key `"1"`. `Id` excludes
the property names a plain object inherits from `Object.prototype`
(`toString`, `constructor`, `__proto__` and the rest), because reading or
writing those is not a plain map access.

The tab pages declare `tracks` and `favorites` props, but no page shown
renders them: `frontend/src/routes/index.tsx:11-21` mounts `MainPage` on all
three planner paths, and `MainPage.tsx:198` maps over its whole list.
Lemmas that combine the main page's list and map with a tab page
(`TrackViews.Load` and the `Seed` lemmas about tabs) assume that
connection.

The main page's `toggleFavorite` is a local state update, and the model has
only that local flip. The tab pages declare `toggleFavorite` and
`toggleArchive` as props and call them from each card's buttons (the heart
at `RecentPage.tsx:38`, `FavoritesPage.tsx:47`, `ArchivePage.tsx:45`; the
archive button at `RecentPage.tsx:49`, `FavoritesPage.tsx:54`,
`ArchivePage.tsx:56`). No shown file defines or passes them, and the
`Promise<void>` forms (`frontend/src/pages/FavoritesPage.tsx:8-9`) exist
only as types. `TrackViews.ToggleFavorite` assumes the favorite prop is the
main page's `toggleFavorite`. The wire type `TrackFromAPI`
(`frontend/src/types/Track.ts:4-15`) exists only as a declaration.

## Model

| member | source | states |
|---|---|---|
| `Filtering.Filter` | frontend/src/pages/RecentPage.tsx:13 | the filtered list never grows, every element it keeps passes the test, and an element is in it exactly when it is in the input and passes |
| `FavoriteMap.Lookup` | frontend/src/pages/MainPage.tsx:218-219 | reading the map in a boolean position gives true only for a recorded key, and gives the recorded value for one; a missing key reads false |
| `FavoriteMap.FoldFavorites` | frontend/src/pages/MainPage.tsx:95-98 | the `reduce` callback adds exactly the ids of the folded tracks to the keys of the accumulator |
| `FavoriteMap.InitFavorites` | frontend/src/pages/MainPage.tsx:94-99 | the initial map's key set is exactly the set of track ids |
| `FavoriteMap.FoldKeepsUnlisted` | frontend/src/pages/MainPage.tsx:95-98 | an accumulator entry whose id no folded track carries keeps its value |
| `FavoriteMap.FoldRecordsLast` | frontend/src/pages/MainPage_backup.jsx:81-84 | after the fold, each id holds the `favorite` flag of the last track carrying that id, since later writes overwrite earlier ones |
| `FavoriteMap.InitRecordsLast` | frontend/src/pages/MainPage.tsx:94-99 | the initial map agrees with the last track of each id, and reads false for every id not in the list |
| `FavoriteMap.InitRecordsFavorite` | frontend/src/pages/MainPage_backup.jsx:80-85 | with distinct ids, every track's entry equals its own `favorite` flag, both as stored and as read |
| `FavoriteMap.InitNeverOverwrites` | frontend/src/pages/MainPage.tsx:95-98 | with distinct ids the `reduce` never overwrites an entry, so the map has exactly one entry per track |
| `FavoriteMap.Toggle` | frontend/src/pages/MainPage.tsx:101-106 | `toggleFavorite(id)` adds `id` to the keys and sets it to the negation of its previous reading, so a missing key becomes true; every other key keeps its presence and value |
| `FavoriteMap.ToggleTwiceRestores` | frontend/src/pages/MainPage_backup.jsx:87-92 | toggling a recorded id twice gives back exactly the original map |
| `FavoriteMap.ToggleTwiceUnrecorded` | frontend/src/pages/MainPage.tsx:101-105 | toggling an unrecorded id twice leaves an explicit false entry, so the map differs from the original while every reading of it is unchanged |
| `FavoriteMap.ToggleCommutes` | frontend/src/pages/MainPage.tsx:101-106 | two toggles give the same map in either order |
| `TrackViews.Load` | frontend/src/pages/MainPage.tsx:94-99 | the main page's mounted state, taken as tab-page props, keeps the track list, and the keys of its map are the track ids |
| `TrackViews.ToggleFavorite` | frontend/src/pages/MainPage_backup.jsx:88-91 | a favorite click leaves the track list alone, flips the reading for `id`, and leaves the reading of every other id unchanged |
| `TrackViews.Recent` | frontend/src/pages/RecentPage.tsx:13 | a track is in the Recent tab exactly when it is in the list and not archived; the tab is never longer than the list |
| `TrackViews.Archive` | frontend/src/pages/ArchivePage.tsx:13 | a track is in the Archive tab exactly when it is in the list and archived; the tab is never longer than the list |
| `TrackViews.FavoriteTracks` | frontend/src/pages/FavoritesPage.tsx:13 | a track is in the Favorites tab exactly when it is in the list, the map marks its id true (a missing key counts false), and it is not archived |
| `TrackViews.FavoritesPage` | frontend/src/pages/FavoritesPage.tsx:15-35 | the empty-state notice is shown exactly when no track passes the Favorites filter; otherwise the page shows the non-empty filtered list |
| `TrackViews.ArchivePage` | frontend/src/pages/ArchivePage.tsx:15-34 | the empty-state notice is shown exactly when no track is archived; otherwise the page shows the non-empty archived list |
| `TrackViews.RecentArchivePartition` | frontend/src/pages/ArchivePage.tsx:13 | Recent and Archive partition the list: each track is in exactly one, the lengths add up to the list's length, and their multisets add up to the list's |
| `TrackViews.ViewsPreserveOrder` | frontend/src/pages/RecentPage.tsx:13 | each tab is an order-preserving subsequence of the list, and Favorites is also one of Recent |
| `TrackViews.FavoritesWithinRecent` | frontend/src/pages/FavoritesPage.tsx:13 | the Favorites tab equals the Recent tab filtered by the map alone, so it is never longer than Recent |
| `TrackViews.FavoritesFollowMapNotFlag` | frontend/src/pages/FavoritesPage.tsx:13 | an archived track is never in Favorites even when the map marks it; membership follows the map, not the track's own `favorite` field, in both directions |
| `TrackViews.ToggleKeepsRecentAndArchive` | frontend/src/pages/RecentPage.tsx:12-13 | a favorite toggle changes neither the Recent tab, nor the Archive tab, nor the Archive page |
| `TrackViews.ToggleMovesOnlyItsTracks` | frontend/src/pages/FavoritesPage.tsx:12-13 | after toggling `id`, a track with that id is in Favorites exactly when it is not archived and was not marked before; every other track keeps its membership |
| `TrackViews.ToggleTwiceKeepsFavorites` | frontend/src/pages/FavoritesPage.tsx:13-15 | toggling any id twice gives back the same Favorites page, including for an id the map did not record |
| `TrackViews.LoadedFavoritesMatchFlags` | frontend/src/pages/MainPage.tsx:94-99 | if a tab page got the main page's freshly mounted list (distinct ids) and map, its Favorites tab would be exactly the non-archived tracks whose own `favorite` flag is set |
| `TrackViews.ArchiveEmptyIffAllRecent` | frontend/src/pages/ArchivePage.tsx:15 | the Archive page shows its notice exactly when the Recent tab is the whole list |
| `Seed.SeedTracks` | frontend/src/pages/MainPage.tsx:36-92 | the five seed tracks in source order, with ids "1" to "5", tracks 2 and 4 flagged as favorites and the other three not, and none archived |
| `Seed.SeedIdsDistinct` | frontend/src/pages/MainPage.tsx:36-92 | the seed ids are pairwise distinct, so the `reduce` never overwrites and the map has five entries |
| `Seed.SeedInitialFavorites` | frontend/src/pages/MainPage.tsx:36-99 | the initial map of the seed list is exactly `"1"`, `"3"`, `"5"` to false and `"2"`, `"4"` to true |
| `Seed.SeedFlagged` | frontend/src/pages/MainPage_backup.jsx:22-78 | among the seed tracks, exactly tracks 2 and 4, in that order, carry a set `favorite` flag and are not archived |
| `Seed.SeedRecentAndArchive` | frontend/src/pages/ArchivePage.tsx:13-15 | given the seed list and its initial map as props (an assumed connection), the Recent tab would be the whole list and the Archive page would show its empty-state notice |
| `Seed.SeedFavoritesPage` | frontend/src/pages/FavoritesPage.tsx:13-15 | given the seed list and its initial map as props (an assumed connection), the Favorites page would show tracks 2 and 4, in that order |

## Left out

- Rendering: JSX, CSS modules, icon components and colours. The heart's fill is
  modelled only as the boolean reading `Lookup`. `iconBg` and `iconColor`
  are carried as opaque strings. The `icon` component is dropped.
- The `updated` display string and the `progress` number of a track: they
  are display values with no behaviour attached.
- The tab switch of `MainPage.tsx` (`activeTab`, including the `templates`
  tab): it only selects which button is highlighted. The main page itself
  renders its whole track list whatever the tab, and that needs no model.
- The seed records of the main page have no `archived` field. JavaScript
  reads the missing field as `undefined`, which is falsy, so the seed is
  modelled with `archived = false`.
- `toggleArchive`: the tab pages declare it as a prop and call it from each
  card's archive button (`RecentPage.tsx:49`, `FavoritesPage.tsx:54`,
  `ArchivePage.tsx:56`), but no shown file defines or passes it, so what it
  does to a track is not modelled. The `Promise<void>` forms of both toggle
  props (`frontend/src/pages/FavoritesPage.tsx:8-9`) exist only as types.
- Which list and map the tab pages receive: no shown file renders
  RecentPage, FavoritesPage or ArchivePage. The model assumes they get the
  main page's `tracks` and `favorites`; the shown code does not connect
  them, and MainPage's own `Track` (`MainPage.tsx:19-29`) has a numeric
  `id` and no `archived` field.
- The server (`backend/server.js`) and any create, read, update or delete
  of tracks: the server only serves a greeting and listens.
- Conversion between the wire type `TrackFromAPI`
  (`frontend/src/types/Track.ts:4-15`) and `Track`: no shown file converts
  one into the other, so no field mapping is invented.
- `frontend/src/pages/LandingPage.tsx` and `frontend/src/routes/index.tsx`:
  static marketing markup and a route table, with no view-model logic.
- `FavoriteMap.ToggleTwiceRestores`: it requires the id to be recorded,
  because on a missing id a double toggle leaves an explicit false entry.
  `FavoriteMap.ToggleTwiceUnrecorded` states that case, and
  `TrackViews.ToggleTwiceKeepsFavorites` shows that no page can tell the
  difference.
- `FavoriteMap.Lookup`: ids that name a member of `Object.prototype`
  (`toString`, `constructor`, `__proto__`, ...) are excluded by the `Id`
  type. For them JavaScript reads an inherited, truthy member instead of
  `undefined`, and `acc["__proto__"] = b` creates no key; the planner's ids
  never take these names.
