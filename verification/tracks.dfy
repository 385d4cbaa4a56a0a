/**
 The track record shared by every page of the planner's front end, and the
 few facts about a list of tracks that the rest of the model talks about.
 */
module Tracks {

  /** The property names a plain JavaScript object inherits from
      `Object.prototype`. Reading one of them from the favorite record finds
      the inherited member (a function or an object, both truthy) instead of
      `undefined`, and assigning `__proto__` creates no key. */
  const InheritedKeys: set<string> := {
    "constructor", "hasOwnProperty", "isPrototypeOf", "propertyIsEnumerable",
    "toLocaleString", "toString", "valueOf", "__proto__",
    "__defineGetter__", "__defineSetter__", "__lookupGetter__", "__lookupSetter__"
  }

  /** A track identifier. The pages index their favorite map with
      `track.id`, and a JavaScript object key is always a string, so the
      numeric ids of the seed list and the string ids of the shared `Track`
      type meet here as one type. An id never names an inherited member of
      `Object.prototype`: for those names an object read is not a plain map
      read, and the planner's ids (the numbers 1 to 5 of the seed list) never
      take them. */
  type Id = s: string | s !in InheritedKeys witness "1"

  /** One course-plan track. The rendered icon component, the `updated`
      display string and the `progress` number are presentation only and
      are not carried; `favorite` and `archived` are independent flags. */
  datatype Track = Track(
    id: Id,
    title: string,
    course: string,
    iconBg: string,
    iconColor: string,
    favorite: bool,
    archived: bool
  )

  /** The set of ids occurring in a list of tracks. */
  function Ids(ts: seq<Track>): (r: set<Id>)
    ensures forall i :: 0 <= i < |ts| ==> ts[i].id in r
    ensures forall k :: k in r ==> exists i :: 0 <= i < |ts| && ts[i].id == k
  {
    set i | 0 <= i < |ts| :: ts[i].id
  }

  /** No two positions of the list carry the same id. */
  predicate DistinctIds(ts: seq<Track>) {
    forall i, j :: 0 <= i < j < |ts| ==> ts[i].id != ts[j].id
  }

  /** Position `i` holds the last track of the list with its id. */
  predicate IsLastWithId(ts: seq<Track>, i: nat)
    requires i < |ts|
  {
    forall j :: i < j < |ts| ==> ts[j].id != ts[i].id
  }

  /** Splitting off the head of the list splits its id set the same way. */
  lemma IdsCons(ts: seq<Track>)
    requires |ts| > 0
    ensures Ids(ts) == {ts[0].id} + Ids(ts[1..])
  {
  }

  /** With distinct ids, there are exactly as many ids as tracks. */
  lemma {:induction false} DistinctIdsCount(ts: seq<Track>)
    requires DistinctIds(ts)
    ensures |Ids(ts)| == |ts|
    decreases |ts|
  {
    if |ts| > 0 {
      IdsCons(ts);
      assert DistinctIds(ts[1..]) by {
        forall i, j | 0 <= i < j < |ts[1..]|
          ensures ts[1..][i].id != ts[1..][j].id
        {
          assert ts[1..][i] == ts[i + 1] && ts[1..][j] == ts[j + 1];
        }
      }
      DistinctIdsCount(ts[1..]);
      assert ts[0].id !in Ids(ts[1..]);
    }
  }
}
