/**
 * `ExplorationFirstPublishedOneOffJob`: every rights snapshot whose status
 * is public yields (exploration id, commit time); the reduce records the
 * earliest of those times as the exploration's first published time,
 * provided the exploration's rights still exist.
 *
 * Whether `get_exploration_rights(exp_id, strict=False)` finds the rights
 * is the parameter `rightsExist`.
 */
module FirstPublishedJob {
  import opened Common
  import opened MapReduce

  /** `ACTIVITY_STATUS_PUBLIC`. */
  const ActivityStatusPublic := "public"

  /**
   * An `ExplorationRightsSnapshotContentModel`: the exploration it is a
   * version of, the `status` of its content and its creation time in
   * milliseconds.
   */
  datatype RightsSnapshot = RightsSnapshot(explorationId: string, status: string, createdOnMsecs: int)

  /** The map: a public snapshot yields its exploration id and creation time. */
  function FirstPublishedMap(item: RightsSnapshot): (es: seq<Emission<int>>)
    ensures es != [] <==> item.status == ActivityStatusPublic
    ensures forall j :: 0 <= j < |es| ==> es[j] == Emission(item.explorationId, item.createdOnMsecs)
  {
    if item.status == ActivityStatusPublic then [Emission(item.explorationId, item.createdOnMsecs)] else []
  }

  function FirstPublishedJobEmissions(items: seq<RightsSnapshot>): seq<Emission<int>>
  {
    if items == [] then []
    else FirstPublishedJobEmissions(items[..|items| - 1]) + FirstPublishedMap(items[|items| - 1])
  }

  /** Python `min(xs)` of a non-empty list. */
  function Min(xs: seq<int>): (m: int)
    requires |xs| > 0
    ensures m in xs
    ensures forall i :: 0 <= i < |xs| ==> m <= xs[i]
  {
    if |xs| == 1 then xs[0]
    else
      var rest := Min(xs[..|xs| - 1]);
      assert forall i :: 0 <= i < |xs| - 1 ==> xs[..|xs| - 1][i] == xs[i];
      if rest <= xs[|xs| - 1] then rest else xs[|xs| - 1]
  }

  /** What the reduce does for one exploration id. */
  datatype FirstPublishedUpdate =
    | NoRights                                          // rights are gone: return without an update
    | MinOfEmpty                                        // `min([])` raises ValueError
    | SetFirstPublished(explorationId: string, msec: int) // `update_activity_first_published_msec`

  /** The reduce: no update without rights; otherwise the earliest commit time. */
  function FirstPublishedReduce(expId: string, commitTimes: seq<int>, rightsExist: string -> bool)
    : (r: FirstPublishedUpdate)
    ensures !rightsExist(expId) ==> r == NoRights
    ensures rightsExist(expId) && commitTimes == [] ==> r == MinOfEmpty
    ensures rightsExist(expId) && commitTimes != [] ==>
      && r.SetFirstPublished? && r.explorationId == expId
      && r.msec in commitTimes
      && forall i :: 0 <= i < |commitTimes| ==> r.msec <= commitTimes[i]
  {
    if !rightsExist(expId) then NoRights
    else if commitTimes == [] then MinOfEmpty
    else SetFirstPublished(expId, Min(commitTimes))
  }

  /** A public snapshot of exploration `expId` created at `t`. */
  predicate PublishedAt(item: RightsSnapshot, expId: string, t: int)
  {
    item.status == ActivityStatusPublic && item.explorationId == expId && item.createdOnMsecs == t
  }

  /** The values grouped under an exploration id are exactly the creation times of its public snapshots. */
  lemma {:induction false} GroupedTimes(items: seq<RightsSnapshot>, expId: string, t: int)
    ensures t in ValuesFor(FirstPublishedJobEmissions(items), expId) <==>
      exists i :: 0 <= i < |items| && PublishedAt(items[i], expId, t)
    decreases |items|
  {
    if items != [] {
      var init := items[..|items| - 1];
      var last := items[|items| - 1];
      GroupedTimes(init, expId, t);
      ValuesForAppend(FirstPublishedJobEmissions(init), FirstPublishedMap(last), expId);
      RecordTime(last, expId, t);
      if exists i :: 0 <= i < |items| && PublishedAt(items[i], expId, t) {
        var i :| 0 <= i < |items| && PublishedAt(items[i], expId, t);
        if i < |init| {
          assert init[i] == items[i];
        }
      }
      if exists i :: 0 <= i < |init| && PublishedAt(init[i], expId, t) {
        var i :| 0 <= i < |init| && PublishedAt(init[i], expId, t);
        assert items[i] == init[i];
      }
    }
  }

  /** One snapshot contributes `t` under `expId` exactly when it is public, of that exploration and created at `t`. */
  lemma RecordTime(item: RightsSnapshot, expId: string, t: int)
    ensures t in ValuesFor(FirstPublishedMap(item), expId) <==> PublishedAt(item, expId, t)
  {
    if item.status == ActivityStatusPublic {
      assert FirstPublishedMap(item) == [Emission(item.explorationId, item.createdOnMsecs)];
      assert ValuesFor(FirstPublishedMap(item), expId)
             == ValuesFor([], expId) + (if item.explorationId == expId then [item.createdOnMsecs] else []);
    }
  }

  /**
   * The whole job, for an exploration with rights and a public snapshot:
   * the first published time set is the creation time of one of its public
   * snapshots and no later than any of them.
   */
  lemma FirstPublishedIsEarliest(items: seq<RightsSnapshot>, expId: string, rightsExist: string -> bool)
    requires rightsExist(expId)
    requires exists i :: 0 <= i < |items| && items[i].explorationId == expId && items[i].status == ActivityStatusPublic
    ensures var r := FirstPublishedReduce(expId, ValuesFor(FirstPublishedJobEmissions(items), expId), rightsExist);
      && r.SetFirstPublished? && r.explorationId == expId
      && (exists i :: 0 <= i < |items| && PublishedAt(items[i], expId, r.msec))
      && forall i :: 0 <= i < |items| && items[i].explorationId == expId && items[i].status == ActivityStatusPublic
           ==> r.msec <= items[i].createdOnMsecs
  {
    var times := ValuesFor(FirstPublishedJobEmissions(items), expId);
    var i0 :| 0 <= i0 < |items| && items[i0].explorationId == expId && items[i0].status == ActivityStatusPublic;
    GroupedTimes(items, expId, items[i0].createdOnMsecs);
    var r := FirstPublishedReduce(expId, times, rightsExist);
    GroupedTimes(items, expId, r.msec);
    forall i | 0 <= i < |items| && items[i].explorationId == expId && items[i].status == ActivityStatusPublic
      ensures r.msec <= items[i].createdOnMsecs
    {
      GroupedTimes(items, expId, items[i].createdOnMsecs);
    }
  }
}
