/**
 * When the oldest unload timer may fire. A pass over a batch relies on
 * `UnloadSafe`; this module shows that requests and releases never take that
 * away from the oldest pending batch, so the ordinary cycle (request, release,
 * then the release's own timer) always meets it. Only a pass itself can bring
 * an unsafe batch to the front of the queue, as the scenario of a release
 * repeated before the first timer fires shows.
 */
module UnloadSafety {
  import opened AssetHandlePairs
  import opened EngineModel
  import opened StreamingTables
  import opened StreamingInvariants
  import opened StreamingProperties

  /** The oldest pending batch, if any, names each asset once and may be passed over. */
  predicate OldestBatchSafe(t: Tables)
  {
    |t.pendingUnloads| > 0 ==> DistinctAssets(t.pendingUnloads[0]) && UnloadSafe(t, t.pendingUnloads[0])
  }

  /**
   * Streaming an asset leaves the queue alone, only raises counts and only adds
   * keep-alive entries, so the oldest batch stays safe.
   */
  lemma StreamAssetKeepsOldestSafe(t: Tables, asset: SoftObjectPtr, id: Guid)
    requires OldestBatchSafe(t) && asset.SoftPtr?
    ensures OldestBatchSafe(StreamAsset(t, asset, id))
  {
    var r := StreamAsset(t, asset, id);
    if |t.pendingUnloads| > 0 {
      var b := t.pendingUnloads[0];
      assert r.pendingUnloads == t.pendingUnloads;
      forall k | 0 <= k < |b| && b[k].asset.path !in r.assetRequestCount
        ensures b[k].asset.path in r.keepAlive
      {
        assert CountOf(r.assetRequestCount, b[k].asset.path) == 0;
        assert b[k].asset.path in t.keepAlive;
      }
    }
  }

  lemma {:induction false} StreamAllKeepsOldestSafe(t: Tables, assets: seq<SoftObjectPtr>, id: Guid)
    requires OldestBatchSafe(t)
    requires forall k :: 0 <= k < |assets| ==> assets[k].SoftPtr?
    ensures OldestBatchSafe(StreamAll(t, assets, id))
    decreases |assets|
  {
    if |assets| > 0 {
      var init := assets[..|assets| - 1];
      StreamAllKeepsOldestSafe(t, init, id);
      StreamAssetKeepsOldestSafe(StreamAll(t, init, id), assets[|assets| - 1], id);
    }
  }

  /** Requesting a list of assets keeps the oldest batch safe. */
  lemma RequestStreamingKeepsOldestSafe(t: Tables, assets: seq<SoftObjectPtr>)
    requires OldestBatchSafe(t)
    requires forall k :: 0 <= k < |assets| ==> assets[k].SoftPtr?
    ensures OldestBatchSafe(RequestStreaming(t, assets).tables)
  {
    if |assets| > 0 {
      RequestStreamingTables(t, assets);
      StreamAllKeepsOldestSafe(t.(lastGuid := t.lastGuid + 1), assets, t.lastGuid + 1);
    }
  }

  /** Requesting a single asset keeps the oldest batch safe. */
  lemma RequestSingleKeepsOldestSafe(t: Tables, asset: SoftObjectPtr)
    requires OldestBatchSafe(t) && asset.SoftPtr?
    ensures OldestBatchSafe(RequestSingle(t, asset).tables)
  {
    RequestSingleTables(t, asset);
    StreamAssetKeepsOldestSafe(t.(lastGuid := t.lastGuid + 1), asset, t.lastGuid + 1);
  }

  /**
   * An oldest batch that stays at the front stays safe when every asset that
   * was counted or kept alive before is kept alive afterwards.
   */
  lemma OldestStaysSafe(t: Tables, r: Tables)
    requires OldestBatchSafe(t) && |t.pendingUnloads| > 0
    requires |r.pendingUnloads| > 0 && r.pendingUnloads[0] == t.pendingUnloads[0]
    requires forall p :: p in t.assetRequestCount ==> p in r.keepAlive
    requires forall p :: p in t.keepAlive ==> p in r.keepAlive
    ensures OldestBatchSafe(r)
  {
  }

  /** Behind a non-empty queue, a release only lowers counts: the oldest batch stays safe. */
  lemma ReleaseBehindQueueKeepsOldestSafe(t: Tables, requestId: Guid)
    requires CountsCover(t) && OldestBatchSafe(t) && |t.pendingUnloads| > 0
    requires IsValidGuid(requestId) && requestId in t.registeredAssets
    requires ReleasableClaims(t, t.registeredAssets[requestId])
    ensures OldestBatchSafe(Release(t, requestId).tables)
  {
    ReleaseFields(t, requestId);
    OldestStaysSafe(t, Release(t, requestId).tables);
  }

  /**
   * Into an empty queue, a release schedules its own zero-count pairs, if any:
   * they name distinct assets, all uncounted and all still kept alive.
   */
  lemma ReleaseIntoEmptyQueueIsSafe(t: Tables, requestId: Guid)
    requires |t.pendingUnloads| == 0
    requires IsValidGuid(requestId) && requestId in t.registeredAssets
    requires ReleasableClaims(t, t.registeredAssets[requestId])
    ensures var r := Release(t, requestId).tables;
            && |r.pendingUnloads| <= 1
            && (|r.pendingUnloads| > 0 ==> DistinctAssets(r.pendingUnloads[0]) && UnloadSafe(r, r.pendingUnloads[0]))
  {
    var claims := t.registeredAssets[requestId];
    var r := Release(t, requestId).tables;
    ReleaseFields(t, requestId);
    if |r.pendingUnloads| > 0 {
      var z := ZeroCandidates(t.assetRequestCount, claims);
      assert r.pendingUnloads[0] == z;
      forall k | 0 <= k < |z|
        ensures z[k].asset.SoftPtr? && z[k].asset.path in r.keepAlive
      {
        assert z[k] in claims;
      }
    }
  }

  /** A release, on any of its paths, keeps the oldest batch safe. */
  lemma ReleaseKeepsOldestSafe(t: Tables, requestId: Guid)
    requires Consistent(t) && OldestBatchSafe(t)
    ensures requestId in t.registeredAssets ==> ReleasableClaims(t, t.registeredAssets[requestId])
    ensures OldestBatchSafe(Release(t, requestId).tables)
  {
    if requestId in t.registeredAssets {
      ConsistentAllowsRelease(t, requestId);
    }
    if IsValidGuid(requestId) && requestId in t.registeredAssets {
      if |t.pendingUnloads| > 0 {
        ReleaseBehindQueueKeepsOldestSafe(t, requestId);
      } else {
        ReleaseIntoEmptyQueueIsSafe(t, requestId);
      }
    }
  }

  /**
   * A pass brings the next batch to the front of the queue. That batch is safe
   * when it was safe before the pass and the pass unloads none of its assets:
   * the pass changes no count and removes only the keep-alive entries of the
   * assets it unloads.
   */
  lemma FireNextKeepsOldestSafe(t: Tables)
    requires |t.pendingUnloads| > 1 && UnloadSafe(t, t.pendingUnloads[0])
    requires DistinctAssets(t.pendingUnloads[1]) && UnloadSafe(t, t.pendingUnloads[1])
    requires forall k :: 0 <= k < |t.pendingUnloads[1]| ==>
               t.pendingUnloads[1][k].asset.path !in Unclaimed(t.assetRequestCount, t.pendingUnloads[0])
    ensures OldestBatchSafe(FireNext(t).tables)
  {
    var popped := t.(pendingUnloads := t.pendingUnloads[1..]);
    var gone := Unclaimed(t.assetRequestCount, t.pendingUnloads[0]);
    var r := FireNext(t).tables;
    assert FinalUnloadEffect(popped, gone, FireNext(t));
    var b := t.pendingUnloads[1];
    assert r.pendingUnloads[0] == b;
    forall k | 0 <= k < |b| && b[k].asset.path !in r.assetRequestCount
      ensures b[k].asset.path in r.keepAlive
    {
      assert b[k].asset.path in t.keepAlive;
    }
  }

  /**
   * The ordinary cycle from a consistent subsystem with no pending timer: a
   * request, its release, and then the release's own timer. The release is
   * allowed, the timer's pass may run, and afterwards the queue is empty again.
   */
  lemma RequestReleaseFireIsSafe(t: Tables, assets: seq<SoftObjectPtr>)
    requires Consistent(t) && |t.pendingUnloads| == 0
    requires forall k :: 0 <= k < |assets| ==> assets[k].SoftPtr?
    ensures var c := RequestStreaming(t, assets);
            c.requestId in c.tables.registeredAssets ==> ReleasableClaims(c.tables, c.tables.registeredAssets[c.requestId])
    ensures var c := RequestStreaming(t, assets);
            var r := Release(c.tables, c.requestId);
            && r.ok == (|assets| > 0)
            && |r.tables.pendingUnloads| <= 1
            && (|r.tables.pendingUnloads| > 0 ==> UnloadSafe(r.tables, r.tables.pendingUnloads[0]))
            && |FireNext(r.tables).tables.pendingUnloads| == 0
  {
    var c := RequestStreaming(t, assets);
    RequestStreamingPreservesConsistent(t, assets);
    RequestStreamingKeepsOldestSafe(t, assets);
    if |assets| > 0 {
      RequestStreamingTables(t, assets);
      StreamAllKeeps(t.(lastGuid := t.lastGuid + 1), assets, t.lastGuid + 1);
      RequestStreamingRegisters(t, assets);
    }
    ReleaseKeepsOldestSafe(c.tables, c.requestId);
    if |assets| > 0 {
      ReleaseSchedulesZeroed(c.tables, c.requestId);
    }
  }
}
