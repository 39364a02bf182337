/**
 * The keep-alive handles of the streaming subsystem stay active: a handle is
 * kept alive from the stream that first loads its asset until the final
 * unload pass that drops its entry, and no operation in between cancels it.
 */
module KeepAliveHandles {
  import opened AssetHandlePairs
  import opened EngineModel
  import opened StreamingTables
  import opened StreamingInvariants
  import opened StreamingProperties

  /** Every keep-alive entry holds a handle the loader has not cancelled. */
  ghost predicate KeepAliveActive(t: Tables)
  {
    forall p :: p in t.keepAlive ==> t.keepAlive[p].HandleRef? && t.keepAlive[p].id in t.streamableManager.active
  }

  lemma InitialKeepAliveActive()
    ensures KeepAliveActive(InitialTables())
  {
  }

  /**
   * Streaming keeps every keep-alive handle active; an asset streamed for the
   * first time keeps alive the handle of that very load, which is active.
   */
  lemma StreamAssetKeepsAlive(t: Tables, asset: SoftObjectPtr, id: Guid)
    requires KeepAliveActive(t) && asset.SoftPtr?
    ensures KeepAliveActive(StreamAsset(t, asset, id))
  {
    var r := StreamAsset(t, asset, id);
    StreamAssetFields(t, asset, id);
    forall p | p in r.keepAlive
      ensures r.keepAlive[p].HandleRef? && r.keepAlive[p].id in r.streamableManager.active
    {
      if p in t.keepAlive {
        assert r.keepAlive[p] == t.keepAlive[p];
      } else {
        assert p == asset.path;
      }
    }
  }

  lemma {:induction false} StreamAllKeepsAlive(t: Tables, assets: seq<SoftObjectPtr>, id: Guid)
    requires KeepAliveActive(t)
    requires forall k :: 0 <= k < |assets| ==> assets[k].SoftPtr?
    ensures KeepAliveActive(StreamAll(t, assets, id))
    decreases |assets|
  {
    if |assets| > 0 {
      var init := assets[..|assets| - 1];
      StreamAllKeepsAlive(t, init, id);
      StreamAssetKeepsAlive(StreamAll(t, init, id), assets[|assets| - 1], id);
    }
  }

  /** Requesting a list of assets keeps every keep-alive handle active. */
  lemma RequestStreamingKeepsAlive(t: Tables, assets: seq<SoftObjectPtr>)
    requires KeepAliveActive(t)
    requires forall k :: 0 <= k < |assets| ==> assets[k].SoftPtr?
    ensures KeepAliveActive(RequestStreaming(t, assets).tables)
  {
    if |assets| > 0 {
      RequestStreamingTables(t, assets);
      StreamAllKeepsAlive(t.(lastGuid := t.lastGuid + 1), assets, t.lastGuid + 1);
    }
  }

  /** Requesting a single asset keeps every keep-alive handle active. */
  lemma RequestSingleKeepsAlive(t: Tables, asset: SoftObjectPtr)
    requires KeepAliveActive(t) && asset.SoftPtr?
    ensures KeepAliveActive(RequestSingle(t, asset).tables)
  {
    RequestSingleTables(t, asset);
    StreamAssetKeepsAlive(t.(lastGuid := t.lastGuid + 1), asset, t.lastGuid + 1);
  }

  /** A release, on any of its paths, keeps every keep-alive handle active. */
  lemma ReleaseKeepsAlive(t: Tables, requestId: Guid)
    requires Consistent(t) && KeepAliveActive(t)
    ensures requestId in t.registeredAssets ==> ReleasableClaims(t, t.registeredAssets[requestId])
    ensures KeepAliveActive(Release(t, requestId).tables)
  {
    if requestId in t.registeredAssets {
      ConsistentAllowsRelease(t, requestId);
    }
    if IsValidGuid(requestId) && requestId in t.registeredAssets {
      ReleaseNeverCancelsKeepAlive(t, requestId);
      var r := Release(t, requestId).tables;
      forall p | p in r.keepAlive
        ensures r.keepAlive[p].HandleRef? && r.keepAlive[p].id in r.streamableManager.active
      {
        assert t.keepAlive[p].id in t.streamableManager.active;
      }
    }
  }

  /**
   * A final unload pass keeps alive the handles of every asset it does not
   * unload; the assets it unloads lose their keep-alive entry altogether.
   */
  lemma FireNextKeepsAlive(t: Tables)
    requires KeepAliveIssued(t) && KeepAliveActive(t)
    requires |t.pendingUnloads| > 0 ==> UnloadSafe(t, t.pendingUnloads[0])
    ensures KeepAliveActive(FireNext(t).tables)
  {
    if |t.pendingUnloads| > 0 {
      var popped := t.(pendingUnloads := t.pendingUnloads[1..]);
      var gone := Unclaimed(t.assetRequestCount, t.pendingUnloads[0]);
      var r := FireNext(t).tables;
      assert FinalUnloadEffect(popped, gone, FireNext(t));
      forall p | p in r.keepAlive
        ensures r.keepAlive[p].HandleRef? && r.keepAlive[p].id in r.streamableManager.active
      {
        var h := t.keepAlive[p];
        assert IssuedFor(t.streamableManager, h, p);
        assert h.id in ActiveHandles(t.streamableManager, p);
        assert h.id in ActiveHandles(r.streamableManager, p);
      }
    }
  }
}
