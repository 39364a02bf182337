/**
 * The asset streaming subsystem as the object it is: its tables are fields
 * that its methods update in place, its release and final unload are loops
 * over handle arrays, and every public method keeps the invariant of
 * StreamingInvariants. Each method is proved to move the subsystem's state as
 * the corresponding function of StreamingTables does, which is where the
 * properties of the operations are proved.
 */
module AssetStreaming {
  import opened AssetHandlePairs
  import opened EngineModel
  import opened StreamingTables
  import opened StreamingInvariants
  import opened ReleaseLoops
  import opened UnloadLoops
  import opened KeepAliveHandles

  /** The delay a fresh subsystem starts with, and the one a negative delay is reset to. */
  const DefaultUnloadDelaySeconds: real := 5.0

  class AssetStreamingSubsystem {
    /** Seconds between a release and the final unload pass of its zero-count assets. */
    var unloadDelaySeconds: real
    /** Request id to the pairs streamed under it. */
    var registeredAssets: map<Guid, HandleArray>
    /** Asset path to the number of requests claiming it. */
    var assetRequestCount: map<AssetPath, int>
    /** Asset path to the handle kept alive until the asset is finally unloaded. */
    var keepAlive: map<AssetPath, HandlePtr>
    /** The loader the subsystem requests loads from and cancels handles on. */
    var streamableManager: Loader
    /** The batches of the unload timers that have not fired yet, oldest first. */
    var pendingUnloads: seq<HandleArray>
    /** The last request guid generated. */
    var lastGuid: Guid

    /** The subsystem's bookkeeping as a value. */
    ghost function Model(): Tables
      reads this
    {
      Tables(registeredAssets, assetRequestCount, keepAlive, streamableManager, pendingUnloads, lastGuid)
    }

    /** The invariants of StreamingInvariants and KeepAliveHandles. */
    ghost predicate Valid()
      reads this
    {
      Consistent(Model()) && KeepAliveActive(Model())
    }

    /** A fresh subsystem: the default delay and empty tables. */
    constructor ()
      ensures unloadDelaySeconds == DefaultUnloadDelaySeconds
      ensures Model() == InitialTables()
      ensures Valid()
    {
      unloadDelaySeconds := DefaultUnloadDelaySeconds;
      registeredAssets := map[];
      assetRequestCount := map[];
      keepAlive := map[];
      streamableManager := EmptyLoader();
      pendingUnloads := [];
      lastGuid := InvalidGuid;
      InitialIsConsistent();
      InitialKeepAliveActive();
    }

    /** A negative delay is replaced by the default one; any other delay is kept. */
    method Initialize()
      modifies this`unloadDelaySeconds
      ensures old(unloadDelaySeconds) < 0.0 ==> unloadDelaySeconds == DefaultUnloadDelaySeconds
      ensures old(unloadDelaySeconds) >= 0.0 ==> unloadDelaySeconds == old(unloadDelaySeconds)
      ensures unloadDelaySeconds >= 0.0
    {
      if unloadDelaySeconds < 0.0 {
        unloadDelaySeconds := DefaultUnloadDelaySeconds;
      }
    }

    /** A guid never generated before. */
    method NewGuid() returns (id: Guid)
      modifies this`lastGuid
      ensures id == old(lastGuid) + 1 && lastGuid == id
    {
      lastGuid := lastGuid + 1;
      id := lastGuid;
    }

    /**
     * Requesting a list of assets: an empty list is refused with an invalid
     * id; otherwise each asset is streamed in order under a new id.
     */
    method RequestAssetStreaming(assetsToStream: seq<SoftObjectPtr>) returns (ok: bool, outAssetRequestId: Guid)
      requires forall k :: 0 <= k < |assetsToStream| ==> assetsToStream[k].SoftPtr?
      modifies this
      ensures unloadDelaySeconds == old(unloadDelaySeconds)
      ensures CallResult(Model(), ok, outAssetRequestId) == RequestStreaming(old(Model()), assetsToStream)
    {
      ghost var t0 := Model();
      if |assetsToStream| == 0 {
        return false, InvalidGuid;
      }
      outAssetRequestId := NewGuid();
      ghost var start := Model();
      assert start == t0.(lastGuid := t0.lastGuid + 1);
      for i := 0 to |assetsToStream|
        invariant Model() == StreamAll(start, assetsToStream[..i], outAssetRequestId)
        invariant unloadDelaySeconds == old(unloadDelaySeconds)
      {
        assert assetsToStream[..i + 1][..i] == assetsToStream[..i];
        StreamAsset(assetsToStream[i], outAssetRequestId);
      }
      assert assetsToStream[..|assetsToStream|] == assetsToStream;
      ok := IsValidGuid(outAssetRequestId);
      RequestStreamingTables(t0, assetsToStream);
    }

    /** Requesting a single asset under a new id. */
    method RequestSingleAssetStreaming(assetToStream: SoftObjectPtr) returns (ok: bool, outAssetRequestId: Guid)
      requires assetToStream.SoftPtr?
      modifies this
      ensures unloadDelaySeconds == old(unloadDelaySeconds)
      ensures CallResult(Model(), ok, outAssetRequestId) == RequestSingle(old(Model()), assetToStream)
    {
      ghost var t0 := Model();
      outAssetRequestId := NewGuid();
      StreamAsset(assetToStream, outAssetRequestId);
      ok := IsValidGuid(outAssetRequestId);
      assert Model() == RequestSingle(t0, assetToStream).tables;
    }

    /**
     * Streaming one asset: a load is requested, the pair is registered, the
     * handle is kept alive if the asset has no keep-alive handle yet, and the
     * asset's count goes up.
     */
    method StreamAsset(assetToStream: SoftObjectPtr, requestId: Guid)
      requires assetToStream.SoftPtr?
      modifies this`registeredAssets, this`assetRequestCount, this`keepAlive, this`streamableManager
      ensures Model() == StreamingTables.StreamAsset(old(Model()), assetToStream, requestId)
    {
      var path := assetToStream.path;
      var loaded := RequestAsyncLoad(streamableManager, path);
      streamableManager := loaded.0;
      var handle := HandleRef(loaded.1);
      RegisterAssetToId(assetToStream, handle, requestId);
      if path !in keepAlive {
        keepAlive := keepAlive[path := handle];
      }
      IncrementAssetReference(assetToStream);
    }

    /** Registering a pair under an id, unless the id already holds a pair for the asset. */
    method RegisterAssetToId(asset: SoftObjectPtr, handle: HandlePtr, id: Guid)
      modifies this`registeredAssets
      ensures registeredAssets == Register(old(registeredAssets), MakePair(asset, handle), id)
    {
      var assetPair := MakePair(asset, handle);
      if id in registeredAssets {
        if ContainsPair(registeredAssets[id], assetPair) {
          return;
        }
        registeredAssets := registeredAssets[id := registeredAssets[id] + [assetPair]];
      } else {
        var newArray := [assetPair];
        registeredAssets := registeredAssets[id := newArray];
      }
    }

    /** One more claim on an asset. */
    method IncrementAssetReference(asset: SoftObjectPtr)
      requires asset.SoftPtr?
      modifies this`assetRequestCount
      ensures assetRequestCount == Increment(old(assetRequestCount), asset.path)
    {
      var assetPath := asset.path;
      if assetPath in assetRequestCount {
        assetRequestCount := assetRequestCount[assetPath := assetRequestCount[assetPath] + 1];
      } else {
        assetRequestCount := assetRequestCount[assetPath := 1];
      }
    }

    /**
     * Releasing a request: an invalid id is refused as it is, an unknown id is
     * refused and invalidated. Otherwise the request's pairs are released
     * (ReleaseClaims), the request is removed, the pairs whose count reached
     * zero are scheduled for unloading, and the id is invalidated.
     */
    method ReleaseAssets(requestId: Guid) returns (ok: bool, requestIdAfter: Guid)
      requires requestId in registeredAssets ==> ReleasableClaims(Model(), registeredAssets[requestId])
      modifies this`registeredAssets, this`assetRequestCount, this`streamableManager, this`pendingUnloads
      ensures CallResult(Model(), ok, requestIdAfter) == Release(old(Model()), requestId)
    {
      ghost var t0 := Model();
      if !IsValidGuid(requestId) {
        return false, requestId;
      }
      if requestId !in registeredAssets {
        return false, InvalidGuid;
      }
      var assets := ReleaseClaims(registeredAssets[requestId], t0);
      registeredAssets := registeredAssets - {requestId};
      ok, requestIdAfter := true, InvalidGuid;
      if |assets| > 0 {
        ScheduleAssetUnloading(assets);
      }
      ReleaseFields(t0, requestId);
    }

    /**
     * Releasing the pairs of a request whose claims may be released: the
     * counts are decremented, the redundant handles cancelled, and the pairs
     * whose count reached zero returned, as StreamingTables.Release says.
     */
    method ReleaseClaims(claims: HandleArray, ghost t: Tables) returns (assets: HandleArray)
      requires ReleasableClaims(t, claims)
      requires t.assetRequestCount == assetRequestCount && t.keepAlive == keepAlive && t.streamableManager == streamableManager
      modifies this`assetRequestCount, this`streamableManager
      ensures assets == ZeroCandidates(t.assetRequestCount, claims)
      ensures assetRequestCount == Decremented(t.assetRequestCount, claims)
      ensures streamableManager == CancelAll(t.streamableManager, RedundantHandles(t.keepAlive, claims))
    {
      assert ReleaseLoop(keepAlive, claims, assetRequestCount, streamableManager, |claims| - 1) ==
             Some((ZeroCandidates(t.assetRequestCount, claims), Decremented(t.assetRequestCount, claims),
                   CancelAll(t.streamableManager, RedundantHandles(t.keepAlive, claims)))) by {
        ReleaseLoopMeetsSpec(t, claims);
      }
      assets := ReleaseLoopOver(claims);
    }

    /**
     * The release loop over a copy of a request's pairs, from the last to the
     * first: each count drops by one, a pair whose asset is still claimed
     * leaves the copy, a count that reaches zero loses its entry, and a handle
     * that is not its asset's keep-alive handle is cancelled. What is left of
     * the copy is returned. It computes ReleaseLoops.ReleaseLoop, provided no
     * check of the source fails on the way.
     */
    method ReleaseLoopOver(claims: HandleArray) returns (assets: HandleArray)
      requires ReleaseLoop(keepAlive, claims, assetRequestCount, streamableManager, |claims| - 1).Some?
      modifies this`assetRequestCount, this`streamableManager
      ensures ReleaseLoop(keepAlive, claims, old(assetRequestCount), old(streamableManager), |claims| - 1) ==
              Some((assets, assetRequestCount, streamableManager))
    {
      ghost var result := ReleaseLoop(keepAlive, claims, assetRequestCount, streamableManager, |claims| - 1);
      assets := claims;
      var index := |assets| - 1;
      while index >= 0
        invariant -1 <= index < |assets|
        invariant ReleaseLoop(keepAlive, assets, assetRequestCount, streamableManager, index) == result
        invariant result.Some?
        decreases index
      {
        ReleaseLoopUnfold(keepAlive, assets, assetRequestCount, streamableManager, index);
        // The source binds the pair by reference and may remove it from the
        // array before reading its handle; here the pair is copied first, so
        // the handle compared and cancelled is this pair's own.
        var pair := assets[index];
        var assetPath := pair.asset.path;
        ghost var counts := assetRequestCount;
        assetRequestCount := assetRequestCount[assetPath := assetRequestCount[assetPath] - 1];
        if assetRequestCount[assetPath] > 0 {
          assets := assets[..index] + assets[index + 1..];
        } else {
          assetRequestCount := assetRequestCount - {assetPath};
          assert assetRequestCount == counts - {assetPath};
        }
        assert assetRequestCount == Decrement(counts, assetPath);
        if pair.handle != keepAlive[assetPath] {
          streamableManager := CancelHandle(streamableManager, pair.handle.id);
        }
        index := index - 1;
      }
    }

    /** Setting an unload timer for a batch; an empty batch is ignored. */
    method ScheduleAssetUnloading(assets: HandleArray)
      modifies this`pendingUnloads
      ensures Model() == ScheduleUnloading(old(Model()), assets)
    {
      if |assets| == 0 {
        return;
      }
      pendingUnloads := pendingUnloads + [assets];
    }

    /** The oldest unload timer fires: its batch leaves the queue and is finally unloaded. */
    method FireNextUnload() returns (unloadedAssetsCount: nat)
      requires |pendingUnloads| > 0 ==> UnloadSafe(Model(), pendingUnloads[0])
      modifies this
      ensures unloadDelaySeconds == old(unloadDelaySeconds)
      ensures UnloadResult(Model(), unloadedAssetsCount) == FireNext(old(Model()))
    {
      ghost var t0 := Model();
      if |pendingUnloads| == 0 {
        return 0;
      }
      var assets := pendingUnloads[0];
      pendingUnloads := pendingUnloads[1..];
      ghost var popped := Model();
      assert popped == t0.(pendingUnloads := t0.pendingUnloads[1..]);
      assert UnloadLoop(UnloadResult(popped, 0), assets, 0) == Some(FinalUnload(popped, assets)) by {
        UnloadLoopMeetsSpec(popped, assets);
      }
      unloadedAssetsCount := FinalUnloadAssets(assets);
    }

    /**
     * The final unload pass over a batch: a candidate claimed again is
     * skipped; otherwise its keep-alive entry is cleared and removed, its
     * active handles are cancelled one by one, and it counts as unloaded when
     * there was at least one.
     */
    method FinalUnloadAssets(assets: HandleArray) returns (unloadedAssetsCount: nat)
      requires UnloadLoop(UnloadResult(Model(), 0), assets, 0).Some?
      modifies this`keepAlive, this`streamableManager
      ensures UnloadLoop(UnloadResult(old(Model()), 0), assets, 0) == Some(UnloadResult(Model(), unloadedAssetsCount))
    {
      ghost var result := UnloadLoop(UnloadResult(Model(), 0), assets, 0);
      unloadedAssetsCount := 0;
      for i := 0 to |assets|
        invariant UnloadLoop(UnloadResult(Model(), unloadedAssetsCount), assets, i) == result
      {
        var pair := assets[i];
        var assetPath := pair.asset.path;
        if assetPath in assetRequestCount {
          continue;
        }
        // the source clears the entry through the map's index operator, which requires the key
        assert assetPath in keepAlive;
        ghost var entries := keepAlive;
        keepAlive := keepAlive[assetPath := NullHandle];
        keepAlive := keepAlive - {assetPath};
        assert keepAlive == entries - {assetPath};
        var activeHandles := ActiveHandles(streamableManager, assetPath);
        if activeHandles != {} {
          CancelHandles(activeHandles);
          unloadedAssetsCount := unloadedAssetsCount + 1;
        }
      }
    }

    /** Cancelling each handle of a set, one at a time. */
    method CancelHandles(handles: set<nat>)
      modifies this`streamableManager
      ensures streamableManager == CancelAll(old(streamableManager), handles)
    {
      var remaining := handles;
      while remaining != {}
        invariant remaining <= handles
        invariant streamableManager == CancelAll(old(streamableManager), handles - remaining)
        decreases |remaining|
      {
        var handle :| handle in remaining;
        streamableManager := CancelHandle(streamableManager, handle);
        remaining := remaining - {handle};
        assert old(streamableManager).active - (handles - (remaining + {handle})) - {handle} ==
               old(streamableManager).active - (handles - remaining);
      }
    }
  }
}
