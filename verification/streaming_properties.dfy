/**
 * What the operations of the streaming subsystem promise beyond the invariant:
 * counts that equal the number of holding requests, counts that go up by the
 * multiplicity of a requested asset, a release that never cancels a
 * keep-alive handle, and a release that schedules exactly the assets whose
 * count reached zero.
 */
module StreamingProperties {
  import opened AssetHandlePairs
  import opened EngineModel
  import opened StreamingTables
  import opened StreamingInvariants

  /** The paths of the non-null assets of a request list. */
  function AssetPaths(assets: seq<SoftObjectPtr>): set<AssetPath>
  {
    set k | 0 <= k < |assets| && assets[k].SoftPtr? :: assets[k].path
  }

  /** No asset occurs twice in the request list. */
  predicate DistinctList(assets: seq<SoftObjectPtr>)
  {
    forall i, j :: 0 <= i < j < |assets| ==> assets[i] != assets[j]
  }

  lemma AssetPathsSnoc(assets: seq<SoftObjectPtr>)
    requires |assets| > 0 && assets[|assets| - 1].SoftPtr?
    ensures AssetPaths(assets) == AssetPaths(assets[..|assets| - 1]) + {assets[|assets| - 1].path}
  {
    var init := assets[..|assets| - 1];
    forall p | p in AssetPaths(assets) ensures p in AssetPaths(init) + {assets[|assets| - 1].path} {
      var k :| 0 <= k < |assets| && assets[k].SoftPtr? && assets[k].path == p;
      if k < |init| { assert init[k] == assets[k]; }
    }
    forall p | p in AssetPaths(init) ensures p in AssetPaths(assets) {
      var k :| 0 <= k < |init| && init[k].SoftPtr? && init[k].path == p;
      assert assets[k] == init[k];
    }
  }

  // ---------------------------------------------------------------------------
  // Requesting the same asset once per request keeps counts exact
  // ---------------------------------------------------------------------------

  /** Streaming an asset its request does not hold yet adds exactly one holder and one count. */
  lemma StreamAssetKeepsExactCounts(t: Tables, asset: SoftObjectPtr, id: Guid)
    requires ClaimsWellFormed(t) && ExactCounts(t) && asset.SoftPtr?
    requires asset.path !in PathsOf(ClaimsOf(t.registeredAssets, id))
    ensures var r := StreamAsset(t, asset, id);
            && ExactCounts(r)
            && PathsOf(ClaimsOf(r.registeredAssets, id)) == PathsOf(ClaimsOf(t.registeredAssets, id)) + {asset.path}
  {
    var r := StreamAsset(t, asset, id);
    var loaded := RequestAsyncLoad(t.streamableManager, asset.path);
    var pair := AssetHandlePair(asset, HandleRef(loaded.1));
    forall q | q in r.assetRequestCount
      ensures r.assetRequestCount[q] == |Holders(r.registeredAssets, q)|
    {
      StreamAssetCountExactAt(t, asset, id, q);
    }
    StreamAssetFields(t, asset, id);
    ContainsPairByPath(ClaimsOf(t.registeredAssets, id), pair);
    PathsOfSnoc(ClaimsOf(t.registeredAssets, id), pair);
  }

  /** After streaming an asset its request did not hold, one count is exactly its number of holders. */
  lemma StreamAssetCountExactAt(t: Tables, asset: SoftObjectPtr, id: Guid, q: AssetPath)
    requires ClaimsWellFormed(t) && ExactCounts(t) && asset.SoftPtr?
    requires asset.path !in PathsOf(ClaimsOf(t.registeredAssets, id))
    requires q in StreamAsset(t, asset, id).assetRequestCount
    ensures var r := StreamAsset(t, asset, id);
            r.assetRequestCount[q] == |Holders(r.registeredAssets, q)|
  {
    var r := StreamAsset(t, asset, id);
    var loaded := RequestAsyncLoad(t.streamableManager, asset.path);
    var pair := AssetHandlePair(asset, HandleRef(loaded.1));
    StreamAssetFields(t, asset, id);
    ContainsPairByPath(ClaimsOf(t.registeredAssets, id), pair);
    HoldersAfterRegister(t.registeredAssets, pair, id, q);
    HeldIsCounted(t, q);
    if q == asset.path && q !in t.assetRequestCount {
      assert Holders(r.registeredAssets, q) == {id};
    }
  }

  lemma {:induction false} StreamAllKeepsExactCounts(t: Tables, assets: seq<SoftObjectPtr>, id: Guid)
    requires Consistent(t) && ExactCounts(t)
    requires IsValidGuid(id) && id <= t.lastGuid && id !in t.registeredAssets
    requires forall k :: 0 <= k < |assets| ==> assets[k].SoftPtr?
    requires DistinctList(assets)
    ensures var r := StreamAll(t, assets, id);
            ExactCounts(r) && PathsOf(ClaimsOf(r.registeredAssets, id)) == AssetPaths(assets)
    decreases |assets|
  {
    if |assets| == 0 {
      assert PathsOf([]) == {};
      assert AssetPaths(assets) == {};
    } else {
      var init := assets[..|assets| - 1];
      var last := assets[|assets| - 1];
      StreamAllKeepsExactCounts(t, init, id);
      StreamAllPreservesConsistent(t, init, id);
      assert last.path !in AssetPaths(init) by {
        forall p | p in AssetPaths(init) ensures p != last.path {
          var k :| 0 <= k < |init| && init[k].SoftPtr? && init[k].path == p;
          assert init[k] == assets[k] && assets[k] != last;
        }
      }
      StreamAssetKeepsExactCounts(StreamAll(t, init, id), last, id);
      AssetPathsSnoc(assets);
    }
  }

  /**
   * A request whose list names no asset twice keeps every count equal to the
   * number of live requests holding the asset, and registers exactly the
   * assets of the list under its new id.
   */
  lemma RequestStreamingKeepsExactCounts(t: Tables, assets: seq<SoftObjectPtr>)
    requires Consistent(t) && ExactCounts(t)
    requires forall k :: 0 <= k < |assets| ==> assets[k].SoftPtr?
    requires DistinctList(assets)
    ensures var r := RequestStreaming(t, assets);
            && ExactCounts(r.tables)
            && (|assets| > 0 ==> PathsOf(r.tables.registeredAssets[r.requestId]) == AssetPaths(assets))
  {
    if |assets| > 0 {
      var id := t.lastGuid + 1;
      var t1 := t.(lastGuid := id);
      NewGuidPreservesConsistent(t, id);
      RequestStreamingTables(t, assets);
      StreamAllKeepsExactCounts(t1, assets, id);
    }
  }

  /** The single-asset overload is the list overload applied to a one-element list. */
  lemma RequestSingleIsSingletonRequest(t: Tables, asset: SoftObjectPtr)
    requires asset.SoftPtr?
    ensures RequestSingle(t, asset) == RequestStreaming(t, [asset])
  {
    var id := t.lastGuid + 1;
    assert [asset][..0] == [];
    assert StreamAll(t.(lastGuid := id), [asset], id) == StreamAsset(t.(lastGuid := id), asset, id);
  }

  /** Releasing a request takes it out of every count it held and keeps counts exact. */
  lemma ReleaseKeepsExactCounts(t: Tables, requestId: Guid)
    requires Consistent(t) && ExactCounts(t)
    ensures requestId in t.registeredAssets ==> ReleasableClaims(t, t.registeredAssets[requestId])
    ensures ExactCounts(Release(t, requestId).tables)
  {
    if requestId in t.registeredAssets {
      ConsistentAllowsRelease(t, requestId);
    }
    if IsValidGuid(requestId) && requestId in t.registeredAssets {
      var r := Release(t, requestId).tables;
      forall q | q in r.assetRequestCount
        ensures r.assetRequestCount[q] == |Holders(r.registeredAssets, q)|
      {
        ReleaseCountExactAt(t, requestId, q);
      }
    }
  }

  /** After a release, one remaining count is exactly the number of requests holding its asset. */
  lemma ReleaseCountExactAt(t: Tables, requestId: Guid, q: AssetPath)
    requires ExactCounts(t) && IsValidGuid(requestId) && requestId in t.registeredAssets
    requires ReleasableClaims(t, t.registeredAssets[requestId])
    requires q in Release(t, requestId).tables.assetRequestCount
    ensures var r := Release(t, requestId).tables;
            r.assetRequestCount[q] == |Holders(r.registeredAssets, q)|
  {
    ReleaseFields(t, requestId);
    HoldersAfterRemove(t.registeredAssets, requestId, q);
  }

  // ---------------------------------------------------------------------------
  // How much a request adds to the counts
  // ---------------------------------------------------------------------------

  lemma {:induction false} StreamAllCounts(t: Tables, assets: seq<SoftObjectPtr>, id: Guid)
    requires forall k :: 0 <= k < |assets| ==> assets[k].SoftPtr?
    ensures forall p :: CountOf(StreamAll(t, assets, id).assetRequestCount, p) ==
                        CountOf(t.assetRequestCount, p) + multiset(assets)[SoftPtr(p)]
    decreases |assets|
  {
    if |assets| > 0 {
      var init := assets[..|assets| - 1];
      var last := assets[|assets| - 1];
      var prior := StreamAll(t, init, id);
      StreamAllCounts(t, init, id);
      assert assets == init + [last];
      var r := StreamAsset(prior, last, id);
      assert StreamAll(t, assets, id) == r;
      forall p ensures CountOf(r.assetRequestCount, p) == CountOf(t.assetRequestCount, p) + multiset(assets)[SoftPtr(p)]
      {
        StreamAssetCountOf(prior, last, id, p);
        MultiplicitySnoc(init, last, SoftPtr(p));
      }
    }
  }

  lemma StreamAssetCountOf(t: Tables, asset: SoftObjectPtr, id: Guid, p: AssetPath)
    requires asset.SoftPtr?
    ensures CountOf(StreamAsset(t, asset, id).assetRequestCount, p) ==
            CountOf(t.assetRequestCount, p) + (if asset == SoftPtr(p) then 1 else 0)
  {
  }

  lemma MultiplicitySnoc(init: seq<SoftObjectPtr>, last: SoftObjectPtr, x: SoftObjectPtr)
    ensures multiset(init + [last])[x] == multiset(init)[x] + (if last == x then 1 else 0)
  {
    assert multiset(init + [last]) == multiset(init) + multiset{last};
  }

  /**
   * A request adds to each asset's count the number of times the list names
   * it: every element is streamed once, duplicates included.
   */
  lemma RequestStreamingCounts(t: Tables, assets: seq<SoftObjectPtr>)
    requires forall k :: 0 <= k < |assets| ==> assets[k].SoftPtr?
    ensures forall p :: CountOf(RequestStreaming(t, assets).tables.assetRequestCount, p) ==
                        CountOf(t.assetRequestCount, p) + multiset(assets)[SoftPtr(p)]
  {
    if |assets| > 0 {
      RequestStreamingTables(t, assets);
      StreamAllCounts(t.(lastGuid := t.lastGuid + 1), assets, t.lastGuid + 1);
    }
  }

  // ---------------------------------------------------------------------------
  // What a release cancels and what it schedules
  // ---------------------------------------------------------------------------

  /**
   * A release cancels a pair's handle exactly when it is not the keep-alive
   * handle of the pair's asset; a keep-alive handle that was active stays
   * active, whichever request it came from.
   */
  lemma ReleaseNeverCancelsKeepAlive(t: Tables, requestId: Guid)
    requires Consistent(t) && IsValidGuid(requestId) && requestId in t.registeredAssets
    ensures ReleasableClaims(t, t.registeredAssets[requestId])
    ensures var claims := t.registeredAssets[requestId];
            var before := t.streamableManager.active;
            var after := Release(t, requestId).tables.streamableManager.active;
            && (forall k :: 0 <= k < |claims| ==>
                  (claims[k].handle.id in after <==>
                     claims[k].handle.id in before && claims[k].handle == t.keepAlive[claims[k].asset.path]))
            && (forall p :: p in t.keepAlive && t.keepAlive[p].id in before ==> t.keepAlive[p].id in after)
  {
    var claims := t.registeredAssets[requestId];
    ConsistentAllowsRelease(t, requestId);
    assert forall k :: 0 <= k < |claims| ==> WellFormedClaim(t, claims[k]);
    ReleaseCancelsRedundantOnly(t, requestId);
  }

  /** The cancellations of a release, for pairs that are well formed. */
  lemma ReleaseCancelsRedundantOnly(t: Tables, requestId: Guid)
    requires IsValidGuid(requestId) && requestId in t.registeredAssets
    requires KeepAliveIssued(t) && ReleasableClaims(t, t.registeredAssets[requestId])
    requires forall k :: 0 <= k < |t.registeredAssets[requestId]| ==> WellFormedClaim(t, t.registeredAssets[requestId][k])
    ensures var claims := t.registeredAssets[requestId];
            var before := t.streamableManager.active;
            var after := Release(t, requestId).tables.streamableManager.active;
            && (forall k :: 0 <= k < |claims| ==>
                  (claims[k].handle.id in after <==>
                     claims[k].handle.id in before && claims[k].handle == t.keepAlive[claims[k].asset.path]))
            && (forall p :: p in t.keepAlive && t.keepAlive[p].id in before ==> t.keepAlive[p].id in after)
  {
    ReleaseFields(t, requestId);
    var claims := t.registeredAssets[requestId];
    var redundant := RedundantHandles(t.keepAlive, claims);
    var l := t.streamableManager;
    assert Release(t, requestId).tables.streamableManager.active == l.active - redundant;
    forall p | p in t.keepAlive ensures t.keepAlive[p].HandleRef? && t.keepAlive[p].id !in redundant {
      KeepAliveNotRedundant(t, claims, p);
    }
    forall k | 0 <= k < |claims|
      ensures claims[k].handle == t.keepAlive[claims[k].asset.path] ==> claims[k].handle.id !in redundant
    {
      KeepAliveNotRedundant(t, claims, claims[k].asset.path);
    }
  }

  /** A keep-alive handle is never among the redundant handles of well-formed pairs. */
  lemma KeepAliveNotRedundant(t: Tables, claims: HandleArray, p: AssetPath)
    requires KeepAliveIssued(t) && p in t.keepAlive && ReleasableClaims(t, claims)
    requires forall k :: 0 <= k < |claims| ==> WellFormedClaim(t, claims[k])
    ensures t.keepAlive[p].HandleRef?
    ensures t.keepAlive[p].id !in RedundantHandles(t.keepAlive, claims)
  {
    var h := t.keepAlive[p];
    assert IssuedFor(t.streamableManager, h, p);
    forall k | 0 <= k < |claims| && claims[k].handle == h
      ensures claims[k].handle == t.keepAlive[claims[k].asset.path]
    {
      assert WellFormedClaim(t, claims[k]);
      var q := claims[k].asset.path;
      assert t.streamableManager.issued[h.id] == q;
    }
  }

  /** The paths whose count entry the decrements remove are the paths of the zeroed pairs. */
  lemma ZeroedPathsLeaveCounts(counts: map<AssetPath, int>, claims: HandleArray)
    requires DistinctAssets(claims)
    requires forall k :: 0 <= k < |claims| ==> claims[k].asset.SoftPtr? && claims[k].asset.path in counts
    ensures forall p :: p in counts && p !in Decremented(counts, claims) <==>
                        p in PathsOf(ZeroCandidates(counts, claims))
    ensures forall x :: x in ZeroCandidates(counts, claims) <==>
                        x in claims && x.asset.path !in Decremented(counts, claims)
  {
    var zeroed := ZeroCandidates(counts, claims);
    var after := Decremented(counts, claims);
    forall p | p in counts && p !in after ensures p in PathsOf(zeroed) {
      var k :| 0 <= k < |claims| && claims[k].asset.SoftPtr? && claims[k].asset.path == p;
      assert claims[k] in claims;
      assert claims[k] in zeroed;
      var j :| 0 <= j < |zeroed| && zeroed[j] == claims[k];
    }
    forall p | p in PathsOf(zeroed) ensures p in counts && p !in after {
      var j :| 0 <= j < |zeroed| && zeroed[j].asset.SoftPtr? && zeroed[j].asset.path == p;
      assert zeroed[j] in zeroed;
      var k :| 0 <= k < |claims| && claims[k] == zeroed[j];
      assert p in PathsOf(claims);
    }
    forall x | x in claims ensures x in zeroed <==> x.asset.path !in after {
      var k :| 0 <= k < |claims| && claims[k] == x;
      assert x.asset.path in PathsOf(claims);
    }
  }

  /**
   * A release schedules one batch, and only when some count reached zero: its
   * pairs are exactly those of the request whose asset lost its count entry.
   */
  lemma ReleaseSchedulesZeroed(t: Tables, requestId: Guid)
    requires Consistent(t) && IsValidGuid(requestId) && requestId in t.registeredAssets
    ensures ReleasableClaims(t, t.registeredAssets[requestId])
    ensures var claims := t.registeredAssets[requestId];
            var zeroed := ZeroCandidates(t.assetRequestCount, claims);
            var r := Release(t, requestId).tables;
            && r.pendingUnloads == t.pendingUnloads + (if |zeroed| > 0 then [zeroed] else [])
            && DistinctAssets(zeroed)
            && (forall x :: x in zeroed <==> x in claims && x.asset.path !in r.assetRequestCount)
            && (forall p :: p in t.assetRequestCount && p !in r.assetRequestCount <==> p in PathsOf(zeroed))
  {
    ConsistentAllowsRelease(t, requestId);
    ReleaseFields(t, requestId);
    var claims := t.registeredAssets[requestId];
    ZeroedPathsLeaveCounts(t.assetRequestCount, claims);
  }
}
