/**
 * The cross-table invariants of the streaming subsystem and their proofs:
 * every counted asset has a positive count and a keep-alive entry, every
 * registered pair has a counted asset and a handle the loader issued for it,
 * and a count is never below the number of live requests that hold its asset.
 * The sharper invariant, count == number of holding requests, holds as long as
 * no request names the same asset twice.
 */
module StreamingInvariants {
  import opened AssetHandlePairs
  import opened EngineModel
  import opened StreamingTables

  /** The live requests whose registered pairs include the asset at a path. */
  function Holders(reg: map<Guid, HandleArray>, path: AssetPath): set<Guid>
  {
    set id | id in reg && path in PathsOf(reg[id])
  }

  /** A registered pair: non-null asset that is counted, with a handle issued for it. */
  ghost predicate WellFormedClaim(t: Tables, pair: AssetHandlePair)
  {
    && pair.asset.SoftPtr?
    && pair.asset.path in t.assetRequestCount
    && IssuedFor(t.streamableManager, pair.handle, pair.asset.path)
  }

  /** Every registered id is a valid guid the subsystem has already generated. */
  ghost predicate IdsIssued(t: Tables)
  {
    forall id :: id in t.registeredAssets ==> IsValidGuid(id) && id <= t.lastGuid
  }

  /** Every registered array is non-empty and names each asset once. */
  ghost predicate ArraysDistinct(t: Tables)
  {
    forall id :: id in t.registeredAssets ==>
      |t.registeredAssets[id]| > 0 && DistinctAssets(t.registeredAssets[id])
  }

  /** Every registered pair is well formed. */
  ghost predicate ClaimsWellFormed(t: Tables)
  {
    forall id, k :: id in t.registeredAssets && 0 <= k < |t.registeredAssets[id]| ==>
      WellFormedClaim(t, t.registeredAssets[id][k])
  }

  /** Every count is positive, covers the requests holding its asset, and has a keep-alive entry. */
  ghost predicate CountsCover(t: Tables)
  {
    forall p :: p in t.assetRequestCount ==>
      && 1 <= t.assetRequestCount[p]
      && |Holders(t.registeredAssets, p)| <= t.assetRequestCount[p]
      && p in t.keepAlive
  }

  /** Every keep-alive handle is a handle the loader issued for its asset. */
  ghost predicate KeepAliveIssued(t: Tables)
  {
    forall p :: p in t.keepAlive ==> IssuedFor(t.streamableManager, t.keepAlive[p], p)
  }

  /** Every pending unload batch is non-empty and names only non-null assets. */
  ghost predicate PendingNonNull(t: Tables)
  {
    forall b :: b in t.pendingUnloads ==> |b| > 0 && NonNullAssets(b)
  }

  /** The invariant every operation of the subsystem keeps. */
  ghost predicate Consistent(t: Tables)
  {
    && IdsIssued(t)
    && ArraysDistinct(t)
    && ClaimsWellFormed(t)
    && CountsCover(t)
    && KeepAliveIssued(t)
    && PendingNonNull(t)
  }

  /** Each count is exactly the number of live requests holding its asset. */
  ghost predicate ExactCounts(t: Tables)
  {
    forall p :: p in t.assetRequestCount ==> t.assetRequestCount[p] == |Holders(t.registeredAssets, p)|
  }

  lemma InitialIsConsistent()
    ensures Consistent(InitialTables()) && ExactCounts(InitialTables())
  {
  }

  /** An asset held by some live request is counted. */
  lemma HeldIsCounted(t: Tables, p: AssetPath)
    requires ClaimsWellFormed(t)
    ensures Holders(t.registeredAssets, p) != {} ==> p in t.assetRequestCount
  {
    if Holders(t.registeredAssets, p) != {} {
      var id :| id in Holders(t.registeredAssets, p);
      var s := t.registeredAssets[id];
      var k :| 0 <= k < |s| && s[k].asset.SoftPtr? && s[k].asset.path == p;
      assert WellFormedClaim(t, s[k]);
    }
  }

  /** Under the invariant, every registered request can be released. */
  lemma ConsistentAllowsRelease(t: Tables, id: Guid)
    requires Consistent(t) && id in t.registeredAssets
    ensures ReleasableClaims(t, t.registeredAssets[id])
  {
    var s := t.registeredAssets[id];
    forall k | 0 <= k < |s| ensures s[k].asset.path in t.keepAlive && s[k].handle.HandleRef? {
      assert WellFormedClaim(t, s[k]);
    }
  }

  // ---------------------------------------------------------------------------
  // Holders across registry updates
  // ---------------------------------------------------------------------------

  lemma HoldersAfterRegister(reg: map<Guid, HandleArray>, pair: AssetHandlePair, id: Guid, q: AssetPath)
    requires pair.asset.SoftPtr?
    ensures var r := Register(reg, pair, id);
            if q == pair.asset.path && !ContainsPair(ClaimsOf(reg, id), pair)
            then id !in Holders(reg, q) && Holders(r, q) == Holders(reg, q) + {id}
            else Holders(r, q) == Holders(reg, q)
  {
    var r := Register(reg, pair, id);
    var old_ := ClaimsOf(reg, id);
    ContainsPairByPath(old_, pair);
    if !ContainsPair(old_, pair) {
      PathsOfSnoc(old_, pair);
      assert id in reg ==> reg[id] == old_;
      assert PathsOf(r[id]) == PathsOf(old_) + {pair.asset.path};
      assert id !in reg ==> PathsOf(old_) == {};
      forall g | g in Holders(r, q) ensures g in Holders(reg, q) + (if q == pair.asset.path then {id} else {}) {
      }
      forall g | g in Holders(reg, q) ensures g in Holders(r, q) {
      }
    }
  }

  lemma HoldersAfterRemove(reg: map<Guid, HandleArray>, id: Guid, q: AssetPath)
    requires id in reg
    ensures Holders(reg - {id}, q) == Holders(reg, q) - {id}
    ensures id in Holders(reg, q) <==> q in PathsOf(reg[id])
  {
  }

  // ---------------------------------------------------------------------------
  // Streaming keeps the invariant
  // ---------------------------------------------------------------------------

  /** The state after streaming one asset, field by field. */
  lemma StreamAssetFields(t: Tables, asset: SoftObjectPtr, id: Guid)
    requires asset.SoftPtr?
    ensures var loaded := RequestAsyncLoad(t.streamableManager, asset.path);
            var pair := AssetHandlePair(asset, HandleRef(loaded.1));
            var r := StreamAsset(t, asset, id);
            && r.streamableManager == loaded.0
            && r.registeredAssets == Register(t.registeredAssets, pair, id)
            && r.assetRequestCount == Increment(t.assetRequestCount, asset.path)
            && r.keepAlive == if asset.path in t.keepAlive then t.keepAlive
                              else t.keepAlive[asset.path := HandleRef(loaded.1)]
  {
  }

  lemma StreamAssetKeepsClaims(t: Tables, asset: SoftObjectPtr, id: Guid)
    requires ClaimsWellFormed(t) && ArraysDistinct(t) && asset.SoftPtr?
    ensures var r := StreamAsset(t, asset, id);
            ClaimsWellFormed(r) && ArraysDistinct(r)
  {
    var r := StreamAsset(t, asset, id);
    var loaded := RequestAsyncLoad(t.streamableManager, asset.path);
    var pair := AssetHandlePair(asset, HandleRef(loaded.1));
    StreamAssetFields(t, asset, id);
    forall g, k | g in r.registeredAssets && 0 <= k < |r.registeredAssets[g]|
      ensures WellFormedClaim(r, r.registeredAssets[g][k])
    {
      var x := r.registeredAssets[g][k];
      if g in t.registeredAssets && k < |t.registeredAssets[g]| && x == t.registeredAssets[g][k] {
        assert WellFormedClaim(t, x);
      } else {
        assert x == pair;
      }
    }
    forall g | g in r.registeredAssets
      ensures |r.registeredAssets[g]| > 0 && DistinctAssets(r.registeredAssets[g])
    {
      if g != id { assert r.registeredAssets[g] == t.registeredAssets[g]; }
    }
  }

  lemma StreamAssetKeepsCounts(t: Tables, asset: SoftObjectPtr, id: Guid)
    requires Consistent(t) && asset.SoftPtr?
    ensures CountsCover(StreamAsset(t, asset, id))
  {
    var r := StreamAsset(t, asset, id);
    forall q | q in r.assetRequestCount
      ensures 1 <= r.assetRequestCount[q] && |Holders(r.registeredAssets, q)| <= r.assetRequestCount[q]
    {
      StreamAssetCountAt(t, asset, id, q);
    }
  }

  /** The count of one path after streaming an asset still covers the requests holding it. */
  lemma StreamAssetCountAt(t: Tables, asset: SoftObjectPtr, id: Guid, q: AssetPath)
    requires CountsCover(t) && ClaimsWellFormed(t) && asset.SoftPtr?
    requires q in StreamAsset(t, asset, id).assetRequestCount
    ensures var r := StreamAsset(t, asset, id);
            1 <= r.assetRequestCount[q] && |Holders(r.registeredAssets, q)| <= r.assetRequestCount[q]
  {
    var loaded := RequestAsyncLoad(t.streamableManager, asset.path);
    var pair := AssetHandlePair(asset, HandleRef(loaded.1));
    StreamAssetFields(t, asset, id);
    HoldersAfterRegister(t.registeredAssets, pair, id, q);
    HeldIsCounted(t, q);
    if q == asset.path && ContainsPair(ClaimsOf(t.registeredAssets, id), pair) {
      ContainsPairByPath(ClaimsOf(t.registeredAssets, id), pair);
      assert id in Holders(t.registeredAssets, q);
    }
  }

  lemma StreamAssetKeepsKeepAlive(t: Tables, asset: SoftObjectPtr, id: Guid)
    requires KeepAliveIssued(t) && asset.SoftPtr?
    ensures KeepAliveIssued(StreamAsset(t, asset, id))
  {
    var r := StreamAsset(t, asset, id);
    StreamAssetFields(t, asset, id);
    forall q | q in r.keepAlive ensures IssuedFor(r.streamableManager, r.keepAlive[q], q) {
      if q in t.keepAlive { assert IssuedFor(t.streamableManager, t.keepAlive[q], q); }
    }
  }

  lemma StreamAssetPreservesConsistent(t: Tables, asset: SoftObjectPtr, id: Guid)
    requires Consistent(t) && asset.SoftPtr? && IsValidGuid(id) && id <= t.lastGuid
    ensures Consistent(StreamAsset(t, asset, id))
  {
    StreamAssetKeepsClaims(t, asset, id);
    StreamAssetKeepsCounts(t, asset, id);
    StreamAssetKeepsKeepAlive(t, asset, id);
  }

  lemma StreamAllPreservesConsistent(t: Tables, assets: seq<SoftObjectPtr>, id: Guid)
    requires Consistent(t) && IsValidGuid(id) && id <= t.lastGuid
    requires forall k :: 0 <= k < |assets| ==> assets[k].SoftPtr?
    ensures Consistent(StreamAll(t, assets, id))
    decreases |assets|
  {
    if |assets| > 0 {
      var init := assets[..|assets| - 1];
      StreamAllPreservesConsistent(t, init, id);
      StreamAssetPreservesConsistent(StreamAll(t, init, id), assets[|assets| - 1], id);
    }
  }

  /** Generating a new guid keeps the invariant: registered ids stay below the counter. */
  lemma NewGuidPreservesConsistent(t: Tables, id: Guid)
    requires Consistent(t) && id > t.lastGuid
    ensures Consistent(t.(lastGuid := id))
  {
    var t' := t.(lastGuid := id);
    forall g, k | g in t'.registeredAssets && 0 <= k < |t'.registeredAssets[g]|
      ensures WellFormedClaim(t', t'.registeredAssets[g][k])
    {
      assert WellFormedClaim(t, t.registeredAssets[g][k]);
    }
  }

  lemma StreamUnderNewGuidPreservesConsistent(t: Tables, assets: seq<SoftObjectPtr>)
    requires Consistent(t)
    requires forall k :: 0 <= k < |assets| ==> assets[k].SoftPtr?
    ensures Consistent(StreamAll(t.(lastGuid := t.lastGuid + 1), assets, t.lastGuid + 1))
  {
    var id := t.lastGuid + 1;
    NewGuidPreservesConsistent(t, id);
    StreamAllPreservesConsistent(t.(lastGuid := id), assets, id);
  }

  lemma RequestStreamingPreservesConsistent(t: Tables, assets: seq<SoftObjectPtr>)
    requires Consistent(t)
    requires forall k :: 0 <= k < |assets| ==> assets[k].SoftPtr?
    ensures Consistent(RequestStreaming(t, assets).tables)
  {
    if |assets| > 0 {
      RequestStreamingTables(t, assets);
      StreamUnderNewGuidPreservesConsistent(t, assets);
    }
  }

  lemma RequestSinglePreservesConsistent(t: Tables, asset: SoftObjectPtr)
    requires Consistent(t) && asset.SoftPtr?
    ensures Consistent(RequestSingle(t, asset).tables)
  {
    var id := t.lastGuid + 1;
    NewGuidPreservesConsistent(t, id);
    StreamAssetPreservesConsistent(t.(lastGuid := id), asset, id);
    RequestSingleTables(t, asset);
  }

  /** A single request streams its asset under the next guid. */
  lemma RequestSingleTables(t: Tables, asset: SoftObjectPtr)
    requires asset.SoftPtr?
    ensures RequestSingle(t, asset).tables == StreamAsset(t.(lastGuid := t.lastGuid + 1), asset, t.lastGuid + 1)
  {
  }

  // ---------------------------------------------------------------------------
  // Releasing keeps the invariant
  // ---------------------------------------------------------------------------

  /** The state after a release that goes through, field by field. */
  lemma ReleaseFields(t: Tables, requestId: Guid)
    requires IsValidGuid(requestId) && requestId in t.registeredAssets
    requires ReleasableClaims(t, t.registeredAssets[requestId])
    ensures var claims := t.registeredAssets[requestId];
            var zeroed := ZeroCandidates(t.assetRequestCount, claims);
            var r := Release(t, requestId).tables;
            && r.assetRequestCount == Decremented(t.assetRequestCount, claims)
            && r.registeredAssets == t.registeredAssets - {requestId}
            && r.streamableManager == CancelAll(t.streamableManager, RedundantHandles(t.keepAlive, claims))
            && r.keepAlive == t.keepAlive && r.lastGuid == t.lastGuid
            && r.pendingUnloads == t.pendingUnloads + (if |zeroed| > 0 then [zeroed] else [])
  {
  }

  lemma ReleaseKeepsCounts(t: Tables, requestId: Guid)
    requires CountsCover(t) && IsValidGuid(requestId) && requestId in t.registeredAssets
    requires ReleasableClaims(t, t.registeredAssets[requestId])
    ensures CountsCover(Release(t, requestId).tables)
  {
    var claims := t.registeredAssets[requestId];
    var r := Release(t, requestId).tables;
    ReleaseFields(t, requestId);
    var counts := r.assetRequestCount;
    forall q | q in counts
      ensures 1 <= counts[q] && |Holders(r.registeredAssets, q)| <= counts[q] && q in r.keepAlive
    {
      HoldersAfterRemove(t.registeredAssets, requestId, q);
    }
  }

  lemma {:induction false} SubsetCardinality<T>(a: set<T>, b: set<T>)
    requires a <= b
    ensures |a| <= |b|
    decreases |a|
  {
    if a != {} {
      var x :| x in a;
      SubsetCardinality(a - {x}, b - {x});
    }
  }

  /** An asset held by another request stays counted after this request is released. */
  lemma OtherHolderKeepsCount(t: Tables, requestId: Guid, g: Guid, q: AssetPath)
    requires CountsCover(t) && requestId in t.registeredAssets
    requires ReleasableClaims(t, t.registeredAssets[requestId])
    requires g in t.registeredAssets && g != requestId && q in PathsOf(t.registeredAssets[g])
    requires q in t.assetRequestCount
    ensures q in Decremented(t.assetRequestCount, t.registeredAssets[requestId])
  {
    var claims := t.registeredAssets[requestId];
    if q in PathsOf(claims) {
      assert {g, requestId} <= Holders(t.registeredAssets, q);
      assert |{g, requestId}| == 2;
      SubsetCardinality({g, requestId}, Holders(t.registeredAssets, q));
    }
  }

  lemma ReleaseKeepsClaims(t: Tables, requestId: Guid)
    requires ClaimsWellFormed(t) && CountsCover(t) && IsValidGuid(requestId) && requestId in t.registeredAssets
    requires ReleasableClaims(t, t.registeredAssets[requestId])
    ensures ClaimsWellFormed(Release(t, requestId).tables)
  {
    var r := Release(t, requestId).tables;
    ReleaseFields(t, requestId);
    forall g, k | g in r.registeredAssets && 0 <= k < |r.registeredAssets[g]|
      ensures WellFormedClaim(r, r.registeredAssets[g][k])
    {
      var x := t.registeredAssets[g][k];
      assert WellFormedClaim(t, x);
      assert x.asset.path in PathsOf(t.registeredAssets[g]);
      OtherHolderKeepsCount(t, requestId, g, x.asset.path);
    }
  }

  lemma ReleaseKeepsPending(t: Tables, requestId: Guid)
    requires PendingNonNull(t) && IsValidGuid(requestId) && requestId in t.registeredAssets
    requires ReleasableClaims(t, t.registeredAssets[requestId])
    ensures PendingNonNull(Release(t, requestId).tables)
  {
    var claims := t.registeredAssets[requestId];
    var r := Release(t, requestId).tables;
    ReleaseFields(t, requestId);
    forall b: HandleArray | b in r.pendingUnloads ensures |b| > 0 && NonNullAssets(b) {
      if b !in t.pendingUnloads {
        assert b == ZeroCandidates(t.assetRequestCount, claims);
        forall k | 0 <= k < |b| ensures b[k].asset.SoftPtr? {
          assert b[k] in b;
        }
      }
    }
  }

  lemma ReleasePreservesConsistent(t: Tables, requestId: Guid)
    requires Consistent(t)
    ensures requestId in t.registeredAssets ==> ReleasableClaims(t, t.registeredAssets[requestId])
    ensures Consistent(Release(t, requestId).tables)
  {
    if requestId in t.registeredAssets {
      ConsistentAllowsRelease(t, requestId);
    }
    if IsValidGuid(requestId) && requestId in t.registeredAssets {
      ReleaseFields(t, requestId);
      ReleaseKeepsCounts(t, requestId);
      ReleaseKeepsClaims(t, requestId);
      ReleaseKeepsPending(t, requestId);
    }
  }

  // ---------------------------------------------------------------------------
  // A final unload pass keeps the invariant
  // ---------------------------------------------------------------------------

  lemma FireNextPreservesConsistent(t: Tables)
    requires Consistent(t)
    requires |t.pendingUnloads| > 0 ==> UnloadSafe(t, t.pendingUnloads[0])
    ensures Consistent(FireNext(t).tables)
    ensures ExactCounts(t) ==> ExactCounts(FireNext(t).tables)
  {
    if |t.pendingUnloads| > 0 {
      var r := FireNext(t).tables;
      var popped := t.(pendingUnloads := t.pendingUnloads[1..]);
      assert FinalUnloadEffect(popped, Unclaimed(t.assetRequestCount, t.pendingUnloads[0]), FireNext(t));
      forall g, k | g in r.registeredAssets && 0 <= k < |r.registeredAssets[g]|
        ensures WellFormedClaim(r, r.registeredAssets[g][k])
      {
        assert WellFormedClaim(t, t.registeredAssets[g][k]);
      }
      forall q | q in r.keepAlive ensures IssuedFor(r.streamableManager, r.keepAlive[q], q) {
        assert IssuedFor(t.streamableManager, t.keepAlive[q], q);
      }
      forall b: HandleArray | b in r.pendingUnloads ensures |b| > 0 && NonNullAssets(b) {
        assert b in t.pendingUnloads;
      }
      forall q | q in r.assetRequestCount ensures q in r.keepAlive {
        assert q !in Unclaimed(t.assetRequestCount, t.pendingUnloads[0]);
      }
    }
  }
}
