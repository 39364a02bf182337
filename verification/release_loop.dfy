/**
 * The release loop of the asset streaming subsystem, read as a function of the
 * state it runs on: the local copy of a request's pairs, the counts, the
 * loader and the index it has reached. It walks the copy from the last pair to
 * the first and stops (None) where the source's checks would fail. The pair
 * of the current index is copied before the copy can shrink, so its own
 * handle is compared and cancelled. ReleaseLoopMeetsSpec proves that on a
 * releasable request the loop computes what StreamingTables.Release states:
 * the zero-count candidates, the decremented counts and the loader with the
 * redundant handles cancelled.
 */
module ReleaseLoops {
  import opened AssetHandlePairs
  import opened EngineModel
  import opened StreamingTables

  /** The loop from `index` down to 0 on the given copy, counts and loader. */
  ghost function ReleaseLoop(keepAlive: map<AssetPath, HandlePtr>, assets: HandleArray,
                             counts: map<AssetPath, int>, loader: Loader, index: int)
    : Option<(HandleArray, map<AssetPath, int>, Loader)>
    requires -1 <= index < |assets|
    decreases index + 1
  {
    if index < 0 then Some((assets, counts, loader))
    else
      var pair := assets[index];
      if pair.asset.NullAsset? || pair.handle.NullHandle? || pair.asset.path !in counts || pair.asset.path !in keepAlive then None
      else
        var path := pair.asset.path;
        var assets' := if counts[path] - 1 > 0 then assets[..index] + assets[index + 1..] else assets;
        var loader' := if pair.handle != keepAlive[path] then CancelHandle(loader, pair.handle.id) else loader;
        ReleaseLoop(keepAlive, assets', Decrement(counts, path), loader', index - 1)
  }

  /**
   * On a releasable request, the loop run from the last pair computes the
   * zero-count candidates in order, the decremented counts and the loader
   * with exactly the redundant handles cancelled.
   */
  lemma ReleaseLoopMeetsSpec(t: Tables, claims: HandleArray)
    requires ReleasableClaims(t, claims)
    ensures ReleaseLoop(t.keepAlive, claims, t.assetRequestCount, t.streamableManager, |claims| - 1) ==
              Some((ZeroCandidates(t.assetRequestCount, claims),
                    Decremented(t.assetRequestCount, claims),
                    CancelAll(t.streamableManager, RedundantHandles(t.keepAlive, claims))))
  {
    var n := |claims|;
    TopState(t, claims);
    ReleaseLoopFrom(t, claims, n - 1);
  }

  /** Before the loop runs, the state is the one an empty suffix of walked pairs leaves behind. */
  lemma TopState(t: Tables, claims: HandleArray)
    ensures var rest := claims[|claims|..];
            && claims[..|claims|] + ZeroCandidates(t.assetRequestCount, rest) == claims
            && Decremented(t.assetRequestCount, rest) == t.assetRequestCount
            && CancelAll(t.streamableManager, RedundantHandles(t.keepAlive, rest)) == t.streamableManager
  {
    var rest := claims[|claims|..];
    assert rest == [];
    assert claims[..|claims|] == claims;
    assert claims + [] == claims;
    var l := t.streamableManager;
    assert l.active - {} == l.active;
  }

  /**
   * The loop run from `index`, on the state the pairs above it leave behind,
   * ends with the state the whole request leaves behind.
   */
  lemma {:induction false} ReleaseLoopFrom(t: Tables, claims: HandleArray, index: int)
    requires ReleasableClaims(t, claims) && -1 <= index < |claims|
    ensures ReleasableClaims(t, claims[index + 1..])
    ensures var c := t.assetRequestCount;
            var suffix := claims[index + 1..];
            ReleaseLoop(t.keepAlive, claims[..index + 1] + ZeroCandidates(c, suffix), Decremented(c, suffix),
                        CancelAll(t.streamableManager, RedundantHandles(t.keepAlive, suffix)), index) ==
              Some((ZeroCandidates(c, claims), Decremented(c, claims),
                    CancelAll(t.streamableManager, RedundantHandles(t.keepAlive, claims))))
    decreases index + 1
  {
    ReleasableSuffix(t, claims, index + 1);
    if index < 0 {
      assert claims[..0] == [] && claims[0..] == claims;
      assert [] + ZeroCandidates(t.assetRequestCount, claims) == ZeroCandidates(t.assetRequestCount, claims);
    } else {
      ReleaseLoopStep(t, claims, index);
      ReleaseLoopFrom(t, claims, index - 1);
    }
  }

  /**
   * One pass of the loop body, pair `index`: from the state the pairs above it
   * leave behind, it reaches the state the pairs from `index` on leave behind.
   */
  lemma ReleaseLoopStep(t: Tables, claims: HandleArray, index: nat)
    requires ReleasableClaims(t, claims) && index < |claims|
    ensures ReleasableClaims(t, claims[index..]) && ReleasableClaims(t, claims[index + 1..])
    ensures var c := t.assetRequestCount;
            var k := t.keepAlive;
            var l := t.streamableManager;
            ReleaseLoop(k, claims[..index + 1] + ZeroCandidates(c, claims[index + 1..]), Decremented(c, claims[index + 1..]),
                        CancelAll(l, RedundantHandles(k, claims[index + 1..])), index) ==
            ReleaseLoop(k, claims[..index] + ZeroCandidates(c, claims[index..]), Decremented(c, claims[index..]),
                        CancelAll(l, RedundantHandles(k, claims[index..])), index - 1)
  {
    ReleaseCountStep(t, claims, index);
    ReleaseArrayStep(t, claims, index);
    ReleaseCancelStep(t, claims, index);
    var c := t.assetRequestCount;
    var k := t.keepAlive;
    ReleaseLoopUnfold(k, claims[..index + 1] + ZeroCandidates(c, claims[index + 1..]), Decremented(c, claims[index + 1..]),
                      CancelAll(t.streamableManager, RedundantHandles(k, claims[index + 1..])), index);
  }

  /**
   * One unfolding of the loop: where the loop does not stop, the source's
   * checks hold for pair `index` and the loop goes on from the state after it.
   */
  lemma ReleaseLoopUnfold(keepAlive: map<AssetPath, HandlePtr>, assets: HandleArray,
                          counts: map<AssetPath, int>, loader: Loader, index: nat)
    requires index < |assets|
    requires ReleaseLoop(keepAlive, assets, counts, loader, index).Some? ||
             (assets[index].asset.SoftPtr? && assets[index].handle.HandleRef? &&
              assets[index].asset.path in counts && assets[index].asset.path in keepAlive)
    ensures assets[index].asset.SoftPtr? && assets[index].handle.HandleRef?
    ensures assets[index].asset.path in counts && assets[index].asset.path in keepAlive
    ensures var pair := assets[index];
            var path := pair.asset.path;
            ReleaseLoop(keepAlive, assets, counts, loader, index) ==
            ReleaseLoop(keepAlive, if counts[path] - 1 > 0 then assets[..index] + assets[index + 1..] else assets,
                        Decrement(counts, path),
                        if pair.handle != keepAlive[path] then CancelHandle(loader, pair.handle.id) else loader,
                        index - 1)
  {
  }

  /** The pairs of a request from a given index on can be released as well. */
  lemma ReleasableSuffix(t: Tables, claims: HandleArray, index: nat)
    requires ReleasableClaims(t, claims) && index <= |claims|
    ensures ReleasableClaims(t, claims[index..])
  {
    forall i, j | 0 <= i < j < |claims[index..]| ensures claims[index..][i].asset != claims[index..][j].asset {
      assert claims[index..][i] == claims[index + i] && claims[index..][j] == claims[index + j];
    }
  }

  /**
   * Release loop, pair `index`, counts: the pair's count is still the original
   * one when the loop reaches it, and one more decrement extends the suffix
   * already walked by that pair.
   */
  lemma ReleaseCountStep(t: Tables, claims: HandleArray, index: nat)
    requires ReleasableClaims(t, claims) && index < |claims|
    ensures ReleasableClaims(t, claims[index..]) && ReleasableClaims(t, claims[index + 1..])
    ensures var counts := Decremented(t.assetRequestCount, claims[index + 1..]);
            var path := claims[index].asset.path;
            && path in counts && counts[path] == t.assetRequestCount[path]
            && Decremented(t.assetRequestCount, claims[index..]) == Decrement(counts, path)
  {
    ReleasableSuffix(t, claims, index);
    ReleasableSuffix(t, claims, index + 1);
    var s := claims[index..];
    assert s[1..] == claims[index + 1..] && s[0] == claims[index];
    var path := claims[index].asset.path;
    assert path !in PathsOf(s[1..]) by {
      forall p | p in PathsOf(s[1..]) ensures p != path {
        var k :| 0 <= k < |s[1..]| && s[1..][k].asset.SoftPtr? && s[1..][k].asset.path == p;
        assert s[1..][k] == s[k + 1];
      }
    }
  }

  /**
   * Release loop, pair `index`, local array: a pair whose asset is still
   * claimed leaves the array, one whose count reaches zero stays.
   */
  lemma ReleaseArrayStep(t: Tables, claims: HandleArray, index: nat)
    requires ReleasableClaims(t, claims) && index < |claims|
    ensures var path := claims[index].asset.path;
            var arr := claims[..index + 1] + ZeroCandidates(t.assetRequestCount, claims[index + 1..]);
            var after := claims[..index] + ZeroCandidates(t.assetRequestCount, claims[index..]);
            && arr[index] == claims[index]
            && (t.assetRequestCount[path] - 1 > 0 ==> after == arr[..index] + arr[index + 1..])
            && (t.assetRequestCount[path] - 1 <= 0 ==> after == arr)
  {
    var c := t.assetRequestCount;
    var s := claims[index..];
    ReleasableSuffix(t, claims, index);
    assert s[1..] == claims[index + 1..] && s[0] == claims[index];
    var zeros := ZeroCandidates(c, claims[index + 1..]);
    var arr := claims[..index + 1] + zeros;
    assert arr[index] == claims[index];
    if c[claims[index].asset.path] - 1 > 0 {
      assert ZeroCandidates(c, s) == zeros;
      assert arr[..index] == claims[..index];
      assert arr[index + 1..] == zeros;
    } else {
      assert ZeroCandidates(c, s) == [claims[index]] + zeros;
      assert claims[..index + 1] == claims[..index] + [claims[index]];
    }
  }

  /**
   * Release loop, pair `index`, loader: the pair's handle is cancelled on top
   * of the suffix already walked exactly when it is not its asset's
   * keep-alive handle.
   */
  lemma ReleaseCancelStep(t: Tables, claims: HandleArray, index: nat)
    requires ReleasableClaims(t, claims) && index < |claims|
    ensures ReleasableClaims(t, claims[index..]) && ReleasableClaims(t, claims[index + 1..])
    ensures var pair := claims[index];
            var before := CancelAll(t.streamableManager, RedundantHandles(t.keepAlive, claims[index + 1..]));
            CancelAll(t.streamableManager, RedundantHandles(t.keepAlive, claims[index..])) ==
              if pair.handle != t.keepAlive[pair.asset.path] then CancelHandle(before, pair.handle.id) else before
  {
    ReleasableSuffix(t, claims, index);
    ReleasableSuffix(t, claims, index + 1);
    var s := claims[index..];
    assert s[1..] == claims[index + 1..] && s[0] == claims[index];
    var l := t.streamableManager;
    var redundant := RedundantHandles(t.keepAlive, claims[index + 1..]);
    if claims[index].handle != t.keepAlive[claims[index].asset.path] {
      assert l.active - ({claims[index].handle.id} + redundant) == l.active - redundant - {claims[index].handle.id};
    } else {
      var none: set<nat> := {};
      assert none + redundant == redundant;
    }
  }
}
