/**
 * The release loop of AssetStreamingSubsystem.cpp as it is written. The pair
 * of the current index is held by reference into the local array, and when
 * the asset is still claimed, that element is removed before the handle is
 * read. The handle comparison and the cancellation then see whatever the
 * reference now designates: the next element of the array, or nothing when
 * the removed element was the last one. The rest of the model releases with
 * the pair copied before the removal (ReleaseLoops.ReleaseLoop,
 * StreamingTables.Release and AssetStreaming.AssetStreamingSubsystem.ReleaseAssets).
 */
module ReleaseAsWritten {
  import opened AssetHandlePairs
  import opened EngineModel
  import opened StreamingTables
  import opened ReleaseLoops

  /**
   * The loop from the given index down to 0 over the local array, with the
   * counts and the handles cancelled so far. None when a step has no defined
   * outcome: a null asset or handle, a missing count or keep-alive entry, or a
   * read through the reference past the end of the shrunken array.
   */
  function ReleaseLoopAsWritten(counts: map<AssetPath, int>, keepAlive: map<AssetPath, HandlePtr>,
                                assets: HandleArray, index: int, cancelled: set<nat>)
    : (r: Option<(map<AssetPath, int>, HandleArray, set<nat>)>)
    requires -1 <= index < |assets|
    ensures r.Some? ==> cancelled <= r.value.2 && |r.value.1| <= |assets|
    decreases index + 1
  {
    if index < 0 then Some((counts, assets, cancelled))
    else
      var pair := assets[index];
      if pair.asset.NullAsset? || pair.handle.NullHandle? || pair.asset.path !in counts then None
      else
        var path := pair.asset.path;
        var remaining := counts[path] - 1;
        var counts' := if remaining > 0 then counts[path := remaining] else counts - {path};
        var assets' := if remaining > 0 then assets[..index] + assets[index + 1..] else assets;
        // the reference still designates slot `index` of the local array
        if index >= |assets'| || path !in keepAlive then None
        else
          var handle := assets'[index].handle;
          if handle == keepAlive[path] then ReleaseLoopAsWritten(counts', keepAlive, assets', index - 1, cancelled)
          else if handle.NullHandle? then None
          else ReleaseLoopAsWritten(counts', keepAlive, assets', index - 1, cancelled + {handle.id})
  }

  /**
   * A request for [A, B] while another request holds A: A's handle 0 is its
   * keep-alive handle, the request loaded A under handle 1 and B under
   * handle 2, which is B's keep-alive handle. Releasing the request as
   * written cancels handle 2, B's keep-alive handle, and leaves handle 1
   * active.
   */
  lemma StaleHandleCancelsKeepAlive()
    ensures var counts := map["A" := 2, "B" := 1];
            var keepAlive := map["A" := HandleRef(0), "B" := HandleRef(2)];
            var assets := [AssetHandlePair(SoftPtr("A"), HandleRef(1)), AssetHandlePair(SoftPtr("B"), HandleRef(2))];
            && ReleaseLoopAsWritten(counts, keepAlive, assets, 1, {}) ==
                 Some((map["A" := 1], [AssetHandlePair(SoftPtr("B"), HandleRef(2))], {2}))
            && keepAlive["B"] == HandleRef(2)
  {
    var counts := map["A" := 2, "B" := 1];
    var keepAlive := map["A" := HandleRef(0), "B" := HandleRef(2)];
    var pa := AssetHandlePair(SoftPtr("A"), HandleRef(1));
    var pb := AssetHandlePair(SoftPtr("B"), HandleRef(2));
    var assets := [pa, pb];
    // index 1: B's count reaches 0, the pair stays, its own handle is the keep-alive one
    var counts1 := map["A" := 2];
    assert counts - {"B"} == counts1;
    // index 0: A is still claimed, the pair is removed and the reference now sees B's pair
    assert assets[..0] + assets[1..] == [pb];
    assert counts1["A" := 1] == map["A" := 1];
    assert counts1["A"] - 1 == 1 && keepAlive["A"] == HandleRef(0);
    var none: set<nat> := {};
    assert none + {2} == {2};
    assert ReleaseLoopAsWritten(map["A" := 1], keepAlive, [pb], -1, {2}) == Some((map["A" := 1], [pb], {2}));
    assert ReleaseLoopAsWritten(counts1, keepAlive, assets, 0, {}) == Some((map["A" := 1], [pb], {2}));
  }

  /**
   * The same release with the pair copied before the removal: handle 1, the
   * redundant one, is cancelled, and handles 0 and 2, the keep-alive handles,
   * stay active.
   */
  lemma CopiedPairCancelsRedundant()
    ensures var counts := map["A" := 2, "B" := 1];
            var keepAlive := map["A" := HandleRef(0), "B" := HandleRef(2)];
            var assets := [AssetHandlePair(SoftPtr("A"), HandleRef(1)), AssetHandlePair(SoftPtr("B"), HandleRef(2))];
            var loader := Loader(["A", "A", "B"], {0, 1, 2});
            ReleaseLoop(keepAlive, assets, counts, loader, 1) ==
              Some(([AssetHandlePair(SoftPtr("B"), HandleRef(2))], map["A" := 1], Loader(["A", "A", "B"], {0, 2})))
  {
    var counts := map["A" := 2, "B" := 1];
    var keepAlive := map["A" := HandleRef(0), "B" := HandleRef(2)];
    var pb := AssetHandlePair(SoftPtr("B"), HandleRef(2));
    var assets := [AssetHandlePair(SoftPtr("A"), HandleRef(1)), pb];
    var loader := Loader(["A", "A", "B"], {0, 1, 2});
    var counts1 := map["A" := 2];
    assert Decrement(counts, "B") == counts1 by {
      assert counts - {"B"} == counts1;
    }
    assert Decrement(counts1, "A") == map["A" := 1] by {
      assert counts1["A" := 1] == map["A" := 1];
    }
    assert assets[..0] + assets[1..] == [pb];
    assert CancelHandle(loader, 1) == Loader(["A", "A", "B"], {0, 2}) by {
      assert {0, 1, 2} - {1} == {0, 2};
    }
    var after := Loader(["A", "A", "B"], {0, 2});
    assert ReleaseLoop(keepAlive, [pb], map["A" := 1], after, -1) == Some(([pb], map["A" := 1], after));
    assert ReleaseLoop(keepAlive, assets, counts1, loader, 0) == Some(([pb], map["A" := 1], after));
  }
}
