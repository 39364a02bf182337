/**
 * The final unload loop of AssetStreamingSubsystem.cpp read as a function of
 * its state: the candidates are visited first to last, and each one is the
 * step StreamingTables.UnloadOne on the result so far.
 */
module UnloadLoops {
  import opened AssetHandlePairs
  import opened StreamingTables

  /**
   * The pass from candidate `index` on, starting from the result `r` of the
   * candidates before it. None when a candidate has a null asset, or when an
   * unclaimed one has no keep-alive entry left to clear.
   */
  ghost function UnloadLoop(r: UnloadResult, candidates: HandleArray, index: nat): Option<UnloadResult>
    requires index <= |candidates|
    decreases |candidates| - index
  {
    if index == |candidates| then Some(r)
    else
      var pair := candidates[index];
      if pair.asset.NullAsset? then None
      else if pair.asset.path !in r.tables.assetRequestCount && pair.asset.path !in r.tables.keepAlive then None
      else UnloadLoop(UnloadOne(r, pair), candidates, index + 1)
  }

  /**
   * A batch that is safe to unload runs to the end, and what the loop
   * computes is the pass StreamingTables.FinalUnload.
   */
  lemma UnloadLoopMeetsSpec(t: Tables, candidates: HandleArray)
    requires UnloadSafe(t, candidates)
    ensures UnloadLoop(UnloadResult(t, 0), candidates, 0) == Some(FinalUnload(t, candidates))
  {
    assert candidates[..0] == [];
    UnloadLoopFrom(t, candidates, 0);
  }

  /** The loop from any point of a safe batch completes the pass. */
  lemma {:induction false} UnloadLoopFrom(t: Tables, candidates: HandleArray, n: nat)
    requires UnloadSafe(t, candidates) && n <= |candidates|
    ensures UnloadSafe(t, candidates[..n])
    ensures UnloadLoop(FinalUnload(t, candidates[..n]), candidates, n) == Some(FinalUnload(t, candidates))
    decreases |candidates| - n
  {
    UnloadSafePrefix(t, candidates, n);
    if n == |candidates| {
      assert candidates[..n] == candidates;
    } else {
      FinalUnloadSnoc(t, candidates, n);
      UnloadLoopFrom(t, candidates, n + 1);
    }
  }
}
