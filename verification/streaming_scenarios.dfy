/**
 * Call sequences of the streaming subsystem worked through from a fresh
 * subsystem, each showing one behaviour of the bookkeeping: an asset claimed
 * again during the unload delay survives the pass; an asset released twice
 * before its first pass leaves a second pass that indexes a missing keep-alive
 * entry; and an asset named twice in one request keeps a count that no
 * release can take back.
 */
module StreamingScenarios {
  import opened AssetHandlePairs
  import opened EngineModel
  import opened StreamingTables
  import opened StreamingInvariants

  /** Streaming one asset from a fresh subsystem: handle 0, request id 1. */
  lemma FirstRequest(p: AssetPath)
    ensures RequestSingle(InitialTables(), SoftPtr(p)) == CallResult(Requested(p), true, 1)
  {
    var a := SoftPtr(p);
    var t := InitialTables().(lastGuid := 1);
    assert t.streamableManager == Loader([], {});
    assert [] + [p] == [p] && {} + {0} == {0};
    var loaded := RequestAsyncLoad(t.streamableManager, p);
    assert loaded == (Loader([p], {0}), 0);
    assert Register(t.registeredAssets, AssetHandlePair(a, HandleRef(0)), 1) == map[1 := [AssetHandlePair(a, HandleRef(0))]];
  }

  /** Releasing a request that holds the only claim of an asset with its keep-alive handle. */
  lemma ReleaseSoleClaim(t: Tables, id: Guid, a: SoftObjectPtr, h: nat)
    requires a.SoftPtr? && IsValidGuid(id)
    requires t.registeredAssets == map[id := [AssetHandlePair(a, HandleRef(h))]]
    requires t.assetRequestCount == map[a.path := 1]
    requires a.path in t.keepAlive
    ensures var claims := [AssetHandlePair(a, HandleRef(h))];
            Release(t, id) ==
              CallResult(
                t.(registeredAssets := map[], assetRequestCount := map[],
                   streamableManager := CancelAll(t.streamableManager, RedundantHandles(t.keepAlive, claims)),
                   pendingUnloads := t.pendingUnloads + [claims]),
                true, InvalidGuid)
  {
    var claims := [AssetHandlePair(a, HandleRef(h))];
    assert claims[1..] == [];
    assert Decremented(t.assetRequestCount, claims) == map[];
    assert ZeroCandidates(t.assetRequestCount, claims) == claims;
    assert t.registeredAssets - {id} == map[];
  }

  // The states of the sequences below, for an asset at path p.

  /** One request (id 1) for the asset: handle 0 loads it and is its keep-alive handle. */
  function Requested(p: AssetPath): Tables
  {
    Tables(map[1 := [AssetHandlePair(SoftPtr(p), HandleRef(0))]], map[p := 1], map[p := HandleRef(0)],
           Loader([p], {0}), [], 1)
  }

  /** One request (id 1) released: the asset's only pair waits for its pass. */
  function ReleasedOnce(p: AssetPath): Tables
  {
    Tables(map[], map[], map[p := HandleRef(0)], Loader([p], {0}),
           [[AssetHandlePair(SoftPtr(p), HandleRef(0))]], 1)
  }

  /** The asset claimed again (id 2) before the pass: a second handle, the first stays keep-alive. */
  function Reclaimed(p: AssetPath): Tables
  {
    Tables(map[2 := [AssetHandlePair(SoftPtr(p), HandleRef(1))]], map[p := 1], map[p := HandleRef(0)],
           Loader([p, p], {0, 1}), [[AssetHandlePair(SoftPtr(p), HandleRef(0))]], 2)
  }

  /** The second request released too: its handle is cancelled and a second batch waits. */
  function ReleasedTwice(p: AssetPath): Tables
  {
    Tables(map[], map[], map[p := HandleRef(0)], Loader([p, p], {0}),
           [[AssetHandlePair(SoftPtr(p), HandleRef(0))], [AssetHandlePair(SoftPtr(p), HandleRef(1))]], 2)
  }

  /** The first pass has run: the asset is unloaded and the second batch still waits. */
  function FirstPassDone(p: AssetPath): Tables
  {
    Tables(map[], map[], map[], Loader([p, p], {}), [[AssetHandlePair(SoftPtr(p), HandleRef(1))]], 2)
  }

  lemma FirstRelease(p: AssetPath)
    ensures Release(Requested(p), 1) == CallResult(ReleasedOnce(p), true, InvalidGuid)
  {
    var pair0 := AssetHandlePair(SoftPtr(p), HandleRef(0));
    ReleaseSoleClaim(Requested(p), 1, SoftPtr(p), 0);
    assert RedundantHandles(map[p := HandleRef(0)], [pair0]) == {};
  }

  lemma ClaimAgain(p: AssetPath)
    ensures RequestSingle(ReleasedOnce(p), SoftPtr(p)) == CallResult(Reclaimed(p), true, 2)
  {
    var t := ReleasedOnce(p).(lastGuid := 2);
    assert [p] + [p] == [p, p] && {0} + {1} == {0, 1};
    assert RequestAsyncLoad(t.streamableManager, p) == (Loader([p, p], {0, 1}), 1);
    var pair1 := AssetHandlePair(SoftPtr(p), HandleRef(1));
    assert Register(map[], pair1, 2) == map[2 := [pair1]];
  }

  lemma SecondRelease(p: AssetPath)
    ensures Release(Reclaimed(p), 2) == CallResult(ReleasedTwice(p), true, InvalidGuid)
  {
    var pair1 := AssetHandlePair(SoftPtr(p), HandleRef(1));
    ReleaseSoleClaim(Reclaimed(p), 2, SoftPtr(p), 1);
    assert RedundantHandles(map[p := HandleRef(0)], [pair1]) == {1};
    assert {0, 1} - {1} == {0};
  }

  lemma PassOverFirstBatch(p: AssetPath)
    ensures UnloadSafe(ReleasedTwice(p), ReleasedTwice(p).pendingUnloads[0])
    ensures FireNext(ReleasedTwice(p)) == UnloadResult(FirstPassDone(p), 1)
  {
    var pair0 := AssetHandlePair(SoftPtr(p), HandleRef(0));
    var popped := ReleasedTwice(p).(pendingUnloads := [[AssetHandlePair(SoftPtr(p), HandleRef(1))]]);
    assert [pair0][..0] == [];
    assert FinalUnload(popped, [pair0]) == UnloadOne(FinalUnload(popped, []), pair0);
    assert ActiveHandles(Loader([p, p], {0}), p) == {0} by {
      assert [p, p][0] == p;
    }
    assert {0} - {0} == {};
  }

  lemma PassAfterReclaim(p: AssetPath)
    ensures UnloadSafe(Reclaimed(p), Reclaimed(p).pendingUnloads[0])
    ensures FireNext(Reclaimed(p)) == UnloadResult(Reclaimed(p).(pendingUnloads := []), 0)
  {
    var pair0 := AssetHandlePair(SoftPtr(p), HandleRef(0));
    var popped := Reclaimed(p).(pendingUnloads := []);
    assert [pair0][..0] == [];
    assert FinalUnload(popped, [pair0]) == UnloadOne(FinalUnload(popped, []), pair0);
  }

  /**
   * An asset released and claimed again before its unload timer fires is
   * skipped by the pass: its keep-alive entry and both handles survive and
   * nothing is reported unloaded.
   */
  lemma ReclaimDuringDelaySurvivesUnload(p: AssetPath)
    ensures var a := SoftPtr(p);
            && RequestSingle(InitialTables(), a) == CallResult(Requested(p), true, 1)
            && Release(Requested(p), 1) == CallResult(ReleasedOnce(p), true, InvalidGuid)
            && RequestSingle(ReleasedOnce(p), a) == CallResult(Reclaimed(p), true, 2)
            && |Reclaimed(p).pendingUnloads| == 1
            && UnloadSafe(Reclaimed(p), Reclaimed(p).pendingUnloads[0])
            && var fired := FireNext(Reclaimed(p));
               && fired.unloaded == 0
               && fired.tables.pendingUnloads == []
               && fired.tables.keepAlive == map[p := HandleRef(0)]
               && ActiveHandles(fired.tables.streamableManager, p) == {0, 1}
  {
    FirstRequest(p);
    FirstRelease(p);
    ClaimAgain(p);
    PassAfterReclaim(p);
    assert ActiveHandles(Loader([p, p], {0, 1}), p) == {0, 1} by {
      assert [p, p][0] == p && [p, p][1] == p;
    }
  }

  /**
   * Releasing an asset, claiming it again and releasing it again before the
   * first unload timer fires queues two batches for it. The first pass removes
   * its keep-alive entry; the second pass then reaches an unclaimed asset with
   * no keep-alive entry, the case where the source indexes a missing key. The
   * invariant holds all along: it does not rule this sequence out.
   */
  lemma ReleaseTwiceBeforeUnloadBreaksSecondPass(p: AssetPath)
    ensures var a := SoftPtr(p);
            && RequestSingle(InitialTables(), a) == CallResult(Requested(p), true, 1)
            && Release(Requested(p), 1) == CallResult(ReleasedOnce(p), true, InvalidGuid)
            && RequestSingle(ReleasedOnce(p), a) == CallResult(Reclaimed(p), true, 2)
            && Release(Reclaimed(p), 2) == CallResult(ReleasedTwice(p), true, InvalidGuid)
            && |ReleasedTwice(p).pendingUnloads| == 2
            && UnloadSafe(ReleasedTwice(p), ReleasedTwice(p).pendingUnloads[0])
            && FireNext(ReleasedTwice(p)) == UnloadResult(FirstPassDone(p), 1)
            && Consistent(FirstPassDone(p))
            && FirstPassDone(p).pendingUnloads == [[AssetHandlePair(a, HandleRef(1))]]
            && p !in FirstPassDone(p).assetRequestCount
            && p !in FirstPassDone(p).keepAlive
            && !UnloadSafe(FirstPassDone(p), FirstPassDone(p).pendingUnloads[0])
  {
    FirstRequest(p);
    FirstRelease(p);
    ClaimAgain(p);
    SecondRelease(p);
    PassOverFirstBatch(p);
    SecondBatchIsUnsafe(p);
  }

  lemma SecondBatchIsUnsafe(p: AssetPath)
    ensures Consistent(FirstPassDone(p))
    ensures !UnloadSafe(FirstPassDone(p), FirstPassDone(p).pendingUnloads[0])
  {
    var t5 := FirstPassDone(p);
    assert t5.pendingUnloads[0][0] == AssetHandlePair(SoftPtr(p), HandleRef(1));
    assert forall b :: b in t5.pendingUnloads ==> b == [AssetHandlePair(SoftPtr(p), HandleRef(1))];
  }

  /** The state after requesting the same asset twice in one list. */
  function DuplicateRequested(p: AssetPath): Tables
  {
    Tables(map[1 := [AssetHandlePair(SoftPtr(p), HandleRef(0))]], map[p := 2], map[p := HandleRef(0)],
           Loader([p, p], {0, 1}), [], 1)
  }

  lemma RequestSameAssetTwice(p: AssetPath)
    ensures RequestStreaming(InitialTables(), [SoftPtr(p), SoftPtr(p)]) == CallResult(DuplicateRequested(p), true, 1)
  {
    var a := SoftPtr(p);
    var pair0 := AssetHandlePair(a, HandleRef(0));
    var t := InitialTables().(lastGuid := 1);
    assert [a, a][..1] == [a] && [a, a][..1][..0] == [];
    assert t.streamableManager == Loader([], {});
    assert [] + [p] == [p] && {} + {0} == {0};
    var s1 := StreamAsset(t, a, 1);
    assert RequestAsyncLoad(t.streamableManager, p) == (Loader([p], {0}), 0);
    assert Register(t.registeredAssets, pair0, 1) == map[1 := [pair0]];
    assert s1 == Tables(map[1 := [pair0]], map[p := 1], map[p := HandleRef(0)], Loader([p], {0}), [], 1);
    assert [p] + [p] == [p, p] && {0} + {1} == {0, 1};
    assert RequestAsyncLoad(s1.streamableManager, p) == (Loader([p, p], {0, 1}), 1);
    assert ContainsPair([pair0], AssetHandlePair(a, HandleRef(1)));
    assert StreamAsset(s1, a, 1) == DuplicateRequested(p);
    assert StreamAll(t, [a, a], 1) == DuplicateRequested(p) by {
      assert StreamAll(t, [a], 1) == s1;
    }
  }

  /**
   * A request that names the same asset twice registers one pair but counts
   * the asset twice. Releasing it leaves the asset counted once with no
   * request holding it and nothing scheduled, so the asset is never unloaded;
   * the handle of the second load is never cancelled either.
   */
  lemma DuplicateInOneRequestLeaks(p: AssetPath)
    ensures var a := SoftPtr(p);
            var d := DuplicateRequested(p);
            && RequestStreaming(InitialTables(), [a, a]) == CallResult(d, true, 1)
            && d.registeredAssets == map[1 := [AssetHandlePair(a, HandleRef(0))]]
            && d.assetRequestCount == map[p := 2]
            && !ExactCounts(d)
            && var r2 := Release(d, 1);
            && r2.ok
            && r2.tables.assetRequestCount == map[p := 1]
            && Holders(r2.tables.registeredAssets, p) == {}
            && r2.tables.pendingUnloads == []
            && 1 in r2.tables.streamableManager.active
  {
    RequestSameAssetTwice(p);
    var s2 := DuplicateRequested(p);
    var pair0 := AssetHandlePair(SoftPtr(p), HandleRef(0));
    assert Holders(s2.registeredAssets, p) == {1} by {
      assert p in PathsOf([pair0]) by { assert [pair0][0] == pair0; }
    }
    assert !ExactCounts(s2);
    var claims := [pair0];
    assert claims[1..] == [];
    assert Decremented(s2.assetRequestCount, claims) == map[p := 1];
    assert ZeroCandidates(s2.assetRequestCount, claims) == [];
    assert RedundantHandles(s2.keepAlive, claims) == {};
    var r2 := Release(s2, 1);
    assert r2.tables == s2.(registeredAssets := map[], assetRequestCount := map[p := 1]);
    assert Holders(map[], p) == {};
  }
}
