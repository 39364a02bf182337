/**
 * The bookkeeping of the asset streaming subsystem as values: its three tables
 * (request id to registered pairs, asset path to claim count, asset path to
 * keep-alive handle), the streamable manager it drives, the unload batches its
 * timers hold, and the last guid it generated. Every operation of the subsystem
 * is a function from one such state to the next; the class in
 * asset_streaming_subsystem.dfy is proved to follow these functions.
 */
module StreamingTables {
  import opened AssetHandlePairs
  import opened EngineModel

  datatype Tables = Tables(
    registeredAssets: map<Guid, HandleArray>,
    assetRequestCount: map<AssetPath, int>,
    keepAlive: map<AssetPath, HandlePtr>,
    streamableManager: Loader,
    pendingUnloads: seq<HandleArray>,
    lastGuid: Guid)

  /** What a request or a release hands back: the new state, the returned flag and the caller's id. */
  datatype CallResult = CallResult(tables: Tables, ok: bool, requestId: Guid)

  /** What a final unload pass hands back: the new state and how many assets it unloaded. */
  datatype UnloadResult = UnloadResult(tables: Tables, unloaded: nat)

  datatype Option<T> = None | Some(value: T)

  /** The state of a freshly constructed subsystem. */
  function InitialTables(): (t: Tables)
    ensures t.registeredAssets == map[] && t.assetRequestCount == map[] && t.keepAlive == map[]
    ensures t.pendingUnloads == []
  {
    Tables(map[], map[], map[], EmptyLoader(), [], InvalidGuid)
  }

  /** The claim count of a path, 0 when the path has no entry. */
  function CountOf(counts: map<AssetPath, int>, path: AssetPath): int
  {
    if path in counts then counts[path] else 0
  }

  /** The pairs registered under an id, none when the id has no entry. */
  function ClaimsOf(reg: map<Guid, HandleArray>, id: Guid): HandleArray
  {
    if id in reg then reg[id] else []
  }

  // ---------------------------------------------------------------------------
  // Streaming
  // ---------------------------------------------------------------------------

  /** Incrementing a reference: an absent count becomes 1, a present one grows by one. */
  function Increment(counts: map<AssetPath, int>, path: AssetPath): (r: map<AssetPath, int>)
    ensures path in r && r[path] == CountOf(counts, path) + 1
    ensures forall q :: q != path ==> (q in r <==> q in counts) && CountOf(r, q) == CountOf(counts, q)
  {
    if path in counts then counts[path := counts[path] + 1] else counts[path := 1]
  }

  /**
   * Registering a pair under an id: the pair is appended to the id's array, or
   * becomes a one-element array; when the array already holds a pair for the
   * same asset, the registry is left as it was.
   */
  function Register(reg: map<Guid, HandleArray>, pair: AssetHandlePair, id: Guid): (r: map<Guid, HandleArray>)
    ensures r.Keys == reg.Keys + {id}
    ensures forall other :: other in reg && other != id ==> r[other] == reg[other]
    ensures ContainsPair(r[id], pair)
    ensures ContainsPair(ClaimsOf(reg, id), pair) ==> r == reg
    ensures !ContainsPair(ClaimsOf(reg, id), pair) ==> r[id] == ClaimsOf(reg, id) + [pair]
    ensures DistinctAssets(ClaimsOf(reg, id)) ==> DistinctAssets(r[id])
  {
    if id in reg then
      if ContainsPair(reg[id], pair) then reg
      else
        var r := reg[id := reg[id] + [pair]];
        assert (reg[id] + [pair])[|reg[id]|] == pair;
        r
    else
      assert [pair][0] == pair;
      reg[id := [pair]]
  }

  /**
   * Streaming one asset under a request id: the loader issues a fresh handle,
   * the pair is registered, the handle becomes the asset's keep-alive handle
   * unless it already has one, and the asset's count goes up by one.
   */
  function StreamAsset(t: Tables, asset: SoftObjectPtr, id: Guid): (r: Tables)
    requires asset.SoftPtr?
    ensures CountOf(r.assetRequestCount, asset.path) == CountOf(t.assetRequestCount, asset.path) + 1
    ensures forall q :: q != asset.path ==>
              (q in r.assetRequestCount <==> q in t.assetRequestCount) &&
              CountOf(r.assetRequestCount, q) == CountOf(t.assetRequestCount, q)
    ensures r.keepAlive.Keys == t.keepAlive.Keys + {asset.path}
    ensures forall q :: q in t.keepAlive ==> r.keepAlive[q] == t.keepAlive[q]
    ensures asset.path !in t.keepAlive ==> r.keepAlive[asset.path] == HandleRef(|t.streamableManager.issued|)
    ensures id in r.registeredAssets && asset.path in PathsOf(r.registeredAssets[id])
    ensures r.pendingUnloads == t.pendingUnloads && r.lastGuid == t.lastGuid
  {
    var loaded := RequestAsyncLoad(t.streamableManager, asset.path);
    var pair := AssetHandlePair(asset, HandleRef(loaded.1));
    var registered := Register(t.registeredAssets, pair, id);
    ContainsPairByPath(registered[id], pair);
    var keepAlive :=
      if asset.path in t.keepAlive then t.keepAlive
      else t.keepAlive[asset.path := HandleRef(loaded.1)];
    t.(streamableManager := loaded.0,
       registeredAssets := registered,
       keepAlive := keepAlive,
       assetRequestCount := Increment(t.assetRequestCount, asset.path))
  }

  /** Streaming every asset of a list under one id, first to last. */
  function StreamAll(t: Tables, assets: seq<SoftObjectPtr>, id: Guid): Tables
    requires forall k :: 0 <= k < |assets| ==> assets[k].SoftPtr?
    decreases |assets|
  {
    if |assets| == 0 then t
    else StreamAsset(StreamAll(t, assets[..|assets| - 1], id), assets[|assets| - 1], id)
  }

  /**
   * Streaming a list keeps every existing keep-alive entry, registers the id
   * when the list is non-empty, and leaves the pending batches and the guid
   * counter alone.
   */
  lemma {:induction false} StreamAllKeeps(t: Tables, assets: seq<SoftObjectPtr>, id: Guid)
    requires forall k :: 0 <= k < |assets| ==> assets[k].SoftPtr?
    ensures var r := StreamAll(t, assets, id);
            && (forall q :: q in t.keepAlive ==> q in r.keepAlive && r.keepAlive[q] == t.keepAlive[q])
            && (|assets| > 0 ==> id in r.registeredAssets)
            && r.pendingUnloads == t.pendingUnloads && r.lastGuid == t.lastGuid
    decreases |assets|
  {
    if |assets| > 0 {
      StreamAllKeeps(t, assets[..|assets| - 1], id);
    }
  }

  /**
   * Requesting a list of assets. An empty list is refused: the id comes back
   * invalid and nothing changes. Otherwise a fresh id is generated, every asset
   * is streamed under it, and the call reports whether the id is valid.
   */
  function RequestStreaming(t: Tables, assets: seq<SoftObjectPtr>): (r: CallResult)
    requires forall k :: 0 <= k < |assets| ==> assets[k].SoftPtr?
    ensures |assets| == 0 ==> r == CallResult(t, false, InvalidGuid)
    ensures |assets| > 0 ==> r.ok && IsValidGuid(r.requestId) && r.requestId > t.lastGuid
  {
    if |assets| == 0 then CallResult(t, false, InvalidGuid)
    else
      var id := t.lastGuid + 1;
      CallResult(StreamAll(t.(lastGuid := id), assets, id), IsValidGuid(id), id)
  }

  /** A non-empty request streams its list under the next guid. */
  lemma RequestStreamingTables(t: Tables, assets: seq<SoftObjectPtr>)
    requires forall k :: 0 <= k < |assets| ==> assets[k].SoftPtr?
    requires |assets| > 0
    ensures RequestStreaming(t, assets).tables == StreamAll(t.(lastGuid := t.lastGuid + 1), assets, t.lastGuid + 1)
    ensures RequestStreaming(t, assets).requestId == t.lastGuid + 1
  {
  }

  /** A request that goes through is registered under the id it returns, the newest guid. */
  lemma RequestStreamingRegisters(t: Tables, assets: seq<SoftObjectPtr>)
    requires forall k :: 0 <= k < |assets| ==> assets[k].SoftPtr?
    requires |assets| > 0
    ensures var r := RequestStreaming(t, assets);
            r.requestId in r.tables.registeredAssets && r.tables.lastGuid == r.requestId
  {
    RequestStreamingTables(t, assets);
    StreamAllKeeps(t.(lastGuid := t.lastGuid + 1), assets, t.lastGuid + 1);
  }

  /** Requesting a single asset: a fresh id, one stream, and whether the id is valid. */
  function RequestSingle(t: Tables, asset: SoftObjectPtr): (r: CallResult)
    requires asset.SoftPtr?
    ensures r.ok && IsValidGuid(r.requestId) && r.requestId > t.lastGuid
    ensures r.requestId in r.tables.registeredAssets
    ensures asset.path in PathsOf(r.tables.registeredAssets[r.requestId])
  {
    var id := t.lastGuid + 1;
    CallResult(StreamAsset(t.(lastGuid := id), asset, id), IsValidGuid(id), id)
  }

  // ---------------------------------------------------------------------------
  // Releasing
  // ---------------------------------------------------------------------------

  /**
   * What releasing a request's pairs relies on: no asset twice, and for each
   * pair a non-null asset with a count and a keep-alive entry and a non-null
   * handle.
   */
  predicate ReleasableClaims(t: Tables, s: HandleArray)
  {
    && DistinctAssets(s)
    && forall k :: 0 <= k < |s| ==>
         && s[k].asset.SoftPtr?
         && s[k].handle.HandleRef?
         && s[k].asset.path in t.assetRequestCount
         && s[k].asset.path in t.keepAlive
  }

  /** Decrementing one count; a count that reaches 0 (or less) loses its entry. */
  function Decrement(counts: map<AssetPath, int>, path: AssetPath): map<AssetPath, int>
    requires path in counts
  {
    if counts[path] - 1 > 0 then counts[path := counts[path] - 1] else counts - {path}
  }

  /**
   * The counts after decrementing each asset of a request once, last pair
   * first: every path of the request drops by one and loses its entry instead
   * of reaching 0; every other count is unchanged.
   */
  function Decremented(counts: map<AssetPath, int>, s: HandleArray): (r: map<AssetPath, int>)
    requires DistinctAssets(s)
    requires forall k :: 0 <= k < |s| ==> s[k].asset.SoftPtr? && s[k].asset.path in counts
    ensures forall p :: p !in PathsOf(s) ==> (p in r <==> p in counts) && CountOf(r, p) == CountOf(counts, p)
    ensures forall p :: p in PathsOf(s) ==> p in counts && (p in r <==> counts[p] > 1)
    ensures forall p :: p in PathsOf(s) && p in r ==> r[p] == counts[p] - 1
    decreases |s|
  {
    if |s| == 0 then counts
    else
      var rest := Decremented(counts, s[1..]);
      PathsOfCons(s);
      assert s[0].asset.path !in PathsOf(s[1..]) by {
        forall p | p in PathsOf(s[1..]) ensures p != s[0].asset.path {
          var k :| 0 <= k < |s[1..]| && s[1..][k].asset.SoftPtr? && s[1..][k].asset.path == p;
          assert s[1..][k] == s[k + 1];
        }
      }
      Decrement(rest, s[0].asset.path)
  }

  /**
   * The pairs of a request whose count reaches zero when it is released, in
   * their original order: the eviction candidates handed to the unload timer.
   */
  function ZeroCandidates(counts: map<AssetPath, int>, s: HandleArray): (r: HandleArray)
    requires forall k :: 0 <= k < |s| ==> s[k].asset.SoftPtr? && s[k].asset.path in counts
    ensures |r| <= |s|
    ensures forall x :: x in r <==> x in s && counts[x.asset.path] <= 1
    ensures DistinctAssets(s) ==> DistinctAssets(r)
    decreases |s|
  {
    if |s| == 0 then []
    else
      var rest := ZeroCandidates(counts, s[1..]);
      assert forall x :: x in s <==> x == s[0] || x in s[1..];
      if counts[s[0].asset.path] - 1 > 0 then rest else [s[0]] + rest
  }

  /**
   * The batch of a request is the batch of its first part followed by the
   * batch of the rest: the zero-count pairs keep their relative order.
   */
  lemma {:induction false} ZeroCandidatesAppend(counts: map<AssetPath, int>, s1: HandleArray, s2: HandleArray)
    requires forall k :: 0 <= k < |s1| ==> s1[k].asset.SoftPtr? && s1[k].asset.path in counts
    requires forall k :: 0 <= k < |s2| ==> s2[k].asset.SoftPtr? && s2[k].asset.path in counts
    ensures ZeroCandidates(counts, s1 + s2) == ZeroCandidates(counts, s1) + ZeroCandidates(counts, s2)
    decreases |s1|
  {
    if |s1| > 0 {
      assert (s1 + s2)[0] == s1[0] && (s1 + s2)[1..] == s1[1..] + s2;
      ZeroCandidatesAppend(counts, s1[1..], s2);
    } else {
      assert s1 + s2 == s2;
    }
  }

  /** A single pair is a candidate exactly when its count is about to reach zero. */
  lemma ZeroCandidatesSingle(counts: map<AssetPath, int>, x: AssetHandlePair)
    requires x.asset.SoftPtr? && x.asset.path in counts
    ensures ZeroCandidates(counts, [x]) == if counts[x.asset.path] <= 1 then [x] else []
  {
    assert [x][1..] == [];
  }

  /**
   * The handles a release cancels: those of its pairs that are not the
   * keep-alive handle of their asset.
   */
  function RedundantHandles(keepAlive: map<AssetPath, HandlePtr>, s: HandleArray): (r: set<nat>)
    requires forall k :: 0 <= k < |s| ==> s[k].asset.SoftPtr? && s[k].handle.HandleRef? && s[k].asset.path in keepAlive
    ensures forall h :: h in r <==>
              exists k :: 0 <= k < |s| && s[k].handle == HandleRef(h) && s[k].handle != keepAlive[s[k].asset.path]
    decreases |s|
  {
    if |s| == 0 then {}
    else
      var rest := RedundantHandles(keepAlive, s[1..]);
      assert forall k :: 1 <= k < |s| ==> s[k] == s[1..][k - 1];
      assert forall h :: (exists k :: 0 <= k < |s[1..]| && s[1..][k].handle == HandleRef(h) &&
                            s[1..][k].handle != keepAlive[s[1..][k].asset.path]) ==>
                         (exists k :: 0 <= k < |s| && s[k].handle == HandleRef(h) &&
                            s[k].handle != keepAlive[s[k].asset.path]) by {
        forall h | (exists k :: 0 <= k < |s[1..]| && s[1..][k].handle == HandleRef(h) &&
                      s[1..][k].handle != keepAlive[s[1..][k].asset.path])
          ensures exists k :: 0 <= k < |s| && s[k].handle == HandleRef(h) && s[k].handle != keepAlive[s[k].asset.path]
        {
          var k :| 0 <= k < |s[1..]| && s[1..][k].handle == HandleRef(h) && s[1..][k].handle != keepAlive[s[1..][k].asset.path];
          assert s[k + 1] == s[1..][k];
        }
      }
      (if s[0].handle != keepAlive[s[0].asset.path] then {s[0].handle.id} else {}) + rest
  }

  /** Scheduling an unload batch; an empty batch is ignored. */
  function ScheduleUnloading(t: Tables, batch: HandleArray): (r: Tables)
    ensures |batch| == 0 ==> r == t
    ensures |batch| > 0 ==> r.pendingUnloads == t.pendingUnloads + [batch] && r == t.(pendingUnloads := r.pendingUnloads)
  {
    if |batch| == 0 then t else t.(pendingUnloads := t.pendingUnloads + [batch])
  }

  /**
   * Releasing a request. An invalid id is refused and left as it is; a valid
   * id with no registered pairs is refused and invalidated. Otherwise every
   * count of the request drops by one, the redundant handles are cancelled,
   * the id's entry is removed, the pairs whose count reached zero are
   * scheduled for unloading, and the id is invalidated.
   */
  function Release(t: Tables, requestId: Guid): (r: CallResult)
    requires requestId in t.registeredAssets ==> ReleasableClaims(t, t.registeredAssets[requestId])
    ensures !IsValidGuid(r.requestId)
    ensures r.ok <==> IsValidGuid(requestId) && requestId in t.registeredAssets
    ensures !r.ok ==> r.tables == t
    ensures r.ok ==> r.tables.registeredAssets == t.registeredAssets - {requestId}
    ensures r.tables.keepAlive == t.keepAlive && r.tables.lastGuid == t.lastGuid
  {
    if !IsValidGuid(requestId) then CallResult(t, false, requestId)
    else if requestId !in t.registeredAssets then CallResult(t, false, InvalidGuid)
    else
      var claims := t.registeredAssets[requestId];
      var released := t.(
        assetRequestCount := Decremented(t.assetRequestCount, claims),
        registeredAssets := t.registeredAssets - {requestId},
        streamableManager := CancelAll(t.streamableManager, RedundantHandles(t.keepAlive, claims)));
      CallResult(ScheduleUnloading(released, ZeroCandidates(t.assetRequestCount, claims)), true, InvalidGuid)
  }

  // ---------------------------------------------------------------------------
  // Final unload
  // ---------------------------------------------------------------------------

  /**
   * What a final unload pass relies on: every candidate has a non-null asset,
   * and a candidate whose asset is unclaimed still has its keep-alive entry
   * when the pass reaches it (no earlier candidate of the batch removed it).
   */
  predicate UnloadSafe(t: Tables, candidates: HandleArray)
  {
    forall k :: 0 <= k < |candidates| ==>
      && candidates[k].asset.SoftPtr?
      && (candidates[k].asset.path !in t.assetRequestCount ==>
            && candidates[k].asset.path in t.keepAlive
            && forall j :: 0 <= j < k ==> candidates[j].asset != candidates[k].asset)
  }

  /** A pass that may run over a batch may run over each of its prefixes. */
  lemma UnloadSafePrefix(t: Tables, candidates: HandleArray, n: nat)
    requires UnloadSafe(t, candidates) && n <= |candidates|
    ensures UnloadSafe(t, candidates[..n])
  {
    forall k | 0 <= k < n ensures candidates[..n][k] == candidates[k] { }
  }

  /** The paths of the candidates that are no longer claimed: the ones a pass unloads. */
  function Unclaimed(counts: map<AssetPath, int>, candidates: HandleArray): set<AssetPath>
  {
    set k | 0 <= k < |candidates| && candidates[k].asset.SoftPtr? && candidates[k].asset.path !in counts
      :: candidates[k].asset.path
  }

  /**
   * One candidate of a pass: skipped when its asset was claimed again;
   * otherwise its keep-alive entry is removed and its active handles are
   * cancelled, and it counts as unloaded when there was at least one.
   */
  function UnloadOne(r: UnloadResult, pair: AssetHandlePair): UnloadResult
    requires pair.asset.SoftPtr?
    requires pair.asset.path !in r.tables.assetRequestCount ==> pair.asset.path in r.tables.keepAlive
  {
    var t := r.tables;
    var path := pair.asset.path;
    if path in t.assetRequestCount then r
    else
      var handles := ActiveHandles(t.streamableManager, path);
      var t' := t.(keepAlive := t.keepAlive - {path});
      if handles != {} then UnloadResult(t'.(streamableManager := CancelAll(t.streamableManager, handles)), r.unloaded + 1)
      else UnloadResult(t', r.unloaded)
  }

  lemma UnclaimedSnoc(counts: map<AssetPath, int>, s: HandleArray)
    requires |s| > 0
    ensures var last := s[|s| - 1];
            Unclaimed(counts, s) ==
              Unclaimed(counts, s[..|s| - 1]) +
              (if last.asset.SoftPtr? && last.asset.path !in counts then {last.asset.path} else {})
  {
    var init := s[..|s| - 1];
    forall p | p in Unclaimed(counts, init) ensures p in Unclaimed(counts, s) {
      var k :| 0 <= k < |init| && init[k].asset.SoftPtr? && init[k].asset.path !in counts && init[k].asset.path == p;
      assert s[k] == init[k];
    }
    forall p | p in Unclaimed(counts, s)
      ensures p in Unclaimed(counts, init) || (s[|s| - 1].asset.SoftPtr? && p == s[|s| - 1].asset.path)
    {
      var k :| 0 <= k < |s| && s[k].asset.SoftPtr? && s[k].asset.path !in counts && s[k].asset.path == p;
      if k < |s| - 1 { assert init[k] == s[k]; }
    }
  }

  /**
   * A final unload pass over a batch, first candidate to last. Counts,
   * registry, pending batches and guids are untouched; exactly the keep-alive
   * entries of the unclaimed candidates are removed; those assets are left
   * with no active handle and every other asset keeps its handles.
   */
  function FinalUnload(t: Tables, candidates: HandleArray): (r: UnloadResult)
    requires UnloadSafe(t, candidates)
    ensures FinalUnloadEffect(t, Unclaimed(t.assetRequestCount, candidates), r)
    decreases |candidates|
  {
    if |candidates| == 0 then
      assert Unclaimed(t.assetRequestCount, candidates) == {};
      assert StillLoaded(t.streamableManager, {}) == {};
      UnloadResult(t, 0)
    else
      var init := candidates[..|candidates| - 1];
      assert UnloadSafe(t, init) by {
        forall k | 0 <= k < |init| ensures init[k] == candidates[k] { }
      }
      var prior := FinalUnload(t, init);
      FinalUnloadStep(t, candidates, prior);
      UnloadOne(prior, candidates[|candidates| - 1])
  }

  /**
   * A pass over one more candidate is the pass over the ones before it
   * followed by that candidate, which the earlier ones left safe to unload.
   */
  lemma FinalUnloadSnoc(t: Tables, candidates: HandleArray, n: nat)
    requires UnloadSafe(t, candidates) && n < |candidates|
    ensures UnloadSafe(t, candidates[..n]) && UnloadSafe(t, candidates[..n + 1])
    ensures candidates[n].asset.SoftPtr?
    ensures var p := candidates[n].asset.path;
            p !in FinalUnload(t, candidates[..n]).tables.assetRequestCount ==>
              p in FinalUnload(t, candidates[..n]).tables.keepAlive
    ensures FinalUnload(t, candidates[..n + 1]) == UnloadOne(FinalUnload(t, candidates[..n]), candidates[n])
  {
    UnloadSafePrefix(t, candidates, n);
    UnloadSafePrefix(t, candidates, n + 1);
    assert candidates[..n + 1][..n] == candidates[..n];
    FinalUnloadStep(t, candidates[..n + 1], FinalUnload(t, candidates[..n]));
  }

  /** The paths among the given ones that the loader still has an active handle for. */
  function StillLoaded(l: Loader, paths: set<AssetPath>): set<AssetPath>
  {
    set p | p in paths && ActiveHandles(l, p) != {}
  }

  /**
   * The effect of a final unload pass that unloads the paths `gone`: counts,
   * registry, pending batches and guids are untouched; exactly the keep-alive
   * entries of `gone` are removed; those assets are left with no active
   * handle, every other asset keeps its handles, and the reported count is the
   * number of paths of `gone` that had at least one active handle when the
   * pass began.
   */
  ghost predicate FinalUnloadEffect(t: Tables, gone: set<AssetPath>, r: UnloadResult)
  {
    && r.tables.assetRequestCount == t.assetRequestCount
    && r.tables.registeredAssets == t.registeredAssets
    && r.tables.pendingUnloads == t.pendingUnloads && r.tables.lastGuid == t.lastGuid
    && r.tables.streamableManager.issued == t.streamableManager.issued
    && r.tables.keepAlive == t.keepAlive - gone
    && (forall p :: p in gone ==> ActiveHandles(r.tables.streamableManager, p) == {})
    && (forall p :: p !in gone ==> ActiveHandles(r.tables.streamableManager, p) == ActiveHandles(t.streamableManager, p))
    && r.unloaded == |StillLoaded(t.streamableManager, gone)|
  }

  /** One more candidate extends the effect of a pass over the ones before it. */
  lemma FinalUnloadStep(t: Tables, candidates: HandleArray, prior: UnloadResult)
    requires |candidates| > 0 && UnloadSafe(t, candidates)
    requires FinalUnloadEffect(t, Unclaimed(t.assetRequestCount, candidates[..|candidates| - 1]), prior)
    ensures candidates[|candidates| - 1].asset.SoftPtr?
    ensures var p := candidates[|candidates| - 1].asset.path;
            p !in prior.tables.assetRequestCount ==> p in prior.tables.keepAlive
    ensures FinalUnloadEffect(t, Unclaimed(t.assetRequestCount, candidates), UnloadOne(prior, candidates[|candidates| - 1]))
  {
    var init := candidates[..|candidates| - 1];
    var last := candidates[|candidates| - 1];
    var before := Unclaimed(t.assetRequestCount, init);
    UnclaimedSnoc(t.assetRequestCount, candidates);
    if last.asset.path !in t.assetRequestCount {
      UnclaimedLastIsNew(t, candidates);
      UnloadUnclaimedStep(t, before, prior, last.asset.path);
      assert Unclaimed(t.assetRequestCount, candidates) == before + {last.asset.path};
      assert UnloadOne(prior, last) == UnloadOne(prior, AssetHandlePair(last.asset, NullHandle));
    } else {
      assert Unclaimed(t.assetRequestCount, candidates) == before;
      assert UnloadOne(prior, last) == prior;
    }
  }

  /** An unclaimed last candidate is not among the unclaimed paths before it. */
  lemma UnclaimedLastIsNew(t: Tables, candidates: HandleArray)
    requires |candidates| > 0 && UnloadSafe(t, candidates)
    requires candidates[|candidates| - 1].asset.path !in t.assetRequestCount
    ensures candidates[|candidates| - 1].asset.path !in Unclaimed(t.assetRequestCount, candidates[..|candidates| - 1])
  {
    var init := candidates[..|candidates| - 1];
    var p := candidates[|candidates| - 1].asset.path;
    forall q | q in Unclaimed(t.assetRequestCount, init) ensures q != p {
      var k :| 0 <= k < |init| && init[k].asset.SoftPtr? && init[k].asset.path !in t.assetRequestCount
               && init[k].asset.path == q;
      assert candidates[k] == init[k];
    }
  }

  /** Unloading an unclaimed asset that the pass has not met yet. */
  lemma UnloadUnclaimedStep(t: Tables, before: set<AssetPath>, prior: UnloadResult, p: AssetPath)
    requires p !in before && p !in t.assetRequestCount && p in t.keepAlive
    requires FinalUnloadEffect(t, before, prior)
    ensures FinalUnloadEffect(t, before + {p}, UnloadOne(prior, AssetHandlePair(SoftPtr(p), NullHandle)))
  {
    var l := prior.tables.streamableManager;
    var handles := ActiveHandles(l, p);
    var r := UnloadOne(prior, AssetHandlePair(SoftPtr(p), NullHandle));
    assert r.tables.streamableManager == CancelAll(l, handles);
    assert r.tables.keepAlive == t.keepAlive - (before + {p}) by {
      assert (t.keepAlive - before) - {p} == t.keepAlive - (before + {p});
    }
    forall q | q !in before + {p}
      ensures ActiveHandles(r.tables.streamableManager, q) == ActiveHandles(t.streamableManager, q)
    {
      ActiveHandlesDisjoint(l, p, q);
    }
    assert handles == ActiveHandles(t.streamableManager, p);
    StillLoadedAdd(t.streamableManager, before, p);
  }

  /** Different paths have no active handle in common. */
  lemma ActiveHandlesDisjoint(l: Loader, p: AssetPath, q: AssetPath)
    requires p != q
    ensures ActiveHandles(l, p) !! ActiveHandles(l, q)
  {
  }

  /** One more path among the unloaded ones counts once more when it is still loaded. */
  lemma StillLoadedAdd(l: Loader, paths: set<AssetPath>, p: AssetPath)
    requires p !in paths
    ensures |StillLoaded(l, paths + {p})| ==
            |StillLoaded(l, paths)| + (if ActiveHandles(l, p) != {} then 1 else 0)
  {
    if ActiveHandles(l, p) != {} {
      assert StillLoaded(l, paths + {p}) == StillLoaded(l, paths) + {p};
    } else {
      assert StillLoaded(l, paths + {p}) == StillLoaded(l, paths);
    }
  }

  /**
   * The unload timer that was set first fires: its batch leaves the queue and
   * a final unload pass runs over it. With no timer pending nothing happens.
   */
  function FireNext(t: Tables): (r: UnloadResult)
    requires |t.pendingUnloads| > 0 ==> UnloadSafe(t, t.pendingUnloads[0])
    ensures |t.pendingUnloads| > 0 ==> r.tables.pendingUnloads == t.pendingUnloads[1..]
    ensures r.tables.assetRequestCount == t.assetRequestCount && r.tables.registeredAssets == t.registeredAssets
  {
    if |t.pendingUnloads| == 0 then UnloadResult(t, 0)
    else FinalUnload(t.(pendingUnloads := t.pendingUnloads[1..]), t.pendingUnloads[0])
  }
}
