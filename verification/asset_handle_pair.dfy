/**
 * The value types of the asset streaming subsystem: a soft reference to an
 * asset, a shared reference to a streamable handle, and the pair of the two
 * that the subsystem registers under a request id.
 */
module AssetHandlePairs {

  /** The soft object path of an asset; every table of the subsystem is keyed by it. */
  type AssetPath = string

  /** A soft object pointer: null, or a reference to the asset at a path. */
  datatype SoftObjectPtr = NullAsset | SoftPtr(path: AssetPath)

  /** A shared pointer to a streamable handle: null, or the handle the loader issued under this id. */
  datatype HandlePtr = NullHandle | HandleRef(id: nat)

  /** An asset together with the handle of one load of it. */
  datatype AssetHandlePair = AssetHandlePair(asset: SoftObjectPtr, handle: HandlePtr)

  /** The ordered pair array kept per request id. */
  type HandleArray = seq<AssetHandlePair>

  /** The default constructor: a null asset with a null handle. */
  function DefaultPair(): (p: AssetHandlePair)
    ensures p.asset.NullAsset? && p.handle.NullHandle?
  {
    AssetHandlePair(NullAsset, NullHandle)
  }

  /** The two-argument constructor keeps exactly the asset and the handle it is given. */
  function MakePair(asset: SoftObjectPtr, handle: HandlePtr): (p: AssetHandlePair)
    ensures p.asset == asset && p.handle == handle
    ensures p != DefaultPair() <==> asset.SoftPtr? || handle.HandleRef?
  {
    AssetHandlePair(asset, handle)
  }

  /** The pair's equality operator: pairs compare by asset only. */
  predicate PairEquals(lhs: AssetHandlePair, rhs: AssetHandlePair)
  {
    lhs.asset == rhs.asset
  }

  /** Equality looks at the asset alone: two loads of one asset are "equal" pairs. */
  lemma PairEqualsIgnoresHandle(asset: SoftObjectPtr, h1: HandlePtr, h2: HandlePtr)
    ensures PairEquals(MakePair(asset, h1), MakePair(asset, h2))
    ensures h1 != h2 ==> MakePair(asset, h1) != MakePair(asset, h2)
  {
  }

  /** Pair equality is reflexive, symmetric and transitive. */
  lemma PairEqualsIsEquivalence()
    ensures forall x: AssetHandlePair :: PairEquals(x, x)
    ensures forall x: AssetHandlePair, y: AssetHandlePair :: PairEquals(x, y) ==> PairEquals(y, x)
    ensures forall x: AssetHandlePair, y: AssetHandlePair, z: AssetHandlePair ::
              PairEquals(x, y) && PairEquals(y, z) ==> PairEquals(x, z)
  {
  }

  /** The array's linear membership test, which compares with the pair's equality operator. */
  function ContainsPair(arr: HandleArray, pair: AssetHandlePair): (r: bool)
    ensures r <==> exists k :: 0 <= k < |arr| && arr[k].asset == pair.asset
  {
    if |arr| == 0 then false
    else if PairEquals(arr[0], pair) then true
    else
      var rest := ContainsPair(arr[1..], pair);
      assert forall k :: 1 <= k < |arr| ==> arr[k] == arr[1..][k - 1];
      rest
  }

  /** The paths of the non-null assets of an array. */
  function PathsOf(s: HandleArray): set<AssetPath>
  {
    set k | 0 <= k < |s| && s[k].asset.SoftPtr? :: s[k].asset.path
  }

  /** No asset occurs twice in the array. */
  predicate DistinctAssets(s: HandleArray)
  {
    forall i, j :: 0 <= i < j < |s| ==> s[i].asset != s[j].asset
  }

  /** Every asset of the array is non-null. */
  predicate NonNullAssets(s: HandleArray)
  {
    forall k :: 0 <= k < |s| ==> s[k].asset.SoftPtr?
  }

  /** For a non-null asset, membership by equality is membership of its path. */
  lemma ContainsPairByPath(arr: HandleArray, pair: AssetHandlePair)
    requires pair.asset.SoftPtr?
    ensures ContainsPair(arr, pair) <==> pair.asset.path in PathsOf(arr)
  {
    if ContainsPair(arr, pair) {
      var k :| 0 <= k < |arr| && arr[k].asset == pair.asset;
      assert arr[k].asset.path in PathsOf(arr);
    }
    if pair.asset.path in PathsOf(arr) {
      var k :| 0 <= k < |arr| && arr[k].asset.SoftPtr? && arr[k].asset.path == pair.asset.path;
      assert arr[k].asset == pair.asset;
    }
  }

  lemma PathsOfSnoc(s: HandleArray, x: AssetHandlePair)
    requires x.asset.SoftPtr?
    ensures PathsOf(s + [x]) == PathsOf(s) + {x.asset.path}
  {
    var t := s + [x];
    forall p | p in PathsOf(t) ensures p in PathsOf(s) + {x.asset.path} {
      var k :| 0 <= k < |t| && t[k].asset.SoftPtr? && t[k].asset.path == p;
      if k < |s| { assert s[k] == t[k]; }
    }
    forall p | p in PathsOf(s) ensures p in PathsOf(t) {
      var k :| 0 <= k < |s| && s[k].asset.SoftPtr? && s[k].asset.path == p;
      assert t[k] == s[k];
    }
    assert t[|s|] == x;
  }

  lemma PathsOfCons(s: HandleArray)
    requires |s| > 0 && s[0].asset.SoftPtr?
    ensures PathsOf(s) == {s[0].asset.path} + PathsOf(s[1..])
  {
    var t := s[1..];
    forall p | p in PathsOf(s) ensures p in {s[0].asset.path} + PathsOf(t) {
      var k :| 0 <= k < |s| && s[k].asset.SoftPtr? && s[k].asset.path == p;
      if k > 0 { assert t[k - 1] == s[k]; }
    }
    forall p | p in PathsOf(t) ensures p in PathsOf(s) {
      var k :| 0 <= k < |t| && t[k].asset.SoftPtr? && t[k].asset.path == p;
      assert s[k + 1] == t[k];
    }
    assert s[0].asset.path in PathsOf(s);
  }
}
