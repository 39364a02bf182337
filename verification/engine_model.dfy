/**
 * The engine services the subsystem uses, reduced to what it observes of them:
 * request guids, and a streamable manager that hands out cancellable load
 * handles and can enumerate the active handles of an asset.
 */
module EngineModel {
  import opened AssetHandlePairs

  /** A request guid. Fresh guids come from a counter; 0 is the invalid guid. */
  type Guid = nat

  const InvalidGuid: Guid := 0

  predicate IsValidGuid(g: Guid)
  {
    g != InvalidGuid
  }

  /**
   * The streamable manager: handle `h` is the h-th load it was asked for and
   * loads the path `issued[h]`; `active` holds the handles not yet cancelled.
   */
  datatype Loader = Loader(issued: seq<AssetPath>, active: set<nat>)

  function EmptyLoader(): (l: Loader)
    ensures forall path :: ActiveHandles(l, path) == {}
  {
    Loader([], {})
  }

  /** The active handles that load the given path. */
  function ActiveHandles(l: Loader, path: AssetPath): set<nat>
  {
    set h | h in l.active && h < |l.issued| && l.issued[h] == path
  }

  /** The handle is a real handle that the loader issued for the path. */
  predicate IssuedFor(l: Loader, handle: HandlePtr, path: AssetPath)
  {
    handle.HandleRef? && handle.id < |l.issued| && l.issued[handle.id] == path
  }

  /** An asynchronous load request: the next handle, active and loading the path. */
  function RequestAsyncLoad(l: Loader, path: AssetPath): (Loader, nat)
  {
    var h := |l.issued|;
    (Loader(l.issued + [path], l.active + {h}), h)
  }

  /**
   * A load request issues a handle never issued before, for the path; every
   * earlier handle keeps its path; the path gains the new handle as an active
   * one and every other path keeps its active handles.
   */
  lemma AsyncLoadIssues(l: Loader, path: AssetPath)
    ensures var r := RequestAsyncLoad(l, path);
            && IssuedFor(r.0, HandleRef(r.1), path)
            && (forall q :: !IssuedFor(l, HandleRef(r.1), q))
            && (forall h, q :: IssuedFor(l, h, q) ==> IssuedFor(r.0, h, q))
            && ActiveHandles(r.0, path) == ActiveHandles(l, path) + {r.1}
            && (forall q :: q != path ==> ActiveHandles(r.0, q) == ActiveHandles(l, q))
  {
    var r := RequestAsyncLoad(l, path);
    assert forall k :: 0 <= k < |l.issued| ==> r.0.issued[k] == l.issued[k];
  }

  /** Cancelling a handle makes it inactive and leaves every other handle as it was. */
  function CancelHandle(l: Loader, handle: nat): (r: Loader)
    ensures r.issued == l.issued
    ensures forall path :: ActiveHandles(r, path) == ActiveHandles(l, path) - {handle}
  {
    l.(active := l.active - {handle})
  }

  /** Cancelling a set of handles at once. */
  function CancelAll(l: Loader, handles: set<nat>): (r: Loader)
    ensures r.issued == l.issued
    ensures forall path :: ActiveHandles(r, path) == ActiveHandles(l, path) - handles
  {
    l.(active := l.active - handles)
  }

  /** Cancelling twice has the effect of cancelling once. */
  lemma CancelIsIdempotent(l: Loader, handle: nat)
    ensures CancelHandle(CancelHandle(l, handle), handle) == CancelHandle(l, handle)
  {
  }
}
