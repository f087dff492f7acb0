/** The boundary with the signalling store and the peer connection: opaque
    session descriptions and ICE candidates, and the per-item change records a
    collection subscription delivers. Each snapshot handler in the transfer code
    walks these changes with `forEach` and acts on the "added" ones only. */
module Signaling {

  /** A session description (offer or answer), opaque to this code. */
  datatype Description = Description(sdp: string)

  /** One ICE candidate as stored in a candidate sub-collection, opaque. */
  datatype Candidate = Candidate(json: string)

  datatype ChangeKind = Added | Modified | Removed

  /** One entry of `snapshot.docChanges()`. */
  datatype Change<T> = Change(kind: ChangeKind, doc: T)

  /** The documents of the "added" changes, in delivery order. */
  function AddedDocs<T>(changes: seq<Change<T>>): seq<T>
  {
    if changes == [] then []
    else
      var last := changes[|changes| - 1];
      AddedDocs(changes[..|changes| - 1]) + (if last.kind == Added then [last.doc] else [])
  }

  /** A document is acted on exactly when some "added" change carries it;
      modified and removed changes contribute nothing. */
  lemma {:induction false} AddedDocsExactly<T>(changes: seq<Change<T>>, d: T)
    ensures d in AddedDocs(changes) <==>
            exists i :: 0 <= i < |changes| && changes[i].kind == Added && changes[i].doc == d
  {
    if changes != [] {
      var init, last := changes[..|changes| - 1], changes[|changes| - 1];
      assert AddedDocs(changes) == AddedDocs(init) + (if last.kind == Added then [last.doc] else []);
      AddedDocsExactly(init, d);
      if exists i :: 0 <= i < |changes| && changes[i].kind == Added && changes[i].doc == d {
        var i :| 0 <= i < |changes| && changes[i].kind == Added && changes[i].doc == d;
        if i < |init| {
          assert init[i] == changes[i];
        }
      }
      if exists i :: 0 <= i < |init| && init[i].kind == Added && init[i].doc == d {
        var i :| 0 <= i < |init| && init[i].kind == Added && init[i].doc == d;
        assert changes[i] == init[i];
      }
    }
  }

  /** A snapshot made only of modified and removed changes triggers nothing. */
  lemma {:induction false} NoAddedNoDocs<T>(changes: seq<Change<T>>)
    requires forall i :: 0 <= i < |changes| ==> changes[i].kind != Added
    ensures AddedDocs(changes) == []
  {
    if changes != [] {
      NoAddedNoDocs(changes[..|changes| - 1]);
    }
  }

  /** `snapshot.docChanges().forEach(change => if (change.type === "added") ...)`:
      visits the changes in order and collects what the handler acts on. */
  method ForEachAdded<T>(changes: seq<Change<T>>) returns (handled: seq<T>)
    ensures handled == AddedDocs(changes)
    ensures |handled| <= |changes|
  {
    handled := [];
    var i := 0;
    while i < |changes|
      invariant 0 <= i <= |changes|
      invariant handled == AddedDocs(changes[..i])
      invariant |handled| <= i
    {
      assert changes[..i + 1][..i] == changes[..i];
      if changes[i].kind == Added {
        handled := handled + [changes[i].doc];
      }
      i := i + 1;
    }
    assert changes[..i] == changes;
  }
}
