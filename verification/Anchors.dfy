/** Nested anchors (`boa/environment.py`, `boa/vm/py_evm.py`) and the pytest plugin that exits them in
    stack order whatever order the finalizers fire in (`boa/test/plugin.py`). */
module Anchors {

  datatype Snap<S> = Snap(id: nat, state: S)

  /** What one anchor remembers while it is entered. */
  datatype Anchor<V> = Anchor(snapshot: nat, patch: map<string, V>)

  ghost predicate Ordered<S>(snapshots: seq<Snap<S>>, next: nat) {
    && (forall i :: 0 <= i < |snapshots| ==> snapshots[i].id < next)
    && (forall i, j :: 0 <= i < j < |snapshots| ==> snapshots[i].id < snapshots[j].id)
  }

  /** The position of a live snapshot. */
  function Position<S>(snapshots: seq<Snap<S>>, id: nat): (i: nat)
    requires exists i :: 0 <= i < |snapshots| && snapshots[i].id == id
    ensures i < |snapshots| && snapshots[i].id == id
  {
    var n := |snapshots| - 1;
    if snapshots[n].id == id then n else
      assert exists i :: 0 <= i < n && snapshots[..n][i].id == id by {
        var i :| 0 <= i < |snapshots| && snapshots[i].id == id;
        assert snapshots[..n][i].id == id;
      }
      Position(snapshots[..n], id)
  }

  predicate Live<S>(snapshots: seq<Snap<S>>, id: nat) {
    exists i :: 0 <= i < |snapshots| && snapshots[i].id == id
  }

  class Evm<S, V> {
    const attrs: seq<string>                   // the patchable attributes
    var state: S
    var snapshots: seq<Snap<S>>
    var nextSnapshot: nat
    var patch: map<string, V>

    ghost predicate Valid()
      reads this
    {
      Ordered(snapshots, nextSnapshot) && patch.Keys == (set a | a in attrs)
    }

    constructor (state: S, attrs: seq<string>, patch: map<string, V>)
      requires patch.Keys == (set a | a in attrs)
      ensures Valid() && this.state == state && this.patch == patch && snapshots == [] && this.attrs == attrs
    {
      this.state, this.attrs, this.patch, snapshots, nextSnapshot := state, attrs, patch, [], 0;
    }

    method Snapshot() returns (id: nat)
      requires Valid()
      modifies this`snapshots, this`nextSnapshot
      ensures Valid() && id == old(nextSnapshot) && snapshots == old(snapshots) + [Snap(id, state)]
      ensures nextSnapshot == id + 1
    {
      id := nextSnapshot;
      snapshots, nextSnapshot := snapshots + [Snap(id, state)], nextSnapshot + 1;
    }

    /** Back to a live snapshot; it and all taken after it are gone. */
    method Revert(id: nat) returns (ok: bool)
      requires Valid()
      modifies this`snapshots, this`state
      ensures Valid() && ok == Live(old(snapshots), id)
      ensures ok ==> var i := Position(old(snapshots), id);
                     state == old(snapshots)[i].state && snapshots == old(snapshots)[..i]
      ensures !ok ==> state == old(state) && snapshots == old(snapshots)
    {
      if !Live(snapshots, id) {
        return false;
      }
      var i := Position(snapshots, id);
      state, snapshots := snapshots[i].state, snapshots[..i];
      return true;
    }

    /** `VMPatcher.anchor` on the way out: every attribute is set back. */
    method RestorePatch(snap: map<string, V>)
      requires Valid() && snap.Keys == (set a | a in attrs)
      modifies this`patch
      ensures patch == snap && Valid()
    {
      for i := 0 to |attrs|
        invariant patch.Keys == snap.Keys
        invariant forall k :: 0 <= k < i ==> patch[attrs[k]] == snap[attrs[k]]
      {
        patch := patch[attrs[i] := snap[attrs[i]]];
      }
      forall a | a in snap ensures patch[a] == snap[a] {
        var k :| 0 <= k < |attrs| && attrs[k] == a;
      }
    }

    /** `Env._anchor`, entering. */
    method Enter() returns (ctx: Anchor<V>)
      requires Valid()
      modifies this`snapshots, this`nextSnapshot
      ensures Valid() && ctx == Anchor(old(nextSnapshot), patch)
      ensures snapshots == old(snapshots) + [Snap(old(nextSnapshot), state)]
      ensures nextSnapshot == old(nextSnapshot) + 1
    {
      var id := Snapshot();
      ctx := Anchor(id, patch);
    }

    /** `Env._anchor`, leaving: first the patched values, then the state. */
    method Exit(ctx: Anchor<V>) returns (ok: bool)
      requires Valid() && ctx.patch.Keys == (set a | a in attrs)
      modifies this`snapshots, this`state, this`patch
      ensures Valid() && ok == Live(old(snapshots), ctx.snapshot) && patch == ctx.patch
      ensures ok ==> var i := Position(old(snapshots), ctx.snapshot);
                     state == old(snapshots)[i].state && snapshots == old(snapshots)[..i]
      ensures !ok ==> state == old(state) && snapshots == old(snapshots)
    {
      RestorePatch(ctx.patch);
      ok := Revert(ctx.snapshot);
    }

    /** Anything code under test does: new state and patched values, snapshots left open on top. */
    method Perform(effect: Effect<S, V>)
      requires Valid() && effect.patch.Keys == patch.Keys
      modifies this`state, this`patch, this`snapshots, this`nextSnapshot
      ensures Valid() && state == effect.state && patch == effect.patch
      ensures old(snapshots) <= snapshots && nextSnapshot >= old(nextSnapshot)
    {
      var i := 0;
      while i < |effect.taken|
        invariant Valid() && patch == old(patch) && old(snapshots) <= snapshots && nextSnapshot >= old(nextSnapshot)
      {
        state := effect.taken[i];
        var _ := Snapshot();
        i := i + 1;
      }
      state, patch := effect.state, effect.patch;
    }

    /** The simulate path of `execute_code`: whatever ran, and even if it raised, nothing remains. */
    method ExecuteCode(effect: Effect<S, V>, simulate: bool) returns (raised: bool)
      requires Valid() && effect.patch.Keys == patch.Keys
      modifies this`state, this`patch, this`snapshots, this`nextSnapshot
      ensures Valid() && raised == effect.raises
      ensures simulate ==> state == old(state) && patch == old(patch) && snapshots == old(snapshots)
      ensures !simulate ==> state == effect.state && patch == effect.patch && old(snapshots) <= snapshots
    {
      if !simulate {
        Perform(effect);
        return effect.raises;
      }
      var n := |snapshots|;
      var ctx := Enter();
      label entered:
      Perform(effect);
      assert snapshots[n] == old@entered(snapshots)[n];
      var ok := Exit(ctx);
      assert snapshots == old(snapshots);
      return effect.raises;
    }
  }

  datatype Effect<S, V> = Effect(state: S, patch: map<string, V>, taken: seq<S>, raises: bool)
}
