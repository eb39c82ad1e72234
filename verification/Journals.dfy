/** The journals under `AccountDB`: a base map with one map of writes per open checkpoint. */
module Journals {

  datatype Layer<K, V> = Layer(id: nat, writes: map<K, V>)

  datatype Journal<K, V> = Journal(base: map<K, V>, layers: seq<Layer<K, V>>)

  /** The writes of some layers, later layers winning. */
  function Over<K, V>(layers: seq<Layer<K, V>>): map<K, V> {
    if layers == [] then map[] else Over(layers[..|layers| - 1]) + layers[|layers| - 1].writes
  }

  /** What a reader saw when only the first `d` checkpoints were open. */
  function Upto<K, V>(j: Journal<K, V>, d: nat): map<K, V>
    requires d <= |j.layers|
  {
    j.base + Over(j.layers[..d])
  }

  function Top<K, V>(j: Journal<K, V>): map<K, V> {
    Upto(j, |j.layers|)
  }

  /** The open checkpoints, outermost first. */
  function Ids<K, V>(j: Journal<K, V>): (ids: seq<nat>)
    ensures |ids| == |j.layers| && forall i :: 0 <= i < |ids| ==> ids[i] == j.layers[i].id
  {
    seq(|j.layers|, i requires 0 <= i < |j.layers| => j.layers[i].id)
  }

  /** The innermost position of `id`. */
  function Find(ids: seq<nat>, id: nat): (i: nat)
    requires id in ids
    ensures i < |ids| && ids[i] == id
  {
    if ids[|ids| - 1] == id then |ids| - 1 else Find(ids[..|ids| - 1], id)
  }

  /** Write several keys where writes go now: the innermost checkpoint, or the base. */
  function PutAll<K, V>(j: Journal<K, V>, writes: map<K, V>): Journal<K, V> {
    if j.layers == [] then j.(base := j.base + writes)
    else
      var n := |j.layers| - 1;
      j.(layers := j.layers[n := j.layers[n].(writes := j.layers[n].writes + writes)])
  }

  function Put<K, V>(j: Journal<K, V>, k: K, v: V): Journal<K, V> {
    PutAll(j, map[k := v])
  }

  function Record<K, V>(j: Journal<K, V>, id: nat): Journal<K, V> {
    j.(layers := j.layers + [Layer(id, map[])])
  }

  /** Drop the checkpoint and all opened after it. */
  function Discard<K, V>(j: Journal<K, V>, id: nat): Journal<K, V>
    requires id in Ids(j)
  {
    j.(layers := j.layers[..Find(Ids(j), id)])
  }

  /** Hand the writes of the checkpoint, and of all opened after it, to the one below. */
  function Commit<K, V>(j: Journal<K, V>, id: nat): Journal<K, V>
    requires id in Ids(j)
  {
    PutAll(Discard(j, id), Over(j.layers[Find(Ids(j), id)..]))
  }

  lemma {:induction false} OverConcat<K, V>(a: seq<Layer<K, V>>, b: seq<Layer<K, V>>)
    ensures Over(a + b) == Over(a) + Over(b)
  {
    if b == [] {
      assert a + b == a;
    } else {
      var n := |b| - 1;
      assert (a + b)[..|a + b| - 1] == a + b[..n];
      OverConcat(a, b[..n]);
    }
  }

  lemma PlusAssociates<K, V>(a: map<K, V>, b: map<K, V>, c: map<K, V>)
    ensures a + b + c == a + (b + c)
  {}

  /** Writing changes what is read at the top and nothing below any checkpoint. */
  lemma PutAllUpto<K, V>(j: Journal<K, V>, writes: map<K, V>)
    ensures var j' := PutAll(j, writes);
      && Ids(j') == Ids(j)
      && (forall d :: 0 <= d < |j.layers| ==> Upto(j', d) == Upto(j, d))
      && Top(j') == Top(j) + writes
  {
    var j' := PutAll(j, writes);
    if j.layers != [] {
      var n := |j.layers| - 1;
      forall d | 0 <= d < |j.layers| ensures Upto(j', d) == Upto(j, d) {
        assert j'.layers[..d] == j.layers[..d];
      }
      assert j.layers[..|j.layers|] == j.layers && j'.layers[..|j'.layers|] == j'.layers;
      assert j'.layers[..n] == j.layers[..n];
      PlusAssociates(Over(j.layers[..n]), j.layers[n].writes, writes);
      PlusAssociates(j.base, Over(j.layers), writes);
    }
  }

  lemma RecordUpto<K, V>(j: Journal<K, V>, id: nat)
    ensures var j' := Record(j, id);
      && Ids(j') == Ids(j) + [id]
      && (forall d :: 0 <= d <= |j.layers| ==> Upto(j', d) == Upto(j, d))
      && Top(j') == Top(j)
  {
    var j' := Record(j, id);
    forall d | 0 <= d <= |j.layers| ensures Upto(j', d) == Upto(j, d) {
      assert j'.layers[..d] == j.layers[..d];
    }
    assert j'.layers[..|j'.layers|] == j'.layers;
    assert j'.layers[..|j'.layers| - 1] == j.layers == j.layers[..|j.layers|];
  }

  lemma DiscardUpto<K, V>(j: Journal<K, V>, id: nat)
    requires id in Ids(j)
    ensures var j' := Discard(j, id);
      && Ids(j') == Ids(j)[..Find(Ids(j), id)]
      && forall d :: 0 <= d <= Find(Ids(j), id) ==> Upto(j', d) == Upto(j, d)
  {
    var j' := Discard(j, id);
    forall d | 0 <= d <= Find(Ids(j), id) ensures Upto(j', d) == Upto(j, d) {
      assert j'.layers[..d] == j.layers[..d];
    }
  }

  lemma TopSplit<K, V>(j: Journal<K, V>, i: nat)
    requires i <= |j.layers|
    ensures Top(j) == Upto(j, i) + Over(j.layers[i..])
  {
    hide Over;
    OverConcat(j.layers[..i], j.layers[i..]);
    assert j.layers[..i] + j.layers[i..] == j.layers == j.layers[..|j.layers|];
    PlusAssociates(j.base, Over(j.layers[..i]), Over(j.layers[i..]));
  }

  /** Committing changes neither what is read now nor what is restored by an outer checkpoint. */
  lemma CommitUpto<K, V>(j: Journal<K, V>, id: nat)
    requires id in Ids(j)
    ensures var j', i := Commit(j, id), Find(Ids(j), id);
      && Ids(j') == Ids(j)[..i]
      && |j'.layers| == i
      && (forall d :: 0 <= d <= i ==> Upto(j', d) == Upto(j, if d < i then d else |j.layers|))
  {
    var i := Find(Ids(j), id);
    var below, above := Discard(j, id), Over(j.layers[i..]);
    DiscardUpto(j, id);
    PutAllUpto(below, above);
    TopSplit(j, i);
    assert below.layers[..|below.layers|] == j.layers[..i];
  }
}
