/** The tuple decoder of `boa/util/abi.py` and the encoding it inverts ("Formal Specification of the
    Encoding" in the Contract ABI Specification). Decoders of single elements are abstract. */
module AbiTuple {
  import opened Wrappers
  import opened Words

  /** `width` is the size of a static element; a dynamic one has a 32-byte pointer in the head. */
  datatype Node = Elem(kind: nat, dynamic: bool, size: nat) | Tuple(ctypes: seq<Node>)

  datatype Value<V> = Leaf(v: V) | Many(vs: seq<Value<V>>)

  /** Encoders and decoders of the elements, by kind. */
  datatype Codec<!V> = Codec(fits: (nat, V) -> bool, enc: (nat, V) -> seq<Byte>, dec: (nat, seq<Byte>) -> Option<V>)

  predicate IsDynamic(node: Node)
    decreases node
  {
    match node
    case Elem(_, dynamic, _) => dynamic
    case Tuple(ctypes) => exists i :: 0 <= i < |ctypes| && IsDynamic(ctypes[i])
  }

  function Width(node: Node): nat
    decreases node, 1, 0
  {
    if IsDynamic(node) then 32 else if node.Elem? then node.size else HeadWidth(node, 0)
  }

  /** The heads of the elements from number `i` on. */
  function HeadWidth(node: Node, i: nat): nat
    requires node.Tuple? && i <= |node.ctypes|
    decreases node, 0, |node.ctypes| - i
  {
    if i == |node.ctypes| then 0 else Width(node.ctypes[i]) + HeadWidth(node, i + 1)
  }

  predicate Fits<V>(c: Codec<V>, node: Node, v: Value<V>)
    decreases node
  {
    match node
    case Elem(kind, _, _) => v.Leaf? && c.fits(kind, v.v)
    case Tuple(ctypes) => v.Many? && |v.vs| == |ctypes| && forall i :: 0 <= i < |ctypes| ==> Fits(c, ctypes[i], v.vs[i])
  }

  // ---- the encoding ---------------------------------------------------------------------------

  function Enc<V>(c: Codec<V>, node: Node, v: Value<V>): seq<Byte>
    requires Fits(c, node, v)
    decreases node, 1, 0
  {
    match node
    case Elem(kind, _, _) => c.enc(kind, v.v)
    case Tuple(_) => Heads(c, node, v.vs, 0, HeadWidth(node, 0)) + Tails(c, node, v.vs, 0)
  }

  predicate AllFit<V>(c: Codec<V>, node: Node, vs: seq<Value<V>>) {
    node.Tuple? && |vs| == |node.ctypes| && forall i :: 0 <= i < |vs| ==> Fits(c, node.ctypes[i], vs[i])
  }

  /** Heads from element `i` on, when its tail starts at `ofst`. */
  function Heads<V>(c: Codec<V>, node: Node, vs: seq<Value<V>>, i: nat, ofst: nat): seq<Byte>
    requires AllFit(c, node, vs) && i <= |vs|
    decreases node, 0, |vs| - i
  {
    if i == |vs| then []
    else
      var e := Enc(c, node.ctypes[i], vs[i]);
      if IsDynamic(node.ctypes[i]) then ToBytes(ofst, 32) + Heads(c, node, vs, i + 1, ofst + |e|)
      else e + Heads(c, node, vs, i + 1, ofst)
  }

  function Tails<V>(c: Codec<V>, node: Node, vs: seq<Value<V>>, i: nat): seq<Byte>
    requires AllFit(c, node, vs) && i <= |vs|
    decreases node, 0, |vs| - i
  {
    if i == |vs| then []
    else if IsDynamic(node.ctypes[i]) then Enc(c, node.ctypes[i], vs[i]) + Tails(c, node, vs, i + 1)
    else Tails(c, node, vs, i + 1)
  }

  // ---- the decoder ----------------------------------------------------------------------------

  function Ptr(value: seq<Byte>, pos: nat): nat {
    FromBytes(Slice(value, pos, pos + 32))
  }

  /** Where the data of a dynamic element ends: at the next pointer in the head, or with the value. */
  function End(node: Node, value: seq<Byte>, i: nat, pos: nat): nat
    requires node.Tuple? && i <= |node.ctypes|
    decreases |node.ctypes| - i
  {
    if i == |node.ctypes| then |value|
    else if IsDynamic(node.ctypes[i]) then Ptr(value, pos)
    else End(node, value, i + 1, pos + Width(node.ctypes[i]))
  }

  /** The bytes handed to the decoder of element `i`, whose head is at `pos`. */
  function Region(node: Node, value: seq<Byte>, i: nat, pos: nat): seq<Byte>
    requires node.Tuple? && i < |node.ctypes|
  {
    if IsDynamic(node.ctypes[i]) then Slice(value, Ptr(value, pos), End(node, value, i + 1, pos + 32))
    else Slice(value, pos, pos + Width(node.ctypes[i]))
  }

  /** None is DecodeError. */
  function Decode<V>(c: Codec<V>, node: Node, value: seq<Byte>): Option<Value<V>>
    decreases node, 1, 0
  {
    match node
    case Elem(kind, _, _) => var v := c.dec(kind, value); if v.Some? then Some(Leaf(v.value)) else None
    case Tuple(_) =>
      if |value| < HeadWidth(node, 0) then None
      else var vs := DecodeFrom(c, node, value, 0, 0); if vs.Some? then Some(Many(vs.value)) else None
  }

  function DecodeFrom<V>(c: Codec<V>, node: Node, value: seq<Byte>, i: nat, pos: nat): Option<seq<Value<V>>>
    requires node.Tuple? && i <= |node.ctypes|
    decreases node, 0, |node.ctypes| - i
  {
    if i == |node.ctypes| then Some([])
    else
      var first := Decode(c, node.ctypes[i], Region(node, value, i, pos));
      var rest := DecodeFrom(c, node, value, i + 1, pos + Width(node.ctypes[i]));
      if first.Some? && rest.Some? then Some([first.value] + rest.value) else None
  }

  // ---- decoding inverts encoding --------------------------------------------------------------

  /** Each element decoder inverts its encoder; static encodings have the declared size. */
  ghost predicate Sound<V(!new)>(c: Codec<V>, node: Node)
    decreases node
  {
    match node
    case Elem(kind, dynamic, size) =>
      forall v :: c.fits(kind, v) ==> c.dec(kind, c.enc(kind, v)) == Some(v) && (!dynamic ==> |c.enc(kind, v)| == size)
    case Tuple(ctypes) => forall i :: 0 <= i < |ctypes| ==> Sound(c, ctypes[i])
  }

  /** The decoders of dynamic elements ignore what follows the encoding. */
  ghost predicate Tolerant<V(!new)>(c: Codec<V>, node: Node)
    decreases node
  {
    match node
    case Elem(kind, dynamic, _) =>
      dynamic ==> forall v, tail :: c.fits(kind, v) ==> c.dec(kind, c.enc(kind, v) + tail) == Some(v)
    case Tuple(ctypes) => forall i :: 0 <= i < |ctypes| ==> Tolerant(c, ctypes[i])
  }

  /** Bytes may follow the encoding: none, or a static tuple, or element decoders that ignore them. */
  ghost predicate MayFollow<V(!new)>(c: Codec<V>, node: Node, tail: seq<Byte>) {
    tail == [] || (node.Tuple? && !IsDynamic(node)) || (IsDynamic(node) && Tolerant(c, node))
  }

  predicate DynamicFrom(node: Node, i: nat)
    requires node.Tuple? && i <= |node.ctypes|
  {
    exists k :: i <= k < |node.ctypes| && IsDynamic(node.ctypes[k])
  }

  /** A static node encodes to its width. */
  lemma {:induction false} StaticWidth<V(!new)>(c: Codec<V>, node: Node, v: Value<V>)
    requires Sound(c, node) && Fits(c, node, v) && !IsDynamic(node)
    ensures |Enc(c, node, v)| == Width(node)
    decreases node, 1, 0
  {
    if node.Tuple? {
      StaticHeads(c, node, v.vs, 0, HeadWidth(node, 0));
      NoTails(c, node, v.vs, 0);
    }
  }

  lemma {:induction false} StaticHeads<V(!new)>(c: Codec<V>, node: Node, vs: seq<Value<V>>, i: nat, ofst: nat)
    requires AllFit(c, node, vs) && i <= |vs| && Sound(c, node)
    ensures |Heads(c, node, vs, i, ofst)| == HeadWidth(node, i)
    decreases node, 0, |vs| - i
  {
    hide Enc, Fits;
    if i < |vs| {
      if IsDynamic(node.ctypes[i]) {
        StaticHeads(c, node, vs, i + 1, ofst + |Enc(c, node.ctypes[i], vs[i])|);
      } else {
        StaticWidth(c, node.ctypes[i], vs[i]);
        StaticHeads(c, node, vs, i + 1, ofst);
      }
    }
  }

  lemma {:induction false} NoTails<V(!new)>(c: Codec<V>, node: Node, vs: seq<Value<V>>, i: nat)
    requires AllFit(c, node, vs) && i <= |vs| && !DynamicFrom(node, i)
    ensures Tails(c, node, vs, i) == []
    decreases |vs| - i
  {
    hide Enc, Fits;
    if i < |vs| {
      NoTails(c, node, vs, i + 1);
    }
  }

  /** These bytes start at `pos`. */
  ghost predicate Stands(value: seq<Byte>, pos: nat, bytes: seq<Byte>) {
    pos + |bytes| <= |value| && value[pos..pos + |bytes|] == bytes
  }

  /** These bytes are all there is from `pos` on. */
  ghost predicate Ends(value: seq<Byte>, pos: nat, bytes: seq<Byte>) {
    pos <= |value| && value[pos..] == bytes
  }

  lemma StandsSplit(value: seq<Byte>, pos: nat, first: seq<Byte>, rest: seq<Byte>)
    requires Stands(value, pos, first + rest)
    ensures Stands(value, pos, first) && Stands(value, pos + |first|, rest)
  {
    var both := value[pos..pos + |first + rest|];
    assert both[..|first|] == first && both[|first|..] == rest;
    assert both[..|first|] == value[pos..pos + |first|] && both[|first|..] == value[pos + |first|..pos + |first| + |rest|];
  }

  lemma EndsSplit(value: seq<Byte>, pos: nat, first: seq<Byte>, rest: seq<Byte>)
    requires Ends(value, pos, first + rest)
    ensures Stands(value, pos, first) && Ends(value, pos + |first|, rest)
  {
    assert |value[pos..]| == |first| + |rest|;
    assert value[pos..][..|first|] == first && value[pos..][|first|..] == rest;
  }

  /** The heads from `i` on are at `pos`, the tails at `ofst`. */
  ghost predicate Placed<V(!new)>(c: Codec<V>, node: Node, vs: seq<Value<V>>, i: nat, pos: nat, ofst: nat,
                            value: seq<Byte>, tail: seq<Byte>)
    requires AllFit(c, node, vs) && i <= |vs|
  {
    && |value| < TWO256 && |Heads(c, node, vs, i, ofst)| == HeadWidth(node, i)
    && Stands(value, pos, Heads(c, node, vs, i, ofst))
    && Ends(value, ofst, Tails(c, node, vs, i) + tail)
  }

  lemma PtrAt(value: seq<Byte>, pos: nat, ofst: nat)
    requires ofst < TWO256 && Stands(value, pos, ToBytes(ofst, 32))
    ensures pos + 32 <= |value| && Ptr(value, pos) == ofst
  {
    WordRoundTrip(ofst);
  }

  lemma SplitAt<V(!new)>(c: Codec<V>, node: Node, vs: seq<Value<V>>, i: nat, ofst: nat)
    requires AllFit(c, node, vs) && i < |vs|
    ensures var e, dynamic := Enc(c, node.ctypes[i], vs[i]), IsDynamic(node.ctypes[i]);
      && Heads(c, node, vs, i, ofst) == (if dynamic then ToBytes(ofst, 32) + Heads(c, node, vs, i + 1, ofst + |e|)
                                          else e + Heads(c, node, vs, i + 1, ofst))
      && Tails(c, node, vs, i) == (if dynamic then e + Tails(c, node, vs, i + 1) else Tails(c, node, vs, i + 1))
      && HeadWidth(node, i) == Width(node.ctypes[i]) + HeadWidth(node, i + 1)
  {
    hide Enc, Fits, Width, IsDynamic, ToBytes;
  }

  lemma AdvanceDynamic<V(!new)>(c: Codec<V>, node: Node, vs: seq<Value<V>>, i: nat, pos: nat, ofst: nat,
                          value: seq<Byte>, tail: seq<Byte>)
    requires AllFit(c, node, vs) && i < |vs| && Sound(c, node) && Placed(c, node, vs, i, pos, ofst, value, tail)
    requires IsDynamic(node.ctypes[i])
    ensures var e := Enc(c, node.ctypes[i], vs[i]);
      && pos + 32 <= |value| && Ptr(value, pos) == ofst && Stands(value, ofst, e)
      && Placed(c, node, vs, i + 1, pos + 32, ofst + |e|, value, tail)
  {
    hide Enc, Fits, Ptr, Sound, Width, IsDynamic, ToBytes, Heads, Tails, HeadWidth, Stands;
    SplitAt(c, node, vs, i, ofst);
    var e := Enc(c, node.ctypes[i], vs[i]);
    StaticHeads(c, node, vs, i + 1, ofst + |e|);
    StandsSplit(value, pos, ToBytes(ofst, 32), Heads(c, node, vs, i + 1, ofst + |e|));
    PtrAt(value, pos, ofst);
    assert e + Tails(c, node, vs, i + 1) + tail == e + (Tails(c, node, vs, i + 1) + tail);
    hide Ends;
    EndsSplit(value, ofst, e, Tails(c, node, vs, i + 1) + tail);
  }

  lemma AdvanceStatic<V(!new)>(c: Codec<V>, node: Node, vs: seq<Value<V>>, i: nat, pos: nat, ofst: nat,
                         value: seq<Byte>, tail: seq<Byte>)
    requires AllFit(c, node, vs) && i < |vs| && Sound(c, node) && Placed(c, node, vs, i, pos, ofst, value, tail)
    requires !IsDynamic(node.ctypes[i])
    ensures var e, w := Enc(c, node.ctypes[i], vs[i]), Width(node.ctypes[i]);
      |e| == w && Stands(value, pos, e) && Placed(c, node, vs, i + 1, pos + w, ofst, value, tail)
  {
    hide Enc, Fits, Heads, Tails, HeadWidth, Width, Stands, Ends, IsDynamic;
    var e := Enc(c, node.ctypes[i], vs[i]);
    StaticWidth(c, node.ctypes[i], vs[i]);
    StaticHeads(c, node, vs, i + 1, ofst);
    SplitAt(c, node, vs, i, ofst);
    StandsSplit(value, pos, e, Heads(c, node, vs, i + 1, ofst));
  }

  /** The search for the next pointer finds where the next tail starts. */
  lemma {:induction false} EndIs<V(!new)>(c: Codec<V>, node: Node, vs: seq<Value<V>>, i: nat, pos: nat, ofst: nat,
                                    value: seq<Byte>, tail: seq<Byte>)
    requires AllFit(c, node, vs) && i <= |vs| && Sound(c, node) && Placed(c, node, vs, i, pos, ofst, value, tail)
    ensures End(node, value, i, pos) == if DynamicFrom(node, i) then ofst else |value|
    decreases |vs| - i
  {
    hide Enc, Fits, Heads, Tails, Placed, Sound, Ptr;
    if i < |vs| {
      if IsDynamic(node.ctypes[i]) {
        AdvanceDynamic(c, node, vs, i, pos, ofst, value, tail);
      } else {
        AdvanceStatic(c, node, vs, i, pos, ofst, value, tail);
        EndIs(c, node, vs, i + 1, pos + Width(node.ctypes[i]), ofst, value, tail);
      }
    }
  }

  /** What the decoder of element `i` gets to see after its encoding. */
  function Follows(node: Node, i: nat, tail: seq<Byte>): seq<Byte>
    requires node.Tuple? && i < |node.ctypes|
  {
    if IsDynamic(node.ctypes[i]) && !DynamicFrom(node, i + 1) then tail else []
  }

  /** The decoder of element `i` is handed its encoding, and the rest is in place for the next one. */
  lemma RegionIs<V(!new)>(c: Codec<V>, node: Node, vs: seq<Value<V>>, i: nat, pos: nat, ofst: nat,
                    value: seq<Byte>, tail: seq<Byte>)
    requires AllFit(c, node, vs) && i < |vs| && Sound(c, node) && Placed(c, node, vs, i, pos, ofst, value, tail)
    requires MayFollow(c, node, tail) && |value| < TWO256
    ensures var child, e, follows := node.ctypes[i], Enc(c, node.ctypes[i], vs[i]), Follows(node, i, tail);
      && Region(node, value, i, pos) == e + follows && |e + follows| < TWO256 && MayFollow(c, child, follows)
      && Placed(c, node, vs, i + 1, pos + Width(child), if IsDynamic(child) then ofst + |e| else ofst, value, tail)
  {
    hide Enc, Fits, Heads, Tails, Placed, Ptr, Width, HeadWidth, End, MayFollow, Sound;
    var child, e := node.ctypes[i], Enc(c, node.ctypes[i], vs[i]);
    if IsDynamic(child) {
      DynamicWidth(child);
      AdvanceDynamic(c, node, vs, i, pos, ofst, value, tail);
      EndIs(c, node, vs, i + 1, pos + 32, ofst + |e|, value, tail);
      LastTail(c, node, vs, i, pos, ofst, value, tail);
    } else {
      AdvanceStatic(c, node, vs, i, pos, ofst, value, tail);
      NothingFollows(c, child, e);
    }
  }

  lemma {:induction false} DecodesFrom<V(!new)>(c: Codec<V>, node: Node, vs: seq<Value<V>>, i: nat, pos: nat, ofst: nat,
                                          value: seq<Byte>, tail: seq<Byte>)
    requires AllFit(c, node, vs) && i <= |vs| && Sound(c, node) && Placed(c, node, vs, i, pos, ofst, value, tail)
    requires MayFollow(c, node, tail) && |value| < TWO256
    ensures DecodeFrom(c, node, value, i, pos) == Some(vs[i..])
    decreases node, 0, |vs| - i
  {
    hide Enc, Fits, Placed, Decode, Width, Region, MayFollow, IsDynamic, Follows;
    if i < |vs| {
      var child, e := node.ctypes[i], Enc(c, node.ctypes[i], vs[i]);
      RegionIs(c, node, vs, i, pos, ofst, value, tail);
      RoundTrip(c, child, vs[i], Follows(node, i, tail));
      DecodesFrom(c, node, vs, i + 1, pos + Width(child), if IsDynamic(child) then ofst + |e| else ofst, value, tail);
      DecodeFromStep(c, node, value, i, pos);
      assert vs[i..] == [vs[i]] + vs[i + 1..];
    } else {
      assert vs[i..] == [];
    }
  }

  lemma NothingFollows<V(!new)>(c: Codec<V>, node: Node, e: seq<Byte>)
    ensures MayFollow(c, node, []) && e + [] == e
  {}

  lemma DynamicWidth(node: Node)
    requires IsDynamic(node)
    ensures Width(node) == 32
  {}

  /** Slicing up to the next pointer, or to the end, gives exactly the tail of the element. */
  lemma LastTail<V(!new)>(c: Codec<V>, node: Node, vs: seq<Value<V>>, i: nat, pos: nat, ofst: nat,
                    value: seq<Byte>, tail: seq<Byte>)
    requires AllFit(c, node, vs) && i < |vs| && Placed(c, node, vs, i, pos, ofst, value, tail)
    requires IsDynamic(node.ctypes[i]) && MayFollow(c, node, tail)
    requires Stands(value, ofst, Enc(c, node.ctypes[i], vs[i]))
    ensures var e := Enc(c, node.ctypes[i], vs[i]);
      var follows := if DynamicFrom(node, i + 1) then [] else tail;
      && Slice(value, ofst, if DynamicFrom(node, i + 1) then ofst + |e| else |value|) == e + follows
      && |e + follows| <= |value| && MayFollow(c, node.ctypes[i], follows)
  {
    hide Enc, Fits, Heads, Width, HeadWidth;
    var e := Enc(c, node.ctypes[i], vs[i]);
    assert e + [] == e;
    if !DynamicFrom(node, i + 1) {
      NoTails(c, node, vs, i + 1);
      assert value[ofst..] == e + [] + tail;
      assert |value[ofst..]| == |e + tail|;
    }
  }

  lemma {:induction false} RoundTrip<V(!new)>(c: Codec<V>, node: Node, v: Value<V>, tail: seq<Byte>)
    requires Sound(c, node) && Fits(c, node, v) && |Enc(c, node, v) + tail| < TWO256 && MayFollow(c, node, tail)
    ensures Decode(c, node, Enc(c, node, v) + tail) == Some(v)
    decreases node, 1, 0
  {
    hide Heads, Tails, HeadWidth;
    if node.Tuple? {
      var n, heads, tails := HeadWidth(node, 0), Heads(c, node, v.vs, 0, HeadWidth(node, 0)), Tails(c, node, v.vs, 0);
      var value := Enc(c, node, v) + tail;
      StaticHeads(c, node, v.vs, 0, n);
      assert value == heads + (tails + tail);
      assert value[0..n] == heads && value[n..] == tails + tail;
      assert Placed(c, node, v.vs, 0, 0, n, value, tail);
      DecodesFrom(c, node, v.vs, 0, 0, n, value, tail);
      assert v.vs[0..] == v.vs;
    } else if tail == [] {
      assert Enc(c, node, v) + [] == Enc(c, node, v);
    }
  }

  // ---- what the encoding is -------------------------------------------------------------------

  /** No element at any depth is dynamic. */
  predicate AllStatic(node: Node)
    decreases node
  {
    match node
    case Elem(_, dynamic, _) => !dynamic
    case Tuple(ctypes) => forall i :: 0 <= i < |ctypes| ==> AllStatic(ctypes[i])
  }

  /** A tuple is dynamic exactly when some element in it is. */
  lemma {:induction false} DynamicIff(node: Node)
    ensures IsDynamic(node) <==> !AllStatic(node)
    decreases node
  {
    if node.Tuple? {
      forall i | 0 <= i < |node.ctypes| ensures IsDynamic(node.ctypes[i]) <==> !AllStatic(node.ctypes[i]) {
        DynamicIff(node.ctypes[i]);
      }
    }
  }

  /** The encodings of the leaves one after another. */
  function Leaves<V>(c: Codec<V>, node: Node, v: Value<V>): seq<Byte>
    requires Fits(c, node, v)
    decreases node, 1, 0
  {
    match node
    case Elem(kind, _, _) => c.enc(kind, v.v)
    case Tuple(_) => LeavesFrom(c, node, v.vs, 0)
  }

  function LeavesFrom<V>(c: Codec<V>, node: Node, vs: seq<Value<V>>, i: nat): seq<Byte>
    requires AllFit(c, node, vs) && i <= |vs|
    decreases node, 0, |vs| - i
  {
    if i == |vs| then [] else Leaves(c, node.ctypes[i], vs[i]) + LeavesFrom(c, node, vs, i + 1)
  }

  /** Static data, however nested, is just its leaves in order: no pointer anywhere. */
  lemma {:induction false} StaticIsLeaves<V(!new)>(c: Codec<V>, node: Node, v: Value<V>)
    requires Fits(c, node, v) && AllStatic(node)
    ensures Enc(c, node, v) == Leaves(c, node, v)
    decreases node, 1, 0
  {
    if node.Tuple? {
      StaticFrom(c, node, v.vs, 0, HeadWidth(node, 0));
      DynamicIff(node);
      NoTails(c, node, v.vs, 0);
      assert Heads(c, node, v.vs, 0, HeadWidth(node, 0)) + [] == Heads(c, node, v.vs, 0, HeadWidth(node, 0));
    }
  }

  lemma {:induction false} StaticFrom<V(!new)>(c: Codec<V>, node: Node, vs: seq<Value<V>>, i: nat, ofst: nat)
    requires AllFit(c, node, vs) && i <= |vs| && AllStatic(node)
    ensures Heads(c, node, vs, i, ofst) == LeavesFrom(c, node, vs, i)
    decreases node, 0, |vs| - i
  {
    hide Enc, Fits, Leaves, IsDynamic;
    if i < |vs| {
      DynamicIff(node.ctypes[i]);
      StaticIsLeaves(c, node.ctypes[i], vs[i]);
      StaticFrom(c, node, vs, i + 1, ofst);
    }
  }

  lemma {:induction false} PlacedAt<V(!new)>(c: Codec<V>, node: Node, vs: seq<Value<V>>, i: nat, value: seq<Byte>, tail: seq<Byte>) returns (ofst: nat)
    requires AllFit(c, node, vs) && i <= |vs| && Sound(c, node)
    requires Placed(c, node, vs, 0, 0, HeadWidth(node, 0), value, tail)
    ensures Placed(c, node, vs, i, StartOf(node, i), ofst, value, tail) && ofst >= HeadWidth(node, 0)
    decreases i
  {
    hide Placed, Enc, Fits, Width, HeadWidth, Sound, IsDynamic;
    if i == 0 {
      ofst := HeadWidth(node, 0);
    } else {
      ofst := PlacedAt(c, node, vs, i - 1, value, tail);
      if IsDynamic(node.ctypes[i - 1]) {
        DynamicWidth(node.ctypes[i - 1]);
        AdvanceDynamic(c, node, vs, i - 1, StartOf(node, i - 1), ofst, value, tail);
        ofst := ofst + |Enc(c, node.ctypes[i - 1], vs[i - 1])|;
      } else {
        AdvanceStatic(c, node, vs, i - 1, StartOf(node, i - 1), ofst, value, tail);
      }
    }
  }

  /** Where each element is: a static one in its own place in the heads, a dynamic one behind the heads, where
      the 32-byte number in its place says. */
  lemma ElementIsAt<V(!new)>(c: Codec<V>, node: Node, v: Value<V>, i: nat)
    requires node.Tuple? && Sound(c, node) && Fits(c, node, v) && |Enc(c, node, v)| < TWO256 && i < |node.ctypes|
    ensures var value, e, pos := Enc(c, node, v), Enc(c, node.ctypes[i], v.vs[i]), StartOf(node, i);
      if AllStatic(node.ctypes[i]) then Stands(value, pos, e)
      else
        && pos + 32 <= |value|
        && var ptr := FromBytes(value[pos..pos + 32]);
        && HeadWidth(node, 0) <= ptr && Stands(value, ptr, e)
  {
    assert v.Many? && AllFit(c, node, v.vs) by { hide Enc; }
    StartsPlaced(c, node, v);
    hide Enc, Fits, Width, HeadWidth, Sound, IsDynamic, Heads, Tails, Placed, Ptr, Stands, StartOf;
    var value := Enc(c, node, v);
    var ofst := PlacedAt(c, node, v.vs, i, value, []);
    DynamicIff(node.ctypes[i]);
    if IsDynamic(node.ctypes[i]) {
      AdvanceDynamic(c, node, v.vs, i, StartOf(node, i), ofst, value, []);
      PtrIs(value, StartOf(node, i));
    } else {
      AdvanceStatic(c, node, v.vs, i, StartOf(node, i), ofst, value, []);
    }
  }

  lemma StartsPlaced<V(!new)>(c: Codec<V>, node: Node, v: Value<V>)
    requires node.Tuple? && Sound(c, node) && Fits(c, node, v) && |Enc(c, node, v)| < TWO256
    ensures AllFit(c, node, v.vs) && Placed(c, node, v.vs, 0, 0, HeadWidth(node, 0), Enc(c, node, v), [])
  {
    hide Heads, Tails, HeadWidth, Sound;
    var n, value := HeadWidth(node, 0), Enc(c, node, v);
    StaticHeads(c, node, v.vs, 0, n);
    assert value == Heads(c, node, v.vs, 0, n) + (Tails(c, node, v.vs, 0) + []);
    assert value[0..n] == Heads(c, node, v.vs, 0, n) && value[n..] == Tails(c, node, v.vs, 0) + [];
  }

  lemma PtrIs(value: seq<Byte>, pos: nat)
    requires pos + 32 <= |value|
    ensures Ptr(value, pos) == FromBytes(value[pos..pos + 32])
  {}

  // ---- when decoding fails --------------------------------------------------------------------

  /** The node and the bytes its decoder is handed at the end of a path into the type. */
  function Handed(node: Node, value: seq<Byte>, path: seq<nat>): Option<(Node, seq<Byte>)>
    decreases |path|
  {
    if path == [] then Some((node, value))
    else if node.Tuple? && path[0] < |node.ctypes| then
      Handed(node.ctypes[path[0]], Region(node, value, path[0], StartOf(node, path[0])), path[1..])
    else None
  }

  /** A tuple that is handed less than its heads, or an element whose own decoder raises. */
  predicate Refuses<V>(c: Codec<V>, node: Node, value: seq<Byte>) {
    match node
    case Elem(kind, _, _) => c.dec(kind, value).None?
    case Tuple(_) => |value| < HeadWidth(node, 0)
  }

  predicate RefusesAt<V>(c: Codec<V>, node: Node, value: seq<Byte>, path: seq<nat>) {
    var at := Handed(node, value, path);
    at.Some? && Refuses(c, at.value.0, at.value.1)
  }

  predicate ElementDecodes<V>(c: Codec<V>, node: Node, value: seq<Byte>, k: nat)
    requires node.Tuple? && k < |node.ctypes|
  {
    Decode(c, node.ctypes[k], Region(node, value, k, StartOf(node, k))).Some?
  }

  lemma {:induction false} FromAllIff<V>(c: Codec<V>, node: Node, value: seq<Byte>, i: nat)
    requires node.Tuple? && i <= |node.ctypes|
    ensures DecodeFrom(c, node, value, i, StartOf(node, i)).Some? <==>
            forall k :: i <= k < |node.ctypes| ==> ElementDecodes(c, node, value, k)
    decreases |node.ctypes| - i
  {
    hide Decode, Region, Width, DecodeFrom;
    if i == |node.ctypes| {
      DecodeFromEnd(c, node, value, StartOf(node, i));
    } else {
      assert StartOf(node, i + 1) == StartOf(node, i) + Width(node.ctypes[i]);
      DecodeFromStep(c, node, value, i, StartOf(node, i));
      FromAllIff(c, node, value, i + 1);
      assert ElementDecodes(c, node, value, i) <==> Decode(c, node.ctypes[i], Region(node, value, i, StartOf(node, i))).Some?;
      hide StartOf, ElementDecodes;
    }
  }

  ghost predicate RefusesWithin<V(!new)>(c: Codec<V>, node: Node, value: seq<Byte>) {
    exists path :: RefusesAt(c, node, value, path)
  }

  /** Something within refuses exactly when the node does or something within an element does. */
  lemma WithinIff<V(!new)>(c: Codec<V>, node: Node, value: seq<Byte>)
    ensures node.Elem? ==> (RefusesWithin(c, node, value) <==> Refuses(c, node, value))
    ensures node.Tuple? ==> (RefusesWithin(c, node, value) <==>
              Refuses(c, node, value)
              || exists k :: 0 <= k < |node.ctypes| && RefusesWithin(c, node.ctypes[k], Region(node, value, k, StartOf(node, k))))
  {
    hide Refuses, Region, StartOf;
    if Refuses(c, node, value) {
      assert RefusesAt(c, node, value, []);
    }
    if node.Tuple? {
      if k :| 0 <= k < |node.ctypes| && RefusesWithin(c, node.ctypes[k], Region(node, value, k, StartOf(node, k))) {
        var rest :| RefusesAt(c, node.ctypes[k], Region(node, value, k, StartOf(node, k)), rest);
        assert ([k] + rest)[1..] == rest;
        assert RefusesAt(c, node, value, [k] + rest);
      }
      if !Refuses(c, node, value) && RefusesWithin(c, node, value) {
        var path :| RefusesAt(c, node, value, path);
        assert path != [];
        assert RefusesAt(c, node.ctypes[path[0]], Region(node, value, path[0], StartOf(node, path[0])), path[1..]);
      }
    }
  }

  /** Decoding fails exactly when something refuses its bytes at some depth: nothing else can go wrong. */
  lemma {:induction false} FailsIff<V(!new)>(c: Codec<V>, node: Node, value: seq<Byte>)
    ensures Decode(c, node, value) == None <==> RefusesWithin(c, node, value)
    decreases node
  {
    hide DecodeFrom, Region, StartOf, Width, RefusesWithin;
    WithinIff(c, node, value);
    if node.Tuple? {
      FromAllIff(c, node, value, 0);
      StartsAtZero(node);
      forall k | 0 <= k < |node.ctypes|
        ensures !ElementDecodes(c, node, value, k) <==>
                RefusesWithin(c, node.ctypes[k], Region(node, value, k, StartOf(node, k)))
      {
        FailsIff(c, node.ctypes[k], Region(node, value, k, StartOf(node, k)));
      }
    }
  }

  lemma StartsAtZero(node: Node)
    requires node.Tuple?
    ensures StartOf(node, 0) == 0
  {}

  // ---- the method -----------------------------------------------------------------------------

  /** The slices of the head section, one per element. */
  method RawHeads(node: Node, value: seq<Byte>) returns (rawHead: seq<seq<Byte>>)
    requires node.Tuple?
    ensures |rawHead| == |node.ctypes|
    ensures forall k :: 0 <= k < |rawHead| ==> rawHead[k] == HeadAt(node, value, k)
  {
    hide IsDynamic, Width;
    var pos := 0;
    rawHead := [];
    for i := 0 to |node.ctypes|
      invariant |rawHead| == i && pos == StartOf(node, i)
      invariant forall k :: 0 <= k < i ==> rawHead[k] == HeadAt(node, value, k)
    {
      rawHead := rawHead + [Slice(value, pos, pos + Width(node.ctypes[i]))];
      pos := pos + Width(node.ctypes[i]);
    }
  }

  /** The pointers as integers, in a single list. */
  method PointerList(node: Node, value: seq<Byte>, rawHead: seq<seq<Byte>>) returns (ptrs: seq<nat>)
    requires node.Tuple? && |rawHead| == |node.ctypes|
    requires forall k :: 0 <= k < |rawHead| ==> rawHead[k] == HeadAt(node, value, k)
    ensures ptrs == Pointers(node, value, 0)
  {
    hide IsDynamic, Width, Pointers, HeadAt, Ptr;
    ptrs := [];
    for i := 0 to |node.ctypes|
      invariant Pointers(node, value, 0) == ptrs + Pointers(node, value, i)
    {
      PointersStep(node, value, i);
      if IsDynamic(node.ctypes[i]) {
        PointerIsHead(node, value, i);
        ptrs := ptrs + [FromBytes(rawHead[i])];
      }
    }
    PointersEnd(node, value);
  }

  /** Each pointer replaced by the data up to the next one. */
  method ReplacePointers(node: Node, value: seq<Byte>, rawHead: seq<seq<Byte>>) returns (head: seq<seq<Byte>>)
    requires node.Tuple? && |rawHead| == |node.ctypes|
    requires forall k :: 0 <= k < |rawHead| ==> rawHead[k] == HeadAt(node, value, k)
    ensures |head| == |node.ctypes|
    ensures forall k :: 0 <= k < |head| ==> head[k] == Region(node, value, k, StartOf(node, k))
  {
    hide IsDynamic, Width, Pointers, HeadAt, Ptr, Region;
    var data := PointerList(node, value, rawHead);
    head := [];
    for i := 0 to |node.ctypes|
      invariant |head| == i && data == Pointers(node, value, i)
      invariant forall k :: 0 <= k < i ==> head[k] == Region(node, value, k, StartOf(node, k))
    {
      PointersStep(node, value, i);
      NextPointer(node, value, i);
      if IsDynamic(node.ctypes[i]) {
        head := head + [Slice(value, data[0], if |data| > 1 then data[1] else |value|)];
        data := data[1..];
      } else {
        head := head + [rawHead[i]];
      }
    }
  }

  /** `visit_TupleNode`: heads, then the list of pointers, then the data between them. */
  method VisitTupleNode<V>(c: Codec<V>, node: Node, value: seq<Byte>) returns (r: Option<Value<V>>)
    requires node.Tuple?
    ensures r == Decode(c, node, value)
    decreases node, 0
  {
    hide Decode, IsDynamic, Width, DecodeFrom, Region, HeadAt;
    DecodeTuple(c, node, value);
    var n := |node.ctypes|;
    var size := 0;
    for i := 0 to n
      invariant size + HeadWidth(node, i) == HeadWidth(node, 0)
    {
      size := size + Width(node.ctypes[i]);
    }
    if |value| < size {
      return None;
    }
    var head := RawHeads(node, value);
    if IsDynamic(node) {
      head := ReplacePointers(node, value, head);
    } else {
      StaticRegions(node, value);
    }
    var vs: seq<Value<V>> := [];
    ghost var all := DecodeFrom(c, node, value, 0, 0);
    for i := 0 to n
      invariant |vs| == i
      invariant var rest := DecodeFrom(c, node, value, i, StartOf(node, i));
        (rest.Some? <==> all.Some?) && (all.Some? ==> all.value == vs + rest.value)
    {
      DecodeFromStep(c, node, value, i, StartOf(node, i));
      var v := DecodeNode(c, node.ctypes[i], head[i]);
      if v.None? {
        return None;
      }
      vs := vs + [v.value];
    }
    DecodeFromEnd(c, node, value, StartOf(node, n));
    assert all.Some? && vs + [] == vs;
    r := Some(Many(vs));
  }

  method DecodeNode<V>(c: Codec<V>, node: Node, value: seq<Byte>) returns (r: Option<Value<V>>)
    ensures r == Decode(c, node, value)
    decreases node, 1
  {
    match node
    case Elem(kind, _, _) => var v := c.dec(kind, value); r := if v.Some? then Some(Leaf(v.value)) else None;
    case Tuple(_) => r := VisitTupleNode(c, node, value);
  }

  /** Where the head of element `i` starts. */
  function StartOf(node: Node, i: nat): nat
    requires node.Tuple? && i <= |node.ctypes|
  {
    if i == 0 then 0 else StartOf(node, i - 1) + Width(node.ctypes[i - 1])
  }

  function HeadAt(node: Node, value: seq<Byte>, i: nat): seq<Byte>
    requires node.Tuple? && i < |node.ctypes|
  {
    Slice(value, StartOf(node, i), StartOf(node, i) + Width(node.ctypes[i]))
  }

  /** The pointers in the heads from element `i` on. */
  function Pointers(node: Node, value: seq<Byte>, i: nat): seq<nat>
    requires node.Tuple? && i <= |node.ctypes|
    decreases |node.ctypes| - i
  {
    if i == |node.ctypes| then []
    else if IsDynamic(node.ctypes[i]) then [Ptr(value, StartOf(node, i))] + Pointers(node, value, i + 1)
    else Pointers(node, value, i + 1)
  }

  lemma PointersStep(node: Node, value: seq<Byte>, i: nat)
    requires node.Tuple? && i < |node.ctypes|
    ensures Pointers(node, value, i) ==
      if IsDynamic(node.ctypes[i]) then [Ptr(value, StartOf(node, i))] + Pointers(node, value, i + 1)
      else Pointers(node, value, i + 1)
  {}

  lemma PointersEnd(node: Node, value: seq<Byte>)
    requires node.Tuple?
    ensures Pointers(node, value, |node.ctypes|) == []
  {}

  lemma PointerIsHead(node: Node, value: seq<Byte>, i: nat)
    requires node.Tuple? && i < |node.ctypes| && IsDynamic(node.ctypes[i])
    ensures FromBytes(HeadAt(node, value, i)) == Ptr(value, StartOf(node, i))
  {
    DynamicWidth(node.ctypes[i]);
  }

  /** The end of the data of an element is the next pointer in the list, if there is one. */
  lemma {:induction false} EndIsNextPointer(node: Node, value: seq<Byte>, i: nat)
    requires node.Tuple? && i <= |node.ctypes|
    ensures var ptrs := Pointers(node, value, i);
      End(node, value, i, StartOf(node, i)) == if ptrs == [] then |value| else ptrs[0]
    decreases |node.ctypes| - i
  {
    hide IsDynamic, Width;
    if i < |node.ctypes| && !IsDynamic(node.ctypes[i]) {
      EndIsNextPointer(node, value, i + 1);
    }
  }

  lemma NextPointer(node: Node, value: seq<Byte>, i: nat)
    requires node.Tuple? && i < |node.ctypes|
    ensures var rest := Pointers(node, value, i + 1);
      Region(node, value, i, StartOf(node, i)) ==
        if IsDynamic(node.ctypes[i]) then
          Slice(value, Ptr(value, StartOf(node, i)), if rest == [] then |value| else rest[0])
        else HeadAt(node, value, i)
  {
    hide IsDynamic, Width, Pointers, End, Ptr;
    if IsDynamic(node.ctypes[i]) { DynamicWidth(node.ctypes[i]); }
    EndIsNextPointer(node, value, i + 1);
  }

  lemma StaticRegions(node: Node, value: seq<Byte>)
    requires node.Tuple? && !IsDynamic(node)
    ensures forall i :: 0 <= i < |node.ctypes| ==> Region(node, value, i, StartOf(node, i)) == HeadAt(node, value, i)
  {}

  lemma DecodeTuple<V>(c: Codec<V>, node: Node, value: seq<Byte>)
    requires node.Tuple?
    ensures Decode(c, node, value) ==
      if |value| < HeadWidth(node, 0) then None
      else var vs := DecodeFrom(c, node, value, 0, 0); if vs.Some? then Some(Many(vs.value)) else None
  {}

  lemma DecodeFromStep<V>(c: Codec<V>, node: Node, value: seq<Byte>, i: nat, pos: nat)
    requires node.Tuple? && i < |node.ctypes|
    ensures var first := Decode(c, node.ctypes[i], Region(node, value, i, pos));
      var rest := DecodeFrom(c, node, value, i + 1, pos + Width(node.ctypes[i]));
      DecodeFrom(c, node, value, i, pos) == if first.Some? && rest.Some? then Some([first.value] + rest.value) else None
  {
    hide Decode, Region;
  }

  lemma DecodeFromEnd<V>(c: Codec<V>, node: Node, value: seq<Byte>, pos: nat)
    requires node.Tuple?
    ensures DecodeFrom(c, node, value, |node.ctypes|, pos) == Some([])
  {}
}
