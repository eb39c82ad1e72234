/** `get_module_fingerprint` of `boa/interpret.py`: a memoised hash over an import graph. */
module Fingerprint {

  /** SHA-256 digests: of a module's source, of another compiler input, of joined digests. Free
      constructors stand for the absence of collisions, within and between the three kinds. */
  datatype Digest = Source(text: string) | Input(text: string) | Joined(parts: seq<Digest>)

  /** An acyclic import graph; sharing shows in the identity of the import infos. */
  datatype Module = Module(source: string, imports: seq<ImportInfo>)
  datatype ImportInfo = ImportInfo(id: nat, target: Target)
  datatype Target = Imported(m: Module) | Other(input: string)

  // ---- plain recursion ------------------------------------------------------------------------

  function Plain(m: Module): Digest
    decreases m, 0
  {
    Joined(PlainImports(m, 0) + [Source(m.source)])
  }

  function PlainImports(m: Module, i: nat): (parts: seq<Digest>)
    requires i <= |m.imports|
    ensures |parts| == |m.imports| - i
    ensures forall k :: 0 <= k < |parts| ==> parts[k] == PlainTarget(m.imports[i + k].target)
    decreases m, 0, |m.imports| - i
  {
    if i == |m.imports| then [] else [PlainTarget(m.imports[i].target)] + PlainImports(m, i + 1)
  }

  function PlainTarget(t: Target): Digest
    decreases t, 0
  {
    match t
    case Imported(m) => Plain(m)
    case Other(input) => Input(input)
  }

  // ---- what equal fingerprints mean -----------------------------------------------------------

  /** The same sources at every place of the dependency trees. */
  predicate SameSources(m: Module, n: Module)
    decreases m
  {
    m.source == n.source && |m.imports| == |n.imports|
    && forall i :: 0 <= i < |m.imports| ==> SameTarget(m.imports[i].target, n.imports[i].target)
  }

  predicate SameTarget(t: Target, u: Target)
    decreases t
  {
    match t
    case Imported(m) => u.Imported? && SameSources(m, u.m)
    case Other(input) => u == Other(input)
  }

  lemma {:induction false} TargetIff(t: Target, u: Target)
    ensures PlainTarget(t) == PlainTarget(u) <==> SameTarget(t, u)
    decreases t
  {
    if t.Imported? && u.Imported? { FingerprintIff(t.m, u.m); }
  }

  /** Fingerprints are equal exactly when the sources are, throughout the dependency trees. */
  lemma {:induction false} FingerprintIff(m: Module, n: Module)
    ensures Plain(m) == Plain(n) <==> SameSources(m, n)
    decreases m
  {
    var a, b := PlainImports(m, 0), PlainImports(n, 0);
    forall i | 0 <= i < |m.imports| && i < |n.imports|
      ensures a[i] == b[i] <==> SameTarget(m.imports[i].target, n.imports[i].target)
    {
      TargetIff(m.imports[i].target, n.imports[i].target);
      assert a[i] == PlainTarget(m.imports[0 + i].target) && b[i] == PlainTarget(n.imports[0 + i].target);
    }
    var p, q := a + [Source(m.source)], b + [Source(n.source)];
    if Plain(m) == Plain(n) {
      assert p == q && |a| == |b|;
      assert p[|a|] == q[|b|];
      forall i | 0 <= i < |a| ensures a[i] == b[i] { assert p[i] == q[i]; }
    }
    if SameSources(m, n) {
      forall i | 0 <= i < |a| ensures a[i] == b[i] {
        assert SameTarget(m.imports[i].target, n.imports[i].target);
      }
      assert p == q;
    }
  }

  // ---- memoisation ----------------------------------------------------------------------------

  /** The import infos reachable from a module, by identity. */
  ghost predicate Registered(m: Module, table: map<nat, Target>)
    decreases m
  {
    forall i :: 0 <= i < |m.imports| ==>
      m.imports[i].id in table && table[m.imports[i].id] == m.imports[i].target
      && (m.imports[i].target.Imported? ==> Registered(m.imports[i].target.m, table))
  }

  /** The dict passed down as `seen`. */
  class Memo {
    var entries: map<nat, Digest>

    constructor ()
      ensures entries == map[]
    {
      entries := map[];
    }

    ghost predicate Agrees(table: map<nat, Target>)
      reads this
    {
      forall id :: id in entries ==> id in table && entries[id] == PlainTarget(table[id])
    }
  }

  /** Always the plain fingerprint, although an empty memo is replaced by a private one and so
      learns nothing (`seen or {}`). */
  method GetModuleFingerprint(m: Module, caller: Memo?, ghost table: map<nat, Target>) returns (fingerprint: Digest)
    requires Registered(m, table) && (caller != null ==> caller.Agrees(table))
    modifies if caller == null then {} else {caller}
    ensures fingerprint == Plain(m)
    ensures caller != null ==> caller.Agrees(table) && old(caller.entries).Keys <= caller.entries.Keys
    ensures caller != null && old(caller.entries) == map[] ==> caller.entries == map[]
    decreases m
  {
    hide Plain, PlainTarget, PlainImports, Registered;
    var seen: Memo;
    if caller == null || caller.entries == map[] {
      seen := new Memo();
    } else {
      seen := caller;
    }
    var fingerprints: seq<Digest> := [];
    for i := 0 to |m.imports|
      invariant seen.Agrees(table) && (caller != null && seen != caller ==> caller.entries == map[])
      invariant seen == caller || fresh(seen)
      invariant caller != null ==> caller.Agrees(table) && old(caller.entries).Keys <= caller.entries.Keys
      invariant PlainImports(m, 0) == fingerprints + PlainImports(m, i)
    {
      var info := m.imports[i];
      ImportStep(m, i, table);
      if info.id !in seen.entries {
        var fp := TargetFingerprint(info.target, seen, table);
        seen.entries := seen.entries[info.id := fp];
      }
      fingerprints := fingerprints + [seen.entries[info.id]];
    }
    PlainUnfolds(m);
    assert fingerprints + [] == fingerprints;
    fingerprint := Joined(fingerprints + [Source(m.source)]);
  }

  lemma ImportStep(m: Module, i: nat, table: map<nat, Target>)
    requires i < |m.imports| && Registered(m, table)
    ensures var info := m.imports[i];
      && PlainImports(m, i) == [PlainTarget(info.target)] + PlainImports(m, i + 1)
      && info.id in table && table[info.id] == info.target
      && (info.target.Imported? ==> Registered(info.target.m, table))
  {}

  lemma PlainUnfolds(m: Module)
    ensures Plain(m) == Joined(PlainImports(m, 0) + [Source(m.source)]) && PlainImports(m, |m.imports|) == []
  {}

  method TargetFingerprint(t: Target, seen: Memo, ghost table: map<nat, Target>) returns (fp: Digest)
    requires seen.Agrees(table) && (t.Imported? ==> Registered(t.m, table))
    modifies seen
    ensures fp == PlainTarget(t) && seen.Agrees(table) && old(seen.entries).Keys <= seen.entries.Keys
    decreases t
  {
    match t
    case Imported(m) => fp := GetModuleFingerprint(m, seen, table);
    case Other(input) => fp := Input(input);
  }
}
