/** `with compile_ctx.variables(names)`: what it saves on entry and puts back on exit. */
module Scopes {
  import opened Wrappers
  import opened Compiler

  type Saved = map<string, Option<nat>>

  function Lookup(f: Frame, x: string): Option<nat> {
    if x in f.slots then Some(f.slots[x]) else None
  }

  /** The `shadowed` dictionary after the entry loop: the last write for a name wins. */
  function Shadowed(f: Frame, names: seq<string>): (s: Saved)
    ensures s.Keys == set x | x in names
    decreases |names|
  {
    if names == [] then map[] else
    var rest := Shadowed(EnterOne(f, names[0]), names[1..]);
    if names[0] in rest then rest else rest[names[0] := Lookup(f, names[0])]
  }

  /** One step of the exit loop; `None` where `del` raises. */
  function LeaveOne(f: Frame, x: string, saved: Saved): Option<Frame> {
    if x !in saved || f.current == 0 then None
    else match saved[x]
      case Some(s) => Some(Frame(f.slots[x := s], f.current - 1))
      case None => if x in f.slots then Some(Frame(f.slots - {x}, f.current - 1)) else None
  }

  /** The exit loop, over the names in the order in which they were entered. */
  function Leave(f: Frame, names: seq<string>, saved: Saved): Option<Frame>
    decreases |names|
  {
    if names == [] then Some(f) else
    var f' := LeaveOne(f, names[0], saved);
    if f'.None? then None else Leave(f'.value, names[1..], saved)
  }

  predicate Distinct(names: seq<string>) {
    forall i, j :: 0 <= i < j < |names| ==> names[i] != names[j]
  }

  /** Every binding has a slot below the next free one. */
  ghost predicate FrameOk(f: Frame) {
    forall x :: x in f.slots ==> f.slots[x] < f.current
  }

  lemma {:induction false} LeaveUndoes(f: Frame, g: Frame, names: seq<string>, saved: Saved)
    requires Distinct(names) && g.current == f.current + |names|
    requires forall x :: x in names ==> x in saved && saved[x] == Lookup(f, x) && x in g.slots
    requires forall x :: x !in names ==> Lookup(g, x) == Lookup(f, x)
    ensures Leave(g, names, saved) == Some(f)
    decreases |names|
  {
    if names == [] {
      assert g.slots == f.slots by {
        forall x ensures Lookup(g, x) == Lookup(f, x) {}
        assert forall x :: (x in g.slots <==> Lookup(g, x).Some?) && (x in f.slots <==> Lookup(f, x).Some?);
        assert forall x :: x in g.slots ==> g.slots[x] == Lookup(g, x).value;
        assert forall x :: x in f.slots ==> f.slots[x] == Lookup(f, x).value;
      }
    } else {
      assert names[0] in names;
      var g' := LeaveOne(g, names[0], saved).value;
      forall x | x in names[1..] ensures x in names && x in g'.slots && x != names[0] {
        var i :| 0 <= i < |names[1..]| && names[1..][i] == x;
        assert names[i + 1] == x;
      }
      LeaveUndoes(f, g', names[1..], saved);
    }
  }

  lemma {:induction false} EnterFacts(f: Frame, names: seq<string>)
    ensures forall x :: x in names ==> x in Enter(f, names).slots && Enter(f, names).slots[x] >= f.current
    ensures forall x :: x !in names ==> Lookup(Enter(f, names), x) == Lookup(f, x)
    decreases |names|
  {
    if names != [] {
      var f' := EnterOne(f, names[0]);
      EnterFacts(f', names[1..]);
      forall x | x in names ensures x in Enter(f, names).slots && Enter(f, names).slots[x] >= f.current {
        if x !in names[1..] {
          assert Lookup(Enter(f', names[1..]), x) == Lookup(f', x) == Some(f.current);
        }
      }
    }
  }

  ghost predicate Once(names: seq<string>, x: string) {
    !exists i, j :: 0 <= i < j < |names| && names[i] == x && names[j] == x
  }

  lemma OnceTail(names: seq<string>, x: string)
    requires names != []
    ensures names[0] != x ==> (Once(names, x) <==> Once(names[1..], x))
    ensures names[0] == x ==> (Once(names, x) <==> x !in names[1..])
  {
    if i, j :| 0 <= i < j < |names| && names[i] == x && names[j] == x {
      if i > 0 { assert names[1..][i - 1] == x && names[1..][j - 1] == x; } else { assert names[1..][j - 1] == x; }
    }
    if i, j :| 0 <= i < j < |names[1..]| && names[1..][i] == x && names[1..][j] == x {
      assert names[i + 1] == x && names[j + 1] == x;
    }
    if x in names[1..] {
      var k :| 0 <= k < |names[1..]| && names[1..][k] == x;
      assert names[k + 1] == x;
    }
  }

  lemma DistinctOnce(names: seq<string>, x: string)
    requires Distinct(names)
    ensures Once(names, x)
  {}

  /** What was saved for a name is what it meant outside, unless it occurs twice in the list. */
  lemma {:induction false} ShadowedAt(f: Frame, names: seq<string>, x: string)
    requires x in names
    ensures Once(names, x) ==> Shadowed(f, names)[x] == Lookup(f, x)
    ensures !Once(names, x) ==> Shadowed(f, names)[x].Some? && Shadowed(f, names)[x].value >= f.current
    decreases |names|
  {
    OnceTail(names, x);
    hide Once;
    if x in names[1..] {
      ShadowedAt(EnterOne(f, names[0]), names[1..], x);
    }
  }

  lemma {:induction false} LeaveSets(g: Frame, names: seq<string>, saved: Saved, x: string)
    requires x in saved && saved[x].Some? && Leave(g, names, saved).Some?
    requires x in names || (x in g.slots && g.slots[x] == saved[x].value)
    ensures var r := Leave(g, names, saved).value; x in r.slots && r.slots[x] == saved[x].value
    decreases |names|
  {
    if names != [] {
      LeaveSets(LeaveOne(g, names[0], saved).value, names[1..], saved, x);
    }
  }

  lemma {:induction false} LeaveTotal(g: Frame, names: seq<string>, saved: Saved)
    requires g.current >= |names|
    requires forall x :: x in names ==> x in saved && x in g.slots && (saved[x].None? ==> Once(names, x))
    ensures Leave(g, names, saved).Some?
    decreases |names|
  {
    if names != [] {
      var x0 := names[0];
      var g' := LeaveOne(g, x0, saved).value;
      forall x | x in names[1..] ensures x in names && x in g'.slots && (saved[x].None? ==> Once(names[1..], x)) {
        var k :| 0 <= k < |names[1..]| && names[1..][k] == x;
        assert names[k + 1] == x;
        OnceTail(names, x);
      }
      LeaveTotal(g', names[1..], saved);
    }
  }

  /** Leaving what was entered never raises, even with a name that occurs twice. */
  lemma LeaveNeverRaises(f: Frame, names: seq<string>)
    ensures Leave(Enter(f, names), names, Shadowed(f, names)).Some?
  {
    EnterFacts(f, names);
    forall x | x in names && Shadowed(f, names)[x].None? ensures Once(names, x) {
      ShadowedAt(f, names, x);
    }
    LeaveTotal(Enter(f, names), names, Shadowed(f, names));
  }

  lemma LeaveUndoesOne(f: Frame, x: string)
    ensures Leave(Enter(f, [x]), [x], Shadowed(f, [x])) == Some(f) && Enter(f, [x]) == EnterOne(f, x)
  {
    assert [x][1..] == [];
    EnterFacts(f, [x]);
    assert Once([x], x);
    ShadowedAt(f, [x], x);
    LeaveUndoes(f, Enter(f, [x]), [x], Shadowed(f, [x]));
  }

  /** The context manager gives back exactly the frame it found, slot counter included, if and
      only if no name occurs twice in its list. */
  lemma VariablesRestoreIffDistinct(f: Frame, names: seq<string>)
    requires FrameOk(f)
    ensures Leave(Enter(f, names), names, Shadowed(f, names)) == Some(f) <==> Distinct(names)
  {
    var g, saved := Enter(f, names), Shadowed(f, names);
    EnterFacts(f, names);
    if Distinct(names) {
      forall x | x in names ensures saved[x] == Lookup(f, x) { DistinctOnce(names, x); ShadowedAt(f, names, x); }
      LeaveUndoes(f, g, names, saved);
    } else {
      var i, j :| 0 <= i < j < |names| && names[i] == names[j];
      assert !Once(names, names[i]);
      ShadowedAt(f, names, names[i]);
      if Leave(g, names, saved).Some? { LeaveSets(g, names, saved, names[i]); }
    }
  }

  // ---- slots are binding depths ---------------------------------------------------------

  lemma {:induction false} EnterAppend(f: Frame, a: seq<string>, b: seq<string>)
    ensures Enter(f, a + b) == Enter(Enter(f, a), b)
    decreases |a|
  {
    if a == [] {
      assert a + b == b;
    } else {
      assert (a + b)[1..] == a[1..] + b;
      EnterAppend(EnterOne(f, a[0]), a[1..], b);
    }
  }

  /** Under any nest of bindings, shadowed ones included, the `i`-th binding from the outside has
      slot `i`, and a name resolves to its innermost binding. */
  lemma {:induction false} UseResolvesToInnermost(live: seq<string>, x: string)
    ensures var f := Enter(EmptyFrame, live);
            && f.current == |live|
            && (x in f.slots <==> x in live)
            && (x in live ==> f.slots[x] < |live| && live[f.slots[x]] == x && x !in live[f.slots[x] + 1..])
    decreases |live|
  {
    if live != [] {
      var n := |live| - 1;
      assert live == live[..n] + [live[n]];
      EnterAppend(EmptyFrame, live[..n], [live[n]]);
      assert [live[n]][1..] == [];
      UseResolvesToInnermost(live[..n], x);
      var f0 := Enter(EmptyFrame, live[..n]);
      assert Enter(f0, [live[n]]) == EnterOne(f0, live[n]);
      if x in live && x != live[n] {
        assert x in live[..n];
        assert live[f0.slots[x] + 1..] == live[..n][f0.slots[x] + 1..] + [live[n]];
      }
    }
  }
}
