/** `boa/dealer.py`: find the storage slot behind a view function by poisoning candidates. */
module Dealer {
  import opened Words
  import opened Wrappers

  /** Storage of the token; an absent slot holds 0. */
  type Storage = map<nat, Word>

  function At(st: Storage, slot: nat): Word {
    if slot in st then st[slot] else 0
  }

  /** A view function with its arguments: its result (None if it reverts) and the slots it loads. */
  datatype View = View(call: Storage -> Option<Word>, trace: Storage -> seq<nat>)

  datatype Outcome =
    | Updated(previous: Word)
    | NotFound                   // ValueError
    | Mismatch                   // RuntimeError: the view does not return the new value
    | OutOfRange                 // the new value is not a word
    | Reverted                   // the view reverts

  function Poison(result: Word): Word {
    Wrap(result + 1)
  }

  lemma PoisonDiffers(result: Word)
    ensures Poison(result) != result && Poison(result) == if result == TWO256 - 1 then 0 else result + 1
  {
    if result + 1 == TWO256 { DivUnique(TWO256, TWO256, 1); } else { DivUnique(result + 1, TWO256, 0); }
  }

  // ---- the search, as a function of the storage -----------------------------------------------

  /** The slot holds the result, and changing it changes what the view returns. */
  ghost predicate Suitable(view: View, st: Storage, result: Word, slot: nat) {
    At(st, slot) == result && view.call(st[slot := Poison(result)]) == Some(Poison(result))
  }

  /** Probing the slot makes the view revert. */
  ghost predicate Trips(view: View, st: Storage, result: Word, slot: nat) {
    At(st, slot) == result && view.call(st[slot := Poison(result)]).None?
  }

  datatype Choice = Hit(slot: nat) | Tripped | Missed

  /** The first traced slot that is suitable, or trips the view. */
  function Choose(view: View, st: Storage, result: Word, trace: seq<nat>): Choice {
    if trace == [] then Missed
    else if At(st, trace[0]) != result then Choose(view, st, result, trace[1..])
    else
      var seen := view.call(st[trace[0] := Poison(result)]);
      if seen.None? then Tripped
      else if seen.value == Poison(result) then Hit(trace[0])
      else Choose(view, st, result, trace[1..])
  }

  datatype Ended = Ended(out: Outcome, storage: Storage)

  function Update(view: View, mkNewValue: Word -> int, st: Storage): Ended {
    if view.call(st).None? then Ended(Reverted, st)
    else
      var result := view.call(st).value;
      match Choose(view, st, result, view.trace(st))
      case Missed => Ended(NotFound, st)
      case Tripped => Ended(Reverted, st)
      case Hit(slot) =>
        var newValue := mkNewValue(result);
        if !(0 <= newValue < TWO256) then Ended(OutOfRange, st)
        else
          var after := st[slot := newValue];
          if view.call(after).None? then Ended(Reverted, after)
          else if view.call(after).value != newValue then Ended(Mismatch, after)
          else Ended(Updated(result), after)
  }

  lemma {:induction false} ChooseHit(view: View, st: Storage, result: Word, trace: seq<nat>)
    ensures var c := Choose(view, st, result, trace);
      && (c.Hit? ==> c.slot in trace && Suitable(view, st, result, c.slot))
      && (c.Tripped? ==> exists slot :: slot in trace && Trips(view, st, result, slot))
      && (c.Missed? <==> forall slot :: slot in trace ==> !Suitable(view, st, result, slot) && !Trips(view, st, result, slot))
    decreases |trace|
  {
    if trace != [] {
      var rest := trace[1..];
      ChooseHit(view, st, result, rest);
      assert forall slot :: slot in trace <==> slot == trace[0] || slot in rest;
      if Choose(view, st, result, trace).Tripped? && !Trips(view, st, result, trace[0]) {
        var slot :| slot in rest && Trips(view, st, result, slot);
        assert slot in trace;
      }
    }
  }

  /** It is the first in the order of the trace. */
  ghost predicate FirstAt(view: View, st: Storage, result: Word, trace: seq<nat>, i: nat)
    requires i < |trace|
  {
    && (Suitable(view, st, result, trace[i]) || Trips(view, st, result, trace[i]))
    && forall k :: 0 <= k < i ==> !Suitable(view, st, result, trace[k]) && !Trips(view, st, result, trace[k])
  }

  lemma {:induction false} ChooseFirst(view: View, st: Storage, result: Word, trace: seq<nat>, i: nat)
    requires i < |trace| && FirstAt(view, st, result, trace, i)
    ensures Choose(view, st, result, trace) == if Suitable(view, st, result, trace[i]) then Hit(trace[i]) else Tripped
    decreases i
  {
    hide Poison;
    if i > 0 {
      assert !Suitable(view, st, result, trace[0]) && !Trips(view, st, result, trace[0]);
      forall k | 0 <= k < i - 1
        ensures !Suitable(view, st, result, trace[1..][k]) && !Trips(view, st, result, trace[1..][k])
      {
        assert trace[1..][k] == trace[k + 1];
      }
      ChooseFirst(view, st, result, trace[1..], i - 1);
    }
  }

  /** On success exactly one traced slot has changed, one that held the view's result, and the view
      returns the new value. */
  lemma SuccessChangesOneSlot(view: View, mkNewValue: Word -> int, st: Storage)
    requires Update(view, mkNewValue, st).out.Updated?
    ensures var end := Update(view, mkNewValue, st);
      && view.call(st) == Some(end.out.previous) && 0 <= mkNewValue(end.out.previous) < TWO256
      && view.call(end.storage) == Some(mkNewValue(end.out.previous))
      && exists slot :: slot in view.trace(st) && At(st, slot) == end.out.previous
                        && end.storage == st[slot := mkNewValue(end.out.previous)]
  {
    var end := Update(view, mkNewValue, st);
    ChooseHit(view, st, end.out.previous, view.trace(st));
    var slot := Choose(view, st, end.out.previous, view.trace(st)).slot;
    assert slot in view.trace(st) && At(st, slot) == end.out.previous;
  }

  /** Nothing is found exactly when the view returns and no traced slot is suitable or makes it revert;
      the storage is then as before. */
  lemma NotFoundIff(view: View, mkNewValue: Word -> int, st: Storage)
    ensures var end := Update(view, mkNewValue, st);
      && (end.out == NotFound ==> end.storage == st)
      && (end.out == NotFound <==>
            view.call(st).Some?
            && forall slot :: slot in view.trace(st) ==>
                 !Suitable(view, st, view.call(st).value, slot) && !Trips(view, st, view.call(st).value, slot))
  {
    if view.call(st).Some? {
      ChooseHit(view, st, view.call(st).value, view.trace(st));
    }
  }

  /** Any other failure leaves either nothing behind or the new value in a suitable slot, where the view
      does not return it. */
  lemma FailureResidue(view: View, mkNewValue: Word -> int, st: Storage)
    requires var out := Update(view, mkNewValue, st).out; !out.Updated?
    ensures var end := Update(view, mkNewValue, st);
      end.storage == st ||
      (view.call(st).Some? && view.call(end.storage) != Some(mkNewValue(view.call(st).value))
       && exists slot :: slot in view.trace(st) && Suitable(view, st, view.call(st).value, slot)
                         && 0 <= mkNewValue(view.call(st).value) < TWO256
                         && end.storage == st[slot := mkNewValue(view.call(st).value)])
  {
    if view.call(st).Some? {
      var result := view.call(st).value;
      ChooseHit(view, st, result, view.trace(st));
      var c := Choose(view, st, result, view.trace(st));
      if c.Hit? && 0 <= mkNewValue(result) < TWO256 {
        assert c.slot in view.trace(st) && Suitable(view, st, result, c.slot);
      }
    }
  }

  // ---- tokens with one slot per view ----------------------------------------------------------

  /** The view returns one slot, whatever else it loads. */
  ghost predicate OneSlot(view: View, slot: nat) {
    forall st :: view.call(st) == Some(At(st, slot)) && slot in view.trace(st)
  }

  lemma {:induction false} ChooseOneSlot(view: View, st: Storage, slot: nat, trace: seq<nat>)
    requires OneSlot(view, slot) && slot in trace
    ensures Choose(view, st, At(st, slot), trace) == Hit(slot)
    decreases |trace|
  {
    hide Poison;
    PoisonDiffers(At(st, slot));
    var poisoned := st[trace[0] := Poison(At(st, slot))];
    assert view.call(poisoned) == Some(At(poisoned, slot));
    if trace[0] != slot {
      ChooseOneSlot(view, st, slot, trace[1..]);
    }
  }

  /** The search then always finds the slot, and fails only if the new value is no word. */
  lemma OneSlotUpdates(view: View, mkNewValue: Word -> int, st: Storage, slot: nat)
    requires OneSlot(view, slot)
    ensures var newValue := mkNewValue(At(st, slot));
      Update(view, mkNewValue, st) ==
        if 0 <= newValue < TWO256 then Ended(Updated(At(st, slot)), st[slot := newValue]) else Ended(OutOfRange, st)
  {
    assert view.call(st) == Some(At(st, slot)) && slot in view.trace(st);
    ChooseOneSlot(view, st, slot, view.trace(st));
    var newValue := mkNewValue(At(st, slot));
    if 0 <= newValue < TWO256 {
      var after := st[slot := newValue];
      assert view.call(after) == Some(At(after, slot));
    }
  }

  function Dealt(balanceOf: View, totalSupply: View, amount: int, adjustSupply: bool, st: Storage): Ended {
    var first := Update(balanceOf, _ => amount, st);
    if first.out.Updated? && adjustSupply then
      Update(totalSupply, supply => supply + (amount - first.out.previous), first.storage)
    else first
  }

  /** With one slot per view the supply moves by exactly the balance change. It is all or nothing only
      while the new supply is a word: otherwise the new balance stays although the supply is refused. */
  lemma DealMovesSupply(balanceOf: View, b: nat, totalSupply: View, t: nat, amount: int, st: Storage)
    requires OneSlot(balanceOf, b) && OneSlot(totalSupply, t) && b != t
    ensures var balance, supply, end := At(st, b), At(st, t), Dealt(balanceOf, totalSupply, amount, true, st);
      var newSupply := supply + (amount - balance);
      if !(0 <= amount < TWO256) then end == Ended(OutOfRange, st)
      else if !(0 <= newSupply < TWO256) then end == Ended(OutOfRange, st[b := amount])
      else end.out == Updated(supply) && end.storage == st[b := amount][t := newSupply]
           && At(end.storage, t) - supply == At(end.storage, b) - balance
  {
    hide Choose;
    OneSlotUpdates(balanceOf, _ => amount, st, b);
    if 0 <= amount < TWO256 {
      OneSlotUpdates(totalSupply, supply => supply + (amount - At(st, b)), st[b := amount], t);
    }
  }

  /** Without adjusting, the balance alone changes, and what comes back is the old balance. */
  lemma DealLeavesSupply(balanceOf: View, b: nat, totalSupply: View, t: nat, amount: int, st: Storage)
    requires OneSlot(balanceOf, b) && OneSlot(totalSupply, t) && b != t
    ensures var end := Dealt(balanceOf, totalSupply, amount, false, st);
      if 0 <= amount < TWO256 then
        end == Ended(Updated(At(st, b)), st[b := amount]) && totalSupply.call(end.storage) == totalSupply.call(st)
      else end == Ended(OutOfRange, st)
  {
    hide Choose;
    OneSlotUpdates(balanceOf, _ => amount, st, b);
    assert totalSupply.call(st) == Some(At(st, t));
    if 0 <= amount < TWO256 { assert totalSupply.call(st[b := amount]) == Some(At(st[b := amount], t)); }
  }

  // ---- the methods ----------------------------------------------------------------------------

  class Env {
    var storage: Storage

    constructor (storage: Storage)
      ensures this.storage == storage
    {
      this.storage := storage;
    }

    /** `ok` is false where the value is refused because it is not a word. */
    method SetStorage(slot: nat, value: int) returns (ok: bool)
      modifies this
      ensures ok == (0 <= value < TWO256)
      ensures storage == if ok then old(storage)[slot := value] else old(storage)
    {
      if 0 <= value < TWO256 {
        storage := storage[slot := value];
        return true;
      }
      return false;
    }

    /** Inside an anchor: what the view returns with the slot poisoned. Nothing remains. */
    method Probe(view: View, slot: nat, result: Word) returns (seen: Option<Word>)
      modifies this
      ensures storage == old(storage) && seen == view.call(old(storage)[slot := Poison(result)])
    {
      var snapshot := storage;
      var _ := SetStorage(slot, Poison(result));
      seen := view.call(storage);
      storage := snapshot;
    }

    method UpdateStorageSlot(view: View, mkNewValue: Word -> int) returns (out: Outcome)
      modifies this
      ensures Ended(out, storage) == Update(view, mkNewValue, old(storage))
    {
      hide Poison;
      var called := view.call(storage);
      if called.None? {
        return Reverted;
      }
      var result := called.value;
      var trace := view.trace(storage);
      for i := 0 to |trace|
        invariant storage == old(storage)
        invariant Choose(view, storage, result, trace) == Choose(view, storage, result, trace[i..])
      {
        assert trace[i..][0] == trace[i] && trace[i..][1..] == trace[i + 1..];
        var slot := trace[i];
        if At(storage, slot) == result {
          var seen := Probe(view, slot, result);
          if seen.None? {
            return Reverted;
          }
          if seen.value == Poison(result) {
            var newValue := mkNewValue(result);
            var ok := SetStorage(slot, newValue);
            if !ok {
              return OutOfRange;
            }
            var now := view.call(storage);
            if now.None? {
              return Reverted;
            }
            return if now.value != newValue then Mismatch else Updated(result);
          }
        }
      }
      return NotFound;
    }

    /** `deal`: first the balance, then, if asked, the supply by as much. */
    method Deal(balanceOf: View, totalSupply: View, amount: int, adjustSupply: bool) returns (out: Outcome)
      modifies this
      ensures Ended(out, storage) == Dealt(balanceOf, totalSupply, amount, adjustSupply, old(storage))
    {
      out := UpdateStorageSlot(balanceOf, _ => amount);
      if out.Updated? && adjustSupply {
        var delta := amount - out.previous;
        out := UpdateStorageSlot(totalSupply, supply => supply + delta);
      }
    }
  }
}
