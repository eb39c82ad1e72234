/** The fixture stack of `boa/test/plugin.py`: contexts are left in stack order even though the
    finalizers of the fixtures may fire in any order. */
module FixtureStack {
  import opened Anchors

  // ---- the simple account of it ----------------------------------------------------------------

  /** A fixture still open, with what it found when it was set up. */
  datatype Open<S, V> = Open(id: nat, state: S, patch: map<string, V>)

  datatype Suite<S, V> = Suite(open: seq<Open<S, V>>, fired: set<nat>, next: nat, state: S, patch: map<string, V>)

  datatype Event<S, V> = Setup | Finalize(id: nat) | Run(effect: Effect<S, V>)

  /** Close fixtures from the top as long as their finalizer has fired. */
  function Drain<S, V>(s: Suite<S, V>): (r: Suite<S, V>)
    ensures r.open <= s.open && r.fired == s.fired && r.next == s.next
    ensures r.open != [] ==> r.open[|r.open| - 1].id !in r.fired
    ensures forall k :: |r.open| <= k < |s.open| ==> s.open[k].id in s.fired
    ensures |r.open| < |s.open| ==> r.state == s.open[|r.open|].state && r.patch == s.open[|r.open|].patch
    ensures |r.open| == |s.open| ==> r == s
    decreases |s.open|
  {
    var n := |s.open| - 1;
    if s.open == [] || s.open[n].id !in s.fired then s
    else Drain(s.(open := s.open[..n], state := s.open[n].state, patch := s.open[n].patch))
  }

  lemma DrainNext<S, V>(s: Suite<S, V>)
    requires s.open != [] && s.open[|s.open| - 1].id in s.fired
    ensures var n := |s.open| - 1;
      Drain(s) == Drain(s.(open := s.open[..n], state := s.open[n].state, patch := s.open[n].patch))
  {}

  lemma DrainStops<S, V>(s: Suite<S, V>)
    requires s.open == [] || s.open[|s.open| - 1].id !in s.fired
    ensures Drain(s) == s
  {}

  function Step<S, V>(s: Suite<S, V>, e: Event<S, V>): Suite<S, V> {
    match e
    case Setup => s.(open := s.open + [Open(s.next, s.state, s.patch)], next := s.next + 1)
    case Finalize(id) => Drain(s.(fired := s.fired + {id}))
    case Run(effect) => s.(state := effect.state, patch := effect.patch)
  }

  function RunAll<S, V>(s: Suite<S, V>, events: seq<Event<S, V>>): Suite<S, V>
    decreases |events|
  {
    if events == [] then s else RunAll(Step(s, events[0]), events[1..])
  }

  /** Only fixtures already set up fire a finalizer. */
  predicate Possible<S, V>(s: Suite<S, V>, events: seq<Event<S, V>>)
    decreases |events|
  {
    events == [] || ((events[0].Finalize? ==> events[0].id < s.next) && Possible(Step(s, events[0]), events[1..]))
  }

  /** Every fixture set up is open or has fired; names grow; the top one has not fired. */
  ghost predicate Sane<S, V>(s: Suite<S, V>) {
    && (forall i :: 0 <= i < |s.open| ==> s.open[i].id < s.next)
    && (forall i, j :: 0 <= i < j < |s.open| ==> s.open[i].id < s.open[j].id)
    && (forall id :: id in s.fired ==> id < s.next)
    && (forall id: nat :: id < s.next && id !in s.fired ==> IsOpen(s.open, id))
    && (s.open != [] ==> s.open[|s.open| - 1].id !in s.fired)
  }

  ghost predicate IsOpen<S, V>(open: seq<Open<S, V>>, id: nat) {
    exists i :: 0 <= i < |open| && open[i].id == id
  }

  lemma SetupSane<S, V>(s: Suite<S, V>)
    requires Sane(s)
    ensures Sane(Step(s, Setup))
  {
    var t := Step(s, Setup);
    forall id: nat | id < t.next && id !in t.fired ensures IsOpen(t.open, id) {
      if id == s.next {
        assert t.open[|s.open|].id == id;
      } else {
        assert IsOpen(s.open, id);
        var i :| 0 <= i < |s.open| && s.open[i].id == id;
        assert t.open[i].id == id;
      }
    }
  }

  lemma FinalizeSane<S, V>(s: Suite<S, V>, id: nat)
    requires Sane(s) && id < s.next
    ensures Sane(Step(s, Finalize(id)))
  {
    hide Drain;
    var t := Step(s, Finalize(id));
    forall x: nat | x < t.next && x !in t.fired ensures IsOpen(t.open, x) {
      assert IsOpen(s.open, x);
      var i :| 0 <= i < |s.open| && s.open[i].id == x;
      assert i < |t.open|;
      assert t.open[i] == s.open[i];
    }
  }

  lemma RunSaneStep<S, V>(s: Suite<S, V>, effect: Effect<S, V>)
    requires Sane(s)
    ensures Sane(Step(s, Run(effect)))
  {
    forall id: nat | id < s.next && id !in s.fired ensures IsOpen(Step(s, Run(effect)).open, id) {
      assert IsOpen(s.open, id);
    }
  }

  lemma StepSane<S, V>(s: Suite<S, V>, e: Event<S, V>)
    requires Sane(s) && (e.Finalize? ==> e.id < s.next)
    ensures Sane(Step(s, e))
  {
    match e
    case Setup => SetupSane(s);
    case Finalize(id) => FinalizeSane(s, id);
    case Run(effect) => RunSaneStep(s, effect);
  }

  lemma {:induction false} RunSane<S, V>(s: Suite<S, V>, events: seq<Event<S, V>>)
    requires Sane(s) && Possible(s, events)
    ensures Sane(RunAll(s, events))
    decreases |events|
  {
    if events != [] {
      StepSane(s, events[0]);
      RunSane(Step(s, events[0]), events[1..]);
    }
  }

  /** The fixtures that are set up. */
  function Setups<S, V>(events: seq<Event<S, V>>): nat {
    if events == [] then 0 else (if events[0].Setup? then 1 else 0) + Setups(events[1..])
  }

  /** Every finalizer counts, whether or not its fixture is on top when it fires, and nothing else does. */
  lemma {:induction false} FiredAre<S, V>(s: Suite<S, V>, events: seq<Event<S, V>>)
    ensures RunAll(s, events).fired == s.fired + (set e | e in events && e.Finalize? :: e.id)
    ensures RunAll(s, events).next == s.next + Setups(events)
    decreases |events|
  {
    if events != [] {
      FiredAre(Step(s, events[0]), events[1..]);
      assert events == [events[0]] + events[1..];
    }
  }

  /** Each fixture set up so far, or by these events, has fired before or has its finalizer among them. */
  ghost predicate AllFinalized<S, V>(s: Suite<S, V>, events: seq<Event<S, V>>) {
    forall id: nat :: id < s.next + Setups(events) ==> id in s.fired || Finalize(id) in events
  }

  lemma FinalizedIsFired<S, V>(s: Suite<S, V>, events: seq<Event<S, V>>)
    ensures var end := RunAll(s, events); AllFinalized(s, events) <==> forall id: nat :: id < end.next ==> id in end.fired
  {
    FiredAre(s, events);
    var end := RunAll(s, events);
    forall id: nat ensures id in end.fired <==> id in s.fired || Finalize(id) in events {
      if Finalize(id) in events {
        var e: Event<S, V> := Finalize(id);
        assert e in events && e.Finalize? && e.id == id;
      }
    }
  }

  /** Nothing is left open exactly when the finalizers of all fixtures are among the events, in whatever order. */
  lemma EmptyIffAllFired<S, V>(s: Suite<S, V>, events: seq<Event<S, V>>)
    requires Sane(s) && Possible(s, events)
    ensures RunAll(s, events).open == [] <==> AllFinalized(s, events)
  {
    RunSane(s, events);
    FinalizedIsFired(s, events);
    var end := RunAll(s, events);
    if end.open != [] {
      assert end.open[|end.open| - 1].id < end.next;
    }
  }

  /** The fixture at position `d` is open after every prefix of the run. */
  predicate StaysOpen<S, V>(s: Suite<S, V>, events: seq<Event<S, V>>, d: nat)
    decreases |events|
  {
    |s.open| > d && (events == [] || StaysOpen(Step(s, events[0]), events[1..], d))
  }

  lemma {:induction false} PrefixStays<S, V>(s: Suite<S, V>, events: seq<Event<S, V>>, d: nat)
    requires StaysOpen(s, events, d)
    ensures |RunAll(s, events).open| > d && RunAll(s, events).open[..d + 1] == s.open[..d + 1]
    decreases |events|
  {
    if events != [] {
      var t := Step(s, events[0]);
      assert t.open[..d + 1] == s.open[..d + 1];
      PrefixStays(t, events[1..], d);
    }
  }

  /** A fixture set up, any run during which it stays open, and a finalizer that closes it: state and
      patched values are those before the set up, and so are the fixtures below. */
  lemma FixtureUndone<S, V>(s: Suite<S, V>, body: seq<Event<S, V>>, id: nat)
    requires StaysOpen(Step(s, Setup), body, |s.open|)
    ensures var last := Step(RunAll(Step(s, Setup), body), Finalize(id));
      |last.open| == |s.open| ==> last.open == s.open && last.state == s.state && last.patch == s.patch
  {
    var d, t := |s.open|, Step(s, Setup);
    PrefixStays(t, body, d);
    var before := RunAll(t, body);
    var last := Step(before, Finalize(id));
    assert t.open[d] == before.open[d] by { assert t.open[..d + 1][d] == before.open[..d + 1][d]; }
    if |last.open| == d {
      assert last.open == before.open[..d] == before.open[..d + 1][..d] == t.open[..d + 1][..d] == s.open;
    }
  }

  /** What closing every open fixture would give back: what the oldest of them found. */
  function Base<S, V>(s: Suite<S, V>): (S, map<string, V>) {
    if s.open == [] then (s.state, s.patch) else (s.open[0].state, s.open[0].patch)
  }

  /** What the code that ran while no fixture was open left behind; `found` when there was none. */
  function Outside<S, V>(s: Suite<S, V>, events: seq<Event<S, V>>, found: (S, map<string, V>)): (S, map<string, V>)
    decreases |events|
  {
    if events == [] then found
    else
      var e := events[0];
      Outside(Step(s, e), events[1..], if e.Run? && s.open == [] then (e.effect.state, e.effect.patch) else found)
  }

  /** Code runs only while some fixture is open. */
  predicate RunsInside<S, V>(s: Suite<S, V>, events: seq<Event<S, V>>)
    decreases |events|
  {
    events == [] || ((events[0].Run? ==> s.open != []) && RunsInside(Step(s, events[0]), events[1..]))
  }

  /** Only code outside every fixture changes what is given back in the end. */
  lemma StepBase<S, V>(s: Suite<S, V>, e: Event<S, V>)
    ensures Base(Step(s, e)) == if e.Run? && s.open == [] then (e.effect.state, e.effect.patch) else Base(s)
  {
    if e.Finalize? {
      var t := Step(s, e);
      assert t.open <= s.open;
    }
  }

  lemma {:induction false} RunBase<S, V>(s: Suite<S, V>, events: seq<Event<S, V>>)
    ensures Base(RunAll(s, events)) == Outside(s, events, Base(s))
    decreases |events|
  {
    if events != [] {
      StepBase(s, events[0]);
      RunBase(Step(s, events[0]), events[1..]);
    }
  }

  lemma {:induction false} InsideOutside<S, V>(s: Suite<S, V>, events: seq<Event<S, V>>, found: (S, map<string, V>))
    requires RunsInside(s, events)
    ensures Outside(s, events, found) == found
    decreases |events|
  {
    if events != [] {
      InsideOutside(Step(s, events[0]), events[1..], found);
    }
  }

  /** Any session with the finalizers of all its fixtures, in any order: nothing is open, and state and patched
      values are those at the start, but for what code outside every fixture did to them. */
  lemma AllFiredRestores<S, V>(s: Suite<S, V>, events: seq<Event<S, V>>)
    requires Sane(s) && Possible(s, events)
    ensures var last := RunAll(s, events);
      AllFinalized(s, events) ==>
        && last.open == [] && (last.state, last.patch) == Outside(s, events, Base(s))
        && (RunsInside(s, events) ==> (last.state, last.patch) == Base(s))
  {
    EmptyIffAllFired(s, events);
    RunBase(s, events);
    if RunsInside(s, events) {
      InsideOutside(s, events, Base(s));
    }
  }

  // ---- what is recorded of entering and leaving ------------------------------------------------

  datatype Passage = Entered(id: nat) | Left(id: nat)

  datatype Stacked = Unbalanced | Balanced(ids: seq<nat>)

  /** Contexts are left strictly last-in-first-out: what is still entered afterwards. */
  function Replay(log: seq<Passage>): Stacked {
    if log == [] then Balanced([])
    else
      var before, last := Replay(log[..|log| - 1]), log[|log| - 1];
      if before.Unbalanced? then Unbalanced
      else if last.Entered? then Balanced(before.ids + [last.id])
      else if before.ids != [] && before.ids[|before.ids| - 1] == last.id then Balanced(before.ids[..|before.ids| - 1])
      else Unbalanced
  }

  function Count<T(==)>(s: seq<T>, x: T): nat {
    if s == [] then 0 else Count(s[..|s| - 1], x) + if s[|s| - 1] == x then 1 else 0
  }

  /** In a balanced record each entry is matched by one exit, or still open. */
  lemma {:induction false} EntriesMatch(log: seq<Passage>, id: nat)
    requires Replay(log).Balanced?
    ensures Count(log, Left(id)) + Count(Replay(log).ids, id) == Count(log, Entered(id))
  {
    if log != [] {
      var before, last := log[..|log| - 1], log[|log| - 1];
      EntriesMatch(before, id);
      var ids := Replay(before).ids;
      assert (ids + [last.id])[..|ids|] == ids;
    }
  }

  lemma {:induction false} CountDistinct<T>(s: seq<T>, x: T)
    requires forall i, j :: 0 <= i < j < |s| ==> s[i] != s[j]
    ensures Count(s, x) == if x in s then 1 else 0
  {
    if s != [] {
      CountDistinct(s[..|s| - 1], x);
      assert s == s[..|s| - 1] + [s[|s| - 1]];
    }
  }

  /** Every name below `next` is entered once and no other at all. */
  ghost predicate Once(log: seq<Passage>, next: nat) {
    forall id: nat :: Count(log, Entered(id)) == if id < next then 1 else 0
  }

  /** Each context that was entered is left exactly once, unless it is still entered. */
  lemma EachLeftOnce(log: seq<Passage>, next: nat, id: nat)
    requires Once(log, next) && id < next && Replay(log).Balanced?
    requires var ids := Replay(log).ids; forall i, j :: 0 <= i < j < |ids| ==> ids[i] != ids[j]
    ensures Count(log, Left(id)) == if id in Replay(log).ids then 0 else 1
  {
    EntriesMatch(log, id);
    CountDistinct(Replay(log).ids, id);
  }

  lemma OnceEntered(log: seq<Passage>, next: nat)
    requires Once(log, next)
    ensures Once(log + [Entered(next)], next + 1)
  {
    assert (log + [Entered(next)])[..|log|] == log;
  }

  lemma OnceLeft(log: seq<Passage>, next: nat, id: nat)
    requires Once(log, next)
    ensures Once(log + [Left(id)], next)
  {
    assert (log + [Left(id)])[..|log|] == log;
  }

  // ---- the plugin ------------------------------------------------------------------------------

  function IdsOf<V>(stack: seq<(nat, Anchor<V>)>): (ids: seq<nat>)
    ensures |ids| == |stack| && forall i :: 0 <= i < |stack| ==> ids[i] == stack[i].0
  {
    seq(|stack|, i requires 0 <= i < |stack| => stack[i].0)
  }

  /** The context remembers what the fixture found: its snapshot is live and holds that state. */
  ghost predicate Remembers<S, V>(snapshots: seq<Snap<S>>, ctx: Anchor<V>, open: Open<S, V>) {
    Snap(ctx.snapshot, open.state) in snapshots && ctx.patch == open.patch
  }

  ghost predicate Matches<S, V>(stack: seq<(nat, Anchor<V>)>, open: seq<Open<S, V>>, snapshots: seq<Snap<S>>) {
    && |stack| == |open|
    && forall k :: 0 <= k < |stack| ==> stack[k].0 == open[k].id && Remembers(snapshots, stack[k].1, open[k])
  }

  /** Contexts higher up took later snapshots. */
  ghost predicate Nested<V>(stack: seq<(nat, Anchor<V>)>, next: nat, keys: set<string>) {
    && (forall k :: 0 <= k < |stack| ==> stack[k].1.snapshot < next && stack[k].1.patch.Keys == keys)
    && (forall i, j :: 0 <= i < j < |stack| ==> stack[i].1.snapshot < stack[j].1.snapshot)
    && (forall i, j :: 0 <= i < j < |stack| ==> stack[i].0 < stack[j].0)
  }

  ghost predicate Listed<V>(stack: seq<(nat, Anchor<V>)>, taskList: set<nat>, fired: set<nat>) {
    forall k :: 0 <= k < |stack| ==> (stack[k].0 in taskList <==> stack[k].0 in fired)
  }

  lemma StillMatches<S, V>(stack: seq<(nat, Anchor<V>)>, open: seq<Open<S, V>>, was: seq<Snap<S>>, now: seq<Snap<S>>)
    requires Matches(stack, open, was) && was <= now
    ensures Matches(stack, open, now)
  {
    forall k | 0 <= k < |stack| ensures Remembers(now, stack[k].1, open[k]) {
      assert Remembers(was, stack[k].1, open[k]);
      var i :| 0 <= i < |was| && was[i] == Snap(stack[k].1.snapshot, open[k].state);
      assert now[i] == was[i];
    }
  }

  lemma Pushed<S, V>(stack: seq<(nat, Anchor<V>)>, open: seq<Open<S, V>>, was: seq<Snap<S>>, now: seq<Snap<S>>,
                     id: nat, ctx: Anchor<V>, state: S)
    requires Matches(stack, open, was) && now == was + [Snap(ctx.snapshot, state)]
    ensures Matches(stack + [(id, ctx)], open + [Open(id, state, ctx.patch)], now)
  {
    StillMatches(stack, open, was, now);
    assert now[|was|] == Snap(ctx.snapshot, state);
  }

  /** Reverting to the top context's snapshot brings back its state and leaves the other contexts' snapshots live. */
  lemma TopReverts<S, V>(stack: seq<(nat, Anchor<V>)>, open: seq<Open<S, V>>, snapshots: seq<Snap<S>>, next: nat,
                         bound: nat, keys: set<string>)
    requires Matches(stack, open, snapshots) && Ordered(snapshots, next) && stack != [] && Nested(stack, bound, keys)
    ensures var n := |stack| - 1;
      && Live(snapshots, stack[n].1.snapshot)
      && var i := Position(snapshots, stack[n].1.snapshot);
      && snapshots[i].state == open[n].state
      && Matches(stack[..n], open[..n], snapshots[..i])
  {
    var n := |stack| - 1;
    assert Remembers(snapshots, stack[n].1, open[n]);
    var p :| 0 <= p < |snapshots| && snapshots[p] == Snap(stack[n].1.snapshot, open[n].state);
    var i := Position(snapshots, stack[n].1.snapshot);
    assert i == p;
    forall k | 0 <= k < n ensures Remembers(snapshots[..i], stack[..n][k].1, open[..n][k]) {
      assert Remembers(snapshots, stack[k].1, open[k]);
      var q :| 0 <= q < |snapshots| && snapshots[q] == Snap(stack[k].1.snapshot, open[k].state);
      assert stack[k].1.snapshot < stack[n].1.snapshot;
      assert q < i;
      assert snapshots[..i][q] == snapshots[q];
    }
  }

  lemma Popped<S, V>(stack: seq<(nat, Anchor<V>)>, open: seq<Open<S, V>>, snapshots: seq<Snap<S>>, next: nat,
                     keys: set<string>, taskList: set<nat>, fired: set<nat>)
    requires stack != [] && Nested(stack, next, keys) && Listed(stack, taskList, fired) && Matches(stack, open, snapshots)
    ensures var n := |stack| - 1;
      && Nested(stack[..n], next, keys) && Listed(stack[..n], taskList - {stack[n].0}, fired)
      && |open| == |stack| && stack[n].0 == open[n].id && (stack[n].0 in taskList <==> stack[n].0 in fired)
      && stack[n].1.patch == open[n].patch && stack[n].1.patch.Keys == keys
  {
    assert Remembers(snapshots, stack[|stack| - 1].1, open[|stack| - 1]);
  }

  lemma Settled<S, V>(stack: seq<(nat, Anchor<V>)>, open: seq<Open<S, V>>, snapshots: seq<Snap<S>>,
                      taskList: set<nat>, fired: set<nat>)
    requires Listed(stack, taskList, fired) && Matches(stack, open, snapshots)
    requires stack == [] || stack[|stack| - 1].0 !in taskList
    ensures open == [] || open[|open| - 1].id !in fired
  {}

  lemma PushedRest<V>(stack: seq<(nat, Anchor<V>)>, next: nat, keys: set<string>, taskList: set<nat>, fired: set<nat>,
                      id: nat, ctx: Anchor<V>)
    requires Nested(stack, next, keys) && Listed(stack, taskList, fired)
    requires forall k :: 0 <= k < |stack| ==> stack[k].0 < id
    requires id !in taskList && id !in fired && ctx.snapshot == next && ctx.patch.Keys == keys
    ensures Nested(stack + [(id, ctx)], next + 1, keys) && Listed(stack + [(id, ctx)], taskList, fired)
  {}

  lemma Marked<V>(stack: seq<(nat, Anchor<V>)>, taskList: set<nat>, fired: set<nat>, id: nat)
    requires Listed(stack, taskList, fired)
    ensures Listed(stack, taskList + {id}, fired + {id})
  {}

  lemma BelowNext<S, V>(stack: seq<(nat, Anchor<V>)>, s: Suite<S, V>, snapshots: seq<Snap<S>>)
    requires Matches(stack, s.open, snapshots) && Sane(s)
    ensures forall k :: 0 <= k < |stack| ==> stack[k].0 < s.next
    ensures s.next !in s.fired
  {}

  lemma LogEntered<V>(log: seq<Passage>, stack: seq<(nat, Anchor<V>)>, id: nat, ctx: Anchor<V>)
    requires Replay(log) == Balanced(IdsOf(stack))
    ensures Replay(log + [Entered(id)]) == Balanced(IdsOf(stack + [(id, ctx)]))
  {
    assert (log + [Entered(id)])[..|log|] == log;
    assert IdsOf(stack + [(id, ctx)]) == IdsOf(stack) + [id];
  }

  lemma LogLeft<V>(log: seq<Passage>, stack: seq<(nat, Anchor<V>)>)
    requires Replay(log) == Balanced(IdsOf(stack)) && stack != []
    ensures Replay(log + [Left(stack[|stack| - 1].0)]) == Balanced(IdsOf(stack[..|stack| - 1]))
  {
    assert (log + [Left(stack[|stack| - 1].0)])[..|log|] == log;
    assert IdsOf(stack[..|stack| - 1]) == IdsOf(stack)[..|stack| - 1];
  }

  class Plugin<S(!new), V(!new)> {
    const evm: Evm<S, V>
    var stack: seq<(nat, Anchor<V>)>           // `_stack`, in the order of insertion
    var taskList: set<nat>
    var nextId: nat
    ghost var suite: Suite<S, V>
    ghost var log: seq<Passage>

    ghost predicate Valid()
      reads this, evm
    {
      && Shape() && Sane(suite)
    }

    ghost predicate Shape()
      reads this, evm
    {
      && evm.Valid() && Matches(stack, suite.open, evm.snapshots)
      && Nested(stack, evm.nextSnapshot, evm.patch.Keys)
      && nextId == suite.next && evm.state == suite.state && evm.patch == suite.patch
      && Listed(stack, taskList, suite.fired) && (forall id :: id in taskList ==> id < nextId)
      && Replay(log) == Balanced(IdsOf(stack)) && Once(log, nextId)
    }

    constructor (evm: Evm<S, V>)
      requires evm.Valid()
      ensures Valid() && this.evm == evm && suite == Suite([], {}, 0, evm.state, evm.patch)
    {
      this.evm := evm;
      stack, taskList, nextId, log := [], {}, 0, [];
      suite := Suite([], {}, 0, evm.state, evm.patch);
    }

    method FixtureSetup() returns (taskId: nat)
      requires Valid()
      modifies this, evm`snapshots, evm`nextSnapshot
      ensures Valid() && taskId == old(nextId) && suite == Step(old(suite), Setup)
      ensures log == old(log) + [Entered(taskId)]
    {
      hide Matches, Replay, IdsOf, Nested, Listed, Sane, Ordered, Once;
      taskId := nextId;
      OnceEntered(log, taskId);
      nextId := nextId + 1;
      SetupSane(suite);
      BelowNext(stack, suite, evm.snapshots);
      var ctx := evm.Enter();
      Pushed(stack, suite.open, old(evm.snapshots), evm.snapshots, taskId, ctx, evm.state);
      PushedRest(stack, old(evm.nextSnapshot), evm.patch.Keys, taskList, suite.fired, taskId, ctx);
      LogEntered(log, stack, taskId, ctx);
      stack := stack + [(taskId, ctx)];
      suite := Step(suite, Setup);
      log := log + [Entered(taskId)];
    }

    /** Leaves contexts from the top while their finalizers have fired. */
    method WorkTaskList()
      requires Shape()
      modifies this`stack, this`taskList, this`suite, this`log, evm`snapshots, evm`state, evm`patch
      ensures Shape() && suite == Drain(old(suite)) && old(log) <= log
      ensures stack == [] || stack[|stack| - 1].0 !in taskList
    {
      hide Replay, IdsOf, Live, Position, Ordered, Matches, Nested, Listed, Drain, Sane, Once;
      while stack != [] && stack[|stack| - 1].0 in taskList
        invariant Shape() && Drain(suite) == Drain(old(suite)) && old(log) <= log
        decreases |stack|
      {
        var n := |stack| - 1;
        var (taskId, ctx) := stack[n];
        TopReverts(stack, suite.open, evm.snapshots, evm.nextSnapshot, evm.nextSnapshot, evm.patch.Keys);
        Popped(stack, suite.open, evm.snapshots, evm.nextSnapshot, evm.patch.Keys, taskList, suite.fired);
        LogLeft(log, stack);
        OnceLeft(log, nextId, taskId);
        DrainNext(suite);
        stack := stack[..n];
        taskList := taskList - {taskId};
        var ok := evm.Exit(ctx);
        suite := suite.(open := suite.open[..n], state := suite.open[n].state, patch := suite.open[n].patch);
        log := log + [Left(taskId)];
      }
      Settled(stack, suite.open, evm.snapshots, taskList, suite.fired);
      DrainStops(suite);
    }

    /** The finalizer of a fixture. */
    method Finalize(taskId: nat)
      requires Valid() && taskId < nextId
      modifies this`stack, this`taskList, this`suite, this`log, evm`snapshots, evm`state, evm`patch
      ensures Valid() && suite == Step(old(suite), Event.Finalize(taskId)) && old(log) <= log
    {
      hide Matches, Nested, Replay, IdsOf, Sane, Listed, Ordered, Once;
      FinalizeSane(suite, taskId);
      Marked(stack, taskList, suite.fired, taskId);
      taskList := taskList + {taskId};
      suite := suite.(fired := suite.fired + {taskId});
      WorkTaskList();
    }

    /** Code under test between two hooks. */
    method Perform(effect: Effect<S, V>)
      requires Valid() && effect.patch.Keys == evm.patch.Keys
      modifies this`suite, evm
      ensures Valid() && suite == Step(old(suite), Run(effect)) && log == old(log)
      ensures evm.state == effect.state && evm.patch == effect.patch
    {
      hide Matches, Replay, IdsOf, Ordered, Once;
      evm.Perform(effect);
      RunSaneStep(suite, effect);
      StillMatches(stack, suite.open, old(evm.snapshots), evm.snapshots);
      suite := Step(suite, Run(effect));
    }
  }

  /** What the record of a valid plugin says of a task: entered once, left once or still open. */
  lemma TaskRecord<S(!new), V(!new)>(plugin: Plugin<S, V>, id: nat)
    requires plugin.Valid() && id < plugin.nextId
    ensures Count(plugin.log, Entered(id)) == 1
    ensures Count(plugin.log, Left(id)) == if IsOpen(plugin.suite.open, id) then 0 else 1
  {
    var ids := IdsOf(plugin.stack);
    EachLeftOnce(plugin.log, plugin.nextId, id);
    if IsOpen(plugin.suite.open, id) {
      var k :| 0 <= k < |plugin.suite.open| && plugin.suite.open[k].id == id;
      assert ids[k] == id;
    }
    if id in ids {
      var k :| 0 <= k < |ids| && ids[k] == id;
      assert plugin.suite.open[k].id == id;
    }
  }

  /** A whole session: any set-ups, finalizers in any order and code in between. With the finalizers of all
      fixtures among the events, every context was entered and left exactly once, and the environment is as
      the code outside every fixture left it. */
  method Session<S(!new), V(!new)>(plugin: Plugin<S, V>, events: seq<Event<S, V>>)
    requires plugin.Valid() && Possible(plugin.suite, events)
    requires forall k :: 0 <= k < |events| && events[k].Run? ==> events[k].effect.patch.Keys == plugin.evm.patch.Keys
    modifies plugin, plugin.evm
    ensures plugin.Valid() && plugin.suite == RunAll(old(plugin.suite), events) && old(plugin.log) <= plugin.log
    ensures events != [] && events[|events| - 1].Run? ==>
              plugin.evm.state == events[|events| - 1].effect.state && plugin.evm.patch == events[|events| - 1].effect.patch
    ensures forall id: nat :: id < plugin.nextId ==> Count(plugin.log, Entered(id)) == 1
    ensures forall id: nat :: id < plugin.nextId ==>
              Count(plugin.log, Left(id)) == if IsOpen(plugin.suite.open, id) then 0 else 1
    ensures AllFinalized(old(plugin.suite), events) ==>
              && plugin.stack == []
              && (plugin.evm.state, plugin.evm.patch) == Outside(old(plugin.suite), events, Base(old(plugin.suite)))
    ensures AllFinalized(old(plugin.suite), events)
              && old(plugin.stack) == [] && RunsInside(old(plugin.suite), events) ==>
              plugin.evm.state == old(plugin.evm.state) && plugin.evm.patch == old(plugin.evm.patch)
  {
    hide Sane, Nested, Listed, Replay, Count, Once, Drain, Step, RunsInside, Outside, Ordered, AllFinalized;
    for i := 0 to |events|
      invariant plugin.Valid() && Possible(plugin.suite, events[i..]) && old(plugin.log) <= plugin.log
      invariant plugin.evm.patch.Keys == old(plugin.evm.patch.Keys)
      invariant RunAll(plugin.suite, events[i..]) == RunAll(old(plugin.suite), events)
      invariant i > 0 && events[i - 1].Run? ==>
                  plugin.evm.state == events[i - 1].effect.state && plugin.evm.patch == events[i - 1].effect.patch
    {
      assert events[i..][1..] == events[i + 1..];
      match events[i]
      case Setup => var _ := plugin.FixtureSetup();
      case Finalize(id) => plugin.Finalize(id);
      case Run(effect) => plugin.Perform(effect);
    }
    assert events[|events|..] == [];
    AllFiredRestores(old(plugin.suite), events);
    forall id: nat | id < plugin.nextId
      ensures Count(plugin.log, Entered(id)) == 1
      ensures Count(plugin.log, Left(id)) == if IsOpen(plugin.suite.open, id) then 0 else 1
    {
      TaskRecord(plugin, id);
    }
  }

  /** A session from the start: if each of its fixtures has its finalizer somewhere among the events, every
      context has been left, state and patched values are those before the session, but for code outside
      every fixture, and each context was entered and left exactly once. */
  method WholeSession<S(!new), V(!new)>(evm: Evm<S, V>, events: seq<Event<S, V>>) returns (plugin: Plugin<S, V>)
    requires evm.Valid() && Possible(Suite([], {}, 0, evm.state, evm.patch), events)
    requires forall k :: 0 <= k < |events| && events[k].Run? ==> events[k].effect.patch.Keys == evm.patch.Keys
    requires forall id: nat :: id < Setups(events) ==> Finalize(id) in events
    modifies evm
    ensures fresh(plugin) && plugin.Valid() && plugin.evm == evm && plugin.stack == []
    ensures var start: Suite<S, V> := Suite([], {}, 0, old(evm.state), old(evm.patch));
      (evm.state, evm.patch) == Outside(start, events, (old(evm.state), old(evm.patch)))
    ensures RunsInside(Suite([], {}, 0, old(evm.state), old(evm.patch)), events) ==>
              evm.state == old(evm.state) && evm.patch == old(evm.patch)
    ensures forall id: nat :: id < Setups(events) ==>
              Count(plugin.log, Entered(id)) == 1 && Count(plugin.log, Left(id)) == 1
  {
    hide Sane, Nested, Listed, Replay, Count, Once, Drain, Step, Ordered, Matches, Outside, RunsInside;
    plugin := new Plugin(evm);
    FiredAre(plugin.suite, events);
    EmptyIffAllFired(plugin.suite, events);
    if RunsInside(plugin.suite, events) { InsideOutside(plugin.suite, events, (evm.state, evm.patch)); }
    Session(plugin, events);
  }
}
