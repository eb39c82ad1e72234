/** `boa/util/disk_cache.py`: any number of jobs looking up, writing, renaming and unlinking files in
    one directory, one system call at a time. */
module DiskCache {
  import opened Wrappers
  import opened Words

  type Key = string

  /** `<digest>.pickle` and `<digest>.<job>.unfinished`, the digest taken as collision free. */
  datatype Name = Final(key: Key) | Tmp(key: Key, job: nat)

  /** Where a job is inside `caching_lookup`. */
  datatype Phase<V> =
    | Idle
    | Reading(key: Key, inode: nat, got: seq<Byte>)
    | Computing(key: Key)
    | Computed(key: Key, value: V)
    | Writing(key: Key, value: V, inode: nat, pos: nat)
    | Closed(key: Key, value: V)

  datatype Codec<!V> = Codec(enc: V -> seq<Byte>, dec: seq<Byte> -> Option<V>)

  ghost predicate Faithful<V(!new)>(c: Codec<V>) {
    forall v :: c.dec(c.enc(v)) == Some(v)
  }

  datatype State<V(==)> = State(
    names: map<Name, nat>,
    files: map<nat, seq<Byte>>,          // by inode; open descriptors keep unlinked files alive
    nextInode: nat,
    jobs: map<nat, Phase<V>>,
    produced: set<(Key, V)>,             // every value `func` ever gave for a key
    returned: seq<(Key, V)>)             // every value `caching_lookup` returned for a key

  datatype Action<V> =
    | Open(job: nat, key: Key)           // p.open("rb"), or OSError
    | Read(job: nat, n: nat)
    | ReadFails(job: nat)
    | Return(job: nat)                   // end of file: pickle.loads
    | Compute(job: nat, value: V)
    | OpenTmp(job: nat)                  // tmp_p.open("wb")
    | Write(job: nat, n: nat)
    | Close(job: nat)
    | Rename(job: nat)
    | Crash(job: nat)                    // an exception or a killed process, anywhere
    | Unlink(name: Name)                 // invalidate, or gc of any file

  function PhaseOf<V(==)>(s: State<V>, job: nat): Phase<V> {
    if job in s.jobs then s.jobs[job] else Idle
  }

  function GoTo<V(==)>(s: State<V>, job: nat, phase: Phase<V>): State<V> {
    s.(jobs := s.jobs[job := phase])
  }

  /** One system call; an action that is not possible leaves the state alone. */
  function Next<V(==)>(c: Codec<V>, s: State<V>, a: Action<V>): State<V> {
    match a
    case Open(j, key) =>
      if !PhaseOf(s, j).Idle? then s
      else if Final(key) in s.names then GoTo(s, j, Reading(key, s.names[Final(key)], []))
      else GoTo(s, j, Computing(key))
    case Read(j, n) =>
      var p := PhaseOf(s, j);
      if p.Reading? && p.inode in s.files then
        GoTo(s, j, p.(got := p.got + Slice(s.files[p.inode], |p.got|, |p.got| + n)))
      else s
    case ReadFails(j) =>
      if PhaseOf(s, j).Reading? then GoTo(s, j, Computing(PhaseOf(s, j).key)) else s
    case Return(j) =>
      var p := PhaseOf(s, j);
      if p.Reading? && p.inode in s.files && |p.got| >= |s.files[p.inode]| && c.dec(p.got).Some? then
        GoTo(s, j, Idle).(returned := s.returned + [(p.key, c.dec(p.got).value)])
      else s
    case Compute(j, v) =>
      var p := PhaseOf(s, j);
      if p.Computing? then GoTo(s, j, Computed(p.key, v)).(produced := s.produced + {(p.key, v)}) else s
    case OpenTmp(j) =>
      var p := PhaseOf(s, j);
      if !p.Computed? then s
      else
        var tmp := Tmp(p.key, j);
        var inode := if tmp in s.names then s.names[tmp] else s.nextInode;
        GoTo(s, j, Writing(p.key, p.value, inode, 0)).(
          names := s.names[tmp := inode], files := s.files[inode := []],
          nextInode := if tmp in s.names then s.nextInode else s.nextInode + 1)
    case Write(j, n) =>
      var p := PhaseOf(s, j);
      if p.Writing? && p.inode in s.files then
        var chunk := Slice(c.enc(p.value), p.pos, p.pos + n);
        GoTo(s, j, p.(pos := p.pos + |chunk|)).(files := s.files[p.inode := s.files[p.inode] + chunk])
      else s
    case Close(j) =>
      var p := PhaseOf(s, j);
      if p.Writing? && p.pos >= |c.enc(p.value)| then GoTo(s, j, Closed(p.key, p.value)) else s
    case Rename(j) =>
      var p := PhaseOf(s, j);
      if !p.Closed? then s
      else
        var tmp := Tmp(p.key, j);
        if tmp in s.names then
          GoTo(s, j, Idle).(names := (s.names - {tmp})[Final(p.key) := s.names[tmp]],
                            returned := s.returned + [(p.key, p.value)])
        else GoTo(s, j, Idle)
    case Crash(j) => GoTo(s, j, Idle)
    case Unlink(name) => s.(names := s.names - {name})
  }

  function Run<V(==)>(c: Codec<V>, s: State<V>, actions: seq<Action<V>>): State<V>
    decreases |actions|
  {
    if actions == [] then s else Run(c, Next(c, s, actions[0]), actions[1..])
  }

  function Start<V(==)>(): State<V> {
    State(map[], map[], 0, map[], {}, [])
  }

  // ---- the invariant --------------------------------------------------------------------------

  /** The bytes are a complete value of that key. */
  ghost predicate Complete<V(!new)>(c: Codec<V>, s: State<V>, key: Key, bytes: seq<Byte>) {
    exists v :: (key, v) in s.produced && bytes == c.enc(v)
  }

  ghost predicate Written<V>(s: State<V>, inode: nat) {
    exists j :: IsWriter(s, j, inode)
  }

  ghost predicate IsWriter<V>(s: State<V>, j: nat, inode: nat) {
    PhaseOf(s, j).Writing? && PhaseOf(s, j).inode == inode
  }

  /** No descriptor or temporary name can change this file any more. */
  ghost predicate Sealed<V>(s: State<V>, inode: nat) {
    && inode in s.files
    && (forall j :: !IsWriter(s, j, inode))
    && (forall name :: name in s.names && name.Tmp? ==> s.names[name] != inode)
  }

  ghost predicate PhaseOk<V(!new)>(c: Codec<V>, s: State<V>, j: nat) {
    match PhaseOf(s, j)
    case Idle => true
    case Reading(key, inode, got) =>
      inode in s.files && Sealed(s, inode) && Complete(c, s, key, s.files[inode]) && got <= s.files[inode]
    case Computing(key) => true
    case Computed(key, v) => (key, v) in s.produced
    case Writing(key, v, inode, pos) =>
      && (key, v) in s.produced && inode in s.files
      && pos <= |c.enc(v)| && s.files[inode] == c.enc(v)[..pos]
      && (forall name :: name in s.names && s.names[name] == inode ==> name == Tmp(key, j))
      && (Tmp(key, j) in s.names ==> s.names[Tmp(key, j)] == inode)
      && (forall i :: i != j ==> !IsWriter(s, i, inode))
    case Closed(key, v) =>
      && (key, v) in s.produced
      && (Tmp(key, j) in s.names ==>
            s.names[Tmp(key, j)] in s.files && s.files[s.names[Tmp(key, j)]] == c.enc(v)
            && forall i :: !IsWriter(s, i, s.names[Tmp(key, j)]))
  }

  ghost predicate NamesOk<V>(s: State<V>) {
    && (forall name :: name in s.names ==> s.names[name] in s.files)
    && (forall i :: i in s.files ==> i < s.nextInode)
    && (forall m, n :: m in s.names && n in s.names && m != n ==> s.names[m] != s.names[n])
  }

  /** What a final name leads to is complete and out of every writer's reach. */
  ghost predicate FinalOk<V(!new)>(c: Codec<V>, s: State<V>, key: Key) {
    Final(key) in s.names ==>
      && s.names[Final(key)] in s.files && Sealed(s, s.names[Final(key)])
      && Complete(c, s, key, s.files[s.names[Final(key)]])
  }

  ghost predicate Inv<V(!new)>(c: Codec<V>, s: State<V>) {
    && NamesOk(s)
    && (forall key: Key :: FinalOk(c, s, key))
    && (forall j: nat :: PhaseOk(c, s, j))
    && (forall i :: 0 <= i < |s.returned| ==> s.returned[i] in s.produced)
  }

  // ---- every step keeps it --------------------------------------------------------------------

  /** The file that opening a temporary name empties: no descriptor but the opener's reaches it. */
  lemma OpenTmpFresh<V(!new)>(c: Codec<V>, s: State<V>, j: nat, inode: nat)
    requires Inv(c, s) && PhaseOf(s, j).Computed? && inode in s.files
    requires forall name :: name in s.names && s.names[name] == inode ==> name != Tmp(PhaseOf(s, j).key, j)
    ensures var t := Next(c, s, OpenTmp(j)); t.files[inode] == s.files[inode] && PhaseOf(t, j).inode != inode
    ensures forall i :: i != j ==> PhaseOf(Next(c, s, OpenTmp(j)), i) == PhaseOf(s, i)
  {
    hide Complete, FinalOk, PhaseOk, Sealed;
  }

  /** A sealed file stays sealed and keeps its bytes, whatever anyone does next. */
  lemma SealedStays<V(!new)>(c: Codec<V>, s: State<V>, a: Action<V>, inode: nat)
    requires Inv(c, s) && Sealed(s, inode)
    ensures Sealed(Next(c, s, a), inode) && Next(c, s, a).files[inode] == s.files[inode]
  {
    hide Complete, FinalOk, PhaseOk, NamesOk;
    var t := Next(c, s, a);
    if a.OpenTmp? && PhaseOf(s, a.job).Computed? {
      OpenTmpFresh(c, s, a.job, inode);
    }
    if a.Write? {
      assert !IsWriter(s, a.job, inode);
    }
    forall i ensures !IsWriter(t, i, inode) { assert !IsWriter(s, i, inode); }
  }

  lemma CompleteStays<V(!new)>(c: Codec<V>, s: State<V>, a: Action<V>, key: Key, bytes: seq<Byte>)
    requires Complete(c, s, key, bytes)
    ensures Complete(c, Next(c, s, a), key, bytes)
  {
    var v :| (key, v) in s.produced && bytes == c.enc(v);
    assert (key, v) in Next(c, s, a).produced;
  }

  lemma NamesStay<V(!new)>(c: Codec<V>, s: State<V>, a: Action<V>)
    requires Inv(c, s)
    ensures NamesOk(Next(c, s, a))
  {
    hide Complete, FinalOk, Sealed;
    if a.Write? || a.Rename? { assert PhaseOk(c, s, a.job); }
  }

  /** Final names: an old one leads to the same sealed file, a new one comes from a rename. */
  lemma FinalStays<V(!new)>(c: Codec<V>, s: State<V>, a: Action<V>, key: Key)
    requires Inv(c, s)
    ensures FinalOk(c, Next(c, s, a), key)
  {
    hide Complete, Sealed;
    var t := Next(c, s, a);
    if Final(key) in t.names {
      var inode := t.names[Final(key)];
      if Final(key) in s.names && s.names[Final(key)] == inode {
        assert FinalOk(c, s, key);
        SealedStays(c, s, a, inode);
        CompleteStays(c, s, a, key, s.files[inode]);
      } else {
        Renamed(c, s, a, key);
      }
    }
  }

  /** The rename is where a file becomes final: it is complete and nobody else can reach it. */
  lemma Renamed<V(!new)>(c: Codec<V>, s: State<V>, a: Action<V>, key: Key)
    requires Inv(c, s) && Final(key) in Next(c, s, a).names
    requires Final(key) !in s.names || s.names[Final(key)] != Next(c, s, a).names[Final(key)]
    ensures FinalOk(c, Next(c, s, a), key)
  {
    hide FinalOk;
    var t := Next(c, s, a);
    assert a.Rename?;
    var tmp := Tmp(key, a.job);
    assert PhaseOk(c, s, a.job);
    var inode := s.names[tmp];
    assert t.files[inode] == c.enc(PhaseOf(s, a.job).value);
    forall j ensures !IsWriter(t, j, inode) { assert !IsWriter(s, j, inode); }
    assert Sealed(t, inode);
    FinalUnfolds(c, t, key);
  }

  lemma FinalUnfolds<V(!new)>(c: Codec<V>, s: State<V>, key: Key)
    requires Final(key) in s.names && s.names[Final(key)] in s.files && Sealed(s, s.names[Final(key)])
    requires Complete(c, s, key, s.files[s.names[Final(key)]])
    ensures FinalOk(c, s, key)
  {}

  // ---- jobs -----------------------------------------------------------------------------------

  predicate ActsOn<V>(a: Action<V>, j: nat) {
    !a.Unlink? && a.job == j
  }

  lemma QuietKeeps<V(!new)>(c: Codec<V>, s: State<V>, a: Action<V>, j: nat, key: Key, inode: nat)
    requires Inv(c, s) && !ActsOn(a, j) && inode in s.files
    requires forall name :: name in s.names && s.names[name] == inode ==> name == Tmp(key, j)
    requires forall i :: i != j ==> !IsWriter(s, i, inode)
    requires !a.Write? && !a.OpenTmp? && !a.Rename?
    ensures var t := Next(c, s, a);
      && inode in t.files && t.files[inode] == s.files[inode]
      && (forall name :: name in t.names && t.names[name] == inode ==> name == Tmp(key, j))
      && (forall i :: i != j ==> !IsWriter(t, i, inode))
  {
    hide Inv;
    var t := Next(c, s, a);
    forall i | i != j ensures !IsWriter(t, i, inode) { assert !IsWriter(s, i, inode); }
  }

  lemma BusyKeeps<V(!new)>(c: Codec<V>, s: State<V>, a: Action<V>, j: nat, key: Key, inode: nat)
    requires Inv(c, s) && !ActsOn(a, j) && inode in s.files
    requires forall name :: name in s.names && s.names[name] == inode ==> name == Tmp(key, j)
    requires forall i :: i != j ==> !IsWriter(s, i, inode)
    requires a.Write? || a.OpenTmp? || a.Rename?
    ensures var t := Next(c, s, a);
      && inode in t.files && t.files[inode] == s.files[inode]
      && (forall name :: name in t.names && t.names[name] == inode ==> name == Tmp(key, j))
      && (forall i :: i != j ==> !IsWriter(t, i, inode))
  {
    hide Complete, FinalOk, Sealed, PhaseOk;
    var t := Next(c, s, a);
    if a.Write? {
      assert !IsWriter(s, a.job, inode);
    } else if a.OpenTmp? && PhaseOf(s, a.job).Computed? {
      OpenTmpFresh(c, s, a.job, inode);
    }
    forall i | i != j ensures !IsWriter(t, i, inode) { assert !IsWriter(s, i, inode); }
  }

  /** A file only job `j` can reach keeps its bytes when others act. */
  lemma FileKept<V(!new)>(c: Codec<V>, s: State<V>, a: Action<V>, j: nat, key: Key, inode: nat)
    requires Inv(c, s) && !ActsOn(a, j) && inode in s.files
    requires forall name :: name in s.names && s.names[name] == inode ==> name == Tmp(key, j)
    requires forall i :: i != j ==> !IsWriter(s, i, inode)
    ensures var t := Next(c, s, a);
      && inode in t.files && t.files[inode] == s.files[inode]
      && (forall name :: name in t.names && t.names[name] == inode ==> name == Tmp(key, j))
      && (forall i :: i != j ==> !IsWriter(t, i, inode))
  {
    hide Inv, Next, IsWriter, ActsOn;
    if a.Write? || a.OpenTmp? || a.Rename? {
      BusyKeeps(c, s, a, j, key, inode);
    } else {
      QuietKeeps(c, s, a, j, key, inode);
    }
  }

  lemma NameKept<V(!new)>(c: Codec<V>, s: State<V>, a: Action<V>, j: nat, key: Key)
    requires !ActsOn(a, j)
    ensures var t := Next(c, s, a);
      && PhaseOf(t, j) == PhaseOf(s, j) && s.produced <= t.produced
      && (Tmp(key, j) in t.names ==> Tmp(key, j) in s.names && t.names[Tmp(key, j)] == s.names[Tmp(key, j)])
  {}

  lemma OtherWriter<V(!new)>(c: Codec<V>, s: State<V>, a: Action<V>, j: nat)
    requires Inv(c, s) && !ActsOn(a, j) && PhaseOf(s, j).Writing?
    ensures PhaseOk(c, Next(c, s, a), j)
  {
    hide Complete, FinalOk, Sealed, Next, NamesOk;
    assert PhaseOk(c, s, j);
    var p := PhaseOf(s, j);
    FileKept(c, s, a, j, p.key, p.inode);
    NameKept(c, s, a, j, p.key);
  }

  lemma OtherClosed<V(!new)>(c: Codec<V>, s: State<V>, a: Action<V>, j: nat)
    requires Inv(c, s) && !ActsOn(a, j) && PhaseOf(s, j).Closed?
    ensures PhaseOk(c, Next(c, s, a), j)
  {
    hide Complete, FinalOk, Sealed, Next;
    var t := Next(c, s, a);
    assert PhaseOk(c, s, j);
    var p := PhaseOf(s, j);
    NameKept(c, s, a, j, p.key);
    if Tmp(p.key, j) in t.names {
      var inode := s.names[Tmp(p.key, j)];
      FileKept(c, s, a, j, p.key, inode);
      SelfIdle(c, s, a, j, inode);
    }
  }

  lemma SelfIdle<V(!new)>(c: Codec<V>, s: State<V>, a: Action<V>, j: nat, inode: nat)
    requires !ActsOn(a, j) && PhaseOf(s, j).Closed?
    ensures !IsWriter(Next(c, s, a), j, inode)
  {}

  lemma OtherStays<V(!new)>(c: Codec<V>, s: State<V>, a: Action<V>, j: nat)
    requires Inv(c, s) && !ActsOn(a, j)
    ensures PhaseOk(c, Next(c, s, a), j)
  {
    hide Complete, FinalOk, Sealed, NamesOk;
    assert PhaseOk(c, s, j);
    match PhaseOf(s, j)
    case Writing(_, _, _, _) => OtherWriter(c, s, a, j);
    case Closed(_, _) => OtherClosed(c, s, a, j);
    case Reading(key, inode, got) =>
      SealedStays(c, s, a, inode);
      CompleteStays(c, s, a, key, s.files[inode]);
    case _ =>
  }

  lemma ActorReads<V(!new)>(c: Codec<V>, s: State<V>, a: Action<V>)
    requires Inv(c, s) && (a.Open? || a.Read? || a.ReadFails? || a.Return?)
    ensures PhaseOk(c, Next(c, s, a), a.job)
  {
    hide Complete, FinalOk, Sealed;
    assert PhaseOk(c, s, a.job);
    var t, p := Next(c, s, a), PhaseOf(s, a.job);
    if a.Open? && Final(a.key) in s.names { FinalFacts(c, s, a.key); }
    if PhaseOf(t, a.job).Reading? {
      var inode := PhaseOf(t, a.job).inode;
      SealedStays(c, s, a, inode);
      CompleteStays(c, s, a, PhaseOf(t, a.job).key, s.files[inode]);
    }
  }

  lemma FinalFacts<V(!new)>(c: Codec<V>, s: State<V>, key: Key)
    requires FinalOk(c, s, key) && Final(key) in s.names
    ensures s.names[Final(key)] in s.files && Sealed(s, s.names[Final(key)])
    ensures Complete(c, s, key, s.files[s.names[Final(key)]])
  {}

  lemma ActorOpens<V(!new)>(c: Codec<V>, s: State<V>, j: nat)
    requires Inv(c, s)
    ensures PhaseOk(c, Next(c, s, OpenTmp(j)), j)
  {
    hide Complete, Sealed;
    assert PhaseOk(c, s, j);
    var t, p := Next(c, s, OpenTmp(j)), PhaseOf(s, j);
    if p.Computed? {
      var inode := PhaseOf(t, j).inode;
      forall i | i != j ensures !IsWriter(t, i, inode) { assert PhaseOk(c, s, i); }
    } else if p.Reading? {
      SealedStays(c, s, OpenTmp(j), p.inode);
    }
  }

  lemma ActorWrites<V(!new)>(c: Codec<V>, s: State<V>, a: Action<V>)
    requires Inv(c, s) && (a.Compute? || a.Write? || a.Close? || a.Rename? || a.Crash?)
    ensures PhaseOk(c, Next(c, s, a), a.job)
  {
    hide Complete, FinalOk, Sealed;
    assert PhaseOk(c, s, a.job);
    var t, p := Next(c, s, a), PhaseOf(s, a.job);
    if p.Reading? {
      SealedStays(c, s, a, p.inode);
      CompleteStays(c, s, a, p.key, s.files[p.inode]);
    } else if p.Writing? {
      forall i | i != a.job ensures !IsWriter(t, i, p.inode) { assert !IsWriter(s, i, p.inode); }
      assert !a.Write? ==> c.enc(p.value)[..|c.enc(p.value)|] == c.enc(p.value);
    }
  }

  lemma PhaseStays<V(!new)>(c: Codec<V>, s: State<V>, a: Action<V>, j: nat)
    requires Inv(c, s)
    ensures PhaseOk(c, Next(c, s, a), j)
  {
    hide Inv, PhaseOk, Next;
    if !ActsOn(a, j) {
      OtherStays(c, s, a, j);
    } else if a.Open? || a.Read? || a.ReadFails? || a.Return? {
      ActorReads(c, s, a);
    } else if a.OpenTmp? {
      ActorOpens(c, s, j);
    } else {
      ActorWrites(c, s, a);
    }
  }

  lemma ReturnedStays<V(!new)>(c: Codec<V>, s: State<V>, a: Action<V>)
    requires Inv(c, s) && Faithful(c)
    ensures var t := Next(c, s, a); forall i :: 0 <= i < |t.returned| ==> t.returned[i] in t.produced
  {
    hide FinalOk, Sealed, NamesOk;
    if !a.Unlink? {
      var p := PhaseOf(s, a.job);
      assert PhaseOk(c, s, a.job);
      if a.Return? && p.Reading? && |p.got| >= |s.files[p.inode]| {
        assert p.got == s.files[p.inode];
        var v :| (p.key, v) in s.produced && p.got == c.enc(v);
        assert c.dec(c.enc(v)) == Some(v);
      }
    }
  }

  lemma StepKeepsInv<V(!new)>(c: Codec<V>, s: State<V>, a: Action<V>)
    requires Inv(c, s) && Faithful(c)
    ensures Inv(c, Next(c, s, a))
  {
    hide PhaseOk, FinalOk, NamesOk, Next;
    NamesStay(c, s, a);
    forall key: Key ensures FinalOk(c, Next(c, s, a), key) { FinalStays(c, s, a, key); }
    forall j: nat ensures PhaseOk(c, Next(c, s, a), j) { PhaseStays(c, s, a, j); }
    ReturnedStays(c, s, a);
  }

  // ---- every interleaving ---------------------------------------------------------------------

  lemma {:induction false} RunKeepsInv<V(!new)>(c: Codec<V>, s: State<V>, actions: seq<Action<V>>)
    requires Inv(c, s) && Faithful(c)
    ensures Inv(c, Run(c, s, actions))
    decreases |actions|
  {
    hide Inv, Next;
    if actions != [] {
      StepKeepsInv(c, s, actions[0]);
      RunKeepsInv(c, Next(c, s, actions[0]), actions[1..]);
    }
  }

  /** Whatever jobs, invalidations and collections interleave: a final name is absent or leads to a
      complete value of its key, and only values of their key are returned. */
  lemma CacheIsSafe<V(!new)>(c: Codec<V>, actions: seq<Action<V>>, key: Key)
    requires Faithful(c)
    ensures var s := Run(c, Start(), actions);
      && (Final(key) in s.names ==>
            s.names[Final(key)] in s.files && Complete(c, s, key, s.files[s.names[Final(key)]]))
      && (forall i :: 0 <= i < |s.returned| ==> s.returned[i] in s.produced)
  {
    RunKeepsInv(c, Start(), actions);
    assert FinalOk(c, Run(c, Start(), actions), key);
  }

  lemma {:induction false} RunKeepsSealed<V(!new)>(c: Codec<V>, s: State<V>, actions: seq<Action<V>>, inode: nat)
    requires Inv(c, s) && Faithful(c) && Sealed(s, inode)
    ensures Sealed(Run(c, s, actions), inode) && Run(c, s, actions).files[inode] == s.files[inode]
    decreases |actions|
  {
    hide Inv, Next;
    if actions != [] {
      StepKeepsInv(c, s, actions[0]);
      SealedStays(c, s, actions[0], inode);
      RunKeepsSealed(c, Next(c, s, actions[0]), actions[1..], inode);
    }
  }

  /** Once a file has its final name it is never modified again. */
  lemma FinalNeverModified<V(!new)>(c: Codec<V>, s: State<V>, later: seq<Action<V>>, key: Key)
    requires Inv(c, s) && Faithful(c) && Final(key) in s.names
    ensures var inode := s.names[Final(key)];
      inode in s.files && inode in Run(c, s, later).files && Run(c, s, later).files[inode] == s.files[inode]
  {
    assert FinalOk(c, s, key);
    RunKeepsSealed(c, s, later, s.names[Final(key)]);
  }

  /** `func` gives the value `f(key)` every time it is called for `key`. */
  ghost predicate Deterministic<V(!new)>(c: Codec<V>, s: State<V>, actions: seq<Action<V>>, f: Key -> V)
    decreases |actions|
  {
    actions == [] ||
    ((actions[0].Compute? && PhaseOf(s, actions[0].job).Computing? ==>
        actions[0].value == f(PhaseOf(s, actions[0].job).key))
     && Deterministic(c, Next(c, s, actions[0]), actions[1..], f))
  }

  lemma {:induction false} OnlyItsValue<V(!new)>(c: Codec<V>, s: State<V>, actions: seq<Action<V>>, f: Key -> V)
    requires Deterministic(c, s, actions, f) && forall p :: p in s.produced ==> p.1 == f(p.0)
    ensures forall p :: p in Run(c, s, actions).produced ==> p.1 == f(p.0)
    decreases |actions|
  {
    if actions != [] {
      OnlyItsValue(c, Next(c, s, actions[0]), actions[1..], f);
    }
  }

  /** With a deterministic function every lookup that returns gives its value. */
  lemma LookupsAgree<V(!new)>(c: Codec<V>, actions: seq<Action<V>>, f: Key -> V)
    requires Faithful(c) && Deterministic(c, Start(), actions, f)
    ensures var s := Run(c, Start(), actions);
      forall i :: 0 <= i < |s.returned| ==> s.returned[i].1 == f(s.returned[i].0)
  {
    RunKeepsInv(c, Start(), actions);
    OnlyItsValue(c, Start(), actions, f);
  }

  lemma RunCons<V(!new)>(c: Codec<V>, s: State<V>, a: Action<V>, rest: seq<Action<V>>)
    ensures Run(c, s, [a] + rest) == Run(c, Next(c, s, a), rest)
  {
    hide Next;
    assert ([a] + rest)[1..] == rest;
  }

  /** From the computed value to the closed file. */
  lemma StoresAll<V(!new)>(c: Codec<V>, s: State<V>, j: nat, key: Key, v: V)
    requires Inv(c, s) && PhaseOf(s, j) == Computed(key, v) && Final(key) !in s.names
    ensures var t := Next(c, Next(c, Next(c, s, OpenTmp(j)), Write(j, |c.enc(v)|)), Close(j));
      && PhaseOf(t, j) == Closed(key, v) && t.returned == s.returned && Final(key) !in t.names
      && Tmp(key, j) in t.names && t.names[Tmp(key, j)] in t.files && t.files[t.names[Tmp(key, j)]] == c.enc(v)
  {
    hide Inv;
    var t := Next(c, s, OpenTmp(j));
    assert PhaseOf(t, j).Writing? && t.files[PhaseOf(t, j).inode] == [];
    var u := Next(c, t, Write(j, |c.enc(v)|));
    assert u.files[PhaseOf(u, j).inode] == c.enc(v);
  }

  lemma ComputesFirst<V(!new)>(c: Codec<V>, s: State<V>, j: nat, key: Key, v: V)
    requires Inv(c, s) && Faithful(c) && PhaseOf(s, j) == Idle && Final(key) !in s.names
    ensures var t := Next(c, Next(c, s, Open(j, key)), Compute(j, v));
      Inv(c, t) && PhaseOf(t, j) == Computed(key, v) && Final(key) !in t.names && t.returned == s.returned
  {
    hide Inv;
    StepKeepsInv(c, s, Open(j, key));
    StepKeepsInv(c, Next(c, s, Open(j, key)), Compute(j, v));
  }

  lemma PublishesLast<V(!new)>(c: Codec<V>, s: State<V>, j: nat, key: Key, v: V)
    requires PhaseOf(s, j) == Closed(key, v) && Final(key) !in s.names && Tmp(key, j) in s.names
    ensures var t := Next(c, s, Rename(j));
      && t.returned == s.returned + [(key, v)] && PhaseOf(t, j) == Idle && t.files == s.files
      && Final(key) in t.names && t.names[Final(key)] == s.names[Tmp(key, j)]
  {}

  lemma RunSix<V(!new)>(c: Codec<V>, s: State<V>, a: Action<V>, b: Action<V>, d: Action<V>, e: Action<V>, f: Action<V>, g: Action<V>)
    ensures Run(c, s, [a, b, d, e, f, g]) == Next(c, Next(c, Next(c, Next(c, Next(c, Next(c, s, a), b), d), e), f), g)
  {
    hide Next;
    assert [a, b, d, e, f, g] == [a] + ([b] + ([d] + ([e] + ([f] + ([g] + [])))));
    RunCons(c, s, a, [b] + ([d] + ([e] + ([f] + ([g] + [])))));
    RunCons(c, Next(c, s, a), b, [d] + ([e] + ([f] + ([g] + []))));
    RunCons(c, Next(c, Next(c, s, a), b), d, [e] + ([f] + ([g] + [])));
    RunCons(c, Next(c, Next(c, Next(c, s, a), b), d), e, [f] + ([g] + []));
    RunCons(c, Next(c, Next(c, Next(c, Next(c, s, a), b), d), e), f, [g] + []);
    RunCons(c, Next(c, Next(c, Next(c, Next(c, Next(c, s, a), b), d), e), f), g, []);
  }

  /** An undisturbed miss stores what it returns. */
  lemma MissStores<V(!new)>(c: Codec<V>, s: State<V>, j: nat, key: Key, v: V)
    requires Inv(c, s) && Faithful(c) && PhaseOf(s, j) == Idle && Final(key) !in s.names
    ensures var t := Run(c, s, [Open(j, key), Compute(j, v), OpenTmp(j), Write(j, |c.enc(v)|), Close(j), Rename(j)]);
      && t.returned == s.returned + [(key, v)] && PhaseOf(t, j) == Idle
      && Final(key) in t.names && t.names[Final(key)] in t.files && t.files[t.names[Final(key)]] == c.enc(v)
  {
    hide Inv, Next, Run;
    var s2 := Next(c, Next(c, s, Open(j, key)), Compute(j, v));
    var s5 := Next(c, Next(c, Next(c, s2, OpenTmp(j)), Write(j, |c.enc(v)|)), Close(j));
    ComputesFirst(c, s, j, key, v);
    StoresAll(c, s2, j, key, v);
    PublishesLast(c, s5, j, key, v);
    RunSix(c, s, Open(j, key), Compute(j, v), OpenTmp(j), Write(j, |c.enc(v)|), Close(j), Rename(j));
  }

  /** An undisturbed hit returns the stored value without calling `func`. */
  lemma HitReturns<V(!new)>(c: Codec<V>, s: State<V>, j: nat, key: Key, v: V)
    requires Faithful(c) && PhaseOf(s, j) == Idle
    requires Final(key) in s.names && s.names[Final(key)] in s.files && s.files[s.names[Final(key)]] == c.enc(v)
    ensures var t := Run(c, s, [Open(j, key)] + ([Read(j, |c.enc(v)|)] + ([Return(j)] + [])));
      t.returned == s.returned + [(key, v)] && t.produced == s.produced && t.files == s.files && t.names == s.names
  {
    var s1 := Next(c, s, Open(j, key));
    var s2 := Next(c, s1, Read(j, |c.enc(v)|));
    assert PhaseOf(s2, j).got == c.enc(v);
    assert c.dec(c.enc(v)) == Some(v);
    RunCons(c, s2, Return(j), []);
    RunCons(c, s1, Read(j, |c.enc(v)|), [Return(j)] + []);
    RunCons(c, s, Open(j, key), [Read(j, |c.enc(v)|)] + ([Return(j)] + []));
  }

  // ---- deletion -------------------------------------------------------------------------------

  /** Nothing but names has changed. */
  predicate OnlyNames<V(==)>(s: State<V>, t: State<V>) {
    && t.files == s.files && t.nextInode == s.nextInode && t.jobs == s.jobs
    && t.produced == s.produced && t.returned == s.returned
  }

  /** An unlinked name is gone; every other name, all files, jobs and values are as before. */
  lemma UnlinkRemoves<V(!new)>(c: Codec<V>, s: State<V>, n: Name)
    ensures var t := Next(c, s, Unlink(n));
      && n !in t.names && OnlyNames(s, t)
      && forall m :: m != n ==> (m in t.names <==> m in s.names) && (m in s.names ==> t.names[m] == s.names[m])
  {}

  /** What `gc` does after listing the directory: the names that are too old are unlinked, one by one. */
  function Collecting<V>(listed: seq<Name>, old_: Name -> bool): seq<Action<V>> {
    if listed == [] then []
    else (if old_(listed[0]) then [Unlink(listed[0])] else []) + Collecting(listed[1..], old_)
  }

  /** Exactly the listed names that are too old are gone afterwards, whatever had already been removed. */
  lemma {:induction false} CollectRemoves<V(!new)>(c: Codec<V>, s: State<V>, listed: seq<Name>, old_: Name -> bool)
    ensures var t := Run(c, s, Collecting(listed, old_));
      && OnlyNames(s, t)
      && (forall m :: m in t.names <==> m in s.names && !(m in listed && old_(m)))
      && (forall m :: m in t.names ==> t.names[m] == s.names[m])
    decreases |listed|
  {
    if listed != [] {
      var rest: seq<Action<V>> := Collecting(listed[1..], old_);
      if old_(listed[0]) {
        UnlinkRemoves(c, s, listed[0]);
        RunCons(c, s, Unlink(listed[0]), rest);
        CollectRemoves(c, Next(c, s, Unlink(listed[0])), listed[1..], old_);
      } else {
        assert [] + rest == rest;
        CollectRemoves(c, s, listed[1..], old_);
      }
    }
  }

  /** After `invalidate` an undisturbed lookup calls `func` again, and returns and stores the new value,
      whatever was stored before. */
  lemma InvalidatedIsRecomputed<V(!new)>(c: Codec<V>, s: State<V>, j: nat, key: Key, v: V)
    requires Inv(c, s) && Faithful(c) && PhaseOf(s, j) == Idle
    ensures var t := Run(c, s, [Unlink(Final(key))] +
                             [Open(j, key), Compute(j, v), OpenTmp(j), Write(j, |c.enc(v)|), Close(j), Rename(j)]);
      && t.returned == s.returned + [(key, v)] && PhaseOf(t, j) == Idle
      && Final(key) in t.names && t.names[Final(key)] in t.files && t.files[t.names[Final(key)]] == c.enc(v)
  {
    hide Inv, Next, Run;
    var u := Next(c, s, Unlink(Final(key)));
    UnlinkRemoves(c, s, Final(key));
    StepKeepsInv(c, s, Unlink(Final(key)));
    RunCons(c, s, Unlink(Final(key)), [Open(j, key), Compute(j, v), OpenTmp(j), Write(j, |c.enc(v)|), Close(j), Rename(j)]);
    MissStores(c, u, j, key, v);
  }

  /** A job that dies anywhere leaves names, files and values as they are, and the other jobs at work. */
  lemma CrashLeaves<V(!new)>(c: Codec<V>, s: State<V>, j: nat)
    ensures var t := Next(c, s, Crash(j));
      && PhaseOf(t, j) == Idle && t.names == s.names && t.files == s.files && t.nextInode == s.nextInode
      && t.produced == s.produced && t.returned == s.returned
      && forall i :: i != j ==> PhaseOf(t, i) == PhaseOf(s, i)
  {}

  /** A file that cannot be read is a miss: `func` is called and its value replaces the file. */
  lemma UnreadableIsReplaced<V(!new)>(c: Codec<V>, s: State<V>, j: nat, key: Key, v: V)
    requires Inv(c, s) && Faithful(c) && PhaseOf(s, j) == Idle && Final(key) in s.names
    ensures var t := Run(c, s, [Open(j, key), ReadFails(j), Compute(j, v), OpenTmp(j)] +
                             [Write(j, |c.enc(v)|), Close(j), Rename(j)]);
      && t.returned == s.returned + [(key, v)] && PhaseOf(t, j) == Idle
      && Final(key) in t.names && t.names[Final(key)] in t.files && t.files[t.names[Final(key)]] == c.enc(v)
  {
    var s1 := Next(c, s, Open(j, key));
    var s2 := Next(c, s1, ReadFails(j));
    var s3 := Next(c, s2, Compute(j, v));
    assert PhaseOf(s3, j) == Computed(key, v);
    ThreeKeepInv(c, s, Open(j, key), ReadFails(j), Compute(j, v));
    hide Inv, Next;
    StoresOver(c, s3, j, key, v);
    var a, b := [Open(j, key), ReadFails(j), Compute(j, v), OpenTmp(j)], [Write(j, |c.enc(v)|), Close(j), Rename(j)];
    assert a + b == [a[0]] + ([a[1]] + ([a[2]] + ([a[3]] + ([b[0]] + ([b[1]] + ([b[2]] + []))))));
    var s4 := Next(c, s3, OpenTmp(j));
    var s5 := Next(c, s4, Write(j, |c.enc(v)|));
    var s6 := Next(c, s5, Close(j));
    RunCons(c, s, a[0], [a[1]] + ([a[2]] + ([a[3]] + ([b[0]] + ([b[1]] + ([b[2]] + []))))));
    RunCons(c, s1, a[1], [a[2]] + ([a[3]] + ([b[0]] + ([b[1]] + ([b[2]] + [])))));
    RunCons(c, s2, a[2], [a[3]] + ([b[0]] + ([b[1]] + ([b[2]] + []))));
    RunCons(c, s3, a[3], [b[0]] + ([b[1]] + ([b[2]] + [])));
    RunCons(c, s4, b[0], [b[1]] + ([b[2]] + []));
    RunCons(c, s5, b[1], [b[2]] + []);
    RunCons(c, s6, b[2], []);
  }

  lemma ThreeKeepInv<V(!new)>(c: Codec<V>, s: State<V>, x: Action<V>, y: Action<V>, z: Action<V>)
    requires Inv(c, s) && Faithful(c)
    ensures Inv(c, Next(c, Next(c, Next(c, s, x), y), z))
  {
    hide Inv, Next;
    StepKeepsInv(c, s, x);
    StepKeepsInv(c, Next(c, s, x), y);
    StepKeepsInv(c, Next(c, Next(c, s, x), y), z);
  }

  /** Storing over an older file of the same key. */
  lemma StoresOver<V(!new)>(c: Codec<V>, s: State<V>, j: nat, key: Key, v: V)
    requires Inv(c, s) && PhaseOf(s, j) == Computed(key, v)
    ensures var t := Next(c, Next(c, Next(c, Next(c, s, OpenTmp(j)), Write(j, |c.enc(v)|)), Close(j)), Rename(j));
      && PhaseOf(t, j) == Idle && t.returned == s.returned + [(key, v)]
      && Final(key) in t.names && t.names[Final(key)] in t.files && t.files[t.names[Final(key)]] == c.enc(v)
  {
    hide Inv;
    var t := Next(c, s, OpenTmp(j));
    assert PhaseOf(t, j).Writing? && t.files[PhaseOf(t, j).inode] == [];
    var u := Next(c, t, Write(j, |c.enc(v)|));
    assert u.files[PhaseOf(u, j).inode] == c.enc(v);
    var w := Next(c, u, Close(j));
    assert PhaseOf(w, j) == Closed(key, v) && Tmp(key, j) in w.names;
  }
}
