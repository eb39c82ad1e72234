/** `CachingRPC` of `boa/vm/fork.py`: a key-value cache in front of a deterministic remote. */
module CachingRpc {
  import opened Wrappers
  import opened Words

  type Address = nat

  datatype Message = Message(sender: Address, to: Address, gas: nat, value: nat, data: seq<Byte>)

  /** A method name with its parameters; `block` is the pinned block in every one. */
  datatype Request =
    | GetBalance(a: Address, block: nat)
    | GetTransactionCount(a: Address, block: nat)
    | GetCode(a: Address, block: nat)
    | GetStorageAt(a: Address, slot: Word, block: nat)
    | TraceCall(msg: Message, block: nat)

  datatype AddressText = Canonical(a: Address) | Malformed(text: string)

  /** One account of a prestate trace; fields the node leaves out are None. */
  datatype Touched = Touched(
    address: AddressText, balance: Option<nat>, code: Option<seq<Byte>>, nonce: Option<nat>,
    storage: seq<(Word, Word)>)

  datatype Reply = Quantity(n: nat) | Data(bs: seq<Byte>) | Prestate(accounts: seq<Touched>)

  type Remote = Request -> Option<Reply>

  /** An uncached batch: all answers in order, or the error of the first that has none. */
  function Answers(remote: Remote, payload: seq<Request>): Option<seq<Reply>> {
    if payload == [] then Some([])
    else
      var rest := Answers(remote, payload[1..]);
      if remote(payload[0]).Some? && rest.Some? then Some([remote(payload[0]).value] + rest.value) else None
  }

  lemma {:induction false} AnswersChar(remote: Remote, payload: seq<Request>)
    ensures Answers(remote, payload).Some? <==> forall i :: 0 <= i < |payload| ==> remote(payload[i]).Some?
    ensures Answers(remote, payload).Some? ==>
              && |Answers(remote, payload).value| == |payload|
              && forall i :: 0 <= i < |payload| ==> remote(payload[i]) == Some(Answers(remote, payload).value[i])
  {
    if payload != [] {
      var rest := payload[1..];
      AnswersChar(remote, rest);
      forall i | 0 <= i < |rest| ensures payload[i + 1] == rest[i] {}
      if Answers(remote, payload).Some? {
        forall i | 0 <= i < |payload| ensures remote(payload[i]) == Some(Answers(remote, payload).value[i]) {
          if i > 0 { assert payload[i] == rest[i - 1]; }
        }
      } else if remote(payload[0]).Some? {
        var i :| 0 <= i < |rest| && remote(rest[i]).None?;
        assert remote(payload[i + 1]).None?;
      }
    }
  }

  lemma {:induction false} RangeSize(s: set<nat>, n: nat)
    requires forall i: nat :: i in s <==> i < n
    ensures |s| == n
  {
    if n == 0 {
      assert s == {};
    } else {
      RangeSize(s - {n - 1}, n - 1);
    }
  }

  class CachingRPC {
    const remote: Remote
    var db: map<Request, Reply>

    constructor (remote: Remote)
      ensures Valid() && this.remote == remote
    {
      this.remote := remote;
      db := map[];
    }

    /** Every entry is the answer the remote would give. */
    ghost predicate Valid()
      reads this`db
    {
      forall k :: k in db ==> remote(k) == Some(db[k])
    }

    /** `self._db[key] = ...`: a bounded cache may drop any entries. */
    method Store(key: Request, reply: Reply)
      requires Valid() && remote(key) == Some(reply)
      modifies this`db
      ensures Valid()
    {
      var kept: set<Request> :| kept <= db.Keys;
      db := map k | k in kept :: db[k];
      db := db[key := reply];
    }

    method Fetch(req: Request) returns (out: Option<Reply>)
      requires Valid()
      modifies this`db
      ensures Valid() && out == remote(req)
    {
      if req in db {
        return Some(db[req]);
      }
      out := remote(req);
      if out.Some? {
        Store(req, out.value);
      }
    }

    /** Hits, misses and duplicates in any mix: the answers of an uncached batch, in order. */
    method FetchMulti(payload: seq<Request>) returns (out: Option<seq<Reply>>)
      requires Valid()
      modifies this`db
      ensures Valid() && out == Answers(remote, payload)
    {
      hide Answers, Waits;
      var ret: map<nat, Reply>, keys: seq<(Request, nat)>, batch: seq<Request> := map[], [], [];
      for i := 0 to |payload|
        invariant Valid() && Correct(remote, payload, ret)
        invariant |keys| == |batch| && Asked(payload, keys, batch)
        invariant forall k: nat :: k in ret ==> k < i
        invariant forall k: nat :: k < i && k !in ret ==> Waits(keys, 0, k)
      {
        var key := payload[i];
        if key in db {
          ret := ret[i := db[key]];
        } else {
          WaitsAppend(keys, (key, i), i);
          AskedAppend(payload, keys, batch, i);
          keys, batch := keys + [(key, i)], batch + [key];
        }
      }
      if |batch| > 0 {
        var results := Answers(remote, batch);
        AnswersChar(remote, batch);
        if results.None? {
          OneFails(remote, payload, keys, batch);
          return None;
        }
        for r := 0 to |results.value|
          invariant Valid() && Correct(remote, payload, ret)
          invariant forall k: nat :: k < |payload| && k !in ret ==> Waits(keys, r, k)
        {
          var (key, i) := keys[r];
          WaitsNext(keys, r);
          assert remote(batch[r]) == Some(results.value[r]);
          ret := ret[i := results.value[r]];
          Store(key, results.value[r]);
        }
      }
      NoneWaits(keys);
      Collected(remote, payload, ret);
      out := Some(seq(|ret|, i requires 0 <= i < |ret| && i in ret => ret[i]));
    }
  }

  /** What has been collected so far is what the remote answers. */
  ghost predicate Correct(remote: Remote, payload: seq<Request>, ret: map<nat, Reply>) {
    forall k: nat :: k in ret ==> k < |payload| && remote(payload[k]) == Some(ret[k])
  }

  ghost predicate Asked(payload: seq<Request>, keys: seq<(Request, nat)>, batch: seq<Request>)
    requires |keys| == |batch|
  {
    forall j :: 0 <= j < |keys| ==> keys[j].1 < |payload| && batch[j] == keys[j].0 == payload[keys[j].1]
  }

  /** The answer for position `k` is still to come from `keys[from..]`. */
  ghost predicate Waits(keys: seq<(Request, nat)>, from: nat, k: nat) {
    exists j :: from <= j < |keys| && keys[j].1 == k
  }

  lemma WaitsAppend(keys: seq<(Request, nat)>, next: (Request, nat), i: nat)
    requires next.1 == i
    ensures forall k: nat :: Waits(keys, 0, k) || k == i ==> Waits(keys + [next], 0, k)
  {
    forall k: nat | Waits(keys, 0, k) || k == i ensures Waits(keys + [next], 0, k) {
      if k == i {
        assert (keys + [next])[|keys|].1 == k;
      } else {
        var j :| 0 <= j < |keys| && keys[j].1 == k;
        assert (keys + [next])[j].1 == k;
      }
    }
  }

  lemma AskedAppend(payload: seq<Request>, keys: seq<(Request, nat)>, batch: seq<Request>, i: nat)
    requires |keys| == |batch| && Asked(payload, keys, batch) && i < |payload|
    ensures Asked(payload, keys + [(payload[i], i)], batch + [payload[i]])
  {}

  lemma WaitsNext(keys: seq<(Request, nat)>, r: nat)
    requires r < |keys|
    ensures forall k: nat :: Waits(keys, r, k) && k != keys[r].1 ==> Waits(keys, r + 1, k)
  {}

  lemma NoneWaits(keys: seq<(Request, nat)>)
    ensures forall k: nat :: !Waits(keys, |keys|, k)
  {}

  lemma OneFails(remote: Remote, payload: seq<Request>, keys: seq<(Request, nat)>, batch: seq<Request>)
    requires |keys| == |batch| && Asked(payload, keys, batch) && Answers(remote, batch).None?
    ensures Answers(remote, payload).None?
  {
    AnswersChar(remote, batch);
    AnswersChar(remote, payload);
    var j :| 0 <= j < |batch| && remote(batch[j]).None?;
    assert remote(payload[keys[j].1]).None?;
  }

  lemma Collected(remote: Remote, payload: seq<Request>, ret: map<nat, Reply>)
    requires Correct(remote, payload, ret) && forall k: nat :: k < |payload| ==> k in ret
    ensures |ret| == |payload| && (forall i :: 0 <= i < |ret| ==> i in ret)
    ensures Answers(remote, payload) == Some(seq(|ret|, i requires 0 <= i < |ret| && i in ret => ret[i]))
  {
    assert |ret| == |ret.Keys|;
    RangeSize(ret.Keys, |payload|);
    AnswersChar(remote, payload);
    forall i | 0 <= i < |payload| ensures remote(payload[i]).Some? { assert i in ret; }
    assert Answers(remote, payload).value == seq(|ret|, i requires 0 <= i < |ret| && i in ret => ret[i]);
  }
}
