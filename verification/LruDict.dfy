/** `boa/util/lrudict.py`: a dict in insertion order that forgets the key asked for longest ago. */
module LruDict {
  import opened Wrappers

  /** The request forgotten first comes first: drop `k` from the order and put it at the end. */
  function Without<K(==, !new)>(s: seq<K>, k: K): (r: seq<K>)
    ensures k !in r && forall x :: x in r <==> x in s && x != k
    ensures |r| <= |s|
  {
    if s == [] then []
    else if s[|s| - 1] == k then Without(s[..|s| - 1], k)
    else Without(s[..|s| - 1], k) + [s[|s| - 1]]
  }

  /** The `n` most recently requested distinct keys, oldest first. */
  function Recent<K(==, !new)>(requests: seq<K>, n: nat): (r: seq<K>)
    ensures |r| <= n && forall x :: x in r ==> x in requests
    decreases |requests|, n
  {
    if n == 0 || requests == [] then []
    else
      var last := requests[|requests| - 1];
      Recent(Without(requests[..|requests| - 1], last), n - 1) + [last]
  }

  predicate Distinct<K(==, !new)>(s: seq<K>) {
    forall i, j :: 0 <= i < j < |s| ==> s[i] != s[j]
  }

  lemma {:induction false} WithoutDistinct<K(!new)>(s: seq<K>, k: K)
    requires Distinct(s)
    ensures Distinct(Without(s, k)) && (k in s ==> |Without(s, k)| == |s| - 1) && (k !in s ==> Without(s, k) == s)
  {
    if s != [] {
      var n := |s| - 1;
      WithoutDistinct(s[..n], k);
      assert s == s[..n] + [s[n]] && s[n] !in s[..n];
      assert s[n] !in Without(s[..n], k);
    }
  }

  lemma {:induction false} RecentDistinct<K(!new)>(requests: seq<K>, n: nat)
    ensures Distinct(Recent(requests, n))
    decreases |requests|, n
  {
    if n != 0 && requests != [] {
      RecentDistinct(Without(requests[..|requests| - 1], requests[|requests| - 1]), n - 1);
    }
  }

  lemma {:induction false} WithoutCommutes<K(!new)>(s: seq<K>, a: K, b: K)
    ensures Without(Without(s, a), b) == Without(Without(s, b), a)
  {
    if s != [] {
      var n := |s| - 1;
      WithoutCommutes(s[..n], a, b);
      var x := s[n];
      if x != a { assert (Without(s[..n], a) + [x])[..|Without(s[..n], a)|] == Without(s[..n], a); }
      if x != b { assert (Without(s[..n], b) + [x])[..|Without(s[..n], b)|] == Without(s[..n], b); }
    }
  }

  lemma {:induction false} WithoutTwice<K(!new)>(s: seq<K>, k: K)
    requires k !in s
    ensures Without(s, k) == s
  {
    if s != [] {
      WithoutTwice(s[..|s| - 1], k);
      assert s == s[..|s| - 1] + [s[|s| - 1]];
    }
  }

  lemma RecentLast<K(!new)>(before: seq<K>, last: K, n: nat)
    requires n > 0
    ensures Recent(before + [last], n) == Recent(Without(before, last), n - 1) + [last]
  {
    assert (before + [last])[..|before|] == before;
  }

  lemma WithoutLast<K(!new)>(before: seq<K>, last: K, k: K)
    ensures Without(before + [last], k) == if last == k then Without(before, k) else Without(before, k) + [last]
  {
    assert (before + [last])[..|before|] == before;
  }

  /** `k` taken out of the recent keys; if it is not there, the oldest of a full list goes. */
  function Dropped<K(==, !new)>(r: seq<K>, n: nat, k: K): seq<K>
    requires n > 0
  {
    if k in r then Without(r, k) else if |r| == n then r[1..] else r
  }

  lemma DroppedLast<K(!new)>(inner: seq<K>, n: nat, last: K, k: K)
    requires last != k && n > 1
    ensures Dropped(inner + [last], n, k) == Dropped(inner, n - 1, k) + [last]
  {
    WithoutLast(inner, last, k);
  }

  lemma DroppedOwn<K(!new)>(inner: seq<K>, n: nat, k: K)
    requires n > 0 && k !in inner
    ensures Dropped(inner + [k], n, k) == inner
  {
    WithoutLast(inner, k, k);
    WithoutTwice(inner, k);
  }

  lemma RecentEdges<K(!new)>(requests: seq<K>, last: K, k: K, n: nat)
    requires n > 0
    ensures Recent(requests, 0) == [] && Recent<K>([], n) == [] && Without([], k) == []
    ensures Dropped<K>([], n, k) == [] && (last != k ==> Dropped([last], 1, k) == [])
  {}

  /** The recent keys without `k` are the recent ones among the requests without `k`. */
  lemma {:induction false} RecentWithout<K(!new)>(requests: seq<K>, n: nat, k: K)
    requires n > 0
    ensures Recent(Without(requests, k), n - 1) == Dropped(Recent(requests, n), n, k)
    decreases |requests|, n
  {
    hide Recent, Dropped;
    if requests == [] {
      RecentEdges(requests, k, k, n);
      if n > 1 { RecentEdges(requests, k, k, n - 1); }
    } else {
      var m := |requests| - 1;
      var last, before := requests[m], requests[..m];
      var rest := Without(before, last);
      var inner := Recent(rest, n - 1);
      assert requests == before + [last];
      RecentLast(before, last, n);
      WithoutLast(before, last, k);
      if last == k {
        DroppedOwn(inner, n, k);
      } else if n == 1 {
        RecentEdges(rest, last, k, n);
        RecentEdges(Without(requests, k), last, k, n);
        assert inner + [last] == [last];
      } else {
        WithoutCommutes(before, k, last);
        RecentLast(Without(before, k), last, n - 1);
        RecentWithout(rest, n - 1, k);
        DroppedLast(inner, n, last, k);
      }
    }
  }

  /** One more request: its key moves to the end, and the oldest is dropped if there is no room. */
  lemma RecentNext<K(!new)>(requests: seq<K>, n: nat, k: K)
    requires n > 0
    ensures var r := Recent(requests, n);
      Recent(requests + [k], n) == (if k in r then Without(r, k) else if |r| == n then r[1..] else r) + [k]
  {
    assert (requests + [k])[..|requests|] == requests;
    RecentWithout(requests, n, k);
  }

  /** The distinct keys requested since `k` was. */
  function Since<K(==, !new)>(requests: seq<K>, k: K): set<K>
    requires k in requests
  {
    var m := |requests| - 1;
    if requests[m] == k then {} else Since(requests[..m], k) + {requests[m]}
  }

  lemma {:induction false} SinceWithout<K(!new)>(requests: seq<K>, k: K, x: K)
    requires k in requests && k != x
    ensures k in Without(requests, x) && Since(Without(requests, x), k) == Since(requests, k) - {x}
  {
    var m := |requests| - 1;
    if requests[m] != k {
      SinceWithout(requests[..m], k, x);
      if requests[m] != x {
        var w := Without(requests[..m], x);
        assert (w + [requests[m]])[..|w|] == w;
      }
    }
  }

  /** A key is kept exactly while fewer than `n` other keys were requested after it. */
  lemma {:induction false} KeptIff<K(!new)>(requests: seq<K>, n: nat, k: K)
    ensures k in Recent(requests, n) <==> k in requests && |Since(requests, k)| < n
    decreases |requests|, n
  {
    if n != 0 && requests != [] {
      var m := |requests| - 1;
      var last := requests[m];
      if last != k {
        KeptIff(Without(requests[..m], last), n - 1, k);
        if k in requests {
          assert k in requests[..m];
          SinceWithout(requests[..m], k, last);
          assert Since(requests, k) == (Since(requests[..m], k) - {last}) + {last};
        }
      }
    }
  }

  class LruDict<K(==, !new), V(!new)> {
    const n: nat
    var order: seq<K>                // insertion order of the dict
    var values: map<K, V>
    ghost var requests: seq<K>

    ghost predicate Valid(fn: K -> V)
      reads this
    {
      Shape() && order == Recent(requests, n) && forall k :: k in values ==> values[k] == fn(k)
    }

    ghost predicate Shape()
      reads this
    {
      Distinct(order) && |order| <= n && forall k :: k in values <==> k in order
    }

    constructor (n: nat)
      ensures this.n == n && order == [] && requests == [] && Shape() && values == map[]
    {
      this.n, order, values, requests := n, [], map[], [];
    }

    /** A hit moves the key to the end; None is KeyError. */
    method GetItem(k: K) returns (val: Option<V>)
      requires Shape()
      modifies this`order
      ensures Shape() && val == if k in values then Some(values[k]) else None
      ensures order == if k in values then Without(old(order), k) + [k] else old(order)
    {
      if k !in values {
        return None;
      }
      val := Some(values[k]);
      WithoutDistinct(order, k);
      order := Without(order, k);          // del self[k]
      order := order + [k];
    }

    /** A known key keeps its place. With capacity 0 there is nothing to evict: `ok` is false where the
        source raises StopIteration. */
    method SetItem(k: K, val: V) returns (ok: bool)
      requires Shape()
      modifies this`order, this`values
      ensures Shape() && ok == (n > 0)
      ensures ok ==> values == (if k !in old(values) && |old(order)| == n then old(values) - {old(order)[0]} else old(values))[k := val]
      ensures ok ==> order == if k in old(values) then old(order)
                              else (if |old(order)| == n then old(order)[1..] else old(order)) + [k]
      ensures !ok ==> order == old(order) && values == old(values)
    {
      if |order| == n && k !in values {
        if order == [] {
          return false;
        }
        values := values - {order[0]};
        order := order[1..];
      }
      if k !in values {
        order := order + [k];
      }
      values := values[k := val];
      return true;
    }

    /** Always the function's value; the keys are the `n` most recently requested, in order. */
    method SetDefaultLambda(k: K, fn: K -> V) returns (val: Option<V>)
      requires Valid(fn)
      modifies this
      ensures Valid(fn) && val == if n > 0 then Some(fn(k)) else None
      ensures requests == old(requests) + [k]
    {
      requests := requests + [k];
      if n > 0 { RecentNext(old(requests), n, k); }
      val := GetItem(k);
      if val.None? {
        var ok := SetItem(k, fn(k));
        val := if ok then Some(fn(k)) else None;
      }
    }
  }

  /** A run of lookups with a pure function. */
  method RunAll<K(==, !new), V(!new)>(cache: LruDict<K, V>, keys: seq<K>, fn: K -> V) returns (vals: seq<V>)
    requires cache.Valid(fn) && cache.n > 0
    modifies cache
    ensures cache.Valid(fn) && cache.order == Recent(old(cache.requests) + keys, cache.n)
    ensures |vals| == |keys| && forall i :: 0 <= i < |keys| ==> vals[i] == fn(keys[i])
  {
    hide Recent, Distinct;
    vals := [];
    for i := 0 to |keys|
      invariant cache.Valid(fn) && cache.requests == old(cache.requests) + keys[..i]
      invariant |vals| == i && forall j :: 0 <= j < i ==> vals[j] == fn(keys[j])
    {
      var val := cache.SetDefaultLambda(keys[i], fn);
      vals := vals + [val.value];
      assert keys[..i + 1] == keys[..i] + [keys[i]];
    }
    assert keys[..|keys|] == keys;
  }
}
