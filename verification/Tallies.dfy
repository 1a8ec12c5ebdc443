/** Sums of multisets over a set of keys, in whatever order the keys are taken. */
module Tallies {
  ghost function Pick<K>(keys: set<K>): (k: K)
    requires keys != {}
    ensures k in keys
  {
    var k :| k in keys;
    k
  }

  ghost function Total<K, C>(keys: set<K>, f: K -> multiset<C>): multiset<C> {
    if keys == {} then multiset{}
    else
      var k := Pick(keys);
      Total(keys - {k}, f) + f(k)
  }

  /** The order in which keys are taken does not matter. */
  lemma {:induction false} TotalAdd<K, C>(keys: set<K>, k: K, f: K -> multiset<C>)
    requires k !in keys
    ensures Total(keys + {k}, f) == Total(keys, f) + f(k)
    decreases |keys|
  {
    var all := keys + {k};
    var p := Pick(all);
    if p == k {
      assert all - {k} == keys;
    } else {
      assert all - {p} == (keys - {p}) + {k} && (keys - {p}) + {p} == keys;
      TotalAdd(keys - {p}, k, f);
      TotalAdd(keys - {p}, p, f);
    }
  }

  lemma {:induction false} TotalMembers<K, C>(keys: set<K>, f: K -> multiset<C>, c: C)
    ensures c in Total(keys, f) <==> exists k :: k in keys && c in f(k)
  {
    if keys != {} {
      var p := Pick(keys);
      TotalMembers(keys - {p}, f, c);
      if k :| k in keys && c in f(k) {
        assert k == p || k in keys - {p};
      }
    }
  }

  // ----- one more turn of a loop over the keys

  /** A loop that takes keys out of a set: what it has gathered, started from `first`. */
  ghost predicate Gathered<K, C>(out: seq<C>, first: multiset<C>, keys: set<K>, todo: set<K>, f: K -> multiset<C>) {
    multiset(out) == first + Total(keys - todo, f)
  }

  lemma GatherNone<K, C>(out: seq<C>, keys: set<K>, f: K -> multiset<C>)
    ensures Gathered(out, multiset(out), keys, keys, f)
  {
    assert keys - keys == {};
  }

  lemma GatherMore<K, C>(out: seq<C>, first: multiset<C>, keys: set<K>, todo: set<K>, f: K -> multiset<C>,
                         k: K, more: seq<C>)
    requires Gathered(out, first, keys, todo, f) && k in todo && todo <= keys && multiset(more) == f(k)
    ensures Gathered(out + more, first, keys, todo - {k}, f)
  {
    TotalAdd(keys - todo, k, f);
    assert keys - (todo - {k}) == (keys - todo) + {k};
  }

  lemma GatherAll<K, C>(out: seq<C>, first: multiset<C>, keys: set<K>, f: K -> multiset<C>)
    requires Gathered(out, first, keys, {}, f)
    ensures multiset(out) == first + Total(keys, f)
  {
    assert keys - {} == keys;
  }

  function Elements<K>(ks: seq<K>): set<K> {
    set k | k in ks
  }

  ghost predicate NoRepeats<K>(ks: seq<K>) {
    forall i, j :: 0 <= i < j < |ks| ==> ks[i] != ks[j]
  }

  /** A loop over a list of keys without repetitions. */
  lemma ListMore<K, C>(out: seq<C>, ks: seq<K>, i: nat, f: K -> multiset<C>, more: seq<C>)
    requires i < |ks| && NoRepeats(ks)
    requires multiset(out) == Total(Elements(ks[..i]), f) && multiset(more) == f(ks[i])
    ensures multiset(out + more) == Total(Elements(ks[..i + 1]), f)
  {
    assert ks[..i + 1] == ks[..i] + [ks[i]];
    assert Elements(ks[..i + 1]) == Elements(ks[..i]) + {ks[i]};
    assert ks[i] !in Elements(ks[..i]);
    TotalAdd(Elements(ks[..i]), ks[i], f);
  }

  lemma ListNone<K, C>(ks: seq<K>, f: K -> multiset<C>)
    ensures Total(Elements(ks[..0]), f) == multiset{}
  {
    assert Elements(ks[..0]) == {};
  }

  lemma ListAll<K>(ks: seq<K>, keys: set<K>)
    requires forall k :: k in ks <==> k in keys
    ensures Elements(ks[..|ks|]) == keys
  {
    assert ks[..|ks|] == ks;
  }
}
