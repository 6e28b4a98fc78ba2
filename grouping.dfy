/**
 * Grouping a list into a `defaultdict(list)` by a key function: each
 * group keeps its elements in list order, and the dict keeps its keys in
 * the order they first appear.
 */
module Grouping {
  import opened Ordering

  /** `groups[k]`: the elements with key `k`, in their order. */
  function WithKey<R, K(==)>(rs: seq<R>, key: R -> K, k: K): seq<R>
  {
    if rs == [] then []
    else
      var n := |rs| - 1;
      WithKey(rs[..n], key, k) + (if key(rs[n]) == k then [rs[n]] else [])
  }

  /** The keys of the dict, in the order they first appear. */
  function KeyOrder<R, K(==)>(rs: seq<R>, key: R -> K): seq<K>
  {
    if rs == [] then []
    else
      var n := |rs| - 1;
      var ks := KeyOrder(rs[..n], key);
      if key(rs[n]) in ks then ks else ks + [key(rs[n])]
  }

  /** A key is a key of the dict exactly when its group is not empty. */
  lemma {:induction false} KeyOrderHasGroups<R, K>(rs: seq<R>, key: R -> K, k: K)
    ensures k in KeyOrder(rs, key) <==> WithKey(rs, key, k) != []
  {
    if rs != [] {
      KeyOrderHasGroups(rs[..|rs| - 1], key, k);
    }
  }

  /** The dict's keys are distinct. */
  lemma {:induction false} KeyOrderDistinct<R, K>(rs: seq<R>, key: R -> K)
    ensures Distinct(KeyOrder(rs, key))
  {
    if rs != [] {
      KeyOrderDistinct(rs[..|rs| - 1], key);
    }
  }

  /** Each group holds only elements of the list with its own key. */
  lemma {:induction false} WithKeyMembers<R, K>(rs: seq<R>, key: R -> K, k: K)
    ensures forall r :: r in WithKey(rs, key, k) ==> r in rs && key(r) == k
  {
    if rs != [] {
      var n := |rs| - 1;
      var ps := rs[..n];
      WithKeyMembers(ps, key, k);
      var e := if key(rs[n]) == k then [rs[n]] else [];
      assert WithKey(rs, key, k) == WithKey(ps, key, k) + e;
      forall r | r in WithKey(rs, key, k) ensures r in rs && key(r) == k {
        if r in WithKey(ps, key, k) {
          assert r in ps;
        } else {
          assert r in e;
        }
      }
    }
  }

  /** The groups of the keys `ks`, laid end to end. */
  function Flatten<R, K(==)>(rs: seq<R>, key: R -> K, ks: seq<K>): seq<R>
  {
    if ks == [] then [] else Flatten(rs, key, ks[..|ks| - 1]) + WithKey(rs, key, ks[|ks| - 1])
  }

  /** How often `k` occurs in `ks`. */
  function Occurrences<K(==)>(ks: seq<K>, k: K): nat
  {
    if ks == [] then 0 else Occurrences(ks[..|ks| - 1], k) + (if ks[|ks| - 1] == k then 1 else 0)
  }

  lemma {:induction false} OccurrencesDistinct<K>(ks: seq<K>, k: K)
    requires Distinct(ks)
    ensures Occurrences(ks, k) == if k in ks then 1 else 0
  {
    if ks != [] {
      var n := |ks| - 1;
      assert Distinct(ks[..n]);
      OccurrencesDistinct(ks[..n], k);
      assert k in ks <==> k in ks[..n] || ks[n] == k;
      if ks[n] == k {
        assert k !in ks[..n];
      }
    }
  }

  /** `n` copies of `r`. */
  function Copies<R>(r: R, n: nat): multiset<R>
  {
    if n == 0 then multiset{} else Copies(r, n - 1) + multiset{r}
  }

  lemma WithKeySnoc<R, K>(rs: seq<R>, r: R, key: R -> K, k: K)
    ensures WithKey(rs + [r], key, k) == WithKey(rs, key, k) + (if key(r) == k then [r] else [])
  {
    assert (rs + [r])[..|rs|] == rs;
  }

  /** A new element joins the flattened groups once for every time its key is listed. */
  lemma FlattenSnoc<R, K>(rs: seq<R>, r: R, key: R -> K, ks: seq<K>)
    ensures multiset(Flatten(rs + [r], key, ks)) ==
      multiset(Flatten(rs, key, ks)) + Copies(r, Occurrences(ks, key(r)))
  {
    FlattenSnocUpTo(rs, r, key, ks, |ks|);
    assert ks[..|ks|] == ks;
  }

  /** `FlattenSnoc` for the first `i` keys. */
  lemma {:induction false} FlattenSnocUpTo<R, K>(rs: seq<R>, r: R, key: R -> K, ks: seq<K>, i: nat)
    requires i <= |ks|
    ensures multiset(Flatten(rs + [r], key, ks[..i])) ==
      multiset(Flatten(rs, key, ks[..i])) + Copies(r, Occurrences(ks[..i], key(r)))
  {
    if i > 0 {
      FlattenSnocUpTo(rs, r, key, ks, i - 1);
      FlattenSnocStep(rs, r, key, ks, i - 1);
    }
  }

  lemma FlattenSnocStep<R, K>(rs: seq<R>, r: R, key: R -> K, ks: seq<K>, i: nat)
    requires i < |ks|
    requires multiset(Flatten(rs + [r], key, ks[..i])) ==
      multiset(Flatten(rs, key, ks[..i])) + Copies(r, Occurrences(ks[..i], key(r)))
    ensures multiset(Flatten(rs + [r], key, ks[..i + 1])) ==
      multiset(Flatten(rs, key, ks[..i + 1])) + Copies(r, Occurrences(ks[..i + 1], key(r)))
  {
    assert ks[..i + 1] == ks[..i] + [ks[i]];
    FlattenSnocLast(rs, r, key, ks[..i], ks[i]);
  }

  lemma FlattenSnocLast<R, K>(rs: seq<R>, r: R, key: R -> K, ps: seq<K>, k: K)
    requires multiset(Flatten(rs + [r], key, ps)) ==
      multiset(Flatten(rs, key, ps)) + Copies(r, Occurrences(ps, key(r)))
    ensures multiset(Flatten(rs + [r], key, ps + [k])) ==
      multiset(Flatten(rs, key, ps + [k])) + Copies(r, Occurrences(ps + [k], key(r)))
  {
    var e: seq<R> := if key(r) == k then [r] else [];
    FlattenSnocUnfold(rs, r, key, ps, k);
    CopiesStep(r, Occurrences(ps, key(r)), key(r) == k);
    MultisetSplice(Flatten(rs + [r], key, ps), WithKey(rs, key, k), e,
      Flatten(rs, key, ps), Copies(r, Occurrences(ps, key(r))), Copies(r, Occurrences(ps + [k], key(r))));
  }

  lemma FlattenSnocUnfold<R, K>(rs: seq<R>, r: R, key: R -> K, ps: seq<K>, k: K)
    ensures Flatten(rs + [r], key, ps + [k]) == Flatten(rs + [r], key, ps)
      + (WithKey(rs, key, k) + if key(r) == k then [r] else [])
    ensures Flatten(rs, key, ps + [k]) == Flatten(rs, key, ps) + WithKey(rs, key, k)
    ensures Occurrences(ps + [k], key(r)) == Occurrences(ps, key(r)) + if key(r) == k then 1 else 0
  {
    assert (ps + [k])[..|ps|] == ps;
    WithKeySnoc(rs, r, key, k);
  }

  lemma CopiesStep<R>(r: R, m: nat, b: bool)
    ensures Copies(r, m + if b then 1 else 0) == Copies(r, m) + multiset(if b then [r] else [])
  {
  }

  lemma MultisetSplice<R>(a: seq<R>, b: seq<R>, e: seq<R>, f: seq<R>, c: multiset<R>, d: multiset<R>)
    requires multiset(a) == multiset(f) + c
    requires d == c + multiset(e)
    ensures multiset(a + (b + e)) == multiset(f + b) + d
  {
  }

  /**
   * Every element lands in exactly one group: the groups together hold
   * each element exactly as often as the list does, so the group sizes
   * add up to the length of the list.
   */
  lemma {:induction false} GroupsPartition<R, K>(rs: seq<R>, key: R -> K)
    ensures multiset(Flatten(rs, key, KeyOrder(rs, key))) == multiset(rs)
    ensures |Flatten(rs, key, KeyOrder(rs, key))| == |rs|
  {
    if rs != [] {
      var n := |rs| - 1;
      assert rs == rs[..n] + [rs[n]];
      GroupsPartition(rs[..n], key);
      GroupsPartitionStep(rs[..n], rs[n], key);
    }
    assert |multiset(Flatten(rs, key, KeyOrder(rs, key)))| == |multiset(rs)|;
  }

  lemma GroupsPartitionStep<R, K>(ps: seq<R>, r: R, key: R -> K)
    requires multiset(Flatten(ps, key, KeyOrder(ps, key))) == multiset(ps)
    ensures multiset(Flatten(ps + [r], key, KeyOrder(ps + [r], key))) == multiset(ps + [r])
  {
    var ks := KeyOrder(ps, key);
    assert (ps + [r])[..|ps|] == ps;
    KeyOrderDistinct(ps, key);
    FlattenSnoc(ps, r, key, ks);
    OccurrencesDistinct(ks, key(r));
    if key(r) !in ks {
      KeyOrderHasGroups(ps, key, key(r));
      FlattenSnocUnfold(ps, r, key, ks, key(r));
    }
  }

  /** The list of what `val` gives for each element, in order. */
  function Values<R, V>(rs: seq<R>, val: R -> V): (vs: seq<V>)
    ensures |vs| == |rs|
  {
    if rs == [] then [] else Values(rs[..|rs| - 1], val) + [val(rs[|rs| - 1])]
  }

  lemma ValuesSnoc<R, V>(rs: seq<R>, r: R, val: R -> V)
    ensures Values(rs + [r], val) == Values(rs, val) + [val(r)]
  {
    assert (rs + [r])[..|rs|] == rs;
  }

  lemma {:induction false} ValuesAppend<R, V>(a: seq<R>, b: seq<R>, val: R -> V)
    ensures Values(a + b, val) == Values(a, val) + Values(b, val)
  {
    if b != [] {
      var n := |b| - 1;
      assert b == b[..n] + [b[n]];
      assert a + b == (a + b[..n]) + [b[n]];
      ValuesAppend(a, b[..n], val);
      ValuesSnoc(a + b[..n], b[n], val);
      ValuesSnoc(b[..n], b[n], val);
      AppendAssociative(Values(a, val), Values(b[..n], val), [val(b[n])]);
    } else {
      assert a + b == a;
    }
  }

  lemma {:induction false} WithKeyAppend<R, K>(a: seq<R>, b: seq<R>, key: R -> K, k: K)
    ensures WithKey(a + b, key, k) == WithKey(a, key, k) + WithKey(b, key, k)
  {
    if b != [] {
      var n := |b| - 1;
      assert b == b[..n] + [b[n]];
      assert a + b == (a + b[..n]) + [b[n]];
      WithKeyAppend(a, b[..n], key, k);
      WithKeySnoc(a + b[..n], b[n], key, k);
      WithKeySnoc(b[..n], b[n], key, k);
      AppendAssociative(WithKey(a, key, k), WithKey(b[..n], key, k), if key(b[n]) == k then [b[n]] else []);
    } else {
      assert a + b == a;
    }
  }

  /**
   * `groups` and `order` are the `defaultdict(list)` and its key order
   * after appending `val(r)` under `key(r)` for every `r` of `rs`.
   */
  ghost predicate IsGrouping<R, K(!new), V>(groups: map<K, seq<V>>, order: seq<K>, rs: seq<R>, key: R -> K, val: R -> V)
  {
    && order == KeyOrder(rs, key)
    && (forall k :: k in groups <==> k in order)
    && (forall k :: k in groups ==> groups[k] == Values(WithKey(rs, key, k), val))
  }

  /** `groups[key(r)].append(val(r))`, creating the list on first use. */
  lemma GroupingSnoc<R, K(!new), V>(groups: map<K, seq<V>>, order: seq<K>, rs: seq<R>, key: R -> K, val: R -> V, r: R)
    requires IsGrouping(groups, order, rs, key, val)
    ensures IsGrouping(
      groups[key(r) := (if key(r) in groups then groups[key(r)] else []) + [val(r)]],
      if key(r) in groups then order else order + [key(r)],
      rs + [r], key, val)
  {
    var g2 := groups[key(r) := (if key(r) in groups then groups[key(r)] else []) + [val(r)]];
    var o2 := if key(r) in groups then order else order + [key(r)];
    KeyOrderSnoc(rs, r, key);
    forall k | k in g2 ensures g2[k] == Values(WithKey(rs + [r], key, k), val) {
      GroupSnoc(rs, r, key, val, k);
      if k == key(r) && key(r) !in groups {
        KeyOrderHasGroups(rs, key, key(r));
      }
    }
  }

  lemma KeyOrderSnoc<R, K>(rs: seq<R>, r: R, key: R -> K)
    ensures KeyOrder(rs + [r], key) ==
      var ks := KeyOrder(rs, key); if key(r) in ks then ks else ks + [key(r)]
  {
    assert (rs + [r])[..|rs|] == rs;
  }

  lemma GroupSnoc<R, K, V>(rs: seq<R>, r: R, key: R -> K, val: R -> V, k: K)
    ensures Values(WithKey(rs + [r], key, k), val) ==
      Values(WithKey(rs, key, k), val) + (if key(r) == k then [val(r)] else [])
  {
    WithKeySnoc(rs, r, key, k);
    ValuesAppend(WithKey(rs, key, k), if key(r) == k then [r] else [], val);
  }

  lemma {:induction false} ValuesSelf<R>(rs: seq<R>, self: R -> R)
    requires forall r :: self(r) == r
    ensures Values(rs, self) == rs
  {
    if rs != [] {
      ValuesSelf(rs[..|rs| - 1], self);
    }
  }

  /** A list without repeats has as many elements as its set. */
  lemma {:induction false} DistinctCard<T>(s: seq<T>)
    requires Distinct(s)
    ensures |set x | x in s| == |s|
  {
    if s != [] {
      var n := |s| - 1;
      assert Distinct(s[..n]);
      DistinctCard(s[..n]);
      assert (set x | x in s) == (set x | x in s[..n]) + {s[n]};
      assert s[n] !in s[..n];
    }
  }

  /** The dict's keys are the keys of the elements. */
  lemma {:induction false} KeyOrderElements<R, K>(rs: seq<R>, key: R -> K)
    ensures (set k | k in KeyOrder(rs, key)) == set r | r in rs :: key(r)
  {
    if rs != [] {
      var n := |rs| - 1;
      KeyOrderElements(rs[..n], key);
      assert rs == rs[..n] + [rs[n]];
      assert (set r | r in rs :: key(r)) == (set r | r in rs[..n] :: key(r)) + {key(rs[n])};
    }
  }
}
