/** Stable grouping of a list by a key: the distinct keys in order of first appearance, and for
    each key the elements that have it, in order. */
module Grouping {
  import opened Polynomials
  import opened Vanishing

  ghost function Keys<T(!new), K(!new)>(s: seq<T>, key: T -> K): (ks: seq<K>)
    ensures Distinct(ks)
    ensures forall t :: t in s ==> key(t) in ks
    ensures forall k :: k in ks ==> exists t :: t in s && key(t) == k
  {
    if s == [] then []
    else
      var init, last := s[..|s| - 1], s[|s| - 1];
      assert s == init + [last];
      if key(last) in Keys(init, key) then Keys(init, key) else Keys(init, key) + [key(last)]
  }

  ghost function WithKey<T(!new), K(!new)>(s: seq<T>, key: T -> K, k: K): (r: seq<T>)
    ensures forall t :: t in r <==> t in s && key(t) == k
  {
    if s == [] then []
    else
      var init, last := s[..|s| - 1], s[|s| - 1];
      assert s == init + [last];
      if key(last) == k then WithKey(init, key, k) + [last] else WithKey(init, key, k)
  }

  lemma Snoc<T(!new), K(!new)>(s: seq<T>, t: T, key: T -> K)
    ensures Keys(s + [t], key) == if key(t) in Keys(s, key) then Keys(s, key) else Keys(s, key) + [key(t)]
    ensures forall k :: WithKey(s + [t], key, k) == if key(t) == k then WithKey(s, key, k) + [t] else WithKey(s, key, k)
  {
    assert (s + [t])[..|s|] == s;
  }

  lemma {:induction false} NoneWithKey<T(!new), K(!new)>(s: seq<T>, key: T -> K, k: K)
    requires k !in Keys(s, key)
    ensures WithKey(s, key, k) == []
  {
    if s != [] {
      NoneWithKey(s[..|s| - 1], key, k);
      assert s[|s| - 1] in s;
    }
  }

  /** A key that occurs has a first element. */
  lemma SomeWithKey<T(!new), K(!new)>(s: seq<T>, key: T -> K, k: K)
    requires k in Keys(s, key)
    ensures WithKey(s, key, k) != [] && WithKey(s, key, k)[0] in s && key(WithKey(s, key, k)[0]) == k
  {
    var t :| t in s && key(t) == k;
    assert t in WithKey(s, key, k);
  }

  // ----- nothing lost, nothing duplicated -----

  ghost function Together<T(!new), K(!new)>(s: seq<T>, key: T -> K, ks: seq<K>): multiset<T> {
    if ks == [] then multiset{}
    else Together(s, key, ks[..|ks| - 1]) + multiset(WithKey(s, key, ks[|ks| - 1]))
  }

  lemma {:induction false} OneMore<T(!new), K(!new)>(s: seq<T>, t: T, key: T -> K, ks: seq<K>)
    requires Distinct(ks)
    ensures Together(s + [t], key, ks) == Together(s, key, ks) + (if key(t) in ks then multiset{t} else multiset{})
  {
    if ks != [] {
      var init, k := ks[..|ks| - 1], ks[|ks| - 1];
      assert ks == init + [k];
      OneMore(s, t, key, init);
      Snoc(s, t, key);
    }
  }

  lemma {:induction false} OfNothing<T(!new), K(!new)>(key: T -> K, ks: seq<K>)
    ensures Together([], key, ks) == multiset{}
  {
    if ks != [] {
      OfNothing(key, ks[..|ks| - 1]);
    }
  }

  lemma {:induction false} TogetherAll<T(!new), K(!new)>(s: seq<T>, key: T -> K, ks: seq<K>)
    requires Distinct(ks) && forall t :: t in s ==> key(t) in ks
    ensures Together(s, key, ks) == multiset(s)
  {
    if s == [] {
      OfNothing(key, ks);
    } else {
      var init, last := s[..|s| - 1], s[|s| - 1];
      assert s == init + [last];
      TogetherAll(init, key, ks);
      OneMore(init, last, key, ks);
    }
  }

  /** The groups together are a permutation of the list. */
  lemma GroupsPartition<T(!new), K(!new)>(s: seq<T>, key: T -> K)
    ensures Together(s, key, Keys(s, key)) == multiset(s)
  {
    TogetherAll(s, key, Keys(s, key));
  }

  // ----- counting -----

  /** Two duplicate-free lists in bijection have the same length. */
  lemma {:induction false} SameCount<A(!new), B(!new)>(p: seq<A>, q: seq<B>, m: A -> B)
    requires Distinct(p) && Distinct(q)
    requires forall a, b :: a in p && b in p && m(a) == m(b) ==> a == b
    requires forall a :: a in p ==> m(a) in q
    requires forall b :: b in q ==> exists a :: a in p && m(a) == b
    ensures |p| == |q|
  {
    if p == [] {
      if q != [] {
        HasElement(q);
      }
    } else {
      var a := p[|p| - 1];
      var p' := p[..|p| - 1];
      var i :| 0 <= i < |q| && q[i] == m(a);
      var q' := q[..i] + q[i + 1..];
      forall c | c in p' ensures c in p && c != a && m(c) in q' {
        var j :| 0 <= j < |q| && q[j] == m(c);
        assert q' == q[..i] + q[i + 1..];
        assert j < i ==> q'[j] == m(c);
        assert j > i ==> q'[j - 1] == m(c);
      }
      forall b | b in q' ensures exists c :: c in p' && m(c) == b {
        assert b in q && b != q[i];
        var c :| c in p && m(c) == b;
        assert c in p';
      }
      SameCount(p', q', m);
    }
  }
}
