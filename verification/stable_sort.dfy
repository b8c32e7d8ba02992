/** Array.prototype.sort with a numeric comparator `(a, b) => key(a) - key(b)`.
    ECMAScript requires the sort to be stable, so elements with equal keys keep
    their original relative order. Modelled as a stable insertion sort on
    sequences, ascending by a real-valued key. */
module StableSort {

  ghost predicate Sorted<T>(s: seq<T>, key: T -> real) {
    forall i, j :: 0 <= i < j < |s| ==> key(s[i]) <= key(s[j])
  }

  /** The elements of `s` whose key is `v`, in their order in `s`. */
  function WithKey<T>(s: seq<T>, key: T -> real, v: real): seq<T>
    decreases |s|
  {
    if |s| == 0 then []
    else WithKey(s[..|s| - 1], key, v) + (if key(s[|s| - 1]) == v then [s[|s| - 1]] else [])
  }

  /** Places `x` after every element of `s` whose key is at most key(x). */
  function Insert<T>(x: T, s: seq<T>, key: T -> real): seq<T>
    decreases |s|
  {
    if |s| == 0 then [x]
    else if key(s[|s| - 1]) <= key(x) then s + [x]
    else Insert(x, s[..|s| - 1], key) + [s[|s| - 1]]
  }

  function Sort<T>(s: seq<T>, key: T -> real): seq<T>
    decreases |s|
  {
    if |s| == 0 then [] else Insert(s[|s| - 1], Sort(s[..|s| - 1], key), key)
  }

  lemma {:induction false} InsertPermutes<T>(x: T, s: seq<T>, key: T -> real)
    ensures multiset(Insert(x, s, key)) == multiset(s) + multiset{x}
    decreases |s|
  {
    if |s| > 0 && key(s[|s| - 1]) > key(x) {
      InsertPermutes(x, s[..|s| - 1], key);
      assert s == s[..|s| - 1] + [s[|s| - 1]];
    }
  }

  lemma {:induction false} InsertSorted<T>(x: T, s: seq<T>, key: T -> real)
    requires Sorted(s, key)
    ensures Sorted(Insert(x, s, key), key)
    ensures |Insert(x, s, key)| == |s| + 1
    ensures Insert(x, s, key)[|s|] == x || Insert(x, s, key)[|s|] == s[|s| - 1]
    decreases |s|
  {
    if |s| > 0 && key(s[|s| - 1]) > key(x) {
      var init := s[..|s| - 1];
      InsertSorted(x, init, key);
      var r := Insert(x, init, key);
      assert r + [s[|s| - 1]] == Insert(x, s, key);
      forall i | 0 <= i < |r|
        ensures key(r[i]) <= key(s[|s| - 1])
      {
        InsertMembers(x, init, key, i);
      }
    }
  }

  /** Every element of an insertion is the inserted element or one of the old ones. */
  lemma {:induction false} InsertMembers<T>(x: T, s: seq<T>, key: T -> real, i: nat)
    requires i < |Insert(x, s, key)|
    requires Sorted(s, key)
    ensures Insert(x, s, key)[i] == x || Insert(x, s, key)[i] in s
    ensures |s| > 0 && key(s[|s| - 1]) > key(x) ==> key(Insert(x, s, key)[i]) <= key(s[|s| - 1])
    decreases |s|
  {
    InsertPermutes(x, s, key);
    var r := Insert(x, s, key);
    assert r[i] in multiset(r);
    if |s| > 0 && key(s[|s| - 1]) > key(x) {
      assert r[i] == x || r[i] in s;
      if r[i] != x {
        var k :| 0 <= k < |s| && s[k] == r[i];
        assert k == |s| - 1 || key(s[k]) <= key(s[|s| - 1]);
      }
    }
  }

  /** Inserting keeps, for every key value, the old elements in their order
      and puts `x` after those that share its key. */
  lemma {:induction false} InsertStable<T>(x: T, s: seq<T>, key: T -> real, v: real)
    requires Sorted(s, key)
    ensures WithKey(Insert(x, s, key), key, v) == WithKey(s, key, v) + (if key(x) == v then [x] else [])
    decreases |s|
  {
    if |s| == 0 {
      assert Insert(x, s, key) == [x];
      assert [x][..0] == [];
    } else if key(s[|s| - 1]) <= key(x) {
      assert (s + [x])[..|s|] == s;
    } else {
      var init := s[..|s| - 1];
      var last := s[|s| - 1];
      InsertStable(x, init, key, v);
      var r := Insert(x, init, key);
      assert (r + [last])[..|r|] == r;
      assert s == init + [last];
    }
  }

  /** The sort is a permutation of its input, ordered by key, and stable: for
      every key value it lists the elements with that key in input order. */
  lemma {:induction false} SortCorrect<T>(s: seq<T>, key: T -> real)
    ensures multiset(Sort(s, key)) == multiset(s)
    ensures |Sort(s, key)| == |s|
    ensures Sorted(Sort(s, key), key)
    ensures forall v :: WithKey(Sort(s, key), key, v) == WithKey(s, key, v)
    decreases |s|
  {
    if |s| > 0 {
      var init := s[..|s| - 1];
      var last := s[|s| - 1];
      SortCorrect(init, key);
      InsertPermutes(last, Sort(init, key), key);
      InsertSorted(last, Sort(init, key), key);
      assert s == init + [last];
      forall v
        ensures WithKey(Sort(s, key), key, v) == WithKey(s, key, v)
      {
        InsertStable(last, Sort(init, key), key, v);
      }
    }
  }

  /** An element with key `v` appears in the elements with that key. */
  lemma {:induction false} InWithKey<T>(s: seq<T>, key: T -> real, v: real, i: nat)
    requires i < |s| && key(s[i]) == v
    ensures exists a :: 0 <= a < |WithKey(s, key, v)| && WithKey(s, key, v)[a] == s[i]
    decreases |s|
  {
    var n := |s| - 1;
    if i < n {
      InWithKey(s[..n], key, v, i);
      var a :| 0 <= a < |WithKey(s[..n], key, v)| && WithKey(s[..n], key, v)[a] == s[..n][i];
      assert WithKey(s, key, v)[a] == s[i];
    } else {
      assert WithKey(s, key, v)[|WithKey(s[..n], key, v)|] == s[i];
    }
  }

  /** Every element with key `v` comes from `s`. */
  lemma {:induction false} WithKeyIn<T>(s: seq<T>, key: T -> real, v: real, a: nat)
    requires a < |WithKey(s, key, v)|
    ensures exists p :: 0 <= p < |s| && s[p] == WithKey(s, key, v)[a]
    decreases |s|
  {
    var n := |s| - 1;
    var w := WithKey(s[..n], key, v);
    if a < |w| {
      WithKeyIn(s[..n], key, v, a);
      var p :| 0 <= p < n && s[..n][p] == w[a];
      assert s[p] == WithKey(s, key, v)[a];
    } else {
      assert WithKey(s, key, v)[a] == s[n];
    }
  }

  /** Two elements with key `v`, in this order in `s`, keep that order among
      the elements with key `v`. */
  lemma {:induction false} WithKeyKeepsOrder<T>(s: seq<T>, key: T -> real, v: real, i: nat, j: nat)
    requires i < j < |s| && key(s[i]) == v && key(s[j]) == v
    ensures exists a, b :: 0 <= a < b < |WithKey(s, key, v)| && WithKey(s, key, v)[a] == s[i] && WithKey(s, key, v)[b] == s[j]
    decreases |s|
  {
    var n := |s| - 1;
    var w := WithKey(s[..n], key, v);
    if j < n {
      WithKeyKeepsOrder(s[..n], key, v, i, j);
      var a, b :| 0 <= a < b < |w| && w[a] == s[..n][i] && w[b] == s[..n][j];
      assert WithKey(s, key, v)[a] == s[i] && WithKey(s, key, v)[b] == s[j];
    } else {
      InWithKey(s[..n], key, v, i);
      var a :| 0 <= a < |w| && w[a] == s[..n][i];
      assert WithKey(s, key, v)[a] == s[i] && WithKey(s, key, v)[|w|] == s[j];
    }
  }

  /** Two elements in this order among those with key `v` are in this order in `s`. */
  lemma {:induction false} WithKeyFromOrder<T>(s: seq<T>, key: T -> real, v: real, a: nat, b: nat)
    requires a < b < |WithKey(s, key, v)|
    ensures exists p, q :: 0 <= p < q < |s| && s[p] == WithKey(s, key, v)[a] && s[q] == WithKey(s, key, v)[b]
    decreases |s|
  {
    var n := |s| - 1;
    var w := WithKey(s[..n], key, v);
    if b < |w| {
      WithKeyFromOrder(s[..n], key, v, a, b);
      var p, q :| 0 <= p < q < n && s[..n][p] == w[a] && s[..n][q] == w[b];
      assert s[p] == WithKey(s, key, v)[a] && s[q] == WithKey(s, key, v)[b];
    } else {
      WithKeyIn(s[..n], key, v, a);
      var p :| 0 <= p < n && s[..n][p] == w[a];
      assert s[p] == WithKey(s, key, v)[a] && s[n] == WithKey(s, key, v)[b];
    }
  }

  /** Stability by position: of two elements with equal keys, the earlier one
      in the input is also the earlier one in the output. */
  lemma SortKeepsTies<T>(s: seq<T>, key: T -> real, i: nat, j: nat)
    requires i < j < |s| && key(s[i]) == key(s[j])
    ensures exists p, q :: 0 <= p < q < |Sort(s, key)| && Sort(s, key)[p] == s[i] && Sort(s, key)[q] == s[j]
  {
    var v := key(s[i]);
    SortCorrect(s, key);
    WithKeyKeepsOrder(s, key, v, i, j);
    var w := WithKey(s, key, v);
    var a, b :| 0 <= a < b < |w| && w[a] == s[i] && w[b] == s[j];
    assert w == WithKey(Sort(s, key), key, v);
    WithKeyFromOrder(Sort(s, key), key, v, a, b);
  }
}
