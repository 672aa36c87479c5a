/** What `list.sort(key=..., reverse=True)` promises about the order it
    leaves: the keys descend, and elements with equal keys keep their
    original relative order (Python's sort is stable, also in reverse). The
    order is described by a permutation `perm`: position `k` of the sorted
    list holds the element that was at position `perm[k]`. */
module StableOrder {
  import opened StructTimes

  /** `0, 1, ..., n - 1`: the positions of a list of length `n`. */
  function Iota(n: nat): (r: seq<int>)
    ensures |r| == n
    ensures forall k :: 0 <= k < n ==> r[k] == k
  {
    if n == 0 then [] else Iota(n - 1) + [n - 1]
  }

  /** `perm` lists every position below `n` exactly once. */
  ghost predicate IsPermutation(perm: seq<int>, n: nat)
  {
    |perm| == n &&
    (forall k :: 0 <= k < n ==> 0 <= perm[k] < n) &&
    (forall k, l :: 0 <= k < l < n ==> perm[k] != perm[l]) &&
    (forall i :: 0 <= i < n ==> i in perm)
  }

  /** The element first at position `a` may come before the one first at
      position `b`: its key is not smaller, and when the keys are equal it
      came first. */
  ghost predicate InOrder(keys: seq<StructTime>, a: int, b: int)
  {
    0 <= a < |keys| && 0 <= b < |keys| &&
    !Before(keys[a], keys[b]) &&
    (keys[a] == keys[b] ==> a < b)
  }

  /** Reading the positions in the order `perm` gives descending keys, ties
      in their original order. */
  ghost predicate StableDescending(keys: seq<StructTime>, perm: seq<int>)
  {
    IsPermutation(perm, |keys|) &&
    forall k, l :: 0 <= k < l < |perm| ==> InOrder(keys, perm[k], perm[l])
  }

  /** Keys read in a stable descending order never increase. */
  lemma StableDescendingIsSorted(keys: seq<StructTime>, perm: seq<int>, k: int, l: int)
    requires StableDescending(keys, perm)
    requires 0 <= k <= l < |perm|
    ensures !Before(keys[perm[k]], keys[perm[l]])
  {
    if k == l {
      BeforeIrreflexive(keys[perm[k]]);
    }
  }

  /** There is only one stable descending order of a list of keys, so every
      stable sort (insertion sort here, Timsort in Python) leaves the list in
      the same order. */
  lemma StableDescendingUnique(keys: seq<StructTime>, p: seq<int>, q: seq<int>)
    requires StableDescending(keys, p) && StableDescending(keys, q)
    ensures p == q
  {
    forall k | 0 <= k < |p|
      ensures p[k] == q[k]
    {
      SameAt(keys, p, q, k);
    }
  }

  /** Induction step of `StableDescendingUnique`: once the two orders agree
      before position `k`, they agree at `k`. */
  lemma {:induction false} SameAt(keys: seq<StructTime>, p: seq<int>, q: seq<int>, k: int)
    requires StableDescending(keys, p) && StableDescending(keys, q)
    requires 0 <= k < |p|
    ensures p[k] == q[k]
    decreases k
  {
    forall j | 0 <= j < k
      ensures p[j] == q[j]
    {
      SameAt(keys, p, q, j);
    }
    var a, b := p[k], q[k];
    if a != b {
      // `a` sits in `q` after position `k`, `b` sits in `p` after position `k`.
      assert a in q;
      var m :| 0 <= m < |q| && q[m] == a;
      if m < k {
        assert false;
      }
      assert b in p;
      var m' :| 0 <= m' < |p| && p[m'] == b;
      if m' < k {
        assert false;
      }
      assert InOrder(keys, b, a) && InOrder(keys, a, b);
      if keys[a] != keys[b] {
        BeforeTotal(keys[a], keys[b]);
      }
      assert false;
    }
  }

  // ---------------------------------------------------------------------
  // The steps of an insertion sort, stated on the permutation it builds.

  /** `s` with the neighbours at `j - 1` and `j` exchanged. */
  function Swap<T>(s: seq<T>, j: int): (r: seq<T>)
    requires 0 < j < |s|
    ensures |r| == |s| && r[j - 1] == s[j] && r[j] == s[j - 1]
    ensures forall k :: 0 <= k < |s| && k != j - 1 && k != j ==> r[k] == s[k]
    ensures multiset(r) == multiset(s)
  {
    var r := s[j - 1 := s[j]][j := s[j - 1]];
    assert r == s[..j - 1] + [s[j], s[j - 1]] + s[j + 1..];
    assert s == s[..j - 1] + [s[j - 1], s[j]] + s[j + 1..];
    r
  }

  /** `perm` holds each position below `n` once, as a multiset equal to
      `Iota(n)`. */
  ghost predicate Shuffle(perm: seq<int>, n: nat)
  {
    |perm| == n &&
    (forall k :: 0 <= k < n ==> 0 <= perm[k] < n) &&
    (forall k, l :: 0 <= k < l < n ==> perm[k] != perm[l]) &&
    multiset(perm) == multiset(Iota(n))
  }

  lemma SwapKeepsShuffle(perm: seq<int>, n: nat, j: int)
    requires Shuffle(perm, n) && 0 < j < n
    ensures Shuffle(Swap(perm, j), n)
  {
    var q := Swap(perm, j);
    forall k, l | 0 <= k < l < n
      ensures q[k] != q[l]
    {
      var k' := if k == j - 1 then j else if k == j then j - 1 else k;
      var l' := if l == j - 1 then j else if l == j then j - 1 else l;
      assert q[k] == perm[k'] && q[l] == perm[l'] && k' != l';
      if k' > l' {
        assert perm[l'] != perm[k'];
      }
    }
  }

  lemma ShuffleIsPermutation(perm: seq<int>, n: nat)
    requires Shuffle(perm, n)
    ensures IsPermutation(perm, n)
  {
    forall v | 0 <= v < n
      ensures v in perm
    {
      assert Iota(n)[v] == v;
      assert v in multiset(Iota(n));
    }
  }

  /** The first `m` positions of the order are in stable descending order. */
  ghost predicate PrefixInOrder(keys: seq<StructTime>, perm: seq<int>, m: int)
    requires 0 <= m <= |perm|
  {
    forall k, l :: 0 <= k < l < m ==> InOrder(keys, perm[k], perm[l])
  }

  /** Insertion of element `i` is under way: it sits at `j`, the others up
      to `i` are in order among themselves, those after `j` all have keys
      strictly before its key, and all came from positions below `i`. */
  ghost predicate Inserting(keys: seq<StructTime>, perm: seq<int>, i: int, j: int)
  {
    |perm| == |keys| && 0 <= j <= i < |perm| && perm[j] == i &&
    (forall k :: 0 <= k <= i && k != j ==> 0 <= perm[k] < i) &&
    (forall k, l :: 0 <= k < l <= i && k != j && l != j ==> InOrder(keys, perm[k], perm[l])) &&
    (forall l :: j < l <= i ==> Before(keys[perm[l]], keys[perm[j]]))
  }

  /** Insertion of element `i` starts with it in its own place, after a
      prefix already in order. */
  lemma InsertStart(keys: seq<StructTime>, perm: seq<int>, i: int)
    requires |perm| == |keys| && 0 <= i < |perm| && perm[i] == i
    requires forall k :: 0 <= k < i ==> 0 <= perm[k] < i
    requires PrefixInOrder(keys, perm, i)
    ensures Inserting(keys, perm, i, i)
  {
  }

  /** Moving the element left past a neighbour whose key is strictly
      before its own keeps the insertion invariant. */
  lemma InsertStep(keys: seq<StructTime>, perm: seq<int>, i: int, j: int)
    requires Inserting(keys, perm, i, j) && 0 < j
    requires Before(keys[perm[j - 1]], keys[perm[j]])
    ensures Inserting(keys, Swap(perm, j), i, j - 1)
  {
    var q := Swap(perm, j);
    forall k, l | 0 <= k < l <= i && k != j - 1 && l != j - 1
      ensures InOrder(keys, q[k], q[l])
    {
      var k' := if k == j then j - 1 else k;
      var l' := if l == j then j - 1 else l;
      assert q[k] == perm[k'] && q[l] == perm[l'];
    }
  }

  /** When the element has stopped (at the front, or behind a key that is
      not before its own), the first `i + 1` positions are in order. */
  lemma InsertDone(keys: seq<StructTime>, perm: seq<int>, i: int, j: int)
    requires Inserting(keys, perm, i, j)
    requires j == 0 || !Before(keys[perm[j - 1]], keys[perm[j]])
    ensures PrefixInOrder(keys, perm, i + 1)
    ensures forall k :: 0 <= k <= i ==> 0 <= perm[k] <= i
  {
    forall k, l | 0 <= k < l <= i
      ensures InOrder(keys, perm[k], perm[l])
    {
      if l == j {
        if k < j - 1 {
          NotBeforeTransitive(keys[perm[k]], keys[perm[j - 1]], keys[perm[j]]);
        }
      } else if k == j {
        BeforeAsymmetric(keys[perm[l]], keys[perm[j]]);
      }
    }
  }
}
