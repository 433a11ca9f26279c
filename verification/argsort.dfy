/**
 * The contract of NumPy's `argsort` and of `np.flip(np.argsort(...))`: a
 * permutation of the positions that lists the keys in ascending (descending)
 * order. How ties are broken is left open by NumPy; the functions here break
 * them one particular way. The exact result of `bias_knn` is stated for that
 * tie-break; `RankAtMostAtLeastAsHeavy` and `HeavierAtMostRank` hold for any
 * descending order, and the tie-independent properties of `bias_knn` rest on
 * them.
 */
module Argsort {

  predicate IndicesBelow(p: seq<nat>, n: nat) {
    forall a :: 0 <= a < |p| ==> p[a] < n
  }

  predicate Distinct(p: seq<nat>) {
    forall a, b :: 0 <= a < b < |p| ==> p[a] != p[b]
  }

  /** `p` lists each of the positions 0 .. n-1 exactly once. */
  predicate IsPermutation(p: seq<nat>, n: nat) {
    && |p| == n
    && IndicesBelow(p, n)
    && Distinct(p)
    && (forall j: nat :: j < n ==> j in p)
  }

  predicate AscendingBy(keys: seq<real>, p: seq<nat>)
    requires IndicesBelow(p, |keys|)
  {
    forall a, b :: 0 <= a < b < |p| ==> keys[p[a]] <= keys[p[b]]
  }

  predicate DescendingBy(keys: seq<real>, p: seq<nat>)
    requires IndicesBelow(p, |keys|)
  {
    forall a, b :: 0 <= a < b < |p| ==> keys[p[a]] >= keys[p[b]]
  }

  /** The positions 0 .. n-1 in order (`np.arange(n)`). */
  function Range(n: nat): (r: seq<nat>)
    ensures |r| == n
    ensures forall a :: 0 <= a < n ==> r[a] == a
  {
    if n == 0 then [] else Range(n - 1) + [n - 1]
  }

  /** Inserts position `x` into the key-ascending list `s`, after every strictly smaller key. */
  function Insert(keys: seq<real>, x: nat, s: seq<nat>): (r: seq<nat>)
    requires x < |keys| && IndicesBelow(s, |keys|) && AscendingBy(keys, s)
    requires Distinct(s) && x !in s
    ensures multiset(r) == multiset(s) + multiset{x}
    ensures IndicesBelow(r, |keys|) && AscendingBy(keys, r) && Distinct(r)
    decreases |s|
  {
    if s == [] || keys[x] <= keys[s[0]] then
      PrependKeepsOrder(keys, x, s);
      [x] + s
    else
      TailKeepsOrder(keys, s);
      var rest := Insert(keys, x, s[1..]);
      InsertBehind(keys, x, s, rest);
      [s[0]] + rest
  }

  /** The tail of an ascending list of distinct positions is one too. */
  lemma {:induction false} TailKeepsOrder(keys: seq<real>, s: seq<nat>)
    requires s != [] && IndicesBelow(s, |keys|) && AscendingBy(keys, s) && Distinct(s)
    ensures IndicesBelow(s[1..], |keys|) && AscendingBy(keys, s[1..]) && Distinct(s[1..])
  {
    var t := s[1..];
    forall a, b | 0 <= a < b < |t| ensures keys[t[a]] <= keys[t[b]] && t[a] != t[b] {
      assert t[a] == s[a + 1] && t[b] == s[b + 1];
    }
  }

  /**
   * A position whose key exceeds the head's goes behind the head: the head in
   * front of the tail with `x` inserted is ascending, distinct, and holds `s`
   * and `x`.
   */
  lemma {:induction false} InsertBehind(keys: seq<real>, x: nat, s: seq<nat>, rest: seq<nat>)
    requires x < |keys| && IndicesBelow(s, |keys|) && AscendingBy(keys, s) && Distinct(s)
    requires s != [] && x !in s && keys[s[0]] < keys[x]
    requires multiset(rest) == multiset(s[1..]) + multiset{x}
    requires IndicesBelow(rest, |keys|) && AscendingBy(keys, rest) && Distinct(rest)
    ensures multiset([s[0]] + rest) == multiset(s) + multiset{x}
    ensures IndicesBelow([s[0]] + rest, |keys|) && AscendingBy(keys, [s[0]] + rest) && Distinct([s[0]] + rest)
  {
    assert s == [s[0]] + s[1..];
    forall y | y in rest ensures keys[s[0]] <= keys[y] && s[0] != y {
      assert y in multiset(rest);
      if y != x {
        assert y in multiset(s[1..]);
        var b :| 0 <= b < |s[1..]| && s[1..][b] == y;
        assert s[b + 1] == y;
      }
    }
    PrependKeepsOrder(keys, s[0], rest);
  }

  /** Putting in front a new position whose key is at most every key of `s` keeps `s` ascending and distinct. */
  lemma {:induction false} PrependKeepsOrder(keys: seq<real>, y: nat, s: seq<nat>)
    requires y < |keys| && IndicesBelow(s, |keys|) && AscendingBy(keys, s) && Distinct(s)
    requires forall z :: z in s ==> keys[y] <= keys[z] && y != z
    ensures IndicesBelow([y] + s, |keys|) && AscendingBy(keys, [y] + s) && Distinct([y] + s)
  {
    var r := [y] + s;
    forall a, b | 0 <= a < b < |r| ensures keys[r[a]] <= keys[r[b]] && r[a] != r[b] {
      if a > 0 {
        assert r[a] == s[a - 1] && r[b] == s[b - 1];
      } else {
        assert r[b] == s[b - 1] && r[b] in s;
      }
    }
  }

  /** Sorts the distinct positions `xs` by ascending key. */
  function SortPositions(keys: seq<real>, xs: seq<nat>): (r: seq<nat>)
    requires IndicesBelow(xs, |keys|) && Distinct(xs)
    ensures multiset(r) == multiset(xs)
    ensures IndicesBelow(r, |keys|) && AscendingBy(keys, r) && Distinct(r)
  {
    if xs == [] then []
    else
      HeadNotInTail(xs, |keys|);
      var rest := SortPositions(keys, xs[1..]);
      assert xs[0] !in multiset(rest);
      Insert(keys, xs[0], rest)
  }

  /** Splitting a list of distinct positions into its head and tail. */
  lemma {:induction false} HeadNotInTail(xs: seq<nat>, n: nat)
    requires xs != [] && IndicesBelow(xs, n) && Distinct(xs)
    ensures xs[0] < n && xs[0] !in xs[1..]
    ensures IndicesBelow(xs[1..], n) && Distinct(xs[1..])
    ensures multiset(xs) == multiset(xs[1..]) + multiset{xs[0]}
  {
    var t := xs[1..];
    assert xs == [xs[0]] + t;
    forall a | 0 <= a < |t| ensures t[a] != xs[0] {
      assert t[a] == xs[a + 1];
    }
    forall a, b | 0 <= a < b < |t| ensures t[a] != t[b] {
      assert t[a] == xs[a + 1] && t[b] == xs[b + 1];
    }
  }

  /** `np.arange(n)` lists every position below `n` exactly once. */
  lemma {:induction false} RangeIsPermutation(n: nat)
    ensures IsPermutation(Range(n), n)
  {
    forall j: nat | j < n
      ensures j in Range(n)
    {
      assert Range(n)[j] == j;
    }
  }

  /** `np.argsort(keys)`: the positions of `keys`, ordered by ascending key. */
  function ArgsortAscending(keys: seq<real>): (p: seq<nat>)
    ensures IsPermutation(p, |keys|)
    ensures AscendingBy(keys, p)
  {
    var r := Range(|keys|);
    var p := SortPositions(keys, r);
    assert |p| == |keys| by {
      assert |multiset(p)| == |multiset(r)|;
    }
    assert forall j: nat :: j < |keys| ==> j in p by {
      forall j: nat | j < |keys| ensures j in p {
        assert r[j] == j;
        assert j in multiset(r);
      }
    }
    p
  }

  /** `np.flip(p)`: the positions in reverse order. */
  function Reversed(p: seq<nat>): (r: seq<nat>)
    ensures |r| == |p| && forall a :: 0 <= a < |p| ==> r[a] == p[|p| - 1 - a]
  {
    seq(|p|, a requires 0 <= a < |p| => p[|p| - 1 - a])
  }

  /** Reversing a permutation gives a permutation. */
  lemma {:induction false} ReversedPermutation(p: seq<nat>, n: nat)
    requires IsPermutation(p, n)
    ensures IsPermutation(Reversed(p), n)
  {
    var r := Reversed(p);
    forall a, b | 0 <= a < b < n ensures r[a] != r[b] {
      assert r[a] == p[n - 1 - a] && r[b] == p[n - 1 - b];
    }
    forall j: nat | j < n ensures j in r {
      assert j in p;
      var a :| 0 <= a < n && p[a] == j;
      assert r[n - 1 - a] == j;
    }
  }

  /** Reversing an ascending order gives a descending one. */
  lemma {:induction false} ReversedDescending(keys: seq<real>, p: seq<nat>)
    requires IndicesBelow(p, |keys|) && AscendingBy(keys, p)
    ensures IndicesBelow(Reversed(p), |keys|) && DescendingBy(keys, Reversed(p))
  {
    var r := Reversed(p);
    var n := |p|;
    forall a, b | 0 <= a < b < n ensures keys[r[a]] >= keys[r[b]] {
      assert r[a] == p[n - 1 - a] && r[b] == p[n - 1 - b];
    }
  }

  /** `np.flip(np.argsort(keys))`: the positions of `keys`, ordered by descending key. */
  function ArgsortDescending(keys: seq<real>): (p: seq<nat>)
    ensures IsPermutation(p, |keys|)
    ensures DescendingBy(keys, p)
  {
    var asc := ArgsortAscending(keys);
    ReversedPermutation(asc, |keys|);
    ReversedDescending(keys, asc);
    Reversed(asc)
  }

  /** The positions other than `p` whose key is at least `keys[p]`. */
  function AtLeastAsHeavy(keys: seq<real>, p: nat): set<nat>
    requires p < |keys|
  {
    set q: nat | q < |keys| && q != p && keys[q] >= keys[p]
  }

  /** The positions whose key is strictly greater than `keys[p]`. */
  function Heavier(keys: seq<real>, p: nat): set<nat>
    requires p < |keys|
  {
    set q: nat | q < |keys| && keys[q] > keys[p]
  }

  /** The first `a` entries of a list without repeats are `a` different positions. */
  lemma {:induction false} PrefixCard(order: seq<nat>, a: nat)
    requires Distinct(order) && a <= |order|
    ensures |set b | 0 <= b < a :: order[b]| == a
  {
    if a > 0 {
      PrefixCard(order, a - 1);
      var s := set b | 0 <= b < a - 1 :: order[b];
      assert (set b | 0 <= b < a :: order[b]) == s + {order[a - 1]};
      assert order[a - 1] !in s;
    }
  }

  /**
   * Whatever order a descending sort gives equal keys, the position it puts at
   * rank `a` has at least `a` other positions with a key at least as large.
   */
  lemma {:induction false} RankAtMostAtLeastAsHeavy(keys: seq<real>, order: seq<nat>, a: nat)
    requires IsPermutation(order, |keys|) && DescendingBy(keys, order) && a < |order|
    ensures a <= |AtLeastAsHeavy(keys, order[a])|
  {
    var prefix := set b | 0 <= b < a :: order[b];
    PrefixCard(order, a);
    assert prefix <= AtLeastAsHeavy(keys, order[a]);
    SubsetCard(prefix, AtLeastAsHeavy(keys, order[a]));
  }

  /**
   * Whatever order a descending sort gives equal keys, every position with a
   * strictly larger key than the one at rank `a` is ranked before it.
   */
  lemma {:induction false} HeavierAtMostRank(keys: seq<real>, order: seq<nat>, a: nat)
    requires IsPermutation(order, |keys|) && DescendingBy(keys, order) && a < |order|
    ensures |Heavier(keys, order[a])| <= a
  {
    var prefix := set b | 0 <= b < a :: order[b];
    PrefixCard(order, a);
    forall q | q in Heavier(keys, order[a]) ensures q in prefix {
      assert q < |keys| && q in order;
      var b :| 0 <= b < |order| && order[b] == q;
      assert b != a;
    }
    SubsetCard(Heavier(keys, order[a]), prefix);
  }

  lemma {:induction false} SubsetCard(x: set<nat>, y: set<nat>)
    requires x <= y
    ensures |x| <= |y|
  {
    assert y == x + (y - x);
  }
}
