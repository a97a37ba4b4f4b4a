/** Sequence vocabulary shared by the two engine variants: integer ranges, counting,
    ascending sort, the Fisher–Yates swap sequence and the bound on a scaled random draw. */
module Seqs {

  /** `[lo, lo+1, ..., hi]`, empty when `lo > hi`. */
  function Range(lo: int, hi: int): (r: seq<int>)
    ensures |r| == if lo <= hi then hi - lo + 1 else 0
    ensures forall k :: 0 <= k < |r| ==> r[k] == lo + k
    decreases hi - lo
  {
    if lo > hi then [] else [lo] + Range(lo + 1, hi)
  }

  function Min(a: int, b: int): int { if a <= b then a else b }

  function Sum(s: seq<int>): int
  {
    if s == [] then 0 else Sum(s[..|s| - 1]) + s[|s| - 1]
  }

  lemma {:induction false} SumUpdate(s: seq<int>, k: nat, v: int)
    requires k < |s|
    ensures Sum(s[k := v]) == Sum(s) - s[k] + v
    decreases |s|
  {
    var t := s[k := v];
    if k < |s| - 1 {
      assert t[..|t| - 1] == s[..|s| - 1][k := v];
      SumUpdate(s[..|s| - 1], k, v);
    } else {
      assert t[..|t| - 1] == s[..|s| - 1];
    }
  }

  /** `Array(n).fill(v)` sums to `n * v`. */
  lemma {:induction false} SumFill(n: nat, v: int)
    ensures Sum(seq(n, _ => v)) == n * v
  {
    if n > 0 {
      assert seq(n, _ => v)[..n - 1] == seq(n - 1, _ => v);
      SumFill(n - 1, v);
    }
  }

  function Bit(b: bool): nat { if b then 1 else 0 }

  /** Number of `true` entries. */
  function CountTrue(s: seq<bool>): nat
  {
    if s == [] then 0 else CountTrue(s[..|s| - 1]) + Bit(s[|s| - 1])
  }

  lemma {:induction false} CountTrueSet(s: seq<bool>, k: nat)
    requires k < |s| && !s[k]
    ensures CountTrue(s[k := true]) == CountTrue(s) + 1
    decreases |s|
  {
    var t := s[k := true];
    if k < |s| - 1 {
      assert t[..|t| - 1] == s[..|s| - 1][k := true];
      CountTrueSet(s[..|s| - 1], k);
    } else {
      assert t[..|t| - 1] == s[..|s| - 1];
    }
  }

  lemma CountTrueThree(a: bool, b: bool, c: bool)
    ensures CountTrue([a, b, c]) == Bit(a) + Bit(b) + Bit(c)
  {
    assert [a][..0] == [];
    assert CountTrue([a]) == Bit(a);
    assert [a, b][..1] == [a];
    assert CountTrue([a, b]) == Bit(a) + Bit(b);
    assert [a, b, c][..2] == [a, b];
  }

  lemma {:induction false} CountTrueNone(s: seq<bool>)
    requires forall k :: 0 <= k < |s| ==> !s[k]
    ensures CountTrue(s) == 0
    decreases |s|
  {
    if s != [] {
      CountTrueNone(s[..|s| - 1]);
    }
  }

  lemma {:induction false} CountTrueBound(s: seq<bool>)
    ensures CountTrue(s) <= |s|
    ensures CountTrue(s) == |s| <==> forall k :: 0 <= k < |s| ==> s[k]
    decreases |s|
  {
    if s != [] {
      CountTrueBound(s[..|s| - 1]);
      assert forall k :: 0 <= k < |s| - 1 ==> s[..|s| - 1][k] == s[k];
    }
  }

  predicate Sorted(s: seq<int>)
  {
    forall p, q :: 0 <= p < q < |s| ==> s[p] <= s[q]
  }

  predicate StrictlyIncreasing(s: seq<int>)
  {
    forall p, q :: 0 <= p < q < |s| ==> s[p] < s[q]
  }

  predicate Distinct(s: seq<int>)
  {
    forall p, q :: 0 <= p < q < |s| ==> s[p] != s[q]
  }

  /** Each value occurs at most once, stated on the multiset. */
  lemma {:induction false} DistinctMultiplicity(s: seq<int>)
    ensures Distinct(s) <==> forall x :: multiset(s)[x] <= 1
    decreases |s|
  {
    if s == [] {
      return;
    }
    var t := s[..|s| - 1];
    var y := s[|s| - 1];
    assert s == t + [y];
    DistinctMultiplicity(t);
    if Distinct(s) {
      assert Distinct(t);
      assert y !in t;
      forall x ensures multiset(s)[x] <= 1 {
        assert multiset(s)[x] == multiset(t)[x] + multiset([y])[x];
      }
    } else {
      var p, q :| 0 <= p < q < |s| && s[p] == s[q];
      var x := s[p];
      if q < |s| - 1 {
        assert !Distinct(t) by { assert t[p] == t[q]; }
        var z :| multiset(t)[z] > 1;
        assert multiset(s)[z] >= multiset(t)[z];
      } else {
        assert x in t by { assert t[p] == x; }
        assert multiset(s)[x] == multiset(t)[x] + 1;
      }
    }
  }

  lemma DistinctPermutation(a: seq<int>, b: seq<int>)
    requires Distinct(a) && multiset(a) == multiset(b)
    ensures Distinct(b)
  {
    DistinctMultiplicity(a);
    DistinctMultiplicity(b);
  }

  lemma DistinctPrefix(s: seq<int>, n: nat)
    requires Distinct(s) && n <= |s|
    ensures Distinct(s[..n])
  {
    assert forall k :: 0 <= k < n ==> s[..n][k] == s[k];
  }

  lemma SortedDistinctIncreasing(s: seq<int>)
    requires Sorted(s) && Distinct(s)
    ensures StrictlyIncreasing(s)
  {
  }

  lemma {:induction false} RangeDistinct(lo: int, hi: int)
    ensures Distinct(Range(lo, hi))
    ensures forall x :: x in Range(lo, hi) <==> lo <= x <= hi
  {
    var r := Range(lo, hi);
    forall x | lo <= x <= hi ensures x in r {
      assert r[x - lo] == x;
    }
  }

  /** `s` with the entries at `i` and `j` exchanged. */
  function Swap(s: seq<int>, i: nat, j: nat): (r: seq<int>)
    requires i < |s| && j < |s|
    ensures |r| == |s|
    ensures r[i] == s[j] && r[j] == s[i]
    ensures forall k :: 0 <= k < |s| && k != i && k != j ==> r[k] == s[k]
  {
    s[i := s[j]][j := s[i]]
  }

  /** The destructuring swap `[a[i], a[j]] = [a[j], a[i]]` on an array. */
  method SwapElements(arr: array<int>, i: int, j: int)
    requires 0 <= i < arr.Length && 0 <= j < arr.Length
    modifies arr
    ensures arr[..] == Swap(old(arr[..]), i, j)
  {
    arr[i], arr[j] := arr[j], arr[i];
  }

  /** Exchanging two entries keeps the same elements. */
  lemma SwapPermutes(s: seq<int>, i: nat, j: nat)
    requires i < |s| && j < |s|
    ensures multiset(Swap(s, i, j)) == multiset(s)
  {
    var t := s[i := s[j]];
    assert multiset(t) == multiset(s) - multiset{s[i]} + multiset{s[j]};
  }

  /** `js` can drive a Fisher–Yates pass from index `i` down to 1: its k-th entry is
      the partner of index `i - k`, chosen within `[0, i - k]`. */
  predicate IndicesFit(i: nat, js: seq<int>)
  {
    |js| == i && forall k :: 0 <= k < i ==> 0 <= js[k] <= i - k
  }

  /** The descending Fisher–Yates pass: swap index `i` with `js[0]`, then `i - 1` with
      `js[1]`, and so on down to index 1. */
  function SwapDown(a: seq<int>, i: nat, js: seq<int>): (r: seq<int>)
    requires i == 0 || i < |a|
    requires IndicesFit(i, js)
    ensures |r| == |a|
    decreases i
  {
    if i == 0 then a else SwapDown(Swap(a, i, js[0]), i - 1, js[1..])
  }

  /** One step of the pass: the first partner is in range, and the rest of the pass starts
      from the swapped sequence one index lower. */
  lemma SwapDownStep(a: seq<int>, i: nat, js: seq<int>)
    requires 0 < i < |a| && IndicesFit(i, js)
    ensures 0 <= js[0] <= i && IndicesFit(i - 1, js[1..])
    ensures SwapDown(Swap(a, i, js[0]), i - 1, js[1..]) == SwapDown(a, i, js)
  {
    assert js[0] <= i - 0;
  }

  /** A Fisher–Yates pass only exchanges entries: the result is a permutation of the input. */
  lemma {:induction false} SwapDownPermutes(a: seq<int>, i: nat, js: seq<int>)
    requires i == 0 || i < |a|
    requires IndicesFit(i, js)
    ensures multiset(SwapDown(a, i, js)) == multiset(a)
    decreases i
  {
    if i > 0 {
      SwapPermutes(a, i, js[0]);
      SwapDownPermutes(Swap(a, i, js[0]), i - 1, js[1..]);
    }
  }

  /** The highest index a Fisher–Yates pass over `n` items touches (0 for an empty or one-item list). */
  function TopIndex(n: nat): nat { if n == 0 then 0 else n - 1 }

  /** A permutation of `[lo..hi]` holds each value of the range exactly once. */
  lemma PermutationOfRange(s: seq<int>, lo: int, hi: int)
    requires multiset(s) == multiset(Range(lo, hi))
    ensures |s| == |Range(lo, hi)|
    ensures Distinct(s)
    ensures forall x :: x in s <==> lo <= x <= hi
  {
    RangeDistinct(lo, hi);
    DistinctPermutation(Range(lo, hi), s);
    assert |s| == |multiset(s)| == |multiset(Range(lo, hi))| == |Range(lo, hi)|;
    forall x ensures x in s <==> lo <= x <= hi {
      assert x in s <==> x in multiset(s);
      assert x in Range(lo, hi) <==> x in multiset(Range(lo, hi));
    }
  }

  /** Inserts `x` into an ascending list, before the first entry not below it. */
  function Insert(x: int, s: seq<int>): (r: seq<int>)
    ensures multiset(r) == multiset(s) + multiset{x} && |r| == |s| + 1
  {
    if s == [] || x <= s[0] then [x] + s
    else
      assert s == [s[0]] + s[1..];
      [s[0]] + Insert(x, s[1..])
  }

  /** Inserting into an ascending list keeps it ascending. */
  lemma {:induction false} InsertSorted(x: int, s: seq<int>)
    requires Sorted(s)
    ensures Sorted(Insert(x, s))
    ensures Insert(x, s)[0] == x || Insert(x, s)[0] == s[0]
  {
    if s != [] && x > s[0] {
      var t := Insert(x, s[1..]);
      InsertSorted(x, s[1..]);
      assert s[0] <= t[0];
      var r := [s[0]] + t;
      forall p, q | 0 <= p < q < |r| ensures r[p] <= r[q] {
        assert r[q] == t[q - 1];
        if p > 0 {
          assert r[p] == t[p - 1];
        } else {
          assert t[0] <= t[q - 1];
        }
      }
    }
  }

  /** JavaScript's `sort((a, b) => a - b)` on integers: ascending order of the same values. */
  function SortAscending(s: seq<int>): (r: seq<int>)
    ensures Sorted(r) && multiset(r) == multiset(s) && |r| == |s|
  {
    if s == [] then []
    else
      assert s == [s[0]] + s[1..];
      var t := SortAscending(s[1..]);
      InsertSorted(s[0], t);
      Insert(s[0], t)
  }

  /** `floor(x / d * k)` stays in `[0, k)` for `0 <= x < d`: the bound on every scaled draw. */
  lemma ScaledBelow(x: int, d: int, k: int)
    requires 0 <= x < d && 1 <= k
    ensures 0 <= (x * k) / d < k
  {
    assert 0 <= x * k;
    assert x * k < d * k by {
      assert (d - x) * k > 0;
    }
    var q := (x * k) / d;
    assert q * d <= x * k;
  }

  lemma DistinctConcat(a: seq<int>, b: seq<int>)
    requires Distinct(a) && Distinct(b)
    requires forall x :: x in a ==> x !in b
    ensures Distinct(a + b)
  {
    var ab := a + b;
    forall p, q | 0 <= p < q < |ab| ensures ab[p] != ab[q] {
      if p < |a| && q >= |a| {
        assert ab[p] in a && ab[q] == b[q - |a|];
      } else if p >= |a| {
        assert ab[p] == b[p - |a|] && ab[q] == b[q - |a|];
      }
    }
  }

  /** A prefix of a list of non-negative numbers sums to no more than the whole list. */
  lemma {:induction false} SumPrefixBound(s: seq<int>, k: nat)
    requires k <= |s| && forall i :: 0 <= i < |s| ==> 0 <= s[i]
    ensures Sum(s[..k]) <= Sum(s)
    decreases |s|
  {
    if k < |s| {
      var init := s[..|s| - 1];
      assert init[..k] == s[..k];
      SumPrefixBound(init, k);
    } else {
      assert s[..k] == s;
    }
  }

  /** Extending a prefix by one entry adds that entry to its sum. */
  lemma SumPrefixStep(s: seq<int>, k: nat)
    requires k < |s|
    ensures Sum(s[..k + 1]) == Sum(s[..k]) + s[k]
  {
    assert s[..k + 1][..k] == s[..k];
  }

  /** At least one `true` entry exactly when some entry is `true`. */
  lemma {:induction false} CountTruePositive(s: seq<bool>)
    ensures CountTrue(s) >= 1 <==> exists k :: 0 <= k < |s| && s[k]
    decreases |s|
  {
    if s != [] {
      var init := s[..|s| - 1];
      CountTruePositive(init);
      if exists k :: 0 <= k < |init| && init[k] {
        var k :| 0 <= k < |init| && init[k];
        assert s[k];
      }
      if exists k :: 0 <= k < |s| && s[k] {
        var k :| 0 <= k < |s| && s[k];
        if k < |init| {
          assert init[k];
        }
      }
    }
  }

  /** The same elements, as far as membership goes. */
  lemma SameMembers(a: seq<int>, b: seq<int>)
    requires multiset(a) == multiset(b)
    ensures forall x :: x in a <==> x in b
  {
    forall x ensures x in a <==> x in b {
      assert x in a <==> x in multiset(a);
      assert x in b <==> x in multiset(b);
    }
  }

  /** Sorting a prefix of a duplicate-free list gives a strictly increasing list of that
      prefix's length, drawn from the list. */
  lemma SortedPrefix(ordered: seq<int>, k: nat)
    requires Distinct(ordered) && k <= |ordered|
    ensures var r := SortAscending(ordered[..k]);
      && StrictlyIncreasing(r) && |r| == k
      && (forall x :: x in r ==> x in ordered)
      && forall i :: 0 <= i < |r| ==> r[i] in ordered
  {
    var taken := ordered[..k];
    var r := SortAscending(taken);
    DistinctPrefix(ordered, k);
    DistinctPermutation(taken, r);
    SortedDistinctIncreasing(r);
    SameMembers(r, taken);
    assert forall x :: x in taken ==> x in ordered;
  }
}
