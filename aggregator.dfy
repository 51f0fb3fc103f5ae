/**
 * The aggregator: `getValues` collects a height snapshot's values and
 * `median` reduces them to one representative height.
 */
module Aggregator {
  import opened GoInt
  import opened Sorting

  /** Number of elements of `s` that satisfy `p`. */
  function Count(s: seq<int>, p: int -> bool): (n: nat)
    ensures n <= |s|
  {
    if s == [] then 0 else (if p(s[0]) then 1 else 0) + Count(s[1..], p)
  }

  lemma {:induction false} CountConcat(a: seq<int>, b: seq<int>, p: int -> bool)
    ensures Count(a + b, p) == Count(a, p) + Count(b, p)
  {
    if a == [] {
      assert a + b == b;
    } else {
      assert (a + b)[0] == a[0];
      assert (a + b)[1..] == a[1..] + b;
      CountConcat(a[1..], b, p);
    }
  }

  /** Counting depends only on the multiset of elements, not on their order. */
  lemma {:induction false} CountPermutation(s: seq<int>, t: seq<int>, p: int -> bool)
    requires multiset(s) == multiset(t)
    ensures Count(s, p) == Count(t, p)
  {
    if s == [] {
      assert |multiset(t)| == 0;
    } else {
      var x := s[0];
      assert s == [x] + s[1..];
      assert x in multiset(t);
      var k :| 0 <= k < |t| && t[k] == x;
      assert t == t[..k] + [x] + t[k + 1..];
      var rest := t[..k] + t[k + 1..];
      assert multiset(t) == multiset(t[..k]) + multiset{x} + multiset(t[k + 1..]);
      assert multiset(rest) == multiset(t[..k]) + multiset(t[k + 1..]);
      assert multiset(s[1..]) == multiset(s) - multiset{x};
      CountPermutation(s[1..], rest, p);
      CountConcat(t[..k] + [x], t[k + 1..], p);
      CountConcat(t[..k], [x], p);
      CountConcat(t[..k], t[k + 1..], p);
    }
  }

  /** A sequence all of whose elements satisfy `p` is counted in full. */
  lemma {:induction false} CountAll(s: seq<int>, p: int -> bool)
    requires forall i :: 0 <= i < |s| ==> p(s[i])
    ensures Count(s, p) == |s|
  {
    if s != [] {
      CountAll(s[1..], p);
    }
  }

  /**
   * The value `median` reads off its sorted slice (Bot.go:152-157): the
   * middle element for an odd count, the truncating mean of the two middle
   * elements for an even count, the sum taken without overflow.
   */
  function Middle(t: seq<int>): (r: int)
    requires |t| > 0
    ensures t[(|t| - 1) / 2] <= t[|t| / 2] ==> t[(|t| - 1) / 2] <= r <= t[|t| / 2]
  {
    var half := |t| / 2;
    if |t| % 2 == 0 then Half(t[half] + t[half - 1]) else t[half]
  }

  /** `Middle` as written: Go adds the two middle elements in 64-bit `int`, which wraps. */
  function MiddleAsWritten(t: seq<int>): (r: int)
    requires |t| > 0
    ensures |t| % 2 == 0 ==> MinInt64 <= r <= MaxInt64
    ensures (|t| % 2 == 0 ==> MinInt64 <= t[|t| / 2] + t[|t| / 2 - 1] <= MaxInt64) ==> r == Middle(t)
  {
    var half := |t| / 2;
    if |t| % 2 == 0 then Half(Wrap(t[half] + t[half - 1])) else t[half]
  }

  /** The median `median` means to compute: `Middle` of the ascending arrangement. */
  ghost function MedianOf(s: seq<int>): (r: int)
    requires |s| > 0
    ensures exists i, j :: 0 <= i < |s| && 0 <= j < |s| && s[i] <= r <= s[j]
    ensures |s| % 2 == 1 ==> r in multiset(s)
  {
    var t := SortSeq(s);
    var lo, hi := (|t| - 1) / 2, |t| / 2;
    assert t[lo] in multiset(s) && t[hi] in multiset(s);
    Middle(t)
  }

  /** The median `median` computes as written, with the wrapping middle sum. */
  ghost function MedianAsWritten(s: seq<int>): (r: int)
    requires |s| > 0
    ensures |s| % 2 == 1 ==> r == MedianOf(s)
  {
    MiddleAsWritten(SortSeq(s))
  }

  /**
   * The median read off any ascending arrangement `t` of the input: index
   * n/2 for an odd length n, the truncating mean of indices n/2 - 1 and n/2
   * for an even length.
   */
  lemma MedianOfSortedArrangement(s: seq<int>, t: seq<int>)
    requires |s| > 0
    requires Sorted(t) && multiset(t) == multiset(s)
    ensures |t| == |s|
    ensures |s| % 2 == 1 ==> MedianOf(s) == t[|s| / 2]
    ensures |s| % 2 == 0 ==> MedianOf(s) == Half(t[|s| / 2] + t[|s| / 2 - 1])
  {
    SortedPermutationIsSortSeq(s, t);
  }

  /** The median does not depend on the order of the input. */
  lemma MedianOrderIndependent(s: seq<int>, t: seq<int>)
    requires |s| > 0
    requires multiset(s) == multiset(t)
    ensures |t| > 0 && MedianOf(s) == MedianOf(t)
  {
    assert |t| == |multiset(t)| == |multiset(s)| == |s|;
    SortedPermutationIsSortSeq(t, SortSeq(s));
  }

  function Reversed(s: seq<int>): (r: seq<int>)
    ensures |r| == |s|
    ensures forall k :: 0 <= k < |s| ==> r[k] == s[|s| - 1 - k]
  {
    if s == [] then [] else Reversed(s[1..]) + [s[0]]
  }

  lemma {:induction false} ReversedPermutation(s: seq<int>)
    ensures multiset(Reversed(s)) == multiset(s)
  {
    if s != [] {
      ReversedPermutation(s[1..]);
      assert s == [s[0]] + s[1..];
    }
  }

  lemma MedianOfReversed(s: seq<int>)
    requires |s| > 0
    ensures MedianOf(Reversed(s)) == MedianOf(s)
  {
    ReversedPermutation(s);
    MedianOrderIndependent(s, Reversed(s));
  }

  /** A prefix of `k` elements satisfying `p` contributes `k` to the count. */
  lemma CountPrefix(t: seq<int>, k: nat, p: int -> bool)
    requires k <= |t|
    requires forall i :: 0 <= i < k ==> p(t[i])
    ensures Count(t, p) >= k
  {
    assert t == t[..k] + t[k..];
    CountAll(t[..k], p);
    CountConcat(t[..k], t[k..], p);
  }

  /** A suffix from index `k` on satisfying `p` contributes `|t| - k` to the count. */
  lemma CountSuffix(t: seq<int>, k: nat, p: int -> bool)
    requires k <= |t|
    requires forall i :: k <= i < |t| ==> p(t[i])
    ensures Count(t, p) >= |t| - k
  {
    assert t == t[..k] + t[k..];
    CountAll(t[k..], p);
    CountConcat(t[..k], t[k..], p);
  }

  /**
   * On a sorted sequence, at least half of the elements (rounded up) are at
   * most `Middle` and at least half are at least `Middle`.
   */
  lemma MiddleSplitsSorted(t: seq<int>, m: int)
    requires |t| > 0 && Sorted(t)
    requires m == Middle(t)
    ensures Count(t, x => x <= m) >= (|t| + 1) / 2
    ensures Count(t, x => x >= m) >= (|t| + 1) / 2
  {
    var le: int -> bool := x => x <= m;
    var ge: int -> bool := x => x >= m;
    var lo, hi := (|t| - 1) / 2, |t| / 2;
    assert t[lo] <= t[hi];
    assert forall i :: 0 <= i <= lo ==> le(t[i]);
    assert forall i :: hi <= i < |t| ==> ge(t[i]);
    CountPrefix(t, lo + 1, le);
    CountSuffix(t, hi, ge);
  }

  /**
   * The median splits the input: at least half of the elements (rounded up)
   * are at most the median and at least half are at least the median; for
   * an odd count it is one of the elements.
   */
  lemma MedianSplitsInput(s: seq<int>)
    requires |s| > 0
    ensures var m := MedianOf(s);
      && Count(s, x => x <= m) >= (|s| + 1) / 2
      && Count(s, x => x >= m) >= (|s| + 1) / 2
      && (|s| % 2 == 1 ==> m in multiset(s))
  {
    var t := SortSeq(s);
    var m := MedianOf(s);
    assert m == Middle(t);
    MiddleSplitsSorted(t, m);
    CountPermutation(s, t, x => x <= m);
    CountPermutation(s, t, x => x >= m);
    if |s| % 2 == 1 {
      assert t[|t| / 2] in multiset(t);
    }
  }

  /**
   * The median lies within any bounds on the input, in particular between
   * its least and greatest element; with the 64-bit bounds, the median of
   * 64-bit values is a 64-bit value.
   */
  lemma MedianInRange(s: seq<int>, lo: int, hi: int)
    requires |s| > 0
    requires forall k :: 0 <= k < |s| ==> lo <= s[k] <= hi
    ensures lo <= MedianOf(s) <= hi
  {
    var i, j :| 0 <= i < |s| && 0 <= j < |s| && s[i] <= MedianOf(s) <= s[j];
  }

  const TwoTo62: int := 0x4000_0000_0000_0000

  /**
   * For values in [0, 2^62) (every height `getPoolHeight` can return that is
   * below 2^62) the middle sum cannot overflow, and `median` as written
   * returns the intended median.
   */
  lemma AsWrittenBelowTwoTo62(s: seq<int>)
    requires |s| > 0
    requires forall i :: 0 <= i < |s| ==> 0 <= s[i] < TwoTo62
    ensures MedianAsWritten(s) == MedianOf(s)
  {
    var t := SortSeq(s);
    var half := |t| / 2;
    if |t| % 2 == 0 {
      assert t[half] in multiset(s) && t[half - 1] in multiset(s);
      assert 0 <= t[half] < TwoTo62 && 0 <= t[half - 1] < TwoTo62;
    }
  }

  /**
   * Two equal heights of 2^62: the middle sum 2^63 wraps to -2^63, so
   * `median` as written returns -2^62, below every input, while the
   * intended median is 2^62.
   */
  lemma MedianOverflowWitness()
    ensures MedianAsWritten([TwoTo62, TwoTo62]) == -TwoTo62
    ensures MedianOf([TwoTo62, TwoTo62]) == TwoTo62
  {
    var s := [TwoTo62, TwoTo62];
    assert SortSeq(s) == s by {
      SortedPermutationIsSortSeq(s, s);
    }
  }

  /**
   * Go's `median` (Bot.go:149-160): sorts the slice in place with
   * `sort.Ints`, then returns the median of the sorted slice. The slice
   * must be non-empty: `heights[half]` is out of range for an empty one.
   */
  method Median(heights: array<Int64>) returns (m: Int64)
    requires heights.Length > 0
    modifies heights
    ensures Sorted(heights[..])
    ensures multiset(heights[..]) == multiset(old(heights[..]))
    ensures m == MedianOf(old(heights[..]))
  {
    SortInts(heights);
    var half := heights.Length / 2;
    m := heights[half];
    if heights.Length % 2 == 0 {
      HalfOfSumBetween(heights[half - 1], heights[half]);
      m := Half(m + heights[half - 1]);
    }
    MedianOfSortedArrangement(old(heights[..]), heights[..]);
  }

  /**
   * Sorted inputs of one to four values: [5] gives 5, [1,2,3] gives 2,
   * [1,2,3,4] gives 2 (the truncated mean of 2 and 3).
   */
  lemma MedianOfSortedSmall(t: seq<int>)
    requires 1 <= |t| <= 4 && Sorted(t)
    ensures |t| == 1 ==> MedianOf(t) == t[0]
    ensures |t| == 2 ==> MedianOf(t) == Half(t[0] + t[1])
    ensures |t| == 3 ==> MedianOf(t) == t[1]
    ensures |t| == 4 ==> MedianOf(t) == Half(t[1] + t[2])
  {
    MedianOfSortedArrangement(t, t);
    assert |t| == 2 ==> t[|t| / 2] + t[|t| / 2 - 1] == t[0] + t[1];
    assert |t| == 4 ==> t[|t| / 2] + t[|t| / 2 - 1] == t[1] + t[2];
  }

  /** The keys of `m` that map to `v`. */
  function KeysWith<K>(m: map<K, int>, v: int): set<K>
  {
    set k | k in m && m[k] == v
  }

  /** Removing key `k` removes it from the keys with its own value only. */
  lemma KeysWithRemove<K>(m: map<K, int>, k: K, v: int)
    requires k in m
    ensures |KeysWith(m, v)| == (if v == m[k] then 1 else 0) + |KeysWith(m - {k}, v)|
  {
    if v == m[k] {
      assert KeysWith(m, v) == KeysWith(m - {k}, v) + {k};
    } else {
      assert KeysWith(m, v) == KeysWith(m - {k}, v);
    }
  }

  /**
   * The values of a map with their multiplicities: one occurrence per key,
   * so each value occurs as often as there are keys mapping to it. The key
   * taken first is arbitrary; `ValueBagRemove` shows that any key can be
   * taken first.
   */
  ghost function ValueBag<K>(m: map<K, int>): (b: multiset<int>)
    ensures |b| == |m|
    ensures forall v :: v in b <==> v in m.Values
    ensures forall v :: b[v] == |KeysWith(m, v)|
    decreases |m|
  {
    if m == map[] then multiset{}
    else
      var k :| k in m;
      var rest := m - {k};
      assert rest.Keys == m.Keys - {k};
      assert |rest| == |m| - 1;
      var b := multiset{m[k]} + ValueBag(rest);
      assert forall v :: v in m.Values <==> v == m[k] || v in rest.Values by {
        forall v | v in m.Values ensures v == m[k] || v in rest.Values {
          var j :| j in m && m[j] == v;
          if j != k { assert j in rest; }
        }
      }
      assert forall v :: b[v] == |KeysWith(m, v)| by {
        forall v ensures b[v] == |KeysWith(m, v)| {
          KeysWithRemove(m, k, v);
        }
      }
      b
  }

  lemma {:induction false} ValueBagRemove<K>(m: map<K, int>, k: K)
    requires k in m
    ensures ValueBag(m) == multiset{m[k]} + ValueBag(m - {k})
    decreases |m|
  {
    var j :| j in m && ValueBag(m) == multiset{m[j]} + ValueBag(m - {j});
    if j != k {
      var mj, mk := m - {j}, m - {k};
      assert (mj - {k}) == (mk - {j});
      assert (mj).Keys == m.Keys - {j};
      assert |mj| == |m| - 1;
      assert (mk).Keys == m.Keys - {k};
      assert |mk| == |m| - 1;
      ValueBagRemove(mj, k);
      ValueBagRemove(mk, j);
    }
  }

  /**
   * Go's `getValues` (Bot.go:139-147): appends every value of the map to a
   * fresh slice, in the map's iteration order.
   */
  method GetValues<K>(heights: map<K, int>) returns (values: seq<int>)
    ensures |values| == |heights|
    ensures multiset(values) == ValueBag(heights)
  {
    values := [];
    var rest := heights;
    while rest != map[]
      invariant forall k :: k in rest ==> k in heights && rest[k] == heights[k]
      invariant multiset(values) + ValueBag(rest) == ValueBag(heights)
      invariant |values| + |rest| == |heights|
      decreases |rest|
    {
      var k :| k in rest;
      ValueBagRemove(rest, k);
      values := values + [rest[k]];
      rest := rest - {k};
    }
  }

  /**
   * `median(getValues(heights))`, the aggregate height that `main` and
   * `heightWatcher` publish (Bot.go:52, Bot.go:77): the median of the
   * snapshot's values, whatever order the map yields them in. The snapshot
   * must be non-empty: for an empty one `median` indexes out of range.
   */
  method AggregateHeight(heights: map<string, Int64>) returns (height: Int64)
    requires |heights| > 0
    ensures forall values :: multiset(values) == ValueBag(heights) ==>
      |values| > 0 && height == MedianOf(values)
  {
    var values := GetValues(heights);
    forall i | 0 <= i < |values| ensures MinInt64 <= values[i] <= MaxInt64 {
      assert values[i] in ValueBag(heights);
    }
    var slice := new Int64[|values|](i requires 0 <= i < |values| => values[i]);
    assert slice[..] == values;
    height := Median(slice);
    forall other | multiset(other) == ValueBag(heights) ensures |other| > 0 && height == MedianOf(other) {
      MedianOrderIndependent(values, other);
    }
  }
}
