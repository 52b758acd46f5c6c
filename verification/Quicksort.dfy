/** The iterative quicksort of the `example-fed` workload: median of three, scans without
    bounds checks, an explicit stack of `NSTACK` slots, and insertion sort for short segments.

    Pointers into the array are modelled by their index.  As in the source, a segment is named
    by `l` and `ir` and holds the elements `a[l - 1..ir]`. */
module Quicksort {
  const NSTACK: nat := 50
  const INSERTION_THRESHOLD: nat := 10

  ghost predicate Sorted(s: seq<int>, lo: int, hi: int) {
    forall x, y :: 0 <= lo <= x < y < hi <= |s| ==> s[x] <= s[y]
  }

  // `t` is `s` with the elements `lo..hi` reordered.
  ghost predicate Rearranged(s: seq<int>, t: seq<int>, lo: int, hi: int) {
    && |s| == |t|
    && multiset(s) == multiset(t)
    && (forall k :: 0 <= k < |s| && !(lo <= k < hi) ==> s[k] == t[k])
  }

  lemma SwapRearranges(s: seq<int>, x: int, y: int, lo: int, hi: int)
    requires lo <= x < hi && lo <= y < hi && 0 <= lo <= hi <= |s|
    ensures Rearranged(s, s[x := s[y]][y := s[x]], lo, hi)
  {
    var u := s[x := s[y]];
    assert multiset(u) == multiset(s) - multiset{s[x]} + multiset{s[y]};
    assert multiset(u[y := s[x]]) == multiset(u) - multiset{u[y]} + multiset{s[x]};
    assert u[y] == s[y];
  }

  // Every element of a reordered segment was in that segment before.
  lemma RearrangedFrom(s: seq<int>, t: seq<int>, lo: int, hi: int, y: int) returns (x: int)
    requires Rearranged(s, t, lo, hi) && 0 <= lo <= y < hi <= |s|
    ensures lo <= x < hi && t[y] == s[x]
  {
    var v := t[y];
    CountSplit(s, lo, hi, v);
    CountSplit(t, lo, hi, v);
    assert s[..lo] == t[..lo] && s[hi..] == t[hi..];
    assert v == t[lo..hi][y - lo];
    assert v in s[lo..hi];
    var k :| 0 <= k < hi - lo && s[lo..hi][k] == v;
    x := lo + k;
  }

  lemma CountSplit(s: seq<int>, lo: int, hi: int, v: int)
    requires 0 <= lo <= hi <= |s|
    ensures multiset(s)[v] == multiset(s[..lo])[v] + multiset(s[lo..hi])[v] + multiset(s[hi..])[v]
  {
    assert s == s[..lo] + s[lo..hi] + s[hi..];
  }

  method Swap(a: array<int>, x: int, y: int, ghost lo: int, ghost hi: int)
    requires 0 <= lo <= x < hi <= a.Length && lo <= y < hi
    modifies a
    ensures a[x] == old(a[y]) && a[y] == old(a[x])
    ensures forall k :: 0 <= k < a.Length && k != x && k != y ==> a[k] == old(a[k])
    ensures Rearranged(old(a[..]), a[..], lo, hi)
  {
    SwapRearranges(a[..], x, y, lo, hi);
    ghost var t := a[..][x := a[y]][y := a[x]];
    a[x], a[y] := a[y], a[x];
    assert a[..] == t;
  }

  method SwapIfGreater(a: array<int>, x: int, y: int, ghost lo: int, ghost hi: int)
    requires 0 <= lo <= x < hi <= a.Length && lo <= y < hi
    modifies a
    ensures if old(a[x]) > old(a[y]) then a[x] == old(a[y]) && a[y] == old(a[x])
            else a[x] == old(a[x]) && a[y] == old(a[y])
    ensures forall k :: 0 <= k < a.Length && k != x && k != y ==> a[k] == old(a[k])
    ensures Rearranged(old(a[..]), a[..], lo, hi)
  {
    if a[x] > a[y] {
      Swap(a, x, y, lo, hi);
    }
  }

  // ---------------------------------------------------------------- insertion sort

  /** Sorts the `n` elements from `lo`; nothing else moves. */
  method InsertionSort(a: array<int>, lo: int, n: int)
    requires 0 <= lo && 0 <= n && lo + n <= a.Length
    modifies a
    ensures Rearranged(old(a[..]), a[..], lo, lo + n)
    ensures Sorted(a[..], lo, lo + n)
  {
    var i := lo + 1;
    while i < lo + n
      invariant lo + 1 <= i && (n > 0 ==> i <= lo + n)
      invariant Rearranged(old(a[..]), a[..], lo, lo + n)
      invariant Sorted(a[..], lo, if i <= lo + n then i else lo + n)
    {
      ghost var s := a[..];
      var j := Insert(a, lo, i);
      MovedDownRearranges(s, j, i, lo, lo + n);
      MovedDownSorts(s, lo, j, i);
      i := i + 1;
    }
  }

  // The sequence `s` with the element at `i` moved down to `j`.
  ghost function MovedDown(s: seq<int>, j: int, i: int): (t: seq<int>)
    requires 0 <= j <= i < |s|
    ensures |t| == |s|
  {
    s[..j] + [s[i]] + s[j..i] + s[i + 1..]
  }

  lemma MovedDownIs(s: seq<int>, t: seq<int>, j: int, i: int)
    requires 0 <= j <= i < |s| == |t| && t[j] == s[i]
    requires forall k :: 0 <= k < j || i < k < |s| ==> t[k] == s[k]
    requires forall k :: j < k <= i ==> t[k] == s[k - 1]
    ensures t == MovedDown(s, j, i)
  {
  }

  lemma MovedDownRearranges(s: seq<int>, j: int, i: int, lo: int, hi: int)
    requires 0 <= lo <= j <= i < hi <= |s|
    ensures Rearranged(s, MovedDown(s, j, i), lo, hi)
  {
    assert s == s[..j] + s[j..i] + [s[i]] + s[i + 1..];
  }

  lemma MovedDownSorts(s: seq<int>, lo: int, j: int, i: int)
    requires 0 <= lo <= j <= i < |s| && Sorted(s, lo, i)
    requires j > lo ==> s[j - 1] <= s[i]
    requires j < i ==> s[i] < s[j]
    ensures Sorted(MovedDown(s, j, i), lo, i + 1)
  {
  }

  // Moves a[i] down past the larger elements before it, but not below a[lo].
  method Insert(a: array<int>, lo: int, i: int) returns (j: int)
    requires 0 <= lo < i < a.Length
    modifies a
    ensures lo <= j <= i
    ensures a[..] == MovedDown(old(a[..]), j, i)
    ensures j > lo ==> old(a[j - 1]) <= old(a[i])
    ensures j < i ==> old(a[i]) < old(a[j])
  {
    var value := a[i];
    j := i;
    ghost var s := a[..];
    while value < a[j - 1]
      invariant lo < j <= i
      invariant forall k :: 0 <= k < j || i < k < a.Length ==> a[k] == s[k]
      invariant forall k :: j < k <= i ==> a[k] == s[k - 1]
      invariant j < i ==> value < s[j]
      decreases j
    {
      a[j] := a[j - 1];
      j := j - 1;
      if j == lo {
        break;
      }
    }
    a[j] := value;
    MovedDownIs(s, a[..], j, i);
  }

  // ---------------------------------------------------------------- partition

  function Median(x: int, y: int, z: int): int {
    if x <= y <= z || z <= y <= x then y else if y <= x <= z || z <= x <= y then x else z
  }

  /** Leaves a[l - 1] <= a[l] <= a[ir - 1]: the pivot a[l] is the median of the first, middle and last
      element, and the outer two are the sentinels of the scans. */
  method MedianOfThree(a: array<int>, l: int, ir: int)
    requires 1 <= l && l + 2 <= ir <= a.Length
    modifies a
    ensures a[l - 1] <= a[l] <= a[ir - 1]
    ensures a[l] == Median(old(a[l - 1]), old(a[(l + ir) / 2 - 1]), old(a[ir - 1]))
    ensures Rearranged(old(a[..]), a[..], l - 1, ir)
  {
    Swap(a, (l + ir) / 2 - 1, l, l - 1, ir);
    SwapIfGreater(a, l - 1, ir - 1, l - 1, ir);
    SwapIfGreater(a, l, ir - 1, l - 1, ir);
    SwapIfGreater(a, l - 1, l, l - 1, ir);
  }

  /** The unguarded upward scan stops no later than at the sentinel. */
  method ScanUp(a: array<int>, start: int, v: int, ghost sentinel: int) returns (i: int)
    requires 0 <= start <= sentinel < a.Length && a[sentinel] >= v
    ensures start < i <= sentinel + 1 && a[i - 1] >= v
    ensures forall k :: start <= k < i - 1 ==> a[k] < v
    ensures a[start] >= v ==> i == start + 1
  {
    i := start;
    while a[i] < v
      invariant start <= i <= sentinel
      invariant forall k :: start <= k < i ==> a[k] < v
      decreases sentinel - i
    {
      i := i + 1;
    }
    i := i + 1;
  }

  /** The unguarded downward scan, which reads a[j - 2], stops no later than at the sentinel. */
  method ScanDown(a: array<int>, start: int, v: int, ghost sentinel: int) returns (j: int)
    requires 0 <= sentinel <= start - 2 < a.Length && a[sentinel] <= v
    ensures sentinel + 1 <= j < start && a[j - 1] <= v
    ensures forall k :: j <= k < start - 1 ==> a[k] > v
    ensures a[start - 2] <= v ==> j == start - 1
  {
    j := start;
    while a[j - 2] > v
      invariant sentinel + 2 <= j <= start
      invariant forall k :: j - 1 <= k < start - 1 ==> a[k] > v
      decreases j
    {
      j := j - 1;
    }
    j := j - 1;
  }

  ghost predicate AllEqual(s: seq<int>) {
    forall x, y :: 0 <= x < |s| && 0 <= y < |s| ==> s[x] == s[y]
  }

  lemma RearrangedAllEqual(s: seq<int>, t: seq<int>, lo: int, hi: int)
    requires Rearranged(s, t, lo, hi) && AllEqual(s)
    ensures AllEqual(t)
  {
    forall y | 0 <= y < |t|
      ensures t[y] == s[0]
    {
      assert t[y] in multiset(t);
      assert t[y] in multiset(s);
    }
  }

  // What holds before each round of scans: the pivot is a[l], the elements before `i` are at
  // most the pivot, those from `j - 1` on at least the pivot, and the scans have not crossed.
  ghost predicate Scanning(a: array<int>, l: int, ir: int, i: int, j: int)
    reads a
  {
    && 1 <= l < i <= j <= ir <= a.Length && i < ir && (j == ir <==> i == l + 1)
    && (forall k :: l - 1 <= k < i ==> a[k] <= a[l])
    && (forall k :: j - 1 <= k < ir ==> a[k] >= a[l])
  }

  ghost predicate Crossed(a: array<int>, l: int, ir: int, i: int, j: int)
    reads a
  {
    && 1 <= l < j < i <= ir <= a.Length && a[j - 1] <= a[l]
    && (forall k :: l - 1 <= k < i - 1 ==> a[k] <= a[l])
    && (forall k :: j <= k < ir ==> a[k] >= a[l])
  }

  // One round: scan up, scan down, and exchange the two stopping elements unless crossed.
  method Round(a: array<int>, l: int, ir: int, i0: int, j0: int) returns (i: int, j: int)
    requires Scanning(a, l, ir, i0, j0)
    modifies a
    ensures if j < i then Crossed(a, l, ir, i, j) else Scanning(a, l, ir, i, j)
    ensures Rearranged(old(a[..]), a[..], l - 1, ir)
    ensures j < j0
    ensures (forall k :: l - 1 <= k < ir ==> old(a[k]) == old(a[l])) ==>
              i == i0 + 1 && j == j0 - 1 && forall k :: l - 1 <= k < ir ==> a[k] == a[l]
  {
    i := ScanUp(a, i0, a[l], if i0 <= j0 - 1 then j0 - 1 else i0);
    j := ScanDown(a, j0, a[l], if i0 - 1 <= j0 - 2 then i0 - 1 else j0 - 2);
    if i <= j {
      Swap(a, i - 1, j - 1, l - 1, ir);
    }
  }

  method CrossScans(a: array<int>, l: int, ir: int) returns (i: int, j: int)
    requires 1 <= l && l + 2 <= ir <= a.Length && a[l - 1] <= a[l] <= a[ir - 1]
    modifies a
    ensures Crossed(a, l, ir, i, j)
    ensures Rearranged(old(a[..]), a[..], l - 1, ir)
    ensures (forall k :: l - 1 <= k < ir ==> old(a[k]) == old(a[l])) ==> j - l == ir - i + 1 == (ir - l) / 2
  {
    i, j := l + 1, ir;
    ghost var flat := forall k :: l - 1 <= k < ir ==> a[k] == a[l];
    while true
      invariant Scanning(a, l, ir, i, j)
      invariant Rearranged(old(a[..]), a[..], l - 1, ir)
      invariant flat ==> i - (l + 1) == ir - j && forall k :: l - 1 <= k < ir ==> a[k] == a[l]
      decreases j
    {
      i, j := Round(a, l, ir, i, j);
      if j < i {
        break;
      }
    }
  }

  /** Splits a[l - 1..ir] around a pivot left at index j - 1: below it are the elements
      a[l - 1..j - 1], from i - 1 on the elements above it, and what lies between equals it. */
  method Partition(a: array<int>, l: int, ir: int) returns (i: int, j: int)
    requires 1 <= l && l + 2 <= ir <= a.Length
    modifies a
    ensures l < j < i <= ir
    ensures Rearranged(old(a[..]), a[..], l - 1, ir)
    ensures forall k :: l - 1 <= k < i - 1 ==> a[k] <= a[j - 1]
    ensures forall k :: j - 1 <= k < ir ==> a[k] >= a[j - 1]
    ensures AllEqual(old(a[..])) ==> j - l == ir - i + 1 == (ir - l) / 2
  {
    MedianOfThree(a, l, ir);
    assert AllEqual(old(a[..])) ==> forall k :: l - 1 <= k < ir ==> a[k] == a[l] by {
      if AllEqual(old(a[..])) {
        RearrangedAllEqual(old(a[..]), a[..], l - 1, ir);
        assert forall k :: l - 1 <= k < ir ==> a[k] == a[..][k];
      }
    }
    i, j := CrossScans(a, l, ir);
    Swap(a, l, j - 1, l - 1, ir);
  }

  // ---------------------------------------------------------------- segments still to be sorted

  datatype Segment = Segment(l: int, ir: int) {
    predicate Has(x: int) { l - 1 <= x < ir }
    function Size(): int { ir - l + 1 }
  }

  ghost predicate Together(segs: seq<Segment>, x: int, y: int) {
    exists k :: 0 <= k < |segs| && segs[k].Has(x) && segs[k].Has(y)
  }

  // Two elements may be out of order only inside one of the segments.
  ghost predicate Settled(s: seq<int>, segs: seq<Segment>) {
    forall x, y :: 0 <= x < y < |s| ==> s[x] <= s[y] || Together(segs, x, y)
  }

  ghost predicate Within(segs: seq<Segment>, n: int) {
    forall k :: 0 <= k < |segs| ==> 1 <= segs[k].l && segs[k].l - 1 <= segs[k].ir <= n
  }

  ghost predicate Disjoint(segs: seq<Segment>) {
    forall j, k, x :: 0 <= j < k < |segs| && segs[j].Has(x) ==> !segs[k].Has(x)
  }

  ghost predicate Pending(s: seq<int>, segs: seq<Segment>) {
    Within(segs, |s|) && Disjoint(segs) && Settled(s, segs)
  }

  // Reordering the last pending segment disturbs nothing outside it.
  lemma RearrangedSettled(s: seq<int>, t: seq<int>, segs: seq<Segment>, c: Segment)
    requires Pending(s, segs) && segs != [] && c == segs[|segs| - 1] && Rearranged(s, t, c.l - 1, c.ir)
    ensures Settled(t, segs)
  {
    forall x, y | 0 <= x < y < |t| && !Together(segs, x, y)
      ensures t[x] <= t[y]
    {
      if c.Has(x) {
        var x' := RearrangedFrom(s, t, c.l - 1, c.ir, x);
        assert !Together(segs, x', y);
      } else if c.Has(y) {
        var y' := RearrangedFrom(s, t, c.l - 1, c.ir, y);
        assert !Together(segs, x, y');
      }
    }
  }

  lemma SortedSegmentDone(s: seq<int>, t: seq<int>, segs: seq<Segment>, c: Segment)
    requires Pending(s, segs) && segs != [] && c == segs[|segs| - 1]
    requires Rearranged(s, t, c.l - 1, c.ir) && Sorted(t, c.l - 1, c.ir)
    ensures Pending(t, segs[..|segs| - 1])
  {
    var rest := segs[..|segs| - 1];
    RearrangedSettled(s, t, segs, c);
    forall x, y | 0 <= x < y < |t| && Together(segs, x, y)
      ensures t[x] <= t[y] || Together(rest, x, y)
    {
      var k :| 0 <= k < |segs| && segs[k].Has(x) && segs[k].Has(y);
      if k < |rest| {
        assert rest[k] == segs[k];
      }
    }
  }

  lemma NothingPending(s: seq<int>)
    requires Pending(s, [])
    ensures Sorted(s, 0, |s|)
  {
    assert forall x, y :: !Together([], x, y);
  }

  // The last segment replaced by two.
  ghost function Split(segs: seq<Segment>, first: Segment, second: Segment): (r: seq<Segment>)
    requires segs != []
  {
    segs[..|segs| - 1] + [first, second]
  }

  // Two places pending together stay so, unless the pivot between them orders them.
  lemma SplitPair(t: seq<int>, segs: seq<Segment>, segs': seq<Segment>, i: int, j: int, x: int, y: int)
    requires segs != [] && |segs'| == |segs| + 1
    requires forall k :: 0 <= k < |segs| - 1 ==> segs'[k] == segs[k]
    requires var n, c := |segs| - 1, segs[|segs| - 1];
             && 1 <= c.l < j < i <= c.ir <= |t|
             && (var left, right := Segment(c.l, j - 1), Segment(i, c.ir);
                 (segs'[n] == left && segs'[n + 1] == right) || (segs'[n] == right && segs'[n + 1] == left))
             && (forall k :: c.l - 1 <= k < i - 1 ==> t[k] <= t[j - 1])
             && (forall k :: j - 1 <= k < c.ir ==> t[k] >= t[j - 1])
    requires 0 <= x < y < |t| && Together(segs, x, y)
    ensures t[x] <= t[y] || Together(segs', x, y)
  {
    var n := |segs| - 1;
    var k :| 0 <= k < |segs| && segs[k].Has(x) && segs[k].Has(y);
    var left := if segs'[n] == Segment(segs[n].l, j - 1) then n else n + 1;
    if k < n {
      assert segs'[k].Has(x) && segs'[k].Has(y);
    } else if y < j - 1 {
      assert segs'[left].Has(x) && segs'[left].Has(y);
    } else if x >= i - 1 {
      var right := if segs'[n] == Segment(i, segs[n].ir) then n else n + 1;
      assert segs'[right].Has(x) && segs'[right].Has(y);
    } else {
      assert t[x] <= t[j - 1] <= t[y];
    }
  }

  // The two sides of the partitioned last segment replace it, in either order.
  lemma SplitPending(s: seq<int>, t: seq<int>, segs: seq<Segment>, c: Segment, i: int, j: int, leftFirst: bool)
    requires Pending(s, segs) && segs != [] && c == segs[|segs| - 1] && Rearranged(s, t, c.l - 1, c.ir)
    requires 1 <= c.l < j < i <= c.ir <= |t|
    requires forall k :: c.l - 1 <= k < i - 1 ==> t[k] <= t[j - 1]
    requires forall k :: j - 1 <= k < c.ir ==> t[k] >= t[j - 1]
    ensures var left, right := Segment(c.l, j - 1), Segment(i, c.ir);
            Pending(t, if leftFirst then Split(segs, left, right) else Split(segs, right, left))
  {
    var n := |segs| - 1;
    var left, right := Segment(c.l, j - 1), Segment(i, c.ir);
    var segs' := if leftFirst then Split(segs, left, right) else Split(segs, right, left);
    RearrangedSettled(s, t, segs, c);
    assert segs'[n] == (if leftFirst then left else right);
    assert segs'[n + 1] == (if leftFirst then right else left);
    assert forall k :: 0 <= k < n ==> segs'[k] == segs[k];
    forall x, y | 0 <= x < y < |t| && Together(segs, x, y)
      ensures t[x] <= t[y] || Together(segs', x, y)
    {
      SplitPair(t, segs, segs', i, j, x, y);
    }
  }

  // ---------------------------------------------------------------- the stack bound

  // x times 2^d.
  ghost function Doubled(x: int, d: nat): int
    decreases d
  {
    if d == 0 then x else Doubled(2 * x, d - 1)
  }

  lemma {:induction false} DoubledMonotone(x: int, y: int, d: nat)
    requires x <= y
    ensures Doubled(x, d) <= Doubled(y, d)
    decreases d
  {
    if d > 0 {
      DoubledMonotone(2 * x, 2 * y, d - 1);
    }
  }

  lemma {:induction false} DoubledTwice(x: int, d: nat)
    ensures Doubled(2 * x, d) == 2 * Doubled(x, d)
    decreases d
  {
    if d > 0 {
      DoubledTwice(2 * x, d - 1);
    }
  }

  lemma {:induction false} DoubledGrows(x: nat, d: nat, e: nat)
    requires d <= e
    ensures x <= Doubled(x, d) <= Doubled(x, e)
    decreases e
  {
    if d == 0 < e {
      DoubledGrows(2 * x, 0, e - 1);
    } else if d > 0 {
      DoubledGrows(2 * x, d - 1, e - 1);
    }
  }

  // Number of segments that fit on the stack, whose slot 0 stays unused.
  const MAX_STACKED: nat := NSTACK / 2 - 1

  /** The array lengths for which the stack is large enough whatever the contents:
      n + 1 < 12 * 2^24. */
  ghost predicate StackSuffices(n: nat) {
    n + 1 < Doubled(INSERTION_THRESHOLD + 2, MAX_STACKED)
  }

  lemma StackSufficesIf(n: nat)
    ensures StackSuffices(n) <==> n + 1 < 201_326_592
  {
    DoubledEight(12, 24);
    DoubledEight(3072, 16);
    DoubledEight(786_432, 8);
  }

  lemma DoubledEight(x: int, d: nat)
    requires d >= 8
    ensures Doubled(x, d) == Doubled(256 * x, d - 8)
  {
    DoubledFour(x, d);
    DoubledFour(16 * x, d - 4);
  }

  lemma DoubledFour(x: int, d: nat)
    requires d >= 4
    ensures Doubled(x, d) == Doubled(16 * x, d - 4)
  {
    assert Doubled(x, d) == Doubled(2 * x, d - 1);
    assert Doubled(2 * x, d - 1) == Doubled(4 * x, d - 2);
    assert Doubled(4 * x, d - 2) == Doubled(8 * x, d - 3);
    assert Doubled(8 * x, d - 3) == Doubled(16 * x, d - 4);
  }

  // With k segments below it on the stack, a segment is at most (n + 1) / 2^k - 1 long; and if
  // the array is too long and flat, the segment in turn is about that long.
  ghost predicate Halving(segs: seq<Segment>, n: nat, flat: bool) {
    && 0 < |segs| <= MAX_STACKED + 1
    && (forall k :: 0 <= k < |segs| ==> Doubled(segs[k].Size() + 1, k) <= n + 1)
    && (flat ==> segs[|segs| - 1].Size() + 1 >= Doubled(INSERTION_THRESHOLD + 2, MAX_STACKED + 1 - |segs|))
  }

  lemma HalvingPop(segs: seq<Segment>, n: nat, flat: bool)
    requires Halving(segs, n, flat) && segs[|segs| - 1].Size() <= INSERTION_THRESHOLD
    ensures !flat
    ensures |segs| > 1 ==> Halving(segs[..|segs| - 1], n, flat)
  {
    DoubledGrows(INSERTION_THRESHOLD + 2, 0, MAX_STACKED + 1 - |segs|);
  }

  lemma HalvingSplit(segs: seq<Segment>, large: Segment, small: Segment, n: nat, flat: bool)
    requires Halving(segs, n, flat) && |segs| <= MAX_STACKED
    requires var c := segs[|segs| - 1];
             && large.Size() <= c.Size() && 2 * (small.Size() + 1) <= c.Size() + 1
             && (flat ==> small.Size() + 1 == (c.Size() + 1) / 2)
    ensures Halving(Split(segs, large, small), n, flat)
  {
    var d := |segs| - 1;
    var segs' := Split(segs, large, small);
    assert segs'[d] == large && segs'[d + 1] == small;
    DoubledMonotone(large.Size() + 1, segs[d].Size() + 1, d);
    DoubledMonotone(2 * (small.Size() + 1), segs[d].Size() + 1, d);
    DoubledTwice(INSERTION_THRESHOLD + 2, MAX_STACKED - |segs|);
  }

  // The stack overflows only if the array is too long for it.
  lemma HalvingDepth(segs: seq<Segment>, n: nat, flat: bool)
    requires Halving(segs, n, flat) && segs[|segs| - 1].Size() > INSERTION_THRESHOLD && |segs| > MAX_STACKED
    ensures !StackSuffices(n)
  {
    DoubledMonotone(INSERTION_THRESHOLD + 2, segs[MAX_STACKED].Size() + 1, MAX_STACKED);
  }

  // ---------------------------------------------------------------- sort

  // Bounds the rounds still to come.
  ghost function Potential(segs: seq<Segment>): nat {
    if segs == [] then 0
    else
      var c := segs[|segs| - 1];
      Potential(segs[..|segs| - 1]) + 1 + (if c.Size() > 0 then 2 * c.Size() else 0)
  }

  lemma PotentialSplit(segs: seq<Segment>, first: Segment, second: Segment)
    requires segs != [] && first.Size() > 0 && second.Size() > 0
    requires first.Size() + second.Size() < segs[|segs| - 1].Size()
    ensures Potential(Split(segs, first, second)) < Potential(segs)
  {
    var n := |segs| - 1;
    assert Split(segs, first, second)[..n + 1] == segs[..n] + [first];
    assert (segs[..n] + [first])[..n] == segs[..n];
  }

  // The k-th stacked segment lies in slots 2k + 1 (its `l`) and 2k + 2 (its `ir`); the last of
  // the segments is the one being worked on.
  ghost predicate OnStack(stack: array<int>, stackp: int, segs: seq<Segment>)
    reads stack
  {
    && stack.Length == NSTACK && 0 < |segs| <= MAX_STACKED + 1 && stackp == 2 * (|segs| - 1)
    && (forall k :: 0 <= k < |segs| - 1 ==> stack[2 * k + 1] == segs[k].l && stack[2 * k + 2] == segs[k].ir)
  }

  method PushSegment(stack: array<int>, stackp: int, l: int, ir: int, ghost segs: seq<Segment>, ghost next: Segment)
    requires OnStack(stack, stackp - 2, segs) && stackp < NSTACK
    modifies stack
    ensures OnStack(stack, stackp, Split(segs, Segment(l, ir), next))
  {
    stack[stackp] := ir;
    stack[stackp - 1] := l;
  }

  method PopSegment(stack: array<int>, stackp: int, ghost segs: seq<Segment>) returns (l: int, ir: int, top: int)
    requires OnStack(stack, stackp, segs) && |segs| > 1
    ensures OnStack(stack, top, segs[..|segs| - 1])
    ensures Segment(l, ir) == segs[|segs| - 2]
  {
    top := stackp;
    ir, top := stack[top], top - 1;
    l, top := stack[top], top - 1;
  }

  // `t` is the array after a partition of the last segment; its larger side is stacked.
  lemma SplitSides(s: seq<int>, t: seq<int>, segs: seq<Segment>, i: int, j: int, leftLarger: bool, flat: bool)
    requires Pending(s, segs) && segs != [] && Halving(segs, |s|, flat) && |segs| <= MAX_STACKED
    requires var c := segs[|segs| - 1];
             && Rearranged(s, t, c.l - 1, c.ir) && 1 <= c.l < j < i <= c.ir <= |t|
             && (forall k :: c.l - 1 <= k < i - 1 ==> t[k] <= t[j - 1])
             && (forall k :: j - 1 <= k < c.ir ==> t[k] >= t[j - 1])
             && (leftLarger <==> c.ir - i + 1 < j - c.l)
             && (flat ==> j - c.l == c.ir - i + 1 == (c.ir - c.l) / 2)
    ensures var c := segs[|segs| - 1];
            var left, right := Segment(c.l, j - 1), Segment(i, c.ir);
            var segs' := if leftLarger then Split(segs, left, right) else Split(segs, right, left);
            Pending(t, segs') && Halving(segs', |s|, flat) && Potential(segs') < Potential(segs)
  {
    var c := segs[|segs| - 1];
    var left, right := Segment(c.l, j - 1), Segment(i, c.ir);
    SplitPending(s, t, segs, c, i, j, leftLarger);
    if leftLarger {
      HalvingSplit(segs, left, right, |s|, flat);
      PotentialSplit(segs, left, right);
    } else {
      HalvingSplit(segs, right, left, |s|, flat);
      PotentialSplit(segs, right, left);
    }
  }

  /** Partitions the current segment, stacks its larger side and moves on to the smaller one;
      `ok` is false if the stack is full. */
  method PartitionAndPush(a: array<int>, stack: array<int>, stackp: int, l: int, ir: int,
                          ghost segs: seq<Segment>, ghost flat: bool)
    returns (ok: bool, l': int, ir': int, stackp': int, ghost segs': seq<Segment>)
    requires a != stack && OnStack(stack, stackp, segs) && segs[|segs| - 1] == Segment(l, ir)
    requires ir - l >= INSERTION_THRESHOLD
    requires Pending(a[..], segs) && Halving(segs, a.Length, flat) && (flat ==> AllEqual(a[..]))
    modifies a, stack
    ensures Rearranged(old(a[..]), a[..], 0, a.Length)
    ensures !ok ==> !StackSuffices(a.Length)
    ensures ok ==>
              && OnStack(stack, stackp', segs') && segs'[|segs'| - 1] == Segment(l', ir')
              && Pending(a[..], segs') && Halving(segs', a.Length, flat)
              && Potential(segs') < Potential(segs)
  {
    ghost var s := a[..];
    var i, j := Partition(a, l, ir);
    stackp' := stackp + 2;
    ok, l', ir', segs' := stackp' < NSTACK, l, ir, segs;
    if !ok {
      HalvingDepth(segs, a.Length, flat);
      return;
    }
    SplitSides(s, a[..], segs, i, j, ir - i + 1 < j - l, flat);
    l', ir', segs' := PushLarger(stack, stackp', l, ir, i, j, segs);
  }

  // Stacks the larger side of the split segment; the smaller one is next.
  method PushLarger(stack: array<int>, stackp: int, l: int, ir: int, i: int, j: int, ghost segs: seq<Segment>)
    returns (l': int, ir': int, ghost segs': seq<Segment>)
    requires OnStack(stack, stackp - 2, segs) && stackp < NSTACK
    modifies stack
    ensures OnStack(stack, stackp, segs')
    ensures var left, right := Segment(l, j - 1), Segment(i, ir);
            if ir - i + 1 < j - l then segs' == Split(segs, left, right) && Segment(l', ir') == right
            else segs' == Split(segs, right, left) && Segment(l', ir') == left
  {
    if ir - i + 1 >= j - l {
      PushSegment(stack, stackp, i, ir, segs, Segment(l, j - 1));
      segs' := Split(segs, Segment(i, ir), Segment(l, j - 1));
      l', ir' := l, j - 1;
    } else {
      PushSegment(stack, stackp, l, j - 1, segs, Segment(i, ir));
      segs' := Split(segs, Segment(l, j - 1), Segment(i, ir));
      l', ir' := i, ir;
    }
  }

  // Sorts the current segment, which is short, by insertion.
  method SortSegment(a: array<int>, l: int, ir: int, ghost segs: seq<Segment>, ghost flat: bool)
    requires segs != [] && segs[|segs| - 1] == Segment(l, ir) && ir - l < INSERTION_THRESHOLD
    requires Pending(a[..], segs) && Halving(segs, a.Length, flat)
    modifies a
    ensures Rearranged(old(a[..]), a[..], 0, a.Length) && Pending(a[..], segs[..|segs| - 1])
    ensures !flat && (|segs| > 1 ==> Halving(segs[..|segs| - 1], a.Length, flat))
  {
    ghost var s := a[..];
    InsertionSort(a, l - 1, ir - l + 1);
    SortedSegmentDone(s, a[..], segs, Segment(l, ir));
    HalvingPop(segs, a.Length, flat);
  }

  /** Sorts `a` in place.  `ok` is false if the stack would have overflowed.  The stack suffices
      for every array of length n exactly if StackSuffices(n): an array of equal elements that is
      any longer overflows it. */
  method Sort(a: array<int>) returns (ok: bool)
    modifies a
    ensures multiset(a[..]) == multiset(old(a[..]))
    ensures ok ==> Sorted(a[..], 0, a.Length)
    ensures StackSuffices(a.Length) ==> ok
    ensures AllEqual(old(a[..])) && !StackSuffices(a.Length) ==> !ok
  {
    var ir, l := a.Length, 1;
    var stack := new int[NSTACK];
    var stackp := 0;
    ghost var segs := [Segment(l, ir)];
    ghost var flat := AllEqual(a[..]) && !StackSuffices(a.Length);
    while true
      invariant OnStack(stack, stackp, segs) && segs[|segs| - 1] == Segment(l, ir)
      invariant Pending(a[..], segs)
      invariant Rearranged(old(a[..]), a[..], 0, a.Length)
      invariant Halving(segs, a.Length, flat)
      decreases Potential(segs)
    {
      if ir - l < INSERTION_THRESHOLD {
        SortSegment(a, l, ir, segs, flat);
        if stackp == 0 {
          NothingPending(a[..]);
          return true;
        }
        l, ir, stackp := PopSegment(stack, stackp, segs);
        segs := segs[..|segs| - 1];
      } else {
        if flat {
          RearrangedAllEqual(old(a[..]), a[..], 0, a.Length);
        }
        ok, l, ir, stackp, segs := PartitionAndPush(a, stack, stackp, l, ir, segs, flat);
        if !ok {
          return false;
        }
      }
    }
  }
}
