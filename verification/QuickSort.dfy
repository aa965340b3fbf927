/** `myutils.QuickSort`: in place on a slice, with random pivots and the caller's comparison. */
module Sorting {

  // ----- what a caller may ask for

  ghost predicate Irreflexive<T(!new)>(less: (T, T) -> bool) {
    forall x :: !less(x, x)
  }

  /** Irreflexive and transitive; every strict weak order is one. */
  ghost predicate StrictOrder<T(!new)>(less: (T, T) -> bool) {
    Irreflexive(less) && forall x, y, z :: less(x, y) && less(y, z) ==> less(x, z)
  }

  /** In `s[lo..hi]` no later element is less than an earlier one. */
  ghost predicate Sorted<T>(s: seq<T>, lo: nat, hi: nat, less: (T, T) -> bool)
    requires hi <= |s|
  {
    forall i, j :: lo <= i < j < hi ==> !less(s[j], s[i])
  }

  /** `s[lo..hi]` holds an element below itself and another element below that one. */
  ghost predicate BadPair<T>(s: seq<T>, lo: nat, hi: nat, less: (T, T) -> bool)
    requires hi <= |s|
  {
    exists i, j :: lo <= i < hi && lo <= j < hi && i != j && less(s[i], s[i]) && less(s[j], s[i])
  }

  /** `after` is a permutation of `before` that moves nothing outside `lo..hi`. */
  ghost predicate Rearranged<T>(before: seq<T>, after: seq<T>, lo: nat, hi: nat) {
    && |after| == |before|
    && (forall k :: 0 <= k < |before| && (k < lo || hi <= k) ==> after[k] == before[k])
    && multiset(after) == multiset(before)
  }

  // ----- the sort on sequences

  function Swapped<T>(s: seq<T>, i: nat, j: nat): (r: seq<T>)
    requires i < |s| && j < |s|
    ensures |r| == |s|
  {
    s[i := s[j]][j := s[i]]
  }

  /** The loop from element `i` on, the pivot in the last slot. */
  function Gathered<T>(s: seq<T>, left: nat, i: nat, hi: nat, less: (T, T) -> bool): (r: (seq<T>, nat))
    requires left <= i <= hi <= |s| && 0 < hi
    ensures |r.0| == |s| && left <= r.1 <= left + (hi - i)
    decreases hi - i
  {
    if i == hi then (s, left)
    else if less(s[i], s[hi - 1]) then Gathered(Swapped(s, left, i), left + 1, i + 1, hi, less)
    else Gathered(s, left, i + 1, hi, less)
  }

  /** The random numbers: one for each slice. */
  type Picks = (nat, nat) -> nat

  function PivotAt(lo: nat, hi: nat, picks: Picks): (k: nat)
    requires lo < hi
    ensures lo <= k < hi
  {
    lo + picks(lo, hi) % (hi - lo)
  }

  /** Move the pivot to the end and gather the elements below it. */
  function Collected<T>(s: seq<T>, lo: nat, hi: nat, less: (T, T) -> bool, picks: Picks): (r: (seq<T>, nat))
    requires lo < hi <= |s|
    ensures |r.0| == |s| && lo <= r.1 <= hi
  {
    Gathered(Swapped(s, PivotAt(lo, hi, picks), hi - 1), lo, lo, hi, less)
  }

  /** The slice after the sort, and whether it panicked on the way. */
  function SortOf<T>(s: seq<T>, lo: nat, hi: nat, less: (T, T) -> bool, picks: Picks): (r: (seq<T>, bool))
    requires lo <= hi <= |s|
    ensures |r.0| == |s|
    decreases hi - lo
  {
    if hi - lo < 2 then (s, false)
    else
      var (t, left) := Collected(s, lo, hi, less, picks);
      if left == hi then (t, true)
      else
        var (half, panicked) := SortOf(Swapped(t, left, hi - 1), lo, left, less, picks);
        if panicked then (half, true) else SortOf(half, left + 1, hi, less, picks)
  }

  // ----- only a permutation

  lemma SwappedRearranges<T>(s: seq<T>, lo: nat, hi: nat, i: nat, j: nat)
    requires lo <= i < hi <= |s| && lo <= j < hi
    ensures Rearranged(s, Swapped(s, i, j), lo, hi)
  {}

  lemma RearrangedTrans<T>(a: seq<T>, b: seq<T>, c: seq<T>, lo: nat, hi: nat, l: nat, h: nat)
    requires Rearranged(a, b, lo, hi) && Rearranged(b, c, l, h) && lo <= l && h <= hi
    ensures Rearranged(a, c, lo, hi)
  {}

  lemma {:induction false} GatheredRearranges<T>(s: seq<T>, lo: nat, left: nat, i: nat, hi: nat, less: (T, T) -> bool)
    requires lo <= left <= i <= hi <= |s| && 0 < hi
    ensures Rearranged(s, Gathered(s, left, i, hi, less).0, lo, hi)
    decreases hi - i
  {
    if i < hi {
      if less(s[i], s[hi - 1]) {
        var t := Swapped(s, left, i);
        SwappedRearranges(s, lo, hi, left, i);
        GatheredRearranges(t, lo, left + 1, i + 1, hi, less);
        RearrangedTrans(s, t, Gathered(t, left + 1, i + 1, hi, less).0, lo, hi, lo, hi);
      } else {
        GatheredRearranges(s, lo, left, i + 1, hi, less);
      }
    }
  }

  lemma CollectedRearranges<T>(s: seq<T>, lo: nat, hi: nat, less: (T, T) -> bool, picks: Picks)
    requires lo < hi <= |s|
    ensures Rearranged(s, Collected(s, lo, hi, less, picks).0, lo, hi)
  {
    var t := Swapped(s, PivotAt(lo, hi, picks), hi - 1);
    SwappedRearranges(s, lo, hi, PivotAt(lo, hi, picks), hi - 1);
    GatheredRearranges(t, lo, lo, lo, hi, less);
    RearrangedTrans(s, t, Collected(s, lo, hi, less, picks).0, lo, hi, lo, hi);
  }

  /** The partitioned slice: the pivot between the elements below it and the others. */
  lemma PartitionRearranges<T>(s: seq<T>, lo: nat, hi: nat, less: (T, T) -> bool, picks: Picks)
    returns (t: seq<T>, left: nat)
    requires lo + 2 <= hi <= |s| && Collected(s, lo, hi, less, picks).1 < hi
    ensures left == Collected(s, lo, hi, less, picks).1
    ensures t == Swapped(Collected(s, lo, hi, less, picks).0, left, hi - 1) && Rearranged(s, t, lo, hi)
  {
    var c := Collected(s, lo, hi, less, picks);
    left := c.1;
    t := Swapped(c.0, left, hi - 1);
    CollectedRearranges(s, lo, hi, less, picks);
    SwappedRearranges(c.0, lo, hi, left, hi - 1);
    RearrangedTrans(s, c.0, t, lo, hi, lo, hi);
  }

  /** Whatever the comparison and the random numbers are, the slice is only rearranged and nothing
      outside is touched. */
  lemma {:induction false} SortRearranges<T>(s: seq<T>, lo: nat, hi: nat, less: (T, T) -> bool, picks: Picks)
    requires lo <= hi <= |s|
    ensures Rearranged(s, SortOf(s, lo, hi, less, picks).0, lo, hi)
    decreases hi - lo
  {
    if hi - lo >= 2 {
      var c := Collected(s, lo, hi, less, picks);
      if c.1 == hi {
        CollectedRearranges(s, lo, hi, less, picks);
      } else {
        var t, left := PartitionRearranges(s, lo, hi, less, picks);
        var half := SortOf(t, lo, left, less, picks);
        SortRearranges(t, lo, left, less, picks);
        RearrangedTrans(s, t, half.0, lo, hi, lo, left);
        if !half.1 {
          SortRearranges(half.0, left + 1, hi, less, picks);
          RearrangedTrans(s, half.0, SortOf(half.0, left + 1, hi, less, picks).0, lo, hi, left + 1, hi);
        }
      }
    }
  }

  /** The two calls of `QuickSort` on either side of the pivot. */
  lemma SortSteps<T>(s: seq<T>, lo: nat, hi: nat, less: (T, T) -> bool, picks: Picks, t: seq<T>, left: nat)
    returns (half: seq<T>)
    requires lo + 2 <= hi <= |s| && left == Collected(s, lo, hi, less, picks).1 < hi
    requires t == Swapped(Collected(s, lo, hi, less, picks).0, left, hi - 1)
    ensures half == SortOf(t, lo, left, less, picks).0 && Rearranged(t, half, lo, left)
    ensures SortOf(s, lo, hi, less, picks) ==
            if SortOf(t, lo, left, less, picks).1 then (half, true) else SortOf(half, left + 1, hi, less, picks)
  {
    half := SortOf(t, lo, left, less, picks).0;
    SortRearranges(t, lo, left, less, picks);
  }

  lemma SliceMultiset<T>(s: seq<T>, lo: nat, hi: nat)
    requires lo <= hi <= |s|
    ensures multiset(s[lo..hi]) == multiset(s) - multiset(s[..lo]) - multiset(s[hi..])
  {
    assert s == s[..lo] + s[lo..hi] + s[hi..];
  }

  lemma SameSlice<T>(a: seq<T>, b: seq<T>, lo: nat, hi: nat)
    requires lo <= hi <= |a| && Rearranged(a, b, lo, hi)
    ensures multiset(a[lo..hi]) == multiset(b[lo..hi])
  {
    assert a[..lo] == b[..lo] && a[hi..] == b[hi..];
    SliceMultiset(a, lo, hi);
    SliceMultiset(b, lo, hi);
  }

  /** An element of the rearranged part was in that part before. */
  lemma RearrangedMember<T>(a: seq<T>, b: seq<T>, lo: nat, hi: nat, k: nat) returns (i: nat)
    requires lo <= k < hi <= |a| && Rearranged(a, b, lo, hi)
    ensures lo <= i < hi && a[i] == b[k]
  {
    SameSlice(a, b, lo, hi);
    assert b[lo..hi][k - lo] in multiset(a[lo..hi]);
    assert b[k] in a[lo..hi];
    var j :| 0 <= j < hi - lo && a[lo..hi][j] == b[k];
    return lo + j;
  }

  // ----- what the loop gathers

  /** How many elements of `s[i..hi]` are below `p`. */
  ghost function Below<T>(s: seq<T>, i: nat, hi: nat, less: (T, T) -> bool, p: T): (n: nat)
    requires i <= hi <= |s|
    ensures n <= hi - i
    decreases hi - i
  {
    if i == hi then 0 else (if less(s[i], p) then 1 else 0) + Below(s, i + 1, hi, less, p)
  }

  lemma {:induction false} BelowSame<T>(s: seq<T>, t: seq<T>, i: nat, hi: nat, less: (T, T) -> bool, p: T)
    requires i <= hi <= |s| == |t| && forall k :: i <= k < hi ==> t[k] == s[k]
    ensures Below(t, i, hi, less, p) == Below(s, i, hi, less, p)
    decreases hi - i
  {
    if i < hi {
      BelowSame(s, t, i + 1, hi, less, p);
    }
  }

  lemma {:induction false} BelowAll<T>(s: seq<T>, i: nat, hi: nat, less: (T, T) -> bool, p: T)
    requires i <= hi <= |s|
    ensures Below(s, i, hi, less, p) == hi - i <==> forall k :: i <= k < hi ==> less(s[k], p)
    decreases hi - i
  {
    if i < hi {
      BelowAll(s, i + 1, hi, less, p);
    }
  }

  lemma {:induction false} BelowMember<T>(s: seq<T>, i: nat, hi: nat, less: (T, T) -> bool, p: T, j: nat, k: nat)
    requires i <= j <= k < hi <= |s| && less(s[j], p) && less(s[k], p)
    ensures Below(s, i, hi, less, p) >= if j < k then 2 else 1
    decreases hi - i
  {
    if i < j {
      BelowMember(s, i + 1, hi, less, p, j, k);
    } else if j < k {
      BelowMember(s, i + 1, hi, less, p, k, k);
    }
  }

  /** `left` moves by the number of elements below the pivot. */
  lemma {:induction false} GatheredCount<T>(s: seq<T>, left: nat, i: nat, hi: nat, less: (T, T) -> bool, p: T)
    requires left <= i < hi <= |s| && p == s[hi - 1]
    ensures Gathered(s, left, i, hi, less).1 == left + Below(s, i, hi, less, p)
    decreases hi - i
  {
    if i < hi - 1 {
      if less(s[i], p) {
        var t := Swapped(s, left, i);
        BelowSame(s, t, i + 1, hi, less, p);
        GatheredCount(t, left + 1, i + 1, hi, less, p);
      } else {
        GatheredCount(s, left, i + 1, hi, less, p);
      }
    }
  }

  /** `s[lo..left]` is below `p`, and `s[left..upto]` is not. */
  ghost predicate Parted<T>(s: seq<T>, lo: nat, left: nat, upto: nat, p: T, less: (T, T) -> bool)
    requires left <= upto <= |s|
  {
    && (forall k :: lo <= k < left ==> less(s[k], p))
    && (forall k :: left <= k < upto ==> !less(s[k], p))
  }

  lemma SwapParts<T>(s: seq<T>, lo: nat, left: nat, i: nat, hi: nat, less: (T, T) -> bool, p: T)
    requires lo <= left <= i < hi - 1 < |s| && p == s[hi - 1] && Parted(s, lo, left, i, p, less) && less(s[i], p)
    ensures Parted(Swapped(s, left, i), lo, left + 1, i + 1, p, less) && Swapped(s, left, i)[hi - 1] == p
  {}

  /** Gathered in front are elements below the pivot. If it is below itself the pivot is the last of
      them; otherwise it has stayed at the end and the rest is not below it. */
  lemma {:induction false} GatheredParts<T>(s: seq<T>, lo: nat, left: nat, i: nat, hi: nat, less: (T, T) -> bool, p: T)
    requires lo <= left <= i < hi <= |s| && p == s[hi - 1] && Parted(s, lo, left, i, p, less)
    ensures var (t, end) := Gathered(s, left, i, hi, less);
      if less(p, p) then left < end && t[end - 1] == p && forall k :: lo <= k < end ==> less(t[k], p)
      else end < hi && t[hi - 1] == p && Parted(t, lo, end, hi, p, less)
    decreases hi - i
  {
    if i < hi - 1 {
      if less(s[i], p) {
        SwapParts(s, lo, left, i, hi, less, p);
        GatheredParts(Swapped(s, left, i), lo, left + 1, i + 1, hi, less, p);
      } else {
        GatheredParts(s, lo, left, i + 1, hi, less, p);
      }
    }
  }

  /** The pivot of `s[lo..hi]`. */
  function Pivot<T>(s: seq<T>, lo: nat, hi: nat, picks: Picks): T
    requires lo < hi <= |s|
  {
    s[PivotAt(lo, hi, picks)]
  }

  lemma CollectedParts<T>(s: seq<T>, lo: nat, hi: nat, less: (T, T) -> bool, picks: Picks) returns (moved: seq<T>)
    requires lo < hi <= |s|
    ensures moved == Swapped(s, PivotAt(lo, hi, picks), hi - 1)
    ensures var p := Pivot(s, lo, hi, picks);
      var (t, left) := Collected(s, lo, hi, less, picks);
      && left == lo + Below(moved, lo, hi, less, p)
      && if less(p, p) then lo < left && t[left - 1] == p && forall k :: lo <= k < left ==> less(t[k], p)
         else left < hi && t[hi - 1] == p && Parted(t, lo, left, hi, p, less)
  {
    moved := Swapped(s, PivotAt(lo, hi, picks), hi - 1);
    GatheredParts(moved, lo, lo, lo, hi, less, Pivot(s, lo, hi, picks));
    GatheredCount(moved, lo, lo, hi, less, Pivot(s, lo, hi, picks));
  }

  // ----- when it panics

  lemma SwappedBadPair<T>(s: seq<T>, lo: nat, hi: nat, i: nat, j: nat, less: (T, T) -> bool)
    requires lo <= i < hi <= |s| && lo <= j < hi
    ensures BadPair(Swapped(s, i, j), lo, hi, less) <==> BadPair(s, lo, hi, less)
  {
    if BadPair(s, lo, hi, less) {
      BadPairMoves(s, Swapped(s, i, j), lo, hi, i, j, less);
    }
    if BadPair(Swapped(s, i, j), lo, hi, less) {
      BadPairMoves(Swapped(s, i, j), s, lo, hi, i, j, less);
    }
  }

  lemma BadPairMoves<T>(s: seq<T>, t: seq<T>, lo: nat, hi: nat, i: nat, j: nat, less: (T, T) -> bool)
    requires lo <= i < hi <= |s| == |t| && lo <= j < hi
    requires t[i] == s[j] && t[j] == s[i] && forall k :: 0 <= k < |s| && k != i && k != j ==> t[k] == s[k]
    requires BadPair(s, lo, hi, less)
    ensures BadPair(t, lo, hi, less)
  {
    var x, y :| lo <= x < hi && lo <= y < hi && x != y && less(s[x], s[x]) && less(s[y], s[x]);
    var x' := if x == i then j else if x == j then i else x;
    var y' := if y == i then j else if y == j then i else y;
    assert t[x'] == s[x] && t[y'] == s[y] && x' != y';
  }

  lemma {:induction false} GatheredBadPair<T>(s: seq<T>, lo: nat, left: nat, i: nat, hi: nat, less: (T, T) -> bool)
    requires lo <= left <= i <= hi <= |s| && 0 < hi
    ensures BadPair(Gathered(s, left, i, hi, less).0, lo, hi, less) <==> BadPair(s, lo, hi, less)
    decreases hi - i
  {
    if i < hi {
      if less(s[i], s[hi - 1]) {
        SwappedBadPair(s, lo, hi, left, i, less);
        GatheredBadPair(Swapped(s, left, i), lo, left + 1, i + 1, hi, less);
      } else {
        GatheredBadPair(s, lo, left, i + 1, hi, less);
      }
    }
  }

  /** The partition panics if and only if every element of the slice is below the pivot, the pivot included. */
  lemma CollectedPanics<T>(s: seq<T>, lo: nat, hi: nat, less: (T, T) -> bool, picks: Picks)
    requires lo < hi <= |s|
    ensures Collected(s, lo, hi, less, picks).1 == hi <==> forall k :: lo <= k < hi ==> less(s[k], Pivot(s, lo, hi, picks))
  {
    var moved := CollectedParts(s, lo, hi, less, picks);
    var p, at := Pivot(s, lo, hi, picks), PivotAt(lo, hi, picks);
    BelowAll(moved, lo, hi, less, p);
    assert s == Swapped(moved, at, hi - 1);
  }

  /** Without a bad pair the partition does not panic. */
  lemma NoBadPivot<T>(s: seq<T>, lo: nat, hi: nat, less: (T, T) -> bool, picks: Picks)
    requires lo + 2 <= hi <= |s| && !BadPair(s, lo, hi, less)
    ensures Collected(s, lo, hi, less, picks).1 < hi
  {
    var at := PivotAt(lo, hi, picks);
    CollectedPanics(s, lo, hi, less, picks);
    var other := if at == lo then lo + 1 else lo;
    assert !(less(s[at], s[at]) && less(s[other], s[at]));
  }

  lemma CollectedBadPair<T>(s: seq<T>, lo: nat, hi: nat, less: (T, T) -> bool, picks: Picks)
    requires lo < hi <= |s|
    ensures BadPair(Collected(s, lo, hi, less, picks).0, lo, hi, less) <==> BadPair(s, lo, hi, less)
  {
    var at := PivotAt(lo, hi, picks);
    SwappedBadPair(s, lo, hi, at, hi - 1, less);
    GatheredBadPair(Swapped(s, at, hi - 1), lo, lo, lo, hi, less);
  }

  /** Without a bad pair the partition does not panic, and neither side has one. */
  lemma NoBadPairPartition<T>(s: seq<T>, lo: nat, hi: nat, less: (T, T) -> bool, picks: Picks)
    returns (t: seq<T>, left: nat)
    requires lo + 2 <= hi <= |s| && !BadPair(s, lo, hi, less)
    ensures left == Collected(s, lo, hi, less, picks).1 < hi
    ensures t == Swapped(Collected(s, lo, hi, less, picks).0, left, hi - 1) && Rearranged(s, t, lo, hi)
    ensures !BadPair(t, lo, left, less) && !BadPair(t, left + 1, hi, less)
  {
    NoBadPivot(s, lo, hi, less, picks);
    t, left := PartitionRearranges(s, lo, hi, less, picks);
    CollectedBadPair(s, lo, hi, less, picks);
    SwappedBadPair(Collected(s, lo, hi, less, picks).0, lo, hi, left, hi - 1, less);
    BadPairWithin(t, lo, hi, lo, left, less);
    BadPairWithin(t, lo, hi, left + 1, hi, less);
  }

  lemma BadPairWithin<T>(s: seq<T>, lo: nat, hi: nat, l: nat, h: nat, less: (T, T) -> bool)
    requires lo <= l && h <= hi <= |s|
    ensures BadPair(s, l, h, less) ==> BadPair(s, lo, hi, less)
  {}

  lemma BadPairOutside<T>(s: seq<T>, t: seq<T>, lo: nat, hi: nat, l: nat, h: nat, less: (T, T) -> bool)
    requires hi <= |s| && h <= lo && Rearranged(s, t, l, h)
    ensures BadPair(t, lo, hi, less) ==> BadPair(s, lo, hi, less)
  {}

  /** Without a bad pair no choice of pivots panics. */
  lemma {:induction false} NoPanic<T>(s: seq<T>, lo: nat, hi: nat, less: (T, T) -> bool, picks: Picks)
    requires lo <= hi <= |s| && !BadPair(s, lo, hi, less)
    ensures !SortOf(s, lo, hi, less, picks).1
    decreases hi - lo
  {
    if hi - lo >= 2 {
      var t, left := NoBadPairPartition(s, lo, hi, less, picks);
      var half := SortSteps(s, lo, hi, less, picks, t, left);
      NoPanic(t, lo, left, less, picks);
      BadPairOutside(t, half, left + 1, hi, lo, left, less);
      NoPanic(half, left + 1, hi, less, picks);
    }
  }

  /** An irreflexive comparison has no bad pair anywhere. */
  lemma IrreflexiveNoPanic<T(!new)>(s: seq<T>, lo: nat, hi: nat, less: (T, T) -> bool, picks: Picks)
    requires lo <= hi <= |s| && Irreflexive(less)
    ensures !SortOf(s, lo, hi, less, picks).1
  {
    NoPanic(s, lo, hi, less, picks);
  }

  /** With a bad pair the choice of its first element, twice, panics: gathered first are exactly the
      elements below it, itself included and last, and then every element is below the pivot. */
  lemma TwicePanics<T>(s: seq<T>, lo: nat, hi: nat, less: (T, T) -> bool) returns (picks: Picks)
    requires lo <= hi <= |s| && BadPair(s, lo, hi, less)
    ensures SortOf(s, lo, hi, less, picks).1
  {
    var i, j :| lo <= i < hi && lo <= j < hi && i != j && less(s[i], s[i]) && less(s[j], s[i]);
    var first: Picks := (l, h) => i - lo;
    PickAt(lo, hi, first, i);
    var left := PickedOnce(s, lo, hi, less, first, i, j);
    picks := (l, h) => if h == hi then i - lo else left - 1 - lo;
    PickAt(lo, hi, picks, i);
    SameCollected(s, lo, hi, less, first, picks);
    if left < hi {
      PickAt(lo, left, picks, left - 1);
      PickedTwice(s, lo, hi, less, picks, i, j);
    }
  }

  lemma PickAt(lo: nat, hi: nat, picks: Picks, k: nat)
    requires lo <= k < hi && picks(lo, hi) == k - lo
    ensures PivotAt(lo, hi, picks) == k
  {}

  lemma SameCollected<T>(s: seq<T>, lo: nat, hi: nat, less: (T, T) -> bool, picks: Picks, others: Picks)
    requires lo < hi <= |s| && picks(lo, hi) == others(lo, hi)
    ensures Collected(s, lo, hi, less, picks) == Collected(s, lo, hi, less, others)
  {}

  /** After the first choice the pivot is the last of at least two elements below it. */
  lemma PickedOnce<T>(s: seq<T>, lo: nat, hi: nat, less: (T, T) -> bool, picks: Picks, i: nat, j: nat) returns (left: nat)
    requires lo <= i < hi <= |s| && lo <= j < hi && i != j && less(s[i], s[i]) && less(s[j], s[i])
    requires PivotAt(lo, hi, picks) == i
    ensures left == Collected(s, lo, hi, less, picks).1 && lo + 2 <= left <= hi
    ensures var t := Collected(s, lo, hi, less, picks).0;
      t[left - 1] == s[i] && forall k :: lo <= k < left ==> less(t[k], s[i])
  {
    var moved := CollectedParts(s, lo, hi, less, picks);
    BadPairCounts(s, lo, hi, less, i, j);
    left := Collected(s, lo, hi, less, picks).1;
  }

  /** The second choice panics. */
  lemma PickedTwice<T>(s: seq<T>, lo: nat, hi: nat, less: (T, T) -> bool, picks: Picks, i: nat, j: nat)
    requires lo <= i < hi <= |s| && lo <= j < hi && i != j && less(s[i], s[i]) && less(s[j], s[i])
    requires PivotAt(lo, hi, picks) == i
    requires var left := Collected(s, lo, hi, less, picks).1;
      lo < left < hi && PivotAt(lo, left, picks) == left - 1
    ensures SortOf(s, lo, hi, less, picks).1
  {
    var left := PickedOnce(s, lo, hi, less, picks, i, j);
    var t := Swapped(Collected(s, lo, hi, less, picks).0, left, hi - 1);
    AllBelowPanics(t, lo, left, less, picks);
    var half := SortSteps(s, lo, hi, less, picks, t, left);
  }

  lemma AllBelowPanics<T>(s: seq<T>, lo: nat, hi: nat, less: (T, T) -> bool, picks: Picks)
    requires lo + 2 <= hi <= |s| && forall k :: lo <= k < hi ==> less(s[k], Pivot(s, lo, hi, picks))
    ensures SortOf(s, lo, hi, less, picks).1
  {
    CollectedPanics(s, lo, hi, less, picks);
  }

  lemma BadPairCounts<T>(s: seq<T>, lo: nat, hi: nat, less: (T, T) -> bool, i: nat, j: nat)
    requires lo <= i < hi <= |s| && lo <= j < hi && i != j && less(s[i], s[i]) && less(s[j], s[i])
    ensures Below(Swapped(s, i, hi - 1), lo, hi, less, s[i]) >= 2
  {
    var moved := Swapped(s, i, hi - 1);
    var k := if j == hi - 1 then i else j;
    assert moved[k] == s[j] && moved[hi - 1] == s[i];
    BelowMember(moved, lo, hi, less, s[i], k, hi - 1);
  }

  /** Some choice of pivots panics if and only if the slice holds an element below itself and another
      element below that one. */
  lemma PanicsExactly<T(!new)>(s: seq<T>, lo: nat, hi: nat, less: (T, T) -> bool)
    requires lo <= hi <= |s|
    ensures (exists picks :: SortOf(s, lo, hi, less, picks).1) <==> BadPair(s, lo, hi, less)
  {
    if BadPair(s, lo, hi, less) {
      var picks := TwicePanics(s, lo, hi, less);
    } else {
      forall picks: Picks ensures !SortOf(s, lo, hi, less, picks).1 {
        NoPanic(s, lo, hi, less, picks);
      }
    }
  }

  /** "At most" instead of "less" on the distinct keys 1, 2: it panics when 2 is the pivot, and not when
      the pivot is 1. */
  lemma AtMostPanics()
    ensures var atMost := (x: int, y: int) => x <= y;
      SortOf([1, 2], 0, 2, atMost, (l, h) => 1).1 && !SortOf([1, 2], 0, 2, atMost, (l, h) => 0).1
  {
    var atMost := (x: int, y: int) => x <= y;
    CollectedPanics([1, 2], 0, 2, atMost, (l, h) => 1);
    CollectedPanics([1, 2], 0, 2, atMost, (l, h) => 0);
  }

  // ----- when it sorts

  lemma PivotBehind<T>(a: seq<T>, lo: nat, left: nat, hi: nat, less: (T, T) -> bool)
    requires lo <= left < hi <= |a| && Parted(a, lo, left, hi, a[hi - 1], less)
    ensures var b := Swapped(a, left, hi - 1); Parted(b, lo, left, hi, b[left], less)
  {}

  /** Rearranging either side of the pivot keeps both sides on their sides. */
  lemma PartedKept<T>(a: seq<T>, b: seq<T>, lo: nat, m: nat, hi: nat, l: nat, h: nat, less: (T, T) -> bool)
    requires lo <= m < hi <= |a| && Parted(a, lo, m, hi, a[m], less) && Rearranged(a, b, l, h)
    requires (l == lo && h == m) || (l == m + 1 && h == hi)
    ensures b[m] == a[m] && Parted(b, lo, m, hi, b[m], less)
  {
    forall k | l <= k < h
      ensures l == lo ==> less(b[k], b[m])
      ensures l == m + 1 ==> !less(b[k], b[m])
    {
      var i := RearrangedMember(a, b, l, h, k);
    }
  }

  /** Both sides of the pivot sorted: the slice is sorted. */
  lemma Combine<T(!new)>(s: seq<T>, lo: nat, m: nat, hi: nat, less: (T, T) -> bool)
    requires lo <= m < hi <= |s| && StrictOrder(less) && Parted(s, lo, m, hi, s[m], less)
    requires Sorted(s, lo, m, less) && Sorted(s, m + 1, hi, less)
    ensures Sorted(s, lo, hi, less)
  {
    forall i, j | lo <= i < j < hi
      ensures !less(s[j], s[i])
    {
      if i < m <= j {
        assert less(s[i], s[m]) && !less(s[j], s[m]);
      }
    }
  }

  lemma SortedKept<T>(a: seq<T>, b: seq<T>, lo: nat, hi: nat, l: nat, h: nat, less: (T, T) -> bool)
    requires hi <= |a| && (hi <= l || h <= lo) && Rearranged(a, b, l, h) && Sorted(a, lo, hi, less)
    ensures Sorted(b, lo, hi, less)
  {}

  /** A strict order sorts the slice, whatever the random numbers are. */
  lemma {:induction false} SortSorts<T(!new)>(s: seq<T>, lo: nat, hi: nat, less: (T, T) -> bool, picks: Picks)
    requires lo <= hi <= |s| && StrictOrder(less)
    ensures Sorted(SortOf(s, lo, hi, less, picks).0, lo, hi, less)
    decreases hi - lo
  {
    if hi - lo >= 2 {
      var t, left, half, end := StrictSteps(s, lo, hi, less, picks);
      SortSorts(t, lo, left, less, picks);
      SortSorts(half, left + 1, hi, less, picks);
      Join(t, half, end, lo, left, hi, less);
    }
  }

  lemma StrictSteps<T(!new)>(s: seq<T>, lo: nat, hi: nat, less: (T, T) -> bool, picks: Picks)
    returns (t: seq<T>, left: nat, half: seq<T>, end: seq<T>)
    requires lo + 2 <= hi <= |s| && Irreflexive(less)
    ensures |t| == |half| == |s| && lo <= left < hi && Parted(t, lo, left, hi, t[left], less)
    ensures half == SortOf(t, lo, left, less, picks).0 && Rearranged(t, half, lo, left)
    ensures end == SortOf(half, left + 1, hi, less, picks).0 && Rearranged(half, end, left + 1, hi)
    ensures end == SortOf(s, lo, hi, less, picks).0
  {
    t, left := StrictPartition(s, lo, hi, less, picks);
    half := SortSteps(s, lo, hi, less, picks, t, left);
    IrreflexiveNoPanic(t, lo, left, less, picks);
    end := SortOf(half, left + 1, hi, less, picks).0;
    SortRearranges(half, left + 1, hi, less, picks);
  }

  lemma StrictPartition<T(!new)>(s: seq<T>, lo: nat, hi: nat, less: (T, T) -> bool, picks: Picks)
    returns (t: seq<T>, left: nat)
    requires lo + 2 <= hi <= |s| && Irreflexive(less)
    ensures left == Collected(s, lo, hi, less, picks).1 < hi
    ensures t == Swapped(Collected(s, lo, hi, less, picks).0, left, hi - 1) && Rearranged(s, t, lo, hi)
    ensures Parted(t, lo, left, hi, t[left], less)
  {
    var moved := CollectedParts(s, lo, hi, less, picks);
    t, left := PartitionRearranges(s, lo, hi, less, picks);
    PivotBehind(Collected(s, lo, hi, less, picks).0, lo, left, hi, less);
  }

  /** Sorting one side of the pivot, then the other. */
  lemma Join<T(!new)>(t: seq<T>, half: seq<T>, end: seq<T>, lo: nat, left: nat, hi: nat, less: (T, T) -> bool)
    requires lo <= left < hi <= |t| && StrictOrder(less) && Parted(t, lo, left, hi, t[left], less)
    requires Rearranged(t, half, lo, left) && Rearranged(half, end, left + 1, hi)
    requires Sorted(half, lo, left, less) && Sorted(end, left + 1, hi, less)
    ensures Sorted(end, lo, hi, less)
  {
    PartedKept(t, half, lo, left, hi, lo, left, less);
    PartedKept(half, end, lo, left, hi, left + 1, hi, less);
    SortedKept(half, end, lo, left, left + 1, hi, less);
    Combine(end, lo, left, hi, less);
  }

  // ----- the code

  method Swap<T>(a: array<T>, i: nat, j: nat)
    requires i < a.Length && j < a.Length
    modifies a
    ensures a[..] == Swapped(old(a[..]), i, j)
  {
    a[i], a[j] := a[j], a[i];
  }

  /** The loop of `QuickSort` over the slice, with the pivot in the last slot: gather the elements below
      the pivot in front. It also compares the pivot with itself, so with a comparison that is not
      irreflexive `left` can pass the end. */
  method Gather<T>(a: array<T>, lo: nat, hi: nat, less: (T, T) -> bool) returns (left: nat)
    requires lo < hi <= a.Length
    modifies a
    ensures (a[..], left) == Gathered(old(a[..]), lo, lo, hi, less)
    ensures Rearranged(old(a[..]), a[..], lo, hi) && lo <= left <= hi
    ensures forall k :: lo <= k < left ==> less(a[k], old(a[hi - 1]))
    ensures var p := old(a[hi - 1]);
      !less(p, p) ==> left < hi && a[hi - 1] == p && Parted(a[..], lo, left, hi, p, less)
    ensures left == hi <==> forall k :: lo <= k < hi ==> less(old(a[k]), old(a[hi - 1]))
  {
    ghost var was := a[..];
    left := lo;
    var right := hi - 1;
    for i := lo to hi
      invariant lo <= left <= i
      invariant Gathered(a[..], left, i, hi, less) == Gathered(was, lo, lo, hi, less)
    {
      if less(a[i], a[right]) {
        Swap(a, left, i);
        left := left + 1;
      }
    }
    GatherFacts(was, lo, hi, less, was[hi - 1]);
  }

  lemma GatherFacts<T>(s: seq<T>, lo: nat, hi: nat, less: (T, T) -> bool, p: T)
    requires lo < hi <= |s| && p == s[hi - 1]
    ensures var (t, left) := Gathered(s, lo, lo, hi, less);
      && Rearranged(s, t, lo, hi)
      && (forall k :: lo <= k < left ==> less(t[k], p))
      && (!less(p, p) ==> left < hi && t[hi - 1] == p && Parted(t, lo, left, hi, p, less))
      && (left == hi <==> forall k :: lo <= k < hi ==> less(s[k], p))
  {
    GatheredRearranges(s, lo, lo, lo, hi, less);
    GatheredParts(s, lo, lo, lo, hi, less, p);
    GatheredCount(s, lo, lo, hi, less, p);
    BelowAll(s, lo, hi, less, p);
  }

  /** Choose a pivot, move it to the end, gather, and put the pivot behind the gathered elements; that
      last swap panics when `left` is past the end. */
  method Partition<T>(a: array<T>, lo: nat, hi: nat, less: (T, T) -> bool, picks: Picks) returns (left: nat)
    requires lo < hi <= a.Length
    modifies a
    ensures var (t, end) := Collected(old(a[..]), lo, hi, less, picks);
      left == end && a[..] == if left == hi then t else Swapped(t, left, hi - 1)
  {
    var right := hi - 1;
    Swap(a, PivotAt(lo, hi, picks), right);
    left := Gather(a, lo, hi, less);
    if left < hi {
      Swap(a, left, right);
    }
  }

  /** The three promises in terms of the slice before and after. */
  lemma SortFacts<T(!new)>(s: seq<T>, t: seq<T>, panicked: bool, lo: nat, hi: nat, less: (T, T) -> bool, picks: Picks)
    requires lo <= hi <= |s| && (t, panicked) == SortOf(s, lo, hi, less, picks)
    ensures Rearranged(s, t, lo, hi)
    ensures !BadPair(s, lo, hi, less) ==> !panicked
    ensures StrictOrder(less) ==> Sorted(t, lo, hi, less)
  {
    SortRearranges(s, lo, hi, less, picks);
    if !BadPair(s, lo, hi, less) {
      NoPanic(s, lo, hi, less, picks);
    }
    if StrictOrder(less) {
      SortSorts(s, lo, hi, less, picks);
    }
  }

  /** Sorts `a[lo..hi]` in place. Whatever the comparison and the random numbers are, the slice is only
      rearranged and nothing outside is touched. It panics only if the slice holds an element below
      itself and another below that one, and a strict order leaves the slice sorted. */
  method QuickSort<T(!new)>(a: array<T>, lo: nat, hi: nat, less: (T, T) -> bool, picks: Picks) returns (panicked: bool)
    requires lo <= hi <= a.Length
    modifies a
    ensures (a[..], panicked) == SortOf(old(a[..]), lo, hi, less, picks)
    ensures Rearranged(old(a[..]), a[..], lo, hi)
    ensures !BadPair(old(a[..]), lo, hi, less) ==> !panicked
    ensures StrictOrder(less) ==> Sorted(a[..], lo, hi, less)
    decreases hi - lo
  {
    ghost var was := a[..];
    if hi - lo < 2 {
      SortFacts(was, a[..], false, lo, hi, less, picks);
      return false;
    }
    var left := Partition(a, lo, hi, less, picks);
    if left >= hi {
      SortFacts(was, a[..], true, lo, hi, less, picks);
      return true;
    }
    panicked := QuickSort(a, lo, left, less, picks);
    if panicked {
      SortFacts(was, a[..], panicked, lo, hi, less, picks);
      return;
    }
    panicked := QuickSort(a, left + 1, hi, less, picks);
    SortFacts(was, a[..], panicked, lo, hi, less, picks);
  }
}
