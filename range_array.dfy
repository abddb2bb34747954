/**
 * The canonical range set of src/range_array.rs: a vector of half-open
 * ranges `start..end`, sorted by start, where every range ends strictly
 * before the next one begins, so that overlapping or touching ranges are
 * always merged. `union` finds the place of a new range by binary search,
 * widens or inserts one range, then absorbs the following ranges it reaches.
 *
 * The set is used by value inside `observable_array::Base` and
 * `TagRanges`, so its `union` loop is the method `UnionInto` on a sequence;
 * the class `RangeArray` owns one such sequence and delegates to it.
 */
module RangeArrays {
  import opened Wrappers

  /** `Range<T>` with `T = i64`-like unbounded integers: the points start <= x < end. */
  datatype Range = Range(start: int, end: int)

  predicate Contains(r: Range, x: int)
  {
    r.start <= x < r.end
  }

  /** Some range among positions lo..hi of a contains x. */
  ghost predicate CoversIn(a: seq<Range>, lo: int, hi: int, x: int)
  {
    exists k :: lo <= k < hi && 0 <= k < |a| && Contains(a[k], x)
  }

  /** Some stored range contains x. */
  ghost predicate Covers(a: seq<Range>, x: int)
  {
    CoversIn(a, 0, |a|, x)
  }

  /**
   * Sorted by start, and every range ends before any later range starts:
   * no two ranges overlap or touch. Ranges with `end <= start` hold no point
   * but are kept in place like any other.
   */
  ghost predicate Canonical(a: seq<Range>)
  {
    forall i, j :: 0 <= i < j < |a| ==> a[i].start < a[j].start && a[i].end < a[j].start
  }

  /** Canonical, except that the end of position p may reach into later ranges. */
  ghost predicate CanonicalExcept(a: seq<Range>, p: int)
  {
    forall i, j :: 0 <= i < j < |a| ==> a[i].start < a[j].start && (i != p ==> a[i].end < a[j].start)
  }

  /** Every range has `start <= end`. */
  ghost predicate WellFormed(a: seq<Range>)
  {
    forall i :: 0 <= i < |a| ==> a[i].start <= a[i].end
  }

  /** Every range holds at least one point. */
  ghost predicate NonEmptyRanges(a: seq<Range>)
  {
    forall i :: 0 <= i < |a| ==> a[i].start < a[i].end
  }

  /** r neither overlaps nor touches any stored range. */
  ghost predicate Separated(a: seq<Range>, r: Range)
  {
    forall i :: 0 <= i < |a| ==> a[i].end < r.start || r.end < a[i].start
  }

  /** `set_max`: the larger of the two values. */
  function SetMax(a: int, b: int): (r: int)
    ensures r >= a && r >= b
    ensures r == a || r == b
  {
    if a < b then b else a
  }

  /**
   * `binary_search_by(|v| v.start.cmp(&s))` on ranges sorted by start:
   * Ok(p) names the range starting at s; Err(p) is the position where a
   * range starting at s would go.
   */
  method SearchStart(a: seq<Range>, s: int) returns (res: Result<nat, nat>)
    requires Canonical(a)
    ensures res.Ok? ==> res.value < |a| && a[res.value].start == s
    ensures res.Err? ==> res.error <= |a|
                         && (forall k :: 0 <= k < res.error ==> a[k].start < s)
                         && (forall k :: res.error <= k < |a| ==> a[k].start > s)
  {
    var lo, hi := 0, |a|;
    while lo < hi
      invariant 0 <= lo <= hi <= |a|
      invariant forall k :: 0 <= k < lo ==> a[k].start < s
      invariant forall k :: hi <= k < |a| ==> a[k].start > s
    {
      var mid := (lo + hi) / 2;
      if a[mid].start < s {
        lo := mid + 1;
      } else if a[mid].start > s {
        hi := mid;
      } else {
        return Ok(mid);
      }
    }
    return Err(lo);
  }

  // ---------------------------------------------------------------------------
  // Coverage of edited sequences

  lemma CoversInSplit(a: seq<Range>, lo: int, mid: int, hi: int, x: int)
    requires lo <= mid <= hi
    ensures CoversIn(a, lo, hi, x) <==> CoversIn(a, lo, mid, x) || CoversIn(a, mid, hi, x)
  {
    if CoversIn(a, lo, hi, x) {
      var k :| lo <= k < hi && 0 <= k < |a| && Contains(a[k], x);
      if k < mid {
        assert CoversIn(a, lo, mid, x);
      } else {
        assert CoversIn(a, mid, hi, x);
      }
    }
  }

  /** Coverage of a slice of b equals coverage of the same positions of a when they agree there. */
  lemma CoversInSame(a: seq<Range>, b: seq<Range>, lo: int, hi: int, d: int, x: int)
    requires 0 <= lo <= hi && lo + d >= 0 && hi <= |a| && hi + d <= |b|
    requires forall k :: lo <= k < hi ==> b[k + d] == a[k]
    ensures CoversIn(a, lo, hi, x) <==> CoversIn(b, lo + d, hi + d, x)
  {
    if CoversIn(a, lo, hi, x) {
      var k :| lo <= k < hi && 0 <= k < |a| && Contains(a[k], x);
      assert Contains(b[k + d], x);
    }
    if CoversIn(b, lo + d, hi + d, x) {
      var k :| lo + d <= k < hi + d && 0 <= k < |b| && Contains(b[k], x);
      assert Contains(a[k - d], x);
    }
  }

  /** Coverage after replacing the range at position k. */
  lemma CoversReplace(a: seq<Range>, k: nat, n: Range, x: int)
    requires k < |a|
    ensures Covers(a[k := n], x) <==>
            CoversIn(a, 0, k, x) || Contains(n, x) || CoversIn(a, k + 1, |a|, x)
  {
    var b := a[k := n];
    CoversInSplit(b, 0, k, |b|, x);
    CoversInSplit(b, k, k + 1, |b|, x);
    CoversInSame(a, b, 0, k, 0, x);
    CoversInSame(a, b, k + 1, |a|, 0, x);
    assert CoversIn(b, k, k + 1, x) <==> Contains(n, x) by {
      if Contains(n, x) {
        assert Contains(b[k], x);
      }
    }
    CoversInSplit(a, 0, k, |a|, x);
  }

  /** Coverage after inserting a range at position k. */
  lemma CoversInsert(a: seq<Range>, k: nat, n: Range, x: int)
    requires k <= |a|
    ensures Covers(a[..k] + [n] + a[k..], x) <==> Covers(a, x) || Contains(n, x)
  {
    var b := a[..k] + [n] + a[k..];
    CoversInSplit(b, 0, k, |b|, x);
    CoversInSplit(b, k, k + 1, |b|, x);
    CoversInSame(a, b, 0, k, 0, x);
    CoversInSame(a, b, k, |a|, 1, x);
    assert CoversIn(b, k, k + 1, x) <==> Contains(n, x) by {
      if Contains(n, x) {
        assert Contains(b[k], x);
      }
    }
    CoversInSplit(a, 0, k, |a|, x);
  }

  /** Coverage after dropping positions lo..hi. */
  /** Replacing a range outside lo..hi leaves the points covered there alone. */
  lemma CoversInUpdate(a: seq<Range>, p: nat, r: Range, lo: nat, hi: nat, x: int)
    requires p < |a| && lo <= hi <= |a| && (p < lo || hi <= p)
    ensures CoversIn(a, lo, hi, x) <==> CoversIn(a[p := r], lo, hi, x)
  {
    CoversInSame(a, a[p := r], lo, hi, 0, x);
  }

  lemma CoversDrain(a: seq<Range>, lo: nat, hi: nat, x: int)
    requires lo <= hi <= |a|
    ensures Covers(a[..lo] + a[hi..], x) <==> CoversIn(a, 0, lo, x) || CoversIn(a, hi, |a|, x)
  {
    var b := a[..lo] + a[hi..];
    CoversInSplit(b, 0, lo, |b|, x);
    CoversInSame(a, b, 0, lo, 0, x);
    CoversInSame(a, b, hi, |a|, lo - hi, x);
  }

  // ---------------------------------------------------------------------------
  // The first step of union: widen the range at r's start, widen the previous
  // range if it reaches r, or insert r

  /** Widening the range at p to also cover r, where r starts inside or right at its end. */
  lemma WidenStep(a: seq<Range>, p: nat, r: Range)
    requires Canonical(a) && p < |a|
    requires a[p].start == r.start || a[p].start < r.start <= a[p].end
    ensures var c := a[p := Range(a[p].start, SetMax(a[p].end, r.end))];
      && CanonicalExcept(c, p)
      && (forall x :: Covers(c, x) <==> Covers(a, x) || Contains(r, x))
      && (WellFormed(a) ==> WellFormed(c))
      && (NonEmptyRanges(a) ==> NonEmptyRanges(c))
    ensures !(WellFormed(a) && r.start <= r.end && Separated(a, r))
  {
    var n := Range(a[p].start, SetMax(a[p].end, r.end));
    if WellFormed(a) && r.start <= r.end {
      assert a[p].start <= a[p].end;
    }
    forall x ensures Covers(a[p := n], x) <==> Covers(a, x) || Contains(r, x) {
      CoversReplace(a, p, n, x);
      CoversReplace(a, p, a[p], x);
      assert a[p := a[p]] == a;
    }
  }

  lemma CanonicalExceptLast(c: seq<Range>)
    requires |c| > 0 && CanonicalExcept(c, |c| - 1)
    ensures Canonical(c)
  {
  }

  /** Inserting r at its sorted position p when it does not reach the range before it. */
  lemma InsertStep(a: seq<Range>, p: nat, r: Range)
    requires Canonical(a) && p <= |a|
    requires forall k :: 0 <= k < p ==> a[k].start < r.start
    requires forall k :: p <= k < |a| ==> a[k].start > r.start
    requires p > 0 ==> a[p - 1].end < r.start
    ensures var c := a[..p] + [r] + a[p..];
      && CanonicalExcept(c, p)
      && (forall x :: Covers(c, x) <==> Covers(a, x) || Contains(r, x))
      && (WellFormed(a) && r.start <= r.end ==> WellFormed(c))
      && (NonEmptyRanges(a) && r.start < r.end ==> NonEmptyRanges(c))
  {
    var c := a[..p] + [r] + a[p..];
    forall i, j | 0 <= i < j < |c|
      ensures c[i].start < c[j].start && (i != p ==> c[i].end < c[j].start)
    {
      if i < p && j == p && i < p - 1 {
        assert a[i].end < a[p - 1].start;
      }
    }
    forall x ensures Covers(c, x) <==> Covers(a, x) || Contains(r, x) {
      CoversInsert(a, p, r, x);
    }
  }

  /** A separated range lies strictly between its neighbours at its sorted position. */
  lemma SeparatedPosition(a: seq<Range>, r: Range, q: nat)
    requires q <= |a|
    requires forall k :: 0 <= k < q ==> a[k].start < r.start
    requires forall k :: q <= k < |a| ==> a[k].start > r.start
    ensures WellFormed(a) && r.start <= r.end && Separated(a, r) ==>
              (q > 0 ==> a[q - 1].end < r.start) && (q < |a| ==> a[q].start > r.end)
  {
    if WellFormed(a) && r.start <= r.end && Separated(a, r) {
      if q > 0 {
        assert a[q - 1].start < r.start;
      }
      if q < |a| {
        assert a[q].start <= a[q].end;
      }
    }
  }

  // ---------------------------------------------------------------------------
  // The second step: absorb the following ranges that start at or before the
  // end the first step produced, then drain them

  /**
   * The loop state: b is c with only the end of position p changed, the
   * widened range covers exactly what c's positions p..i cover, and once the
   * end has moved past `end` the loop is about to stop.
   */
  ghost predicate AbsorbState(c: seq<Range>, b: seq<Range>, p: nat, i: nat, end: int)
  {
    && p < i <= |c| == |b|
    && CanonicalExcept(c, p)
    && b == c[p := Range(c[p].start, b[p].end)]
    && c[p].end == end
    && b[p].end >= end
    && (b[p].end != end && i < |b| ==> b[i].start > b[p].end)
    && (forall x :: Contains(b[p], x) <==> CoversIn(c, p, i, x))
  }

  lemma AbsorbStart(c: seq<Range>, p: nat)
    requires CanonicalExcept(c, p) && p < |c|
    ensures AbsorbState(c, c, p, p + 1, c[p].end)
  {
    assert c == c[p := Range(c[p].start, c[p].end)];
    forall x ensures Contains(c[p], x) <==> CoversIn(c, p, p + 1, x) {
      if Contains(c[p], x) {
        assert Contains(c[p], x);
      }
    }
  }

  /** One pass of the loop body: absorb position i, taking its end if it reaches past `end`. */
  lemma AbsorbStep(c: seq<Range>, b: seq<Range>, p: nat, i: nat, end: int)
    requires AbsorbState(c, b, p, i, end)
    requires i < |b| && b[i].start <= end
    ensures var b' := if b[i].end >= end then b[p := Range(b[p].start, b[i].end)] else b;
      AbsorbState(c, b', p, i + 1, end)
  {
    var b' := if b[i].end >= end then b[p := Range(b[p].start, b[i].end)] else b;
    assert b[i] == c[i];
    assert b[p].end == end;
    forall x ensures Contains(b'[p], x) <==> CoversIn(c, p, i + 1, x) {
      CoversInSplit(c, p, i, i + 1, x);
      if Contains(c[i], x) {
        assert CoversIn(c, i, i + 1, x);
      }
      if CoversIn(c, i, i + 1, x) {
        assert Contains(c[i], x);
      }
    }
    if b[i].end >= end && i + 1 < |b| {
      assert c[i].end < c[i + 1].start;
    }
  }

  /** When the loop stops, draining the absorbed ranges leaves a canonical set. */
  lemma AbsorbDoneCanonical(c: seq<Range>, b: seq<Range>, p: nat, i: nat, end: int)
    requires AbsorbState(c, b, p, i, end)
    requires i == |b| || b[i].start > end
    ensures Canonical(b[..p + 1] + b[i..])
  {
    var d := b[..p + 1] + b[i..];
    forall u, v | 0 <= u < v < |d|
      ensures d[u].start < d[v].start && d[u].end < d[v].start
    {
      if u == p && v > p {
        assert d[v] == c[v - p - 1 + i];
        if v - p - 1 + i > i {
          assert c[i].start < c[v - p - 1 + i].start;
        }
      } else if u > p {
        assert d[u] == c[u - p - 1 + i] && d[v] == c[v - p - 1 + i];
      } else if v > p {
        assert d[v] == c[v - p - 1 + i];
      }
    }
  }

  /** Draining the absorbed ranges keeps exactly the points of c. */
  lemma AbsorbDoneCovers(c: seq<Range>, b: seq<Range>, p: nat, i: nat, end: int)
    requires AbsorbState(c, b, p, i, end)
    ensures forall x :: Covers(b[..p + 1] + b[i..], x) <==> Covers(c, x)
  {
    forall x ensures Covers(b[..p + 1] + b[i..], x) <==> Covers(c, x) {
      AbsorbDoneCoversAt(c, b, p, i, end, x);
    }
  }

  lemma AbsorbDoneCoversAt(c: seq<Range>, b: seq<Range>, p: nat, i: nat, end: int, x: int)
    requires AbsorbState(c, b, p, i, end)
    ensures Covers(b[..p + 1] + b[i..], x) <==> Covers(c, x)
  {
    CoversDrain(b, p + 1, i, x);
    // b[..p + 1] is c[..p] and the widened range at p
    CoversInSplit(b, 0, p, p + 1, x);
    CoversInUpdate(c, p, b[p], 0, p, x);
    assert CoversIn(b, p, p + 1, x) <==> Contains(b[p], x) by {
      if Contains(b[p], x) {
        assert p <= p < p + 1 && Contains(b[p], x);
      }
    }
    assert Contains(b[p], x) <==> CoversIn(c, p, i, x);
    // b[i..] is c[i..]
    CoversInUpdate(c, p, b[p], i, |c|, x);
    CoversInSplit(c, 0, p, |c|, x);
    CoversInSplit(c, p, i, |c|, x);
  }

  /** The widened range only grew, so the ranges stay well formed (or non-empty). */
  lemma AbsorbDoneShape(c: seq<Range>, b: seq<Range>, p: nat, i: nat, end: int)
    requires AbsorbState(c, b, p, i, end)
    ensures WellFormed(c) ==> WellFormed(b[..p + 1] + b[i..])
    ensures NonEmptyRanges(c) ==> NonEmptyRanges(b[..p + 1] + b[i..])
  {
    var d := b[..p + 1] + b[i..];
    assert forall u :: 0 <= u < |d| ==> d[u] == (if u <= p then b[u] else b[u - p - 1 + i]);
  }

  // ---------------------------------------------------------------------------
  // union

  /**
   * What the first part of `union` leaves: c holds r in position p and is
   * canonical except that p may reach into later ranges; c covers the
   * points of a and of r; the ranges stay well formed (non-empty); when r
   * was separated from every stored range, c is a with r inserted at p and
   * p still ends before the next range starts. `pushed` only at the end.
   */
  ghost predicate Placement(a: seq<Range>, r: Range, c: seq<Range>, p: nat, pushed: bool)
  {
    && p < |c| && CanonicalExcept(c, p)
    && (pushed ==> p == |c| - 1)
    && (forall x :: Covers(c, x) <==> Covers(a, x) || Contains(r, x))
    && (WellFormed(a) && r.start <= r.end ==> WellFormed(c))
    && (NonEmptyRanges(a) && r.start < r.end ==> NonEmptyRanges(c))
    && (WellFormed(a) && r.start <= r.end && Separated(a, r) ==>
          p <= |a| && c == a[..p] + [r] + a[p..] && (p + 1 < |c| ==> c[p + 1].start > c[p].end))
  }

  /** Widening the range at q, which r starts in or right at the end of, is a placement of r. */
  lemma WidenPlacement(a: seq<Range>, q: nat, r: Range)
    requires Canonical(a) && q < |a|
    requires a[q].start == r.start || a[q].start < r.start <= a[q].end
    ensures Placement(a, r, a[q := Range(a[q].start, SetMax(a[q].end, r.end))], q, false)
  {
    WidenStep(a, q, r);
  }

  /** Inserting r at its sorted position q, clear of the range before it, is a placement of r. */
  lemma InsertPlacement(a: seq<Range>, q: nat, r: Range)
    requires Canonical(a) && q <= |a|
    requires forall k :: 0 <= k < q ==> a[k].start < r.start
    requires forall k :: q <= k < |a| ==> a[k].start > r.start
    requires q > 0 ==> a[q - 1].end < r.start
    ensures Placement(a, r, a[..q] + [r] + a[q..], q, q == |a|)
  {
    SeparatedPosition(a, r, q);
    InsertStep(a, q, r);
  }

  /**
   * The first part of `union`: widen the range that starts where r starts,
   * or widen the previous range when it reaches r, or insert r at its sorted
   * position (`pushed` when that is the end, where `union` returns at once).
   * p is the position of the range that now holds r.
   */
  method Place(a: seq<Range>, r: Range) returns (c: seq<Range>, p: nat, pushed: bool)
    requires Canonical(a)
    ensures Placement(a, r, c, p, pushed)
  {
    var found := SearchStart(a, r.start);
    if found.Ok? {
      var q := found.value;
      WidenPlacement(a, q, r);
      c, p, pushed := a[q := Range(a[q].start, SetMax(a[q].end, r.end))], q, false;
    } else if found.error > 0 && a[found.error - 1].end >= r.start {
      var q := found.error - 1;
      WidenPlacement(a, q, r);
      c, p, pushed := a[q := Range(a[q].start, SetMax(a[q].end, r.end))], q, false;
    } else {
      var q := found.error;
      InsertPlacement(a, q, r);
      if q >= |a| {
        assert a[..q] + [r] + a[q..] == a + [r];
        c, pushed := a + [r], true;
      } else {
        c, pushed := a[..q] + [r] + a[q..], false;
      }
      p := q;
    }
  }

  /**
   * The second part of `union`: merge the ranges after p that start at or
   * before p's end into p, then drain them. When the range after p starts
   * beyond p's end, nothing changes.
   */
  method Absorb(c: seq<Range>, p: nat) returns (b: seq<Range>)
    requires p < |c| && CanonicalExcept(c, p)
    ensures Canonical(b)
    ensures forall x :: Covers(b, x) <==> Covers(c, x)
    ensures WellFormed(c) ==> WellFormed(b)
    ensures NonEmptyRanges(c) ==> NonEmptyRanges(b)
    ensures (p + 1 < |c| ==> c[p + 1].start > c[p].end) ==> b == c
  {
    b := c;
    var i: nat := p + 1;
    var end := b[p].end;
    AbsorbStart(c, p);
    while i < |b|
      invariant AbsorbState(c, b, p, i, end)
      invariant (p + 1 < |c| ==> c[p + 1].start > c[p].end) ==> i == p + 1 && b == c
    {
      if b[i].start > end {
        break;
      }
      AbsorbStep(c, b, p, i, end);
      if b[i].end >= end {
        b := b[p := Range(b[p].start, b[i].end)];
      }
      i := i + 1;
    }
    AbsorbDoneCanonical(c, b, p, i, end);
    AbsorbDoneCovers(c, b, p, i, end);
    AbsorbDoneShape(c, b, p, i, end);
    if p + 1 < i {
      b := b[..p + 1] + b[i..];
    } else {
      assert b[..p + 1] + b[i..] == b;
    }
  }

  /**
   * `RangeArray::union` on the stored vector: the result is canonical again
   * and covers exactly the old points and the points of r; a range apart
   * from all stored ranges is inserted unchanged at its sorted position.
   */
  method UnionInto(a: seq<Range>, r: Range) returns (b: seq<Range>)
    requires Canonical(a)
    ensures Canonical(b)
    ensures forall x :: Covers(b, x) <==> Covers(a, x) || Contains(r, x)
    ensures WellFormed(a) && r.start <= r.end ==> WellFormed(b)
    ensures NonEmptyRanges(a) && r.start < r.end ==> NonEmptyRanges(b)
    ensures WellFormed(a) && r.start <= r.end && Separated(a, r) ==>
              exists k :: 0 <= k <= |a| && b == a[..k] + [r] + a[k..]
  {
    var c, p, pushed := Place(a, r);
    ghost var apart := WellFormed(a) && r.start <= r.end && Separated(a, r);
    if pushed {
      CanonicalExceptLast(c);
      assert apart ==> c == a[..p] + [r] + a[p..];
      return c;
    }
    b := Absorb(c, p);
    assert apart ==> b == a[..p] + [r] + a[p..];
  }

  // ---------------------------------------------------------------------------
  // The set a canonical array stands for determines the array

  lemma {:induction false} CoversTail(a: seq<Range>, x: int)
    requires Canonical(a) && NonEmptyRanges(a) && |a| > 0
    ensures Covers(a[1..], x) <==> Covers(a, x) && x >= a[0].end
  {
    CoversInSplit(a, 0, 1, |a|, x);
    CoversInSame(a, a[1..], 1, |a|, -1, x);
    if CoversIn(a, 1, |a|, x) {
      var k :| 1 <= k < |a| && Contains(a[k], x);
      assert a[0].end < a[k].start;
    }
    if CoversIn(a, 0, 1, x) {
      assert Contains(a[0], x);
    }
  }

  /**
   * Two canonical arrays of non-empty ranges that cover the same points are
   * equal: the merged form of a set of points is unique, so `union`'s result
   * is determined by its coverage.
   */
  lemma {:induction false} CanonicalUnique(a: seq<Range>, b: seq<Range>)
    requires Canonical(a) && NonEmptyRanges(a)
    requires Canonical(b) && NonEmptyRanges(b)
    requires forall x :: Covers(a, x) <==> Covers(b, x)
    ensures a == b
    decreases |a|
  {
    if |a| == 0 || |b| == 0 {
      if |a| > 0 {
        assert Contains(a[0], a[0].start);
        assert Covers(a, a[0].start);
      }
      if |b| > 0 {
        assert Contains(b[0], b[0].start);
        assert Covers(b, b[0].start);
      }
    } else {
      FirstRangeAgrees(a, b);
      forall x ensures Covers(a[1..], x) <==> Covers(b[1..], x) {
        CoversTail(a, x);
        CoversTail(b, x);
      }
      CanonicalUnique(a[1..], b[1..]);
      assert a == [a[0]] + a[1..] && b == [b[0]] + b[1..];
    }
  }

  /**
   * The last check of the module's test: once the unions have covered
   * exactly -7..12, the stored array can only be that one range.
   */
  lemma UnionTestFinal(b: seq<Range>)
    requires Canonical(b) && NonEmptyRanges(b)
    requires forall x :: Covers(b, x) <==> -7 <= x < 12
    ensures b == [Range(-7, 12)]
  {
    var a := [Range(-7, 12)];
    forall x ensures Covers(a, x) <==> Covers(b, x) {
      if -7 <= x < 12 {
        assert Contains(a[0], x);
      }
    }
    CanonicalUnique(a, b);
  }

  /** No range of a canonical array contains the end of the first one. */
  lemma FirstEndUncovered(b: seq<Range>)
    requires Canonical(b) && |b| > 0
    ensures !Covers(b, b[0].end)
  {
    forall k | 0 <= k < |b|
      ensures !Contains(b[k], b[0].end)
    {
      if k > 0 {
        assert b[0].end < b[k].start;
      }
    }
  }

  /** When both cover the same points, the first range of a starts no earlier than b's. */
  lemma FirstStartAgrees(a: seq<Range>, b: seq<Range>)
    requires Canonical(a) && NonEmptyRanges(a) && |a| > 0
    requires Canonical(b) && |b| > 0
    requires forall x :: Covers(a, x) <==> Covers(b, x)
    ensures a[0].start >= b[0].start
  {
    assert Contains(a[0], a[0].start);
    assert Covers(a, a[0].start);
    var k :| 0 <= k < |b| && Contains(b[k], a[0].start);
    if k > 0 {
      assert b[0].start < b[k].start;
    }
  }

  /** The first ranges of two canonical arrays covering the same points are equal. */
  lemma FirstRangeAgrees(a: seq<Range>, b: seq<Range>)
    requires Canonical(a) && NonEmptyRanges(a) && |a| > 0
    requires Canonical(b) && NonEmptyRanges(b) && |b| > 0
    requires forall x :: Covers(a, x) <==> Covers(b, x)
    ensures a[0] == b[0]
  {
    FirstStartAgrees(a, b);
    FirstStartAgrees(b, a);
    FirstEndUncovered(a);
    FirstEndUncovered(b);
    var ea, eb := a[0].end, b[0].end;
    assert Contains(a[0], eb) ==> Covers(a, eb);
    assert Contains(b[0], ea) ==> Covers(b, ea);
  }

  // ---------------------------------------------------------------------------
  // The object

  class RangeArray {
    /** The stored ranges, in ascending start order. */
    var ranges: seq<Range>

    ghost predicate Valid()
      reads this
    {
      Canonical(ranges)
    }

    /** `RangeArray::new` (and `Default`): no ranges. */
    constructor ()
      ensures Valid() && ranges == []
      ensures forall x :: !Covers(ranges, x)
    {
      ranges := [];
    }

    method Union(r: Range)
      requires Valid()
      modifies this
      ensures Valid()
      ensures forall x :: Covers(ranges, x) <==> Covers(old(ranges), x) || Contains(r, x)
      ensures WellFormed(old(ranges)) && r.start <= r.end && Separated(old(ranges), r) ==>
                exists k :: 0 <= k <= |old(ranges)| && ranges == old(ranges)[..k] + [r] + old(ranges)[k..]
    {
      ranges := UnionInto(ranges, r);
    }

    /** Hands the stored ranges to a new object and leaves this one empty. */
    method ClearInto() returns (taken: RangeArray)
      requires Valid()
      modifies this
      ensures fresh(taken) && taken.Valid() && Valid()
      ensures taken.ranges == old(ranges) && ranges == []
    {
      taken := new RangeArray();
      taken.ranges := ranges;
      ranges := [];
    }

    /** No ranges are stored; with only non-empty ranges, that is: no point is covered. */
    predicate IsEmpty()
      reads this
      ensures IsEmpty() <==> |ranges| == 0
      ensures Valid() && NonEmptyRanges(ranges) ==> (IsEmpty() <==> forall x :: !Covers(ranges, x))
    {
      assert ranges != [] && ranges[0].start < ranges[0].end ==> Covers(ranges, ranges[0].start) by {
        if ranges != [] && ranges[0].start < ranges[0].end {
          assert Contains(ranges[0], ranges[0].start);
        }
      }
      ranges == []
    }

    /** Iteration over `&RangeArray`: the stored ranges in ascending start order. */
    function Iter(): (s: seq<Range>)
      reads this
      requires Valid()
      ensures |s| == |ranges| && forall k :: 0 <= k < |s| ==> s[k] in ranges
      ensures forall i, j :: 0 <= i < j < |s| ==> s[i].start < s[j].start
    {
      ranges
    }
  }
}
