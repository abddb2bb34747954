/**
 * The browser's interval overlap index (web/range_dict.js): an array of
 * half-open intervals `[start, end)` kept sorted by `end`, where every entry
 * also carries `start_min`, the smallest `start` from that entry to the end
 * of the array. Insertion repairs `start_min` backwards; an overlap query
 * starts at the first entry ending after the query start and stops as soon
 * as `start_min` shows that no later entry can begin before the query end.
 */
module RangeIndex {
  import opened Numbers

  /** One stored interval with its suffix minimum. */
  datatype Entry<V> = Entry(startMin: int, start: int, end: int, value: V)

  /** What `overlapping` reports for a matching entry. */
  datatype Match<V> = Match(start: int, end: int, value: V)

  function AsMatch<V>(e: Entry<V>): Match<V>
  {
    Match(e.start, e.end, e.value)
  }

  /** The stored intervals without their `start_min` bookkeeping. */
  function Content<V>(d: seq<Entry<V>>): (c: seq<Match<V>>)
    ensures |c| == |d|
    ensures forall i :: 0 <= i < |d| ==> c[i] == AsMatch(d[i])
  {
    seq(|d|, i requires 0 <= i < |d| => AsMatch(d[i]))
  }

  ghost predicate SortedByEnd<V>(d: seq<Entry<V>>)
  {
    forall i, j :: 0 <= i < j < |d| ==> d[i].end <= d[j].end
  }

  /** `start_min` at position k is the minimum of its own start and the next start_min. */
  ghost predicate LocalMinAt<V>(d: seq<Entry<V>>, k: int)
    requires 0 <= k < |d|
  {
    if k == |d| - 1 then d[k].startMin == d[k].start
    else d[k].startMin == Min(d[k].start, d[k + 1].startMin)
  }

  ghost predicate SuffixMins<V>(d: seq<Entry<V>>)
  {
    forall k :: 0 <= k < |d| ==> LocalMinAt(d, k)
  }

  /** The overlap test of the query: the entry ends after `start` and begins before `end`. */
  predicate EntryOverlaps<V>(e: Entry<V>, start: int, end: int)
  {
    e.end > start && e.start < end
  }

  /** The stored entries overlapping `[start, end)`, in storage order. */
  function Matches<V>(d: seq<Entry<V>>, start: int, end: int): (r: seq<Match<V>>)
    decreases |d|
  {
    if d == [] then []
    else Matches(d[..|d| - 1], start, end)
         + (if EntryOverlaps(d[|d| - 1], start, end) then [AsMatch(d[|d| - 1])] else [])
  }

  /** Matches yields exactly the overlapping entries, no more and no fewer. */
  lemma {:induction false} MatchesExact<V>(d: seq<Entry<V>>, start: int, end: int, m: Match<V>)
    ensures m in Matches(d, start, end) <==>
            exists i :: 0 <= i < |d| && EntryOverlaps(d[i], start, end) && m == AsMatch(d[i])
    decreases |d|
  {
    if d != [] {
      var p := d[..|d| - 1];
      MatchesExact(p, start, end, m);
      if m in Matches(d, start, end) && m !in Matches(p, start, end) {
        assert EntryOverlaps(d[|d| - 1], start, end) && m == AsMatch(d[|d| - 1]);
      }
      if exists i :: 0 <= i < |d| && EntryOverlaps(d[i], start, end) && m == AsMatch(d[i]) {
        var i :| 0 <= i < |d| && EntryOverlaps(d[i], start, end) && m == AsMatch(d[i]);
        if i < |d| - 1 {
          assert p[i] == d[i];
        }
      }
    }
  }

  /** Entries none of which overlaps contribute nothing. */
  lemma {:induction false} MatchesNone<V>(d: seq<Entry<V>>, start: int, end: int)
    requires forall i :: 0 <= i < |d| ==> !EntryOverlaps(d[i], start, end)
    ensures Matches(d, start, end) == []
    decreases |d|
  {
    if d != [] {
      MatchesNone(d[..|d| - 1], start, end);
    }
  }

  /** Entries after position k that do not overlap do not change the answer. */
  lemma {:induction false} MatchesPrefix<V>(d: seq<Entry<V>>, k: nat, start: int, end: int)
    requires k <= |d|
    requires forall i :: k <= i < |d| ==> !EntryOverlaps(d[i], start, end)
    ensures Matches(d, start, end) == Matches(d[..k], start, end)
    decreases |d| - k
  {
    if k < |d| {
      var p := d[..|d| - 1];
      MatchesPrefix(p, k, start, end);
      assert p[..k] == d[..k];
    } else {
      assert d[..k] == d;
    }
  }

  /**
   * Under the suffix-minimum invariant, `start_min` at i is the least start
   * from position i onwards: no later start is smaller, and one is equal.
   */
  lemma {:induction false} StartMinIsSuffixMinimum<V>(d: seq<Entry<V>>, i: nat)
    requires SuffixMins(d)
    requires i < |d|
    ensures forall j :: i <= j < |d| ==> d[i].startMin <= d[j].start
    ensures exists j :: i <= j < |d| && d[j].start == d[i].startMin
    decreases |d| - i
  {
    assert LocalMinAt(d, i);
    if i < |d| - 1 {
      StartMinIsSuffixMinimum(d, i + 1);
      var j :| i + 1 <= j < |d| && d[j].start == d[i + 1].startMin;
      if d[i].startMin == d[i].start {
        assert d[i].start == d[i].startMin;
      } else {
        assert d[j].start == d[i].startMin;
      }
    } else {
      assert d[i].start == d[i].startMin;
    }
  }

  /**
   * The pruning of the query is safe: once an entry's `start_min` is at or
   * past the query end, neither it nor any later entry overlaps.
   */
  lemma PruneIsSafe<V>(d: seq<Entry<V>>, i: nat, start: int, end: int)
    requires SuffixMins(d)
    requires i < |d| && d[i].startMin >= end
    ensures forall j :: i <= j < |d| ==> !EntryOverlaps(d[j], start, end)
  {
    StartMinIsSuffixMinimum(d, i);
  }

  /** The position the binary search finds is the one FirstEndAbove names. */
  lemma FirstEndAboveUnique<V>(d: seq<Entry<V>>, v: int, pos: nat)
    requires SortedByEnd(d)
    requires pos <= |d|
    requires forall k :: 0 <= k < pos ==> d[k].end <= v
    requires forall k :: pos <= k < |d| ==> d[k].end > v
    ensures pos == FirstEndAbove(d, v)
  {
    var f := FirstEndAbove(d, v);
    var atPos := if pos < |d| then d[pos].end else v;
    var atF := if f < |d| then d[f].end else v;
    assert atPos <= v ==> pos == |d|;
    assert atF <= v ==> f == |d|;
  }

  /** Two entry arrays that differ at most in their `start_min` bookkeeping. */
  ghost predicate SameContent<V>(d: seq<Entry<V>>, e: seq<Entry<V>>)
  {
    |d| == |e| && forall k :: 0 <= k < |d| ==> AsMatch(d[k]) == AsMatch(e[k])
  }

  lemma SameContentEqual<V>(d: seq<Entry<V>>, e: seq<Entry<V>>)
    requires SameContent(d, e)
    ensures Content(d) == Content(e)
  {
  }

  /**
   * The state of the backward repair at position i with suffix minimum m:
   * entry i holds m, every position except i - 1 is locally right, and at
   * i - 1 start_min is either the entry's own start or already at least m.
   */
  ghost predicate RepairState<V>(d: seq<Entry<V>>, i: nat, m: int)
  {
    && i < |d|
    && d[i].startMin == m
    && (forall k :: 0 <= k < |d| && k != i - 1 ==> LocalMinAt(d, k))
    && (i > 0 ==> d[i - 1].startMin <= d[i - 1].start &&
                  (d[i - 1].startMin == d[i - 1].start || d[i - 1].startMin >= m))
  }

  /** Lowering start_min at i - 1 to m moves the repair one position back. */
  lemma RepairStep<V>(d: seq<Entry<V>>, i: nat, m: int)
    requires RepairState(d, i, m)
    requires i > 0 && d[i - 1].startMin > m
    ensures RepairState(d[i - 1 := d[i - 1].(startMin := m)], i - 1, m)
  {
    var d' := d[i - 1 := d[i - 1].(startMin := m)];
    if i > 1 {
      assert LocalMinAt(d, i - 2);
    }
    forall k | 0 <= k < |d'| && k != i - 2
      ensures LocalMinAt(d', k)
    {
      if k != i - 1 {
        assert LocalMinAt(d, k);
      }
    }
  }

  /** The repair stops when start_min at i - 1 is already at most m: all is right. */
  lemma RepairDone<V>(d: seq<Entry<V>>, i: nat, m: int)
    requires RepairState(d, i, m)
    requires i == 0 || d[i - 1].startMin <= m
    ensures SuffixMins(d)
  {
  }

  /** Splicing a new entry with start_min = min(start, next start_min) leaves the repair state. */
  lemma SpliceRepairState<V>(d: seq<Entry<V>>, pos: nat, e: Entry<V>)
    requires SuffixMins(d)
    requires pos <= |d|
    requires e.startMin == if pos < |d| then Min(e.start, d[pos].startMin) else e.start
    ensures RepairState(d[..pos] + [e] + d[pos..], pos, e.startMin)
  {
    var s := d[..pos] + [e] + d[pos..];
    forall k | 0 <= k < |s| && k != pos - 1
      ensures LocalMinAt(s, k)
    {
      if k < pos - 1 {
        assert LocalMinAt(d, k);
      } else if k > pos {
        assert LocalMinAt(d, k - 1);
      }
    }
    if pos > 0 {
      assert LocalMinAt(d, pos - 1);
    }
  }

  /** The content of the spliced array, and its multiset. */
  lemma SpliceContent<V>(d: seq<Entry<V>>, pos: nat, e: Entry<V>)
    requires pos <= |d|
    ensures Content(d[..pos] + [e] + d[pos..]) == Content(d)[..pos] + [AsMatch(e)] + Content(d)[pos..]
    ensures multiset(Content(d[..pos] + [e] + d[pos..])) == multiset(Content(d)) + multiset{AsMatch(e)}
  {
    var c := Content(d);
    assert c == c[..pos] + c[pos..];
  }

  /** Where the entries of the spliced array come from. */
  lemma SpliceIndex<V>(d: seq<Entry<V>>, pos: nat, e: Entry<V>)
    requires pos <= |d|
    ensures var s := d[..pos] + [e] + d[pos..];
      && |s| == |d| + 1
      && (forall k :: 0 <= k < pos ==> s[k] == d[k])
      && (forall k :: pos < k < |s| ==> s[k] == d[k - 1])
  {
  }
  /** What insert leaves behind: the entry spliced in at pos, the order by end kept, start_min only lowered. */
  lemma InsertOutcome<V>(before: seq<Entry<V>>, pos: nat, e: Entry<V>, after: seq<Entry<V>>)
    requires SortedByEnd(before) && pos <= |before|
    requires forall k :: 0 <= k < pos ==> before[k].end <= e.end
    requires forall k :: pos <= k < |before| ==> before[k].end > e.end
    requires SameContent(after, before[..pos] + [e] + before[pos..])
    requires forall k :: 0 <= k < pos ==> after[k].startMin <= (before[..pos] + [e] + before[pos..])[k].startMin
    requires forall k :: pos <= k < |after| ==> after[k] == (before[..pos] + [e] + before[pos..])[k]
    ensures SortedByEnd(after)
    ensures Content(after) == Content(before)[..pos] + [AsMatch(e)] + Content(before)[pos..]
    ensures forall k :: 0 <= k < pos ==> after[k].startMin <= before[k].startMin
    ensures forall k :: pos < k < |after| ==> after[k] == before[k - 1]
    ensures multiset(Content(after)) == multiset(Content(before)) + multiset{AsMatch(e)}
  {
    var s := before[..pos] + [e] + before[pos..];
    SpliceIndex(before, pos, e);
    SpliceContent(before, pos, e);
    SameContentEqual(after, s);
    assert forall k :: 0 <= k < |after| ==> after[k].end == s[k].end;
  }


  /** Position of the first entry whose end exceeds v (the length if none). */
  ghost function FirstEndAbove<V>(d: seq<Entry<V>>, v: int): (p: nat)
    requires SortedByEnd(d)
    ensures p <= |d|
    ensures forall k :: 0 <= k < p ==> d[k].end <= v
    ensures forall k :: p <= k < |d| ==> d[k].end > v
    decreases |d|
  {
    if d == [] || d[0].end > v then 0 else 1 + FirstEndAbove(d[1..], v)
  }

  class RangeDict<V> {
    /** The entries, sorted by `end`, each with its suffix minimum. */
    var dict: seq<Entry<V>>

    ghost predicate Valid()
      reads this
    {
      SortedByEnd(dict) && SuffixMins(dict)
    }

    constructor ()
      ensures Valid() && dict == []
    {
      dict := [];
    }

    /** Binary search: the first entry with an end higher than v. */
    method FindEnd(v: int) returns (pos: nat)
      requires Valid()
      ensures pos <= |dict|
      ensures forall k :: 0 <= k < pos ==> dict[k].end <= v
      ensures forall k :: pos <= k < |dict| ==> dict[k].end > v
    {
      var low := -1;
      var high := |dict|;
      while high > low + 1
        invariant -1 <= low < high <= |dict|
        invariant forall k :: 0 <= k <= low ==> dict[k].end <= v
        invariant forall k :: high <= k < |dict| ==> dict[k].end > v
      {
        var mid := (low + high) / 2;
        if dict[mid].end <= v {
          low := mid;
        } else {
          high := mid;
        }
      }
      pos := high;
    }

    /**
     * Adds `[start, end)` after every entry whose end is at most `end`, then
     * lowers `start_min` of earlier entries until one is already low enough.
     */
    method Insert(start: int, end: int, value: V)
      requires Valid()
      modifies this
      ensures Valid()
      ensures var p := FirstEndAbove(old(dict), end);
        && Content(dict) == Content(old(dict))[..p] + [Match(start, end, value)] + Content(old(dict))[p..]
        && (forall k :: 0 <= k < p ==> dict[k].startMin <= old(dict)[k].startMin)
        && (forall k :: p < k < |dict| ==> dict[k] == old(dict)[k - 1])
      ensures multiset(Content(dict)) == multiset(Content(old(dict))) + multiset{Match(start, end, value)}
    {
      ghost var before := dict;
      var pos := FindEnd(end);
      FirstEndAboveUnique(before, end, pos);
      var startMin := start;
      if pos < |dict| && dict[pos].startMin < startMin {
        startMin := dict[pos].startMin;
      }
      var e := Entry(startMin, start, end, value);
      dict := dict[..pos] + [e] + dict[pos..];
      SpliceRepairState(before, pos, e);
      SpliceIndex(before, pos, e);
      RepairStartMins(pos, startMin);
      InsertOutcome(before, pos, e, dict);
    }

    /** The backward repair loop of insert, lowering start_min from `pos - 1` towards the front. */
    method RepairStartMins(pos: nat, startMin: int)
      requires RepairState(dict, pos, startMin)
      modifies this
      ensures SuffixMins(dict)
      ensures SameContent(dict, old(dict))
      ensures forall k :: 0 <= k < pos ==> dict[k].startMin <= old(dict)[k].startMin
      ensures forall k :: pos <= k < |dict| ==> dict[k] == old(dict)[k]
    {
      ghost var spliced := dict;
      var i: nat := pos;
      while i > 0 && dict[i - 1].startMin > startMin
        invariant i <= pos && |dict| == |spliced|
        invariant RepairState(dict, i, startMin)
        invariant SameContent(dict, spliced)
        invariant forall k :: 0 <= k < pos ==> dict[k].startMin <= spliced[k].startMin
        invariant forall k :: pos <= k < |dict| ==> dict[k] == spliced[k]
      {
        RepairStep(dict, i, startMin);
        dict := dict[i - 1 := dict[i - 1].(startMin := startMin)];
        i := i - 1;
      }
      RepairDone(dict, i, startMin);
    }

    /**
     * All stored entries overlapping `[start, end)`, in storage order; entries
     * ending at or before `start` are skipped by the search and the scan stops
     * at the first entry whose `start_min` is at or past `end`.
     */
    method Overlapping(start: int, end: int) returns (res: seq<Match<V>>)
      requires Valid()
      ensures res == Matches(dict, start, end)
      ensures forall m :: m in res <==>
                exists i :: 0 <= i < |dict| && EntryOverlaps(dict[i], start, end) && m == AsMatch(dict[i])
    {
      var pos := FindEnd(start);
      MatchesNone(dict[..pos], start, end);
      res := [];
      while pos < |dict|
        invariant pos <= |dict|
        invariant res == Matches(dict[..pos], start, end)
      {
        var entry := dict[pos];
        if entry.startMin >= end {
          PruneIsSafe(dict, pos, start, end);
          break;
        }
        if entry.end > start && entry.start < end {
          res := res + [Match(entry.start, entry.end, entry.value)];
        }
        assert dict[..pos + 1][..pos] == dict[..pos];
        pos := pos + 1;
      }
      MatchesPrefix(dict, pos, start, end);
      forall m ensures m in res <==>
          exists i :: 0 <= i < |dict| && EntryOverlaps(dict[i], start, end) && m == AsMatch(dict[i])
      {
        MatchesExact(dict, start, end, m);
      }
    }
  }
}
