/** The pure part of the adaptive-width partitioner
    (include/AdaptiveWidthPartitioner.h): ordering by operator index,
    cutting the sorted due list into per-worker segments without splitting
    a run of equal indices, and the due/not-due split by tick. */
module Segmentation {
  import opened Basics
  import opened WorkItems

  /** Sorted by operator index (the comparator handed to std::sort). */
  predicate SortedBy<Op>(s: seq<WorkItem<Op>>, indexOf: Op -> nat)
  {
    forall i, j :: 0 <= i < j < |s| ==> indexOf(s[i].Operator) <= indexOf(s[j].Operator)
  }

  /** Insert `x` after every leading item whose index is not above that of
      `x`; into a list sorted by index this is insertion in order. */
  function InsertByIndex<Op>(r: seq<WorkItem<Op>>, x: WorkItem<Op>, indexOf: Op -> nat): (t: seq<WorkItem<Op>>)
    ensures |t| == |r| + 1
    ensures forall k :: 0 <= k < |t| ==> t[k] == x || t[k] in r
    ensures multiset(t) == multiset(r) + multiset{x}
  {
    if |r| == 0 then [x]
    else if indexOf(x.Operator) < indexOf(r[0].Operator) then [x] + r
    else
      assert r == [r[0]] + r[1..];
      [r[0]] + InsertByIndex(r[1..], x, indexOf)
  }

  /** Inserting into a sorted list keeps it sorted. */
  lemma {:induction false} InsertKeepsSorted<Op>(r: seq<WorkItem<Op>>, x: WorkItem<Op>, indexOf: Op -> nat)
    requires SortedBy(r, indexOf)
    ensures SortedBy(InsertByIndex(r, x, indexOf), indexOf)
  {
    if |r| > 0 && indexOf(r[0].Operator) <= indexOf(x.Operator) {
      var rest := InsertByIndex(r[1..], x, indexOf);
      InsertKeepsSorted(r[1..], x, indexOf);
      forall k | 0 <= k < |rest|
        ensures indexOf(r[0].Operator) <= indexOf(rest[k].Operator)
      {
        if rest[k] != x {
          var m :| 0 <= m < |r[1..]| && r[1..][m] == rest[k];
          assert r[1..][m] == r[m + 1];
        }
      }
      assert InsertByIndex(r, x, indexOf) == [r[0]] + rest;
    }
  }

  /** std::sort by `Operator.Index`: some permutation sorted by index.
      Modelled by an insertion sort; stability is not promised. */
  method SortByIndex<Op>(s: seq<WorkItem<Op>>, indexOf: Op -> nat) returns (r: seq<WorkItem<Op>>)
    ensures SortedBy(r, indexOf)
    ensures multiset(r) == multiset(s)
  {
    r := [];
    var i := 0;
    while i < |s|
      invariant 0 <= i <= |s|
      invariant SortedBy(r, indexOf)
      invariant multiset(r) == multiset(s[..i])
    {
      assert s[..i + 1] == s[..i] + [s[i]];
      InsertKeepsSorted(r, s[i], indexOf);
      r := InsertByIndex(r, s[i], indexOf);
      i := i + 1;
    }
    assert s[..i] == s;
  }

  /** The number of items each worker gets before run extension:
      `max(1, n / workerCount)`. */
  function SegmentSize(n: nat, workerCount: nat): (seg: nat)
    requires workerCount > 0
    ensures seg >= 1
    ensures n >= workerCount ==> seg * workerCount <= n < (seg + 1) * workerCount
  {
    var q := n / workerCount;
    if q < 1 then 1 else q
  }

  /** A negative `WorkerCount` meets the item count in `unsigned long`
      arithmetic as a divisor of at least 2^64 - 2^31, so the segment size
      is 1. */
  lemma NegativeCountSegmentSize(n: nat, workerCount: int)
    requires IsInt(workerCount) && workerCount < 0
    requires n < WordModulus - 0x8000_0000
    ensures SegmentSize(n, Wrap(workerCount)) == 1
  {
    var d := Wrap(workerCount);
    assert d == WordModulus + workerCount;
    assert n / d == 0 by {
      SmallQuotient(n, d);
    }
  }

  lemma SmallQuotient(n: nat, d: nat)
    requires n < d
    ensures n / d == 0
  {
  }

  /** A single worker, being the last, takes all the due work whatever the
      segment size. */
  lemma SoleSegment<Op>(s: seq<WorkItem<Op>>, indexOf: Op -> nat, seg: nat)
    requires seg >= 1
    ensures Segments(s, indexOf, seg, 1, 0) == [s]
  {
    assert s[0..|s|] == s;
  }

  /** The first position at or after `pos` whose index differs from `index`. */
  function RunEnd<Op>(s: seq<WorkItem<Op>>, indexOf: Op -> nat, pos: nat, index: nat): (e: nat)
    requires pos <= |s|
    ensures pos <= e <= |s|
    ensures forall q :: pos <= q < e ==> indexOf(s[q].Operator) == index
    ensures e < |s| ==> indexOf(s[e].Operator) != index
    decreases |s| - pos
  {
    if pos < |s| && indexOf(s[pos].Operator) == index then RunEnd(s, indexOf, pos + 1, index) else pos
  }

  /** FindSegmentEnd: take `seg` items, or the whole remainder when at most
      `seg` are left or the worker is the last one; otherwise extend the
      segment over the run of items sharing the index of its last item. */
  function SegmentEnd<Op>(s: seq<WorkItem<Op>>, indexOf: Op -> nat, seg: nat, begin: nat, isLast: bool): (e: nat)
    requires seg >= 1 && begin <= |s|
    ensures begin <= e <= |s|
  {
    if |s| - begin <= seg || isLast then |s|
    else RunEnd(s, indexOf, begin + seg, indexOf(s[begin + seg - 1].Operator))
  }

  /** What FindSegmentEnd returns, in terms of the items it inspects. */
  lemma SegmentEndIsRunBoundary<Op>(s: seq<WorkItem<Op>>, indexOf: Op -> nat, seg: nat, begin: nat, isLast: bool)
    requires seg >= 1 && begin <= |s|
    ensures var e := SegmentEnd(s, indexOf, seg, begin, isLast);
      && begin <= e <= |s|
      && (isLast || |s| - begin <= seg ==> e == |s|)
      && (e < |s| ==> e >= begin + seg && indexOf(s[e - 1].Operator) != indexOf(s[e].Operator))
      && (!isLast ==> forall q :: begin + seg <= q < e ==> indexOf(s[q].Operator) == indexOf(s[begin + seg - 1].Operator))
  {
  }

  /** The segments handed to `k` workers starting at position `begin`:
      the last of them takes everything left. */
  function Segments<Op>(s: seq<WorkItem<Op>>, indexOf: Op -> nat, seg: nat, k: nat, begin: nat): seq<seq<WorkItem<Op>>>
    requires seg >= 1 && begin <= |s|
    decreases k
  {
    if k == 0 then []
    else
      var e := SegmentEnd(s, indexOf, seg, begin, k == 1);
      [s[begin..e]] + Segments(s, indexOf, seg, k - 1, e)
  }

  /** The positions where the segments of `Segments` start, followed by
      where the last one ends. */
  function Boundaries<Op>(s: seq<WorkItem<Op>>, indexOf: Op -> nat, seg: nat, k: nat, begin: nat): (b: seq<nat>)
    requires seg >= 1 && begin <= |s|
    ensures |b| == k + 1 && b[0] == begin
    decreases k
  {
    if k == 0 then [begin]
    else [begin] + Boundaries(s, indexOf, seg, k - 1, SegmentEnd(s, indexOf, seg, begin, k == 1))
  }

  /** Segment `j` runs from boundary `j` to boundary `j + 1`, and boundary
      `j + 1` is where FindSegmentEnd puts the end of segment `j`. */
  ghost predicate BoundariesMatch<Op>(s: seq<WorkItem<Op>>, indexOf: Op -> nat, seg: nat, b: seq<nat>, r: seq<seq<WorkItem<Op>>>)
    requires seg >= 1
  {
    && |b| == |r| + 1
    && (forall j :: 0 <= j < |b| ==> b[j] <= |s|)
    && forall j :: 0 <= j < |r| ==>
      && b[j] <= b[j + 1]
      && b[j + 1] == SegmentEnd(s, indexOf, seg, b[j], j == |r| - 1)
      && r[j] == s[b[j]..b[j + 1]]
  }

  lemma {:induction false} SegmentsByBoundaries<Op>(s: seq<WorkItem<Op>>, indexOf: Op -> nat, seg: nat, k: nat, begin: nat)
    requires seg >= 1 && begin <= |s|
    ensures BoundariesMatch(s, indexOf, seg, Boundaries(s, indexOf, seg, k, begin), Segments(s, indexOf, seg, k, begin))
    decreases k
  {
    if k >= 1 {
      var e := SegmentEnd(s, indexOf, seg, begin, k == 1);
      var b := Boundaries(s, indexOf, seg, k, begin);
      var r := Segments(s, indexOf, seg, k, begin);
      var b' := Boundaries(s, indexOf, seg, k - 1, e);
      var r' := Segments(s, indexOf, seg, k - 1, e);
      SegmentsByBoundaries(s, indexOf, seg, k - 1, e);
      assert b == [begin] + b' && r == [s[begin..e]] + r';
      forall j | 0 <= j < |r|
        ensures b[j] <= b[j + 1] && b[j + 1] == SegmentEnd(s, indexOf, seg, b[j], j == |r| - 1) && r[j] == s[b[j]..b[j + 1]]
      {
        if j > 0 {
          assert b[j] == b'[j - 1] && b[j + 1] == b'[j] && r[j] == r'[j - 1];
        }
      }
    }
  }

  /** One segment per worker, and together, in worker order, they are
      exactly the items from `begin` on: nothing is created, lost or
      reordered. */
  lemma {:induction false} SegmentsConcatenate<Op>(s: seq<WorkItem<Op>>, indexOf: Op -> nat, seg: nat, k: nat, begin: nat)
    requires seg >= 1 && begin <= |s| && k >= 1
    ensures |Segments(s, indexOf, seg, k, begin)| == k
    ensures Flatten(Segments(s, indexOf, seg, k, begin)) == s[begin..]
    decreases k
  {
    var e := SegmentEnd(s, indexOf, seg, begin, k == 1);
    var rest := Segments(s, indexOf, seg, k - 1, e);
    assert Segments(s, indexOf, seg, k, begin) == [s[begin..e]] + rest;
    FlattenCons(s[begin..e], rest);
    if k == 1 {
      assert rest == [] && e == |s|;
    } else {
      SegmentsConcatenate(s, indexOf, seg, k - 1, e);
      assert s[begin..e] + s[e..] == s[begin..];
    }
  }

  /** Index disjointness: on a sorted list, every index given to an earlier
      worker is strictly below every index given to a later one, so no two
      workers ever receive the same model index. */
  lemma {:induction false} SegmentsSeparateIndices<Op>(s: seq<WorkItem<Op>>, indexOf: Op -> nat, seg: nat, k: nat, begin: nat)
    requires seg >= 1 && begin <= |s| && SortedBy(s, indexOf)
    ensures IndicesSeparated(Segments(s, indexOf, seg, k, begin), indexOf)
    decreases k
  {
    if k > 1 {
      var e := SegmentEnd(s, indexOf, seg, begin, false);
      SegmentsSeparateIndices(s, indexOf, seg, k - 1, e);
      FirstSegmentSeparated(s, indexOf, seg, k, begin);
    }
  }

  /** The step of SegmentsSeparateIndices: a first segment cut off before
      separated later ones keeps them separated. */
  lemma FirstSegmentSeparated<Op>(s: seq<WorkItem<Op>>, indexOf: Op -> nat, seg: nat, k: nat, begin: nat)
    requires seg >= 1 && begin <= |s| && SortedBy(s, indexOf) && k > 1
    requires IndicesSeparated(Segments(s, indexOf, seg, k - 1, SegmentEnd(s, indexOf, seg, begin, false)), indexOf)
    ensures IndicesSeparated(Segments(s, indexOf, seg, k, begin), indexOf)
  {
    var e := SegmentEnd(s, indexOf, seg, begin, false);
    var rest := Segments(s, indexOf, seg, k - 1, e);
    assert Segments(s, indexOf, seg, k, begin) == [s[begin..e]] + rest;
    SegmentsConcatenate(s, indexOf, seg, k - 1, e);
    FirstSegmentBelowRest(s, indexOf, seg, begin);
    SeparatedCons(s[begin..e], rest, s[e..], indexOf);
  }

  /** Prepending a list whose indices are all below those of everything
      after it keeps the lists separated. */
  lemma SeparatedCons<Op>(first: seq<WorkItem<Op>>, rest: seq<seq<WorkItem<Op>>>, tail: seq<WorkItem<Op>>, indexOf: Op -> nat)
    requires IndicesSeparated(rest, indexOf) && Flatten(rest) == tail
    requires IndicesBelow(first, tail, indexOf)
    ensures IndicesSeparated([first] + rest, indexOf)
  {
    var r := [first] + rest;
    forall i, j | 0 <= i < j < |r|
      ensures IndicesBelow(r[i], r[j], indexOf)
    {
      if i == 0 {
        forall y | y in rest[j - 1] ensures y in tail {
          MemberOfFlatten(rest, j - 1, y);
        }
      } else {
        assert r[i] == rest[i - 1] && r[j] == rest[j - 1];
      }
    }
  }

  /** Items cut off for a worker other than the last have indices strictly
      below those of every item left after them. */
  lemma FirstSegmentBelowRest<Op>(s: seq<WorkItem<Op>>, indexOf: Op -> nat, seg: nat, begin: nat)
    requires seg >= 1 && begin <= |s| && SortedBy(s, indexOf)
    ensures var e := SegmentEnd(s, indexOf, seg, begin, false);
      IndicesBelow(s[begin..e], s[e..], indexOf)
  {
    var e := SegmentEnd(s, indexOf, seg, begin, false);
    SegmentEndIsRunBoundary(s, indexOf, seg, begin, false);
    forall x, y | x in s[begin..e] && y in s[e..]
      ensures indexOf(x.Operator) < indexOf(y.Operator)
    {
      var p :| begin <= p < e && s[p] == x;
      var q :| e <= q < |s| && s[q] == y;
      assert indexOf(s[p].Operator) <= indexOf(s[e - 1].Operator);
      assert indexOf(s[e].Operator) <= indexOf(s[q].Operator);
    }
  }

  /** Every index in an earlier list is below every index in a later one. */
  ghost predicate IndicesSeparated<Op>(r: seq<seq<WorkItem<Op>>>, indexOf: Op -> nat)
  {
    forall i, j :: 0 <= i < j < |r| ==> IndicesBelow(r[i], r[j], indexOf)
  }

  /** Every index in `a` is below every index in `b`. */
  ghost predicate IndicesBelow<Op>(a: seq<WorkItem<Op>>, b: seq<WorkItem<Op>>, indexOf: Op -> nat)
  {
    forall x, y :: x in a && y in b ==> indexOf(x.Operator) < indexOf(y.Operator)
  }

  lemma {:induction false} MemberOfFlatten<T>(ss: seq<seq<T>>, j: nat, y: T)
    requires j < |ss| && y in ss[j]
    ensures y in Flatten(ss)
  {
    if j > 0 {
      MemberOfFlatten(ss[1..], j - 1, y);
    }
  }

  /** Segment sizes: a worker other than the last gets at least `seg` items
      unless it took the whole remainder, in which case every later worker
      gets nothing; anything beyond `seg` items shares the index of the
      `seg`-th item (the run that may not be split). */
  lemma {:induction false} SegmentSizes<Op>(s: seq<WorkItem<Op>>, indexOf: Op -> nat, seg: nat, k: nat, begin: nat)
    requires seg >= 1 && begin <= |s|
    ensures SizesAsPromised(Segments(s, indexOf, seg, k, begin), indexOf, seg)
    decreases k
  {
    if k >= 1 {
      var r: seq<seq<WorkItem<Op>>> := Segments(s, indexOf, seg, k, begin);
      var e := SegmentEnd(s, indexOf, seg, begin, k == 1);
      var rest: seq<seq<WorkItem<Op>>> := Segments(s, indexOf, seg, k - 1, e);
      assert r == [s[begin..e]] + rest;
      SegmentSizes(s, indexOf, seg, k - 1, e);
      assert SizesAsPromised(rest, indexOf, seg);
      SegmentEndIsRunBoundary(s, indexOf, seg, begin, k == 1);
      if e == |s| {
        EmptyAfterEnd(s, indexOf, seg, k - 1);
      }
      forall i | 0 <= i < |r| - 1 && |r[i]| < seg
        ensures forall j :: i < j < |r| ==> r[j] == []
      {
        if i > 0 {
          assert r[i] == rest[i - 1];
          assert |rest[i - 1]| < seg && 0 <= i - 1 < |rest| - 1;
          assert |rest[i - 1]| >= seg || forall j' :: i - 1 < j' < |rest| ==> rest[j'] == [];
          forall j | i < j < |r| ensures r[j] == [] {
            assert r[j] == rest[j - 1];
          }
        } else {
          assert e == |s|;
          forall j | 0 < j < |r| ensures r[j] == [] {
            assert r[j] == rest[j - 1];
          }
        }
      }
      forall i: int, q: int | 0 <= i < |r| - 1 && seg <= q < |r[i]|
        ensures indexOf(r[i][q].Operator) == indexOf(r[i][seg - 1].Operator)
      {
        if i > 0 {
          assert r[i] == rest[i - 1];
          assert rest[i - 1][q] == r[i][q] && rest[i - 1][seg - 1] == r[i][seg - 1];
        } else {
          assert k >= 2;
          assert r[0][q] == s[begin + q] && r[0][seg - 1] == s[begin + seg - 1];
        }
      }
    }
  }

  /** A list that is not the last holds at least `seg` items unless every
      later list is empty, and items past the `seg`-th share its index. */
  ghost predicate SizesAsPromised<Op>(r: seq<seq<WorkItem<Op>>>, indexOf: Op -> nat, seg: nat)
    requires seg >= 1
  {
    && (forall i :: 0 <= i < |r| - 1 ==> |r[i]| >= seg || forall j :: i < j < |r| ==> r[j] == [])
    && (forall i, q :: 0 <= i < |r| - 1 && seg <= q < |r[i]| ==> indexOf(r[i][q].Operator) == indexOf(r[i][seg - 1].Operator))
  }

  /** Once the items are exhausted, every remaining worker gets an empty list. */
  lemma {:induction false} EmptyAfterEnd<Op>(s: seq<WorkItem<Op>>, indexOf: Op -> nat, seg: nat, k: nat)
    requires seg >= 1
    ensures forall j :: 0 <= j < |Segments(s, indexOf, seg, k, |s|)| ==> Segments(s, indexOf, seg, k, |s|)[j] == []
    decreases k
  {
    if k >= 1 {
      EmptyAfterEnd(s, indexOf, seg, k - 1);
      assert s[|s|..|s|] == [];
      assert Segments(s, indexOf, seg, k, |s|) == [[]] + Segments(s, indexOf, seg, k - 1, |s|);
    }
  }

  /** The outcome of FindCutoffPoint on `after`: a permutation of `before`
      whose first `k` items are due (`Tick < cutoff`) and the rest not. */
  ghost predicate SplitAtCutoff<Op>(before: seq<WorkItem<Op>>, after: seq<WorkItem<Op>>, k: nat, cutoff: nat)
  {
    && k <= |after|
    && multiset(after) == multiset(before)
    && (forall i :: 0 <= i < k ==> after[i].Tick < cutoff)
    && (forall i :: k <= i < |after| ==> after[i].Tick >= cutoff)
  }

  /** `due` and `kept` together are `backlog`, every due item has
      `Tick < cutoff` and no kept item has. */
  ghost predicate DueAndKept<Op>(backlog: seq<WorkItem<Op>>, due: seq<WorkItem<Op>>, kept: seq<WorkItem<Op>>, cutoff: nat)
  {
    && multiset(due) + multiset(kept) == multiset(backlog)
    && (forall i :: 0 <= i < |due| ==> due[i].Tick < cutoff)
    && (forall i :: 0 <= i < |kept| ==> kept[i].Tick >= cutoff)
  }

  /** The split is determined by the ticks alone: the due part holds
      exactly the backlog items with `Tick < cutoff`, each as often as it
      occurs there, and the kept part exactly the others. */
  lemma DueAndKeptExactly<Op>(backlog: seq<WorkItem<Op>>, due: seq<WorkItem<Op>>, kept: seq<WorkItem<Op>>, cutoff: nat)
    requires DueAndKept(backlog, due, kept, cutoff)
    ensures forall x :: multiset(due)[x] == if x.Tick < cutoff then multiset(backlog)[x] else 0
    ensures forall x :: multiset(kept)[x] == if x.Tick < cutoff then 0 else multiset(backlog)[x]
    ensures |due| + |kept| == |backlog|
  {
    forall x ensures multiset(due)[x] == if x.Tick < cutoff then multiset(backlog)[x] else 0 {
      if x.Tick >= cutoff {
        assert x !in due;
      } else {
        assert x !in kept;
      }
    }
    forall x ensures multiset(kept)[x] == if x.Tick < cutoff then 0 else multiset(backlog)[x] {
      if x.Tick < cutoff {
        assert x !in kept;
      } else {
        assert x !in due;
      }
    }
    assert |multiset(due) + multiset(kept)| == |multiset(backlog)|;
  }

  /** The two parts of a split backlog are its due and its kept work. */
  lemma SplitIsDueAndKept<Op>(before: seq<WorkItem<Op>>, after: seq<WorkItem<Op>>, k: nat, cutoff: nat)
    requires SplitAtCutoff(before, after, k, cutoff)
    ensures DueAndKept(before, after[..k], after[k..], cutoff)
  {
    assert after == after[..k] + after[k..];
  }

  /** Reordering the due work keeps it the due work. */
  lemma DueAndKeptPermuted<Op>(backlog: seq<WorkItem<Op>>, due: seq<WorkItem<Op>>, reordered: seq<WorkItem<Op>>, kept: seq<WorkItem<Op>>, cutoff: nat)
    requires DueAndKept(backlog, due, kept, cutoff)
    requires multiset(reordered) == multiset(due)
    ensures DueAndKept(backlog, reordered, kept, cutoff)
  {
    forall i | 0 <= i < |reordered| ensures reordered[i].Tick < cutoff {
      assert reordered[i] in multiset(due);
    }
  }
}
