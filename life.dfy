/** The Life sample's worker (samples/life/include/LifeImplementation.h):
    Conway's game on a `Width` × `Height` grid stored row by row in one
    vector, worked in two phases. An Evaluate signal makes a cell apply the
    rules table to its 3×3 neighbourhood and, when its state is to change,
    store the new state and signal itself to Propagate; a Propagate signal
    makes the stored state current and signals the whole neighbourhood to
    Evaluate. */
module Life {
  import opened Basics
  import opened WorkItems
  import opened WorkerContexts
  import opened SurroundBits
  import opened Segmentation

  datatype Operation = Evaluate | Propagate

  datatype LifeOperation = LifeOperation(Index: Word, Op: Operation)

  datatype LifeNode = LifeNode(Alive: bool, AliveNextTick: bool)

  /** Conway's rule B3/S23: a dead cell with three live neighbours is born,
      a live cell with two or three survives, every other cell is dead. */
  predicate Conway(centreAlive: bool, liveNeighbours: nat)
  {
    liveNeighbours == 3 || (centreAlive && liveNeighbours == 2)
  }

  /** The rules-table entry for a nine-cell pattern: bit 0x10 is the centre,
      the other bits are its neighbours. */
  predicate RuleFor(pattern: bv16)
  {
    Conway(pattern & 0x10 != 0, PopCount(pattern & !0x10))
  }

  /** The cell at `p` lies below `maxIndex` and is alive; cells past the
      grid read as dead. */
  predicate IsLive(model: seq<LifeNode>, maxIndex: nat, p: nat)
    requires maxIndex <= |model|
  {
    p < maxIndex && model[p].Alive
  }

  /** Liveness of each listed cell, in order. */
  function LiveFlags(model: seq<LifeNode>, maxIndex: nat, ps: seq<Word>): seq<bool>
    requires maxIndex <= |model|
  {
    seq(|ps|, j requires 0 <= j < |ps| => IsLive(model, maxIndex, ps[j]))
  }

  /** The number of set flags. */
  function CountLive(flags: seq<bool>): nat
  {
    if flags == [] then 0 else CountLive(flags[..|flags| - 1]) + (if flags[|flags| - 1] then 1 else 0)
  }

  // ---------------------------------------------------------------------
  // The neighbourhood walk shared by ApplyRulesOfLife and
  // SignalAllSurroundingCellsToEvaluate.

  /** A cell whose neighbourhood walk stays clear of 2^64: a zero width
      would never leave the outer loop. */
  predicate Walkable(cell: Word, width: Word)
  {
    1 <= width && cell + 2 * width + 2 < WordModulus
  }

  /** The cells the inner loop visits for the row starting at `r`:
      `r - 1`, `r`, `r + 1`. When `r` is 0, `r - 1` wraps to the largest
      word, which is not below `r + 2`, and the row is skipped. */
  function RowOf(r: Word): seq<Word>
    requires r + 2 < WordModulus
  {
    if r == 0 then [] else [r - 1, r, r + 1]
  }

  /** The cells the two nested loops visit around `cell`, in visiting
      order. When `cell < width`, `cell - width` wraps above the loop bound
      and no cell is visited. */
  function Neighbourhood(cell: Word, width: Word): (ps: seq<Word>)
    requires Walkable(cell, width)
    ensures |ps| <= 9
  {
    if cell < width then [] else RowOf(cell - width) + RowOf(cell) + RowOf(cell + width)
  }

  /** The row starts the outer loop takes, one per iteration. */
  function RowStart(cell: Word, width: Word, k: nat): Word
    requires Walkable(cell, width) && width <= cell && k <= 3
  {
    if k == 0 then cell - width else if k == 1 then cell else if k == 2 then cell + width else cell + 2 * width
  }

  /** The cells visited by the first `k` iterations of the outer loop. */
  function RowsBefore(cell: Word, width: Word, k: nat): seq<Word>
    requires Walkable(cell, width) && width <= cell && k <= 3
  {
    if k == 0 then [] else RowsBefore(cell, width, k - 1) + RowOf(RowStart(cell, width, k - 1))
  }

  /** The three iterations of the outer loop walk the whole
      neighbourhood. */
  lemma AllRows(cell: Word, width: Word)
    requires Walkable(cell, width) && width <= cell
    ensures RowsBefore(cell, width, 3) == Neighbourhood(cell, width)
  {
    assert RowsBefore(cell, width, 1) == RowOf(cell - width);
    assert RowsBefore(cell, width, 2) == RowOf(cell - width) + RowOf(cell);
  }

  /** The outer loop's test holds for the first three row starts and fails
      for the fourth; each row start is the previous one plus the width. */
  lemma RowStarts(cell: Word, width: Word, k: nat)
    requires Walkable(cell, width) && width <= cell && k <= 3
    ensures RowStart(cell, width, k) < Wrap(cell + width + 1) <==> k < 3
    ensures k < 3 ==> Wrap(RowStart(cell, width, k) + width) == RowStart(cell, width, k + 1)
  {
  }

  /** The cells visited by the first `k` iterations start the walk. */
  lemma {:induction false} RowsBeforePrefix(cell: Word, width: Word, k: nat)
    requires Walkable(cell, width) && width <= cell && k <= 3
    ensures RowsBefore(cell, width, k) <= Neighbourhood(cell, width)
    decreases 3 - k
  {
    if k == 3 {
      AllRows(cell, width);
    } else {
      RowsBeforePrefix(cell, width, k + 1);
      assert RowsBefore(cell, width, k + 1) == RowsBefore(cell, width, k) + RowOf(RowStart(cell, width, k));
    }
  }

  /** The cells of the outer loop's iteration `k` follow those of the
      earlier iterations in the walk. */
  lemma NextRowCells(cell: Word, width: Word, k: nat)
    requires Walkable(cell, width) && width <= cell && k < 3
    ensures var row := RowOf(RowStart(cell, width, k));
      var n := |RowsBefore(cell, width, k)|;
      var ps := Neighbourhood(cell, width);
      n + |row| == |RowsBefore(cell, width, k + 1)| <= |ps| &&
      forall j :: 0 <= j < |row| ==> ps[n + j] == row[j]
  {
    RowsBeforePrefix(cell, width, k + 1);
    var ps := Neighbourhood(cell, width);
    var row := RowOf(RowStart(cell, width, k));
    var n := |RowsBefore(cell, width, k)|;
    var next := RowsBefore(cell, width, k + 1);
    assert next == RowsBefore(cell, width, k) + row;
    forall j | 0 <= j < |row|
      ensures ps[n + j] == row[j]
    {
      assert ps[n + j] == next[n + j];
    }
  }

  /** An inner cell (below the first row and past the first cell of the
      second) is visited with its eight neighbours, row by row, the cell
      itself in the middle. */
  lemma InteriorNeighbourhood(cell: Word, width: Word)
    requires Walkable(cell, width) && cell > width
    ensures Neighbourhood(cell, width) ==
      [cell - width - 1, cell - width, cell - width + 1,
       cell - 1, cell, cell + 1,
       cell + width - 1, cell + width, cell + width + 1]
  {
  }

  /** First-row cells have no neighbourhood: the walk starts above the
      grid and wraps. */
  lemma FirstRowNeighbourhood(cell: Word, width: Word)
    requires Walkable(cell, width) && cell < width
    ensures Neighbourhood(cell, width) == []
  {
  }

  /** The first cell of the second row skips the row above, so only six
      cells are visited and the slot of the centre (bit 0x10) holds the
      cell below it. */
  lemma SecondRowStartNeighbourhood(width: Word)
    requires Walkable(width, width)
    ensures Neighbourhood(width, width) == [width - 1, width, width + 1, 2 * width - 1, 2 * width, 2 * width + 1]
    ensures Neighbourhood(width, width)[4] == width + width
  {
  }

  /** The state ApplyRulesOfLife computes for `cell`: the rules table
      looked up at the pattern of its visited neighbourhood. */
  function NextAlive(model: seq<LifeNode>, maxIndex: nat, width: Word, cell: Word): bool
    requires maxIndex <= |model| && Walkable(cell, width)
  {
    RuleFor(Mask(LiveFlags(model, maxIndex, Neighbourhood(cell, width))))
  }

  /** The eight neighbours of an inner cell. */
  function Around(cell: Word, width: Word): seq<Word>
    requires Walkable(cell, width) && cell > width
  {
    [cell - width - 1, cell - width, cell - width + 1, cell - 1, cell + 1, cell + width - 1, cell + width, cell + width + 1]
  }

  /** The walk does not check columns: for a cell in the first column, the
      three neighbours on its left are the last-column cells one row up:
      those of rows `row - 2`, `row - 1` and `row`. */
  lemma FirstColumnCountsLastColumn(cell: Word, width: Word)
    requires Walkable(cell, width) && cell > width && cell % width == 0
    ensures var around := Around(cell, width);
      var row := cell / width;
      row >= 2 &&
      around[0] % width == width - 1 && around[0] / width == row - 2 &&
      around[3] % width == width - 1 && around[3] / width == row - 1 &&
      around[5] % width == width - 1 && around[5] / width == row
  {
    var row := cell / width;
    assert cell == row * width;
    assert row >= 2 by {
      MultipleAtLeast(row - 1, width);
    }
    DivModOffset(cell, width, row, -2, width - 1);
    DivModOffset(cell, width, row, -1, width - 1);
    DivModOffset(cell, width, row, 0, width - 1);
  }

  /** Likewise, for a cell in the last column the three neighbours on its
      right are the first-column cells of the rows `row`, `row + 1` and
      `row + 2`. */
  lemma LastColumnCountsFirstColumn(cell: Word, width: Word)
    requires Walkable(cell, width) && cell > width && cell % width == width - 1
    ensures var around := Around(cell, width);
      var row := cell / width;
      around[2] % width == 0 && around[2] / width == row &&
      around[4] % width == 0 && around[4] / width == row + 1 &&
      around[7] % width == 0 && around[7] / width == row + 2
  {
    var row := cell / width;
    var start := cell - (width - 1);
    assert start == row * width;
    DivModOffset(start, width, row, 0, 0);
    DivModOffset(start, width, row, 1, 0);
    DivModOffset(start, width, row, 2, 0);
  }

  /** Dropping the flag at position 4 from the first `n` flags. */
  function WithoutCentre(flags: seq<bool>, n: nat): seq<bool>
    requires n <= |flags|
  {
    if n <= 4 then flags[..n] else flags[..4] + flags[5..n]
  }

  lemma {:induction false} CountAroundIsCountLive(flags: seq<bool>, n: nat)
    requires n <= |flags|
    ensures CountAround(flags, n) == CountLive(WithoutCentre(flags, n))
  {
    if n > 0 {
      CountAroundIsCountLive(flags, n - 1);
      if n != 5 {
        assert WithoutCentre(flags, n) == WithoutCentre(flags, n - 1) + [flags[n - 1]];
      } else {
        assert WithoutCentre(flags, n) == WithoutCentre(flags, n - 1);
      }
    }
  }

  /** For an inner cell the table lookup is Conway's rule on the cell and
      its eight neighbours: the rules table encodes the game. */
  lemma InteriorCellFollowsConway(model: seq<LifeNode>, maxIndex: nat, width: Word, cell: Word)
    requires maxIndex <= |model| && Walkable(cell, width) && cell > width
    ensures NextAlive(model, maxIndex, width, cell) ==
      Conway(IsLive(model, maxIndex, cell), CountLive(LiveFlags(model, maxIndex, Around(cell, width))))
  {
    InteriorNeighbourhood(cell, width);
    var flags := LiveFlags(model, maxIndex, Neighbourhood(cell, width));
    NeighbourCountOfMask(flags);
    CountAroundIsCountLive(flags, 9);
    assert WithoutCentre(flags, 9) == LiveFlags(model, maxIndex, Around(cell, width));
    MaskBits(flags, 4);
  }

  /** Cells of the first row are never brought to life: their pattern is
      empty. */
  lemma FirstRowStaysDead(model: seq<LifeNode>, maxIndex: nat, width: Word, cell: Word)
    requires maxIndex <= |model| && Walkable(cell, width) && cell < width
    ensures !NextAlive(model, maxIndex, width, cell)
  {
    assert LiveFlags(model, maxIndex, Neighbourhood(cell, width)) == [];
    ZeroCount(16);
  }

  // ---------------------------------------------------------------------
  // Effects of one signal, as values.

  /** The new model and the callback calls of one operation. */
  datatype LifeStep = LifeStep(Model: seq<LifeNode>, Emitted: seq<Emission<LifeOperation>>)

  /** An Evaluate signal for each listed cell, with no delay. */
  function EvaluateSignals(ps: seq<Word>): seq<Emission<LifeOperation>>
  {
    seq(|ps|, j requires 0 <= j < |ps| => Emission(LifeOperation(ps[j], Evaluate), 0))
  }

  lemma SignalsAppend(a: seq<Word>, b: seq<Word>)
    ensures EvaluateSignals(a + b) == EvaluateSignals(a) + EvaluateSignals(b)
  {
  }

  /** What ProcessEvaluation does to the model and which calls it makes. */
  function Evaluation(model: seq<LifeNode>, maxIndex: nat, width: Word, cell: Word): LifeStep
    requires maxIndex <= |model| && Walkable(cell, width) && cell < |model|
  {
    var next := NextAlive(model, maxIndex, width, cell);
    if model[cell].Alive != next then
      LifeStep(model[cell := model[cell].(AliveNextTick := next)], [Emission(LifeOperation(cell, Propagate), 0)])
    else
      LifeStep(model, [])
  }

  /** What ProcessPropagation does to the model and which calls it makes. */
  function Propagation(model: seq<LifeNode>, width: Word, cell: Word): LifeStep
    requires Walkable(cell, width) && cell < |model|
  {
    LifeStep(model[cell := model[cell].(Alive := model[cell].AliveNextTick)], EvaluateSignals(Neighbourhood(cell, width)))
  }

  /** The index a work item can be handed to Process with: the model has
      the cell (the source indexes it unchecked) and its walk is clear. */
  predicate Processable(model: seq<LifeNode>, width: Word, cell: Word)
  {
    cell < |model| && Walkable(cell, width)
  }

  /** ProcessWorkItem, as a value. */
  function WorkItemStep(model: seq<LifeNode>, maxIndex: nat, width: Word, op: LifeOperation): LifeStep
    requires maxIndex <= |model| && Processable(model, width, op.Index)
  {
    match op.Op
    case Evaluate => Evaluation(model, maxIndex, width, op.Index)
    case Propagate => Propagation(model, width, op.Index)
  }

  lemma WorkItemStepKeepsSize(model: seq<LifeNode>, maxIndex: nat, width: Word, op: LifeOperation)
    requires maxIndex <= |model| && Processable(model, width, op.Index)
    ensures |WorkItemStep(model, maxIndex, width, op).Model| == |model|
  {
  }

  /** The work items processed one after another, calls concatenated in
      order. */
  function ProcessAll(model: seq<LifeNode>, maxIndex: nat, width: Word, items: seq<WorkItem<LifeOperation>>): (r: LifeStep)
    requires maxIndex <= |model|
    requires forall i :: 0 <= i < |items| ==> Processable(model, width, items[i].Operator.Index)
    ensures |r.Model| == |model|
  {
    if items == [] then LifeStep(model, [])
    else
      var front := items[..|items| - 1];
      var s := ProcessAll(model, maxIndex, width, front);
      assert Processable(model, width, items[|items| - 1].Operator.Index);
      var t := WorkItemStep(s.Model, maxIndex, width, items[|items| - 1].Operator);
      LifeStep(t.Model, s.Emitted + t.Emitted)
  }

  /** ProcessAll over one more item: that item's step after the others'. */
  lemma ProcessAllSnoc(model: seq<LifeNode>, maxIndex: nat, width: Word, items: seq<WorkItem<LifeOperation>>, i: nat)
    requires maxIndex <= |model| && i < |items|
    requires forall k :: 0 <= k < |items| ==> Processable(model, width, items[k].Operator.Index)
    ensures var s := ProcessAll(model, maxIndex, width, items[..i]);
      |s.Model| == |model| && Processable(s.Model, width, items[i].Operator.Index) &&
      var t := WorkItemStep(s.Model, maxIndex, width, items[i].Operator);
      ProcessAll(model, maxIndex, width, items[..i + 1]) == LifeStep(t.Model, s.Emitted + t.Emitted)
  {
    assert items[..i + 1][..i] == items[..i];
  }

  /** Evaluation never changes whether a cell is alive, only the state
      stored for the next tick. */
  lemma EvaluationKeepsAlive(model: seq<LifeNode>, maxIndex: nat, width: Word, cell: Word)
    requires maxIndex <= |model| && Walkable(cell, width) && cell < |model|
    ensures var r := Evaluation(model, maxIndex, width, cell).Model;
      |r| == |model| && forall p :: 0 <= p < |model| ==> r[p].Alive == model[p].Alive
    ensures var r := Evaluation(model, maxIndex, width, cell).Model;
      forall p :: 0 <= p < |model| && p != cell ==> r[p] == model[p]
  {
  }

  /** The next state of a cell depends only on which cells are alive. */
  lemma NextAliveReadsAliveOnly(model: seq<LifeNode>, model': seq<LifeNode>, maxIndex: nat, width: Word, cell: Word)
    requires maxIndex <= |model| && |model'| == |model| && Walkable(cell, width)
    requires forall p :: 0 <= p < |model| ==> model'[p].Alive == model[p].Alive
    ensures NextAlive(model', maxIndex, width, cell) == NextAlive(model, maxIndex, width, cell)
  {
    assert LiveFlags(model', maxIndex, Neighbourhood(cell, width)) == LiveFlags(model, maxIndex, Neighbourhood(cell, width));
  }

  /** Two evaluations in one tick do not disturb each other: evaluating
      `a` leaves the outcome of evaluating `b` as it was, so the order in
      which workers evaluate cells does not matter. */
  lemma EvaluationsCommute(model: seq<LifeNode>, maxIndex: nat, width: Word, a: Word, b: Word)
    requires maxIndex <= |model| && Processable(model, width, a) && Processable(model, width, b) && a != b
    ensures var m1 := Evaluation(model, maxIndex, width, a).Model;
      NextAlive(m1, maxIndex, width, b) == NextAlive(model, maxIndex, width, b)
    ensures var m1 := Evaluation(model, maxIndex, width, a).Model;
      var m2 := Evaluation(model, maxIndex, width, b).Model;
      Evaluation(m1, maxIndex, width, b).Model == Evaluation(m2, maxIndex, width, a).Model
  {
    var m1 := Evaluation(model, maxIndex, width, a).Model;
    var m2 := Evaluation(model, maxIndex, width, b).Model;
    EvaluationKeepsAlive(model, maxIndex, width, a);
    EvaluationKeepsAlive(model, maxIndex, width, b);
    NextAliveReadsAliveOnly(model, m1, maxIndex, width, b);
    NextAliveReadsAliveOnly(model, m2, maxIndex, width, a);
  }

  /** The two phases together: after a cell is evaluated, and propagated
      when the evaluation signalled so, the cell is alive exactly when the
      rules say; the evaluation signals a propagation exactly when the
      state changes. */
  lemma EvaluateThenPropagate(model: seq<LifeNode>, maxIndex: nat, width: Word, cell: Word)
    requires maxIndex <= |model| && Processable(model, width, cell)
    ensures var e := Evaluation(model, maxIndex, width, cell);
      var next := NextAlive(model, maxIndex, width, cell);
      (e.Emitted != [] <==> model[cell].Alive != next) &&
      (e.Emitted == [] ==> e.Model[cell].Alive == next) &&
      (e.Emitted != [] ==> e.Emitted == [Emission(LifeOperation(cell, Propagate), 0)] &&
                           Propagation(e.Model, width, cell).Model[cell].Alive == next)
  {
  }

  /** A propagation signals the cell and its eight neighbours, the cell
      itself in the middle. */
  lemma PropagationSignalsNeighbours(model: seq<LifeNode>, width: Word, cell: Word)
    requires Processable(model, width, cell) && cell > width
    ensures var s := Propagation(model, width, cell).Emitted;
      |s| == 9 && s[4] == Emission(LifeOperation(cell, Evaluate), 0) &&
      forall j :: 0 <= j < 9 && j != 4 ==> s[j].Work.Index in Around(cell, width)
  {
    InteriorNeighbourhood(cell, width);
  }

  /** A propagation in the last row signals a cell past the grid: its walk
      goes one row further. */
  lemma LastRowSignalsPastGrid(model: seq<LifeNode>, width: Word, height: Word, cell: Word)
    requires Processable(model, width, cell) && cell >= width && (height - 1) * width <= cell < height * width
    ensures exists j :: (0 <= j < |Propagation(model, width, cell).Emitted| &&
                         Propagation(model, width, cell).Emitted[j].Work.Index >= height * width)
  {
    var s := Propagation(model, width, cell).Emitted;
    assert s[|s| - 2].Work.Index == cell + width;
  }

  // ---------------------------------------------------------------------
  // std::unique over the work items, equal operator index as equality.

  /** The first item of every run of items with equal index, in order. */
  function Dedup(items: seq<WorkItem<LifeOperation>>): (d: seq<WorkItem<LifeOperation>>)
    ensures forall k :: 0 <= k < |d| ==> d[k] in items
  {
    if items == [] then []
    else
      var d := Dedup(items[..|items| - 1]);
      var w := items[|items| - 1];
      if d != [] && d[|d| - 1].Operator.Index == w.Operator.Index then d else d + [w]
  }

  /** The kept items are items of the input, no two neighbours share an
      index, and the last kept index is the input's last. */
  lemma {:induction false} DedupShape(items: seq<WorkItem<LifeOperation>>)
    ensures var d := Dedup(items);
      (forall k :: 0 < k < |d| ==> d[k - 1].Operator.Index != d[k].Operator.Index) &&
      (items != [] ==> d != [] && d[|d| - 1].Operator.Index == items[|items| - 1].Operator.Index)
  {
    if items != [] {
      var front := items[..|items| - 1];
      DedupShape(front);
    }
  }

  /** The items kept are items of the input, so processable when those are. */
  lemma DedupProcessable(model: seq<LifeNode>, width: Word, items: seq<WorkItem<LifeOperation>>)
    requires forall i :: 0 <= i < |items| ==> Processable(model, width, items[i].Operator.Index)
    ensures forall k :: 0 <= k < |Dedup(items)| ==> Processable(model, width, Dedup(items)[k].Operator.Index)
  {
  }

  /** Every index of the input survives, and no other. */
  lemma {:induction false} DedupKeepsIndices(items: seq<WorkItem<LifeOperation>>, index: Word)
    ensures (exists k :: 0 <= k < |Dedup(items)| && Dedup(items)[k].Operator.Index == index) <==>
            (exists k :: 0 <= k < |items| && items[k].Operator.Index == index)
  {
    DedupShape(items);
    if items != [] {
      var front := items[..|items| - 1];
      var d := Dedup(front);
      DedupKeepsIndices(front, index);
      DedupShape(front);
      if exists k :: 0 <= k < |items| && items[k].Operator.Index == index {
        var k :| 0 <= k < |items| && items[k].Operator.Index == index;
        if k < |items| - 1 {
          assert front[k].Operator.Index == index;
          var k2 :| 0 <= k2 < |d| && d[k2].Operator.Index == index;
          assert Dedup(items)[k2] == d[k2];
        } else if d != [] && d[|d| - 1].Operator.Index == index {
        } else {
          assert Dedup(items)[|Dedup(items)| - 1].Operator.Index == index;
        }
      }
    }
  }

  /** The items' cell indices never decrease, as the adaptive partitioner
      hands them out. */
  predicate IndexSorted(items: seq<WorkItem<LifeOperation>>)
  {
    forall i, j :: 0 <= i < j < |items| ==> items[i].Operator.Index <= items[j].Operator.Index
  }

  /** The items' cell indices strictly increase. */
  predicate IndexStrict(items: seq<WorkItem<LifeOperation>>)
  {
    forall i, j :: 0 <= i < j < |items| ==> items[i].Operator.Index < items[j].Operator.Index
  }

  lemma StrictAppend(d: seq<WorkItem<LifeOperation>>, w: WorkItem<LifeOperation>)
    requires IndexStrict(d) && (d != [] ==> d[|d| - 1].Operator.Index < w.Operator.Index)
    ensures IndexStrict(d + [w])
  {
    var e := d + [w];
    forall i, j | 0 <= i < j < |e|
      ensures e[i].Operator.Index < e[j].Operator.Index
    {
      if j == |d| && i < |d| - 1 {
        assert d[i].Operator.Index < d[|d| - 1].Operator.Index;
      }
    }
  }

  /** Of sorted input, the front is sorted and what Dedup keeps of it ends
      at an index no greater than the last item's. */
  lemma SortedFront(items: seq<WorkItem<LifeOperation>>)
    requires items != [] && IndexSorted(items)
    ensures var front := items[..|items| - 1];
      IndexSorted(front) &&
      (Dedup(front) != [] ==> Dedup(front)[|Dedup(front)| - 1].Operator.Index <= items[|items| - 1].Operator.Index)
  {
    var front := items[..|items| - 1];
    assert IndexSorted(front);
    if Dedup(front) != [] {
      DedupShape(front);
      assert items[|front| - 1] == front[|front| - 1];
    }
  }

  /** Sorted input (as the adaptive partitioner hands it out) leaves each
      index exactly once, in increasing order. */
  lemma {:induction false} DedupOfSortedIsStrict(items: seq<WorkItem<LifeOperation>>)
    requires IndexSorted(items)
    ensures IndexStrict(Dedup(items))
  {
    if items != [] {
      var front := items[..|items| - 1];
      var w := items[|items| - 1];
      var d := Dedup(front);
      assert IndexStrict(d) && (d != [] ==> d[|d| - 1].Operator.Index <= w.Operator.Index) by {
        SortedFront(items);
        DedupOfSortedIsStrict(front);
      }
      if d == [] || d[|d| - 1].Operator.Index != w.Operator.Index {
        StrictAppend(d, w);
        assert Dedup(items) == d + [w];
      } else {
        assert Dedup(items) == d;
      }
    }
  }

  /** std::unique with the equal-index predicate: keep an item when it
      starts a new run. */
  method UniqueByIndex(items: seq<WorkItem<LifeOperation>>) returns (kept: seq<WorkItem<LifeOperation>>)
    ensures kept == Dedup(items)
  {
    kept := [];
    for i := 0 to |items|
      invariant kept == Dedup(items[..i])
    {
      assert items[..i + 1][..i] == items[..i];
      var work := items[i];
      if kept == [] || kept[|kept| - 1].Operator.Index != work.Operator.Index {
        kept := kept + [work];
      }
    }
    assert items[..|items|] == items;
  }

  // ---------------------------------------------------------------------
  // The two nested loops.

  /** The two nested loops of ApplyRulesOfLife: one pattern bit per
      visited cell, in walking order, set when the cell is in the grid and
      alive. */
  method SurroundPattern(model: seq<LifeNode>, maxIndex: Word, width: Word, cellIndex: Word) returns (surround: bv16)
    requires maxIndex <= |model| && Walkable(cellIndex, width)
    ensures surround == Mask(LiveFlags(model, maxIndex, Neighbourhood(cellIndex, width)))
  {
    ghost var flags := LiveFlags(model, maxIndex, Neighbourhood(cellIndex, width));
    surround := 0;
    var bitmask: bv16 := 1;
    ghost var n: nat := 0;
    ghost var rows: nat := 0;
    var rowStep := Wrap(cellIndex - width);
    while rowStep < Wrap(cellIndex + width + 1)
      invariant cellIndex < width ==> rowStep == Wrap(cellIndex - width) && n == 0
      invariant n <= |flags| <= 9
      invariant surround == MaskUpTo(flags, n) && bitmask == SingleBit(n)
      invariant cellIndex >= width ==> (rows <= 3 && rowStep == RowStart(cellIndex, width, rows) &&
                                        n == |RowsBefore(cellIndex, width, rows)|)
      decreases 3 - rows
    {
      RowStarts(cellIndex, width, rows);
      surround, bitmask := OuterRow(model, maxIndex, width, cellIndex, rows, rowStep, surround, bitmask);
      n := |RowsBefore(cellIndex, width, rows + 1)|;
      rowStep := Wrap(rowStep + width);
      rows := rows + 1;
    }
    if cellIndex >= width {
      RowStarts(cellIndex, width, rows);
      AllRows(cellIndex, width);
    }
  }

  /** The flags of row `k` come right after those of the rows before it. */
  lemma RowFlags(model: seq<LifeNode>, maxIndex: Word, cell: Word, width: Word, k: nat, rowStep: Word)
    requires maxIndex <= |model| && Walkable(cell, width) && width <= cell && k < 3
    requires rowStep == RowStart(cell, width, k)
    ensures rowStep + 2 < WordModulus
    ensures var flags := LiveFlags(model, maxIndex, Neighbourhood(cell, width));
      var n := |RowsBefore(cell, width, k)|;
      n + |RowOf(rowStep)| == |RowsBefore(cell, width, k + 1)| <= |flags| <= 9 &&
      forall j :: 0 <= j < |RowOf(rowStep)| ==> flags[n + j] == IsLive(model, maxIndex, RowOf(rowStep)[j])
  {
    NextRowCells(cell, width, k);
    var ps := Neighbourhood(cell, width);
    var n := |RowsBefore(cell, width, k)|;
    var row := RowOf(rowStep);
    assert forall j :: 0 <= j < |row| ==> ps[n + j] == row[j];
    LiveFlagsSlice(model, maxIndex, ps, n, row);
  }

  /** Where a stretch of the cells is a given row, the flags there are
      that row's. */
  lemma LiveFlagsSlice(model: seq<LifeNode>, maxIndex: Word, ps: seq<Word>, n: nat, row: seq<Word>)
    requires maxIndex <= |model| && n + |row| <= |ps|
    requires forall j :: 0 <= j < |row| ==> ps[n + j] == row[j]
    ensures var flags := LiveFlags(model, maxIndex, ps);
      forall j :: 0 <= j < |row| ==> flags[n + j] == IsLive(model, maxIndex, row[j])
  {
  }

  /** One iteration of the outer loop: the pattern bits of row `k` follow
      those of the rows before it. */
  method OuterRow(model: seq<LifeNode>, maxIndex: Word, width: Word, cellIndex: Word, ghost k: nat, rowStep: Word,
                  surround: bv16, bitmask: bv16) returns (surround': bv16, bitmask': bv16)
    requires maxIndex <= |model| && Walkable(cellIndex, width) && width <= cellIndex && k < 3
    requires rowStep == RowStart(cellIndex, width, k)
    requires var flags := LiveFlags(model, maxIndex, Neighbourhood(cellIndex, width));
      var n := |RowsBefore(cellIndex, width, k)|;
      n <= |flags| && surround == MaskUpTo(flags, n) && bitmask == SingleBit(n)
    ensures var flags := LiveFlags(model, maxIndex, Neighbourhood(cellIndex, width));
      var n := |RowsBefore(cellIndex, width, k + 1)|;
      n <= |flags| && surround' == MaskUpTo(flags, n) && bitmask' == SingleBit(n)
  {
    ghost var flags := LiveFlags(model, maxIndex, Neighbourhood(cellIndex, width));
    ghost var n := |RowsBefore(cellIndex, width, k)|;
    RowFlags(model, maxIndex, cellIndex, width, k, rowStep);
    surround', bitmask' := LiveRow(model, maxIndex, rowStep, surround, bitmask, flags, n, |RowsBefore(cellIndex, width, k + 1)|);
  }

  /** The inner loop of ApplyRulesOfLife for the row starting at
      `rowStep`: one pattern bit per visited cell, set when the cell is in
      the grid and alive. */
  method LiveRow(model: seq<LifeNode>, maxIndex: Word, rowStep: Word, surround: bv16, bitmask: bv16,
                 ghost flags: seq<bool>, ghost n: nat, ghost end: nat)
    returns (surround': bv16, bitmask': bv16)
    requires maxIndex <= |model| && rowStep + 2 < WordModulus
    requires end == n + |RowOf(rowStep)| <= |flags| <= 9
    requires forall j :: 0 <= j < |RowOf(rowStep)| ==> flags[n + j] == IsLive(model, maxIndex, RowOf(rowStep)[j])
    requires surround == MaskUpTo(flags, n) && bitmask == SingleBit(n)
    ensures surround' == MaskUpTo(flags, end) && bitmask' == SingleBit(end)
  {
    surround', bitmask' := surround, bitmask;
    ghost var m := n;
    var step := Wrap(rowStep - 1);
    while step < Wrap(rowStep + 2)
      invariant rowStep == 0 ==> step == WordModulus - 1 && m == n
      invariant rowStep > 0 ==> rowStep - 1 <= step <= rowStep + 2 && m == n + (step - (rowStep - 1))
      invariant surround' == MaskUpTo(flags, m) && bitmask' == SingleBit(m)
      decreases rowStep + 2 - step
    {
      assert RowOf(rowStep)[m - n] == step;
      surround', bitmask' := LiveCell(model, maxIndex, step, surround', bitmask', flags, m);
      step := Increment(step);
      m := m + 1;
    }
  }

  /** The body of the inner loop: the pattern bit of the visited cell
      `step` is set when it is in the grid and alive, and the mask moves
      on to the next bit. */
  method LiveCell(model: seq<LifeNode>, maxIndex: Word, step: Word, surround: bv16, bitmask: bv16,
                  ghost flags: seq<bool>, ghost m: nat)
    returns (surround': bv16, bitmask': bv16)
    requires maxIndex <= |model| && m < |flags| <= 9 && flags[m] == IsLive(model, maxIndex, step)
    requires surround == MaskUpTo(flags, m) && bitmask == SingleBit(m)
    ensures surround' == MaskUpTo(flags, m + 1) && bitmask' == SingleBit(m + 1)
  {
    if step < maxIndex && model[step].Alive {
      MaskSet(flags, m, surround, bitmask);
      surround' := surround | bitmask;
    } else {
      MaskKeep(flags, m, surround);
      surround' := surround;
    }
    ShiftSingleBit(m);
    bitmask' := bitmask << 1;
  }

  /** The inner loop of SignalAllSurroundingCellsToEvaluate for the row
      starting at `rowStep`. */
  method SignalRow(rowStep: Word) returns (emitted: seq<Emission<LifeOperation>>)
    requires rowStep + 2 < WordModulus
    ensures emitted == EvaluateSignals(RowOf(rowStep))
  {
    emitted := [];
    var step := Wrap(rowStep - 1);
    while step < Wrap(rowStep + 2)
      invariant rowStep == 0 ==> step == WordModulus - 1 && emitted == []
      invariant rowStep > 0 ==> (rowStep - 1 <= step <= rowStep + 2 &&
                                 emitted == EvaluateSignals(RowOf(rowStep)[..step - (rowStep - 1)]))
      decreases rowStep + 2 - step
    {
      ghost var k := step - (rowStep - 1);
      assert RowOf(rowStep)[..k + 1] == RowOf(rowStep)[..k] + [step];
      SignalsAppend(RowOf(rowStep)[..k], [step]);
      emitted := emitted + [Emission(LifeOperation(step, Evaluate), 0)];
      step := Increment(step);
    }
    assert rowStep > 0 ==> RowOf(rowStep)[..3] == RowOf(rowStep);
  }

  /** SignalAllSurroundingCellsToEvaluate (LifeImplementation.h and
      LifeSupport.h): an Evaluate call, with no delay, for every cell of the
      neighbourhood walk, in walking order. */
  method SignalAllSurroundingCellsToEvaluate(cellIndex: Word, width: Word) returns (emitted: seq<Emission<LifeOperation>>)
    requires Walkable(cellIndex, width)
    ensures emitted == EvaluateSignals(Neighbourhood(cellIndex, width))
  {
    emitted := [];
    ghost var rows: nat := 0;
    var rowStep := Wrap(cellIndex - width);
    while rowStep < Wrap(cellIndex + width + 1)
      invariant cellIndex < width ==> rowStep == Wrap(cellIndex - width) && emitted == []
      invariant cellIndex >= width ==> (rows <= 3 && rowStep == RowStart(cellIndex, width, rows) &&
                                        emitted == EvaluateSignals(RowsBefore(cellIndex, width, rows)))
      decreases 3 - rows
    {
      var row := SignalRow(rowStep);
      SignalsAppend(RowsBefore(cellIndex, width, rows), RowOf(rowStep));
      emitted := emitted + row;
      rowStep := Wrap(rowStep + width);
      rows := rows + 1;
    }
    if cellIndex >= width {
      assert rows == 3;
      assert RowsBefore(cellIndex, width, 2) == RowOf(cellIndex - width) + RowOf(cellIndex);
      assert RowsBefore(cellIndex, width, 3) == Neighbourhood(cellIndex, width);
    } else {
      assert Neighbourhood(cellIndex, width) == [];
    }
  }

  /** Samples/life's model: the shared vector of cells. */
  class LifeModelCarrier {
    var Model: seq<LifeNode>
    var Valid: bool

    constructor (model: seq<LifeNode>)
      ensures Model == model && Valid
    {
      Model := model;
      Valid := true;
    }
  }

  class LifeImplementation {
    const WorkerId: int
    const Carrier: LifeModelCarrier
    const Width: Word
    const Height: Word
    const MaxIndex: Word
    /** rules_[512]: the next state of the centre for every nine-cell pattern. */
    const Rules: array<bool>

    /** The rules table holds Conway's rule for every pattern. */
    predicate Valid()
      reads this, Rules
    {
      Rules.Length == 512 && forall p :: 0 <= p < 512 ==> Rules[p] == RuleFor(p as bv16)
    }

    /** The dimensions default to 100 × 100; configured ones are `int`s
        converted to `unsigned long`, and the grid size is their product in
        64 bits. */
    constructor (workerId: int, carrier: LifeModelCarrier, dimensions: Option<(int, int)>)
      ensures WorkerId == workerId && Carrier == carrier
      ensures Width == (if dimensions.Some? then Wrap(dimensions.value.0) else 100)
      ensures Height == (if dimensions.Some? then Wrap(dimensions.value.1) else 100)
      ensures MaxIndex == Wrap(Width * Height)
      ensures Valid() && fresh(Rules)
    {
      WorkerId := workerId;
      Carrier := carrier;
      var width: Word := 100;
      var height: Word := 100;
      if dimensions.Some? {
        width := Wrap(dimensions.value.0);
        height := Wrap(dimensions.value.1);
      }
      Width := width;
      Height := height;
      MaxIndex := Wrap(width * height);
      Rules := new bool[512](_ => false);
      new;
      GenerateRulesOfLife();
    }

    /** For every pattern: fewer than two or more than three neighbours
        die, exactly three give life, two keep the centre's state. */
    method GenerateRulesOfLife()
      requires Rules.Length == 512
      modifies Rules
      ensures Valid()
    {
      for pattern := 0 to 512
        invariant forall q :: 0 <= q < pattern ==> Rules[q] == RuleFor(q as bv16)
      {
        var centerResult := RuleOfPattern(pattern as bv16);
        Rules[pattern] := centerResult;
      }
    }

    lemma LookUpIsRule(pattern: bv16)
      requires Valid() && pattern as int < 512
      ensures Rules[pattern as int] == RuleFor(pattern)
    {
      assert (pattern as int) as bv16 == pattern;
    }

    /** One round of GenerateRulesOfLife's loop. */
    static method RuleOfPattern(pattern: bv16) returns (centerResult: bool)
      ensures centerResult == RuleFor(pattern)
    {
      var centerAlive := pattern & 0x10 != 0;
      var surroundingCount := GetSurroundingCount(pattern & !0x10);
      centerResult := false;
      if surroundingCount < 2 || surroundingCount > 3 {
        centerResult := false;
      } else if surroundingCount == 3 {
        centerResult := true;
      } else {
        centerResult := centerAlive;
      }
    }

    /** The state the rules give `cellIndex`: the neighbourhood pattern
        looked up in the rules table. */
    method ApplyRulesOfLife(cellIndex: Word) returns (aliveNextTick: bool)
      requires Valid() && Walkable(cellIndex, Width) && MaxIndex <= |Carrier.Model|
      ensures aliveNextTick == NextAlive(Carrier.Model, MaxIndex, Width, cellIndex)
    {
      var surround := SurroundPattern(Carrier.Model, MaxIndex, Width, cellIndex);
      MaskBound(LiveFlags(Carrier.Model, MaxIndex, Neighbourhood(cellIndex, Width)));
      LookUpIsRule(surround);
      aliveNextTick := Rules[surround as int];
    }

    /** ProcessEvaluation: store the state the rules give and signal a
        propagation of the cell when it differs from the current one. */
    method ProcessEvaluation(cellIndex: Word) returns (emitted: seq<Emission<LifeOperation>>)
      requires Valid() && MaxIndex <= |Carrier.Model| && Processable(Carrier.Model, Width, cellIndex)
      modifies Carrier`Model
      ensures LifeStep(Carrier.Model, emitted) == Evaluation(old(Carrier.Model), MaxIndex, Width, cellIndex)
    {
      var aliveNextTick := ApplyRulesOfLife(cellIndex);
      var lifeNode := Carrier.Model[cellIndex];
      emitted := [];
      if lifeNode.Alive != aliveNextTick {
        Carrier.Model := Carrier.Model[cellIndex := lifeNode.(AliveNextTick := aliveNextTick)];
        emitted := [Emission(LifeOperation(cellIndex, Propagate), 0)];
      }
    }

    /** ProcessPropagation: make the stored state current and signal the
        neighbourhood to evaluate. */
    method ProcessPropagation(cellIndex: Word) returns (emitted: seq<Emission<LifeOperation>>)
      requires Processable(Carrier.Model, Width, cellIndex)
      modifies Carrier`Model
      ensures LifeStep(Carrier.Model, emitted) == Propagation(old(Carrier.Model), Width, cellIndex)
    {
      var lifeNode := Carrier.Model[cellIndex];
      Carrier.Model := Carrier.Model[cellIndex := lifeNode.(Alive := lifeNode.AliveNextTick)];
      emitted := SignalAllSurroundingCellsToEvaluate(cellIndex, Width);
    }

    method ProcessWorkItem(work: LifeOperation) returns (emitted: seq<Emission<LifeOperation>>)
      requires Valid() && MaxIndex <= |Carrier.Model| && Processable(Carrier.Model, Width, work.Index)
      modifies Carrier`Model
      ensures LifeStep(Carrier.Model, emitted) == WorkItemStep(old(Carrier.Model), MaxIndex, Width, work)
    {
      match work.Op
      case Evaluate =>
        emitted := ProcessEvaluation(work.Index);
      case Propagate =>
        emitted := ProcessPropagation(work.Index);
    }

    /** Process: nothing for an empty range; otherwise the first item of
        each run of equal index, processed in order. */
    method Process(items: seq<WorkItem<LifeOperation>>) returns (emitted: seq<Emission<LifeOperation>>)
      requires Valid() && MaxIndex <= |Carrier.Model|
      requires forall i :: 0 <= i < |items| ==> Processable(Carrier.Model, Width, items[i].Operator.Index)
      modifies Carrier`Model
      ensures LifeStep(Carrier.Model, emitted) == ProcessAll(old(Carrier.Model), MaxIndex, Width, Dedup(items))
    {
      emitted := [];
      if |items| == 0 {
        return;
      }
      var localWork := UniqueByIndex(items);
      ghost var start := Carrier.Model;
      DedupProcessable(start, Width, items);
      for i := 0 to |localWork|
        invariant |Carrier.Model| == |start|
        invariant LifeStep(Carrier.Model, emitted) == ProcessAll(start, MaxIndex, Width, localWork[..i])
      {
        ProcessAllSnoc(start, MaxIndex, Width, localWork, i);
        var more := ProcessWorkItem(localWork[i].Operator);
        emitted := emitted + more;
      }
      assert localWork[..|localWork|] == localWork;
    }
  }
}
