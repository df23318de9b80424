/** The Life sample's set-up side (samples/life/include/LifeSupport.h):
    sizing the model, choosing the first live cells from two classic
    shapes, bringing them to life and signalling their neighbourhoods for
    the first evaluation. The JSON configuration arrives as optional
    values: the `Dimensions` pair and the `ModelSize` number when it is an
    unsigned number. */
module LifeSupports {
  import opened Basics
  import opened WorkerContexts
  import opened Life

  /** A dead cell, as a resize value-initialises it. */
  const DeadCell := LifeNode(false, false)

  /** The cells of MakeStopSignal around `centerCell`: the cell and its
      left and right neighbours. */
  function StopSignalCells(centerCell: Word): seq<Word>
  {
    [Wrap(centerCell - 1), centerCell, Wrap(centerCell + 1)]
  }

  /** The cells of MakeGlider around `centerCell`: a row of three, the
      cell right below the right end, and the cell two rows below the
      centre. */
  function GliderCells(centerCell: Word, width: Word): seq<Word>
  {
    [Wrap(centerCell - 1), centerCell, Wrap(centerCell + 1), Wrap(centerCell + width + 1), Wrap(centerCell + width * 2)]
  }

  /** Each cell lies at the listed (row, column) offset from `centerCell`
      on a grid of the given width. */
  predicate PlacedAt(cells: seq<Word>, centerCell: Word, width: Word, offsets: seq<(int, int)>)
    requires 0 < width
  {
    |cells| == |offsets| &&
    forall j :: 0 <= j < |cells| ==>
      cells[j] / width == centerCell / width + offsets[j].0 &&
      cells[j] % width == centerCell % width + offsets[j].1
  }

  /** The shapes as (row, column) offsets. */
  const StopSignalShape: seq<(int, int)> := [(0, -1), (0, 0), (0, 1)]
  const GliderShape: seq<(int, int)> := [(0, -1), (0, 0), (0, 1), (1, 1), (2, 0)]

  /** The cell at a given offset, when it stays in its row and below 2^64. */
  lemma CellAt(centerCell: Word, width: Word, cell: int, rows: int, columns: int)
    requires 0 < width && 0 <= centerCell % width + columns < width
    requires cell == centerCell + rows * width + columns
    requires 0 <= cell
    ensures cell / width == centerCell / width + rows && cell % width == centerCell % width + columns
  {
    var q, r := centerCell / width, centerCell % width;
    assert cell == (q + rows) * width + (r + columns);
    DivModUnique(cell, width, q + rows, r + columns);
  }

  /** Away from the left and right edges and the end of the index range,
      a stop signal is three cells of
      one row. */
  lemma StopSignalIsARow(centerCell: Word, width: Word)
    requires 0 < width && 1 <= centerCell % width < width - 1 && centerCell + 1 < WordModulus
    ensures PlacedAt(StopSignalCells(centerCell), centerCell, width, StopSignalShape)
  {
    var cells := StopSignalCells(centerCell);
    CellAt(centerCell, width, cells[0], 0, -1);
    CellAt(centerCell, width, cells[1], 0, 0);
    CellAt(centerCell, width, cells[2], 0, 1);
  }

  /** Away from the left and right edges and the end of the index range,
      a glider is a row of three, one cell below its right end and one two
      rows below its centre. */
  lemma GliderIsAGlider(centerCell: Word, width: Word)
    requires 0 < width && 1 <= centerCell % width < width - 1
    requires centerCell + 2 * width < WordModulus
    ensures PlacedAt(GliderCells(centerCell, width), centerCell, width, GliderShape)
  {
    var cells := GliderCells(centerCell, width);
    CellAt(centerCell, width, cells[0], 0, -1);
    CellAt(centerCell, width, cells[1], 0, 0);
    CellAt(centerCell, width, cells[2], 0, 1);
    CellAt(centerCell, width, cells[3], 1, 1);
    CellAt(centerCell, width, cells[4], 2, 0);
  }

  /** The model after InitializeCells: the listed cells alive, every other
      cell as it was. */
  function MarkedAlive(model: seq<LifeNode>, cells: seq<Word>): seq<LifeNode>
  {
    seq(|model|, p requires 0 <= p < |model| => if p in cells then model[p].(Alive := true) else model[p])
  }

  /** The Evaluate calls of SignalInitialCells: each listed cell's
      neighbourhood walk, in list order. */
  function InitialSignals(width: Word, cells: seq<Word>): seq<Emission<LifeOperation>>
    requires forall i :: 0 <= i < |cells| ==> Walkable(cells[i], width)
  {
    if cells == [] then []
    else InitialSignals(width, cells[..|cells| - 1]) + EvaluateSignals(Neighbourhood(cells[|cells| - 1], width))
  }

  /** Cells past the start of the second row give nine calls each. */
  lemma {:induction false} InitialSignalsCount(width: Word, cells: seq<Word>)
    requires forall i :: 0 <= i < |cells| ==> Walkable(cells[i], width) && cells[i] > width
    ensures |InitialSignals(width, cells)| == 9 * |cells|
  {
    if cells != [] {
      InitialSignalsCount(width, cells[..|cells| - 1]);
      InteriorNeighbourhood(cells[|cells| - 1], width);
    }
  }

  class LifeSupport {
    const Carrier: LifeModelCarrier
    var Width: Word
    var Height: Word
    var MaxIndex: Word

    /** The dimensions default to 100 × 100; configured ones are `int`s
        converted to `unsigned long`. The grid size is set later, by
        InitializeModel. */
    constructor (carrier: LifeModelCarrier, dimensions: Option<(int, int)>)
      ensures Carrier == carrier && MaxIndex == 0
      ensures Width == (if dimensions.Some? then Wrap(dimensions.value.0) else 100)
      ensures Height == (if dimensions.Some? then Wrap(dimensions.value.1) else 100)
    {
      Carrier := carrier;
      Width := 100;
      Height := 100;
      MaxIndex := 0;
      new;
      if dimensions.Some? {
        Width := Wrap(dimensions.value.0);
        Height := Wrap(dimensions.value.1);
      }
    }

    /** AllocateModel and CreateModel: with no size to use the carrier is
        marked invalid and the model is left alone; otherwise the model is
        resized, new cells dead. */
    method AllocateModel(modelSize: Word, configuredSize: Option<nat>) returns (created: bool)
      modifies Carrier
      ensures var size := ResolvedSize(modelSize, configuredSize);
        created == (size != 0) &&
        (created ==> Carrier.Model == Resized(old(Carrier.Model), size, DeadCell) && Carrier.Valid == old(Carrier.Valid)) &&
        (!created ==> Carrier.Model == old(Carrier.Model) && !Carrier.Valid)
    {
      created := CreateModel(modelSize, configuredSize);
    }

    method CreateModel(modelSize: Word, configuredSize: Option<nat>) returns (created: bool)
      modifies Carrier
      ensures var size := ResolvedSize(modelSize, configuredSize);
        created == (size != 0) &&
        (created ==> Carrier.Model == Resized(old(Carrier.Model), size, DeadCell) && Carrier.Valid == old(Carrier.Valid)) &&
        (!created ==> Carrier.Model == old(Carrier.Model) && !Carrier.Valid)
    {
      var size := modelSize;
      if size == 0 {
        if configuredSize.Some? {
          size := configuredSize.value % UIntModulus;
        }
      }
      if size == 0 {
        Carrier.Valid := false;
        return false;
      }
      Carrier.Model := Resized(Carrier.Model, size, DeadCell);
      return true;
    }

    method InitializeModel(dimensions: Option<(int, int)>)
      modifies this
      ensures Width == (if dimensions.Some? then Wrap(dimensions.value.0) else old(Width))
      ensures Height == (if dimensions.Some? then Wrap(dimensions.value.1) else old(Height))
      ensures MaxIndex == Wrap(Width * Height)
    {
      LoadOptionalDimensions(dimensions);
    }

    /** Configured dimensions replace the current ones; the grid size is
        their product in 64 bits. */
    method LoadOptionalDimensions(dimensions: Option<(int, int)>)
      modifies this
      ensures Width == (if dimensions.Some? then Wrap(dimensions.value.0) else old(Width))
      ensures Height == (if dimensions.Some? then Wrap(dimensions.value.1) else old(Height))
      ensures MaxIndex == Wrap(Width * Height)
    {
      if dimensions.Some? {
        Width := Wrap(dimensions.value.0);
        Height := Wrap(dimensions.value.1);
      }
      MaxIndex := Wrap(Width * Height);
    }

    method MakeStopSignal(centerCell: Word, initializedCells: seq<Word>) returns (cells: seq<Word>)
      ensures cells == initializedCells + StopSignalCells(centerCell)
    {
      cells := initializedCells;
      cells := cells + [Wrap(centerCell - 1)];
      cells := cells + [centerCell];
      cells := cells + [Wrap(centerCell + 1)];
    }

    method MakeGlider(centerCell: Word, initializedCells: seq<Word>) returns (cells: seq<Word>)
      ensures cells == initializedCells + GliderCells(centerCell, Width)
    {
      cells := initializedCells;
      cells := cells + [Wrap(centerCell - 1)];
      cells := cells + [centerCell];
      cells := cells + [Wrap(centerCell + 1)];
      cells := cells + [Wrap(centerCell + Width + 1)];
      cells := cells + [Wrap(centerCell + Width * 2)];
    }

    /** Every listed cell becomes alive; the rest of the model is
        unchanged. */
    method InitializeCells(initializedCells: seq<Word>)
      requires forall i :: 0 <= i < |initializedCells| ==> initializedCells[i] < |Carrier.Model|
      modifies Carrier`Model
      ensures Carrier.Model == MarkedAlive(old(Carrier.Model), initializedCells)
    {
      ghost var start := Carrier.Model;
      for i := 0 to |initializedCells|
        invariant Carrier.Model == MarkedAlive(start, initializedCells[..i])
      {
        var cellIndex := initializedCells[i];
        assert forall p :: p in initializedCells[..i + 1] <==> p in initializedCells[..i] || p == cellIndex;
        Carrier.Model := Carrier.Model[cellIndex := Carrier.Model[cellIndex].(Alive := true)];
      }
      assert initializedCells[..|initializedCells|] == initializedCells;
    }

    /** One neighbourhood of Evaluate calls per listed cell, in order. */
    method SignalInitialCells(initializedCells: seq<Word>) returns (emitted: seq<Emission<LifeOperation>>)
      requires forall i :: 0 <= i < |initializedCells| ==> Walkable(initializedCells[i], Width)
      ensures emitted == InitialSignals(Width, initializedCells)
    {
      emitted := [];
      for i := 0 to |initializedCells|
        invariant emitted == InitialSignals(Width, initializedCells[..i])
      {
        assert initializedCells[..i + 1][..i] == initializedCells[..i];
        var more := SignalAllSurroundingCellsToEvaluate(initializedCells[i], Width);
        emitted := emitted + more;
      }
      assert initializedCells[..|initializedCells|] == initializedCells;
    }
  }

  /** InitializeCells as specified: a listed cell is alive afterwards, and
      the model is otherwise untouched (the stored next state included). */
  lemma MarkedAliveCells(model: seq<LifeNode>, cells: seq<Word>, p: nat)
    requires p < |model|
    ensures |MarkedAlive(model, cells)| == |model|
    ensures p in cells ==> MarkedAlive(model, cells)[p].Alive
    ensures MarkedAlive(model, cells)[p].AliveNextTick == model[p].AliveNextTick
    ensures p !in cells ==> MarkedAlive(model, cells)[p] == model[p]
  {
  }
}
