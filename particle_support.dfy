/** The particle sample's set-up side
    (samples/particle/include/ParticleSupport.h): sizing the model, placing
    the first particles cell by cell and signalling each of them to start
    moving. The JSON configuration arrives as optional values: the
    `Dimensions` pair and the `ModelSize` number when it is an unsigned
    number. */
module ParticleSupports {
  import opened Basics
  import opened WorkerContexts
  import opened Particle

  /** A cell after InitializeCell: occupied by the named particle with the
      given vector, mass, speed and type; its error term is left as it
      was. */
  function Placed(node: ParticleNode, name: string, horizontalVector: int, verticalVector: int,
                  mass: int, speed: int, particleType: ParticleType): ParticleNode
  {
    node.(Name := StoredName(name), Occupied := true, HorizontalVector := horizontalVector,
          VerticalVector := verticalVector, Mass := mass, Speed := speed, Type := particleType)
  }

  /** The Propagate calls of SignalInitialCells: one per recorded cell, in
      recording order, with the name the cell holds. */
  function InitialSignals(model: seq<ParticleNode>, cells: seq<Word>): (r: seq<Emission<ParticleOperation>>)
    requires forall i :: 0 <= i < |cells| ==> cells[i] < |model|
  {
    seq(|cells|, j requires 0 <= j < |cells| => Emission(PropagateOperation(cells[j], CString(model[cells[j]].Name)), 0))
  }

  /** A placed particle reads back with its name cut to 19 characters, and
      keeps the cell's error term. */
  lemma PlacedReadsBack(node: ParticleNode, name: string, horizontalVector: int, verticalVector: int,
                        mass: int, speed: int, particleType: ParticleType)
    requires '\0' !in name
    ensures var p := Placed(node, name, horizontalVector, verticalVector, mass, speed, particleType);
      p.Occupied && CString(p.Name) == (if |name| < NameSize then name else name[..NameSize - 1]) &&
      p.Gradient == node.Gradient
  {
    StoredNameRoundTrip(name);
  }

  /** The particle a cell was last given is the one signalled from it,
      under its own name (of at most 19 characters). */
  lemma PlacedParticleIsSignalled(model: seq<ParticleNode>, cells: seq<Word>, j: nat, name: string,
                                  horizontalVector: int, verticalVector: int, mass: int, speed: int,
                                  particleType: ParticleType)
    requires forall i :: 0 <= i < |cells| ==> cells[i] < |model|
    requires j < |cells| && '\0' !in name && |name| < NameSize
    ensures var model' := model[cells[j] := Placed(model[cells[j]], name, horizontalVector, verticalVector, mass, speed, particleType)];
      |InitialSignals(model', cells)| == |cells| &&
      InitialSignals(model', cells)[j] == Emission(PropagateOperation(cells[j], name), 0)
  {
    PlacedReadsBack(model[cells[j]], name, horizontalVector, verticalVector, mass, speed, particleType);
  }

  class ParticleSupport {
    const Carrier: ParticleModelCarrier
    var Width: Word
    var Height: Word
    var MaxIndex: Word
    /** initializedCells_: the cells InitializeCell has written, in order,
        repeats included. */
    var InitializedCells: seq<Word>

    /** The dimensions default to 100 × 100; configured ones are `int`s
        converted to `unsigned long`. The grid size is set later, by
        InitializeModel. */
    constructor (carrier: ParticleModelCarrier, dimensions: Option<(int, int)>)
      ensures Carrier == carrier && MaxIndex == 0 && InitializedCells == []
      ensures Width == (if dimensions.Some? then Wrap(dimensions.value.0) else 100)
      ensures Height == (if dimensions.Some? then Wrap(dimensions.value.1) else 100)
    {
      Carrier := carrier;
      Width := 100;
      Height := 100;
      MaxIndex := 0;
      InitializedCells := [];
      new;
      if dimensions.Some? {
        Width := Wrap(dimensions.value.0);
        Height := Wrap(dimensions.value.1);
      }
    }

    /** AllocateModel and CreateModel: with no size to use the carrier is
        marked invalid and the model is left alone; otherwise the model is
        resized, new cells empty. */
    method AllocateModel(modelSize: Word, configuredSize: Option<nat>) returns (created: bool)
      modifies Carrier
      ensures var size := ResolvedSize(modelSize, configuredSize);
        created == (size != 0) &&
        (created ==> Carrier.Model == Resized(old(Carrier.Model), size, EmptyNode) && Carrier.Valid == old(Carrier.Valid)) &&
        (!created ==> Carrier.Model == old(Carrier.Model) && !Carrier.Valid)
    {
      created := CreateModel(modelSize, configuredSize);
    }

    method CreateModel(modelSize: Word, configuredSize: Option<nat>) returns (created: bool)
      modifies Carrier
      ensures var size := ResolvedSize(modelSize, configuredSize);
        created == (size != 0) &&
        (created ==> Carrier.Model == Resized(old(Carrier.Model), size, EmptyNode) && Carrier.Valid == old(Carrier.Valid)) &&
        (!created ==> Carrier.Model == old(Carrier.Model) && !Carrier.Valid)
    {
      var size := modelSize;
      if size == 0 {
        if configuredSize.Some? {
          size := configuredSize.value % UIntModulus;
        }
      }
      if size == 0 {
        Carrier.Valid := false;
        return false;
      }
      Carrier.Model := Resized(Carrier.Model, size, EmptyNode);
      return true;
    }

    method InitializeModel(dimensions: Option<(int, int)>)
      modifies this
      ensures Width == (if dimensions.Some? then Wrap(dimensions.value.0) else old(Width))
      ensures Height == (if dimensions.Some? then Wrap(dimensions.value.1) else old(Height))
      ensures MaxIndex == Wrap(Width * Height) && InitializedCells == old(InitializedCells)
    {
      LoadOptionalDimensions(dimensions);
    }

    /** Configured dimensions replace the current ones; the grid size is
        their product in 64 bits. */
    method LoadOptionalDimensions(dimensions: Option<(int, int)>)
      modifies this
      ensures Width == (if dimensions.Some? then Wrap(dimensions.value.0) else old(Width))
      ensures Height == (if dimensions.Some? then Wrap(dimensions.value.1) else old(Height))
      ensures MaxIndex == Wrap(Width * Height) && InitializedCells == old(InitializedCells)
    {
      if dimensions.Some? {
        Width := Wrap(dimensions.value.0);
        Height := Wrap(dimensions.value.1);
      }
      MaxIndex := Wrap(Width * Height);
    }

    /** The cell at `row * width + column` (in 64 bits) receives the
        particle and is recorded for signalling; no other cell changes. */
    method InitializeCell(name: string, row: Word, column: Word, horizontalVector: int, verticalVector: int,
                          mass: int, speed: int, particleType: ParticleType)
      requires Wrap(row * Width + column) < |Carrier.Model|
      modifies Carrier`Model, this`InitializedCells
      ensures var index := Wrap(row * Width + column);
        Carrier.Model == old(Carrier.Model)[index := Placed(old(Carrier.Model)[index], name, horizontalVector, verticalVector, mass, speed, particleType)] &&
        InitializedCells == old(InitializedCells) + [index]
    {
      var index := Wrap(row * Width + column);
      var particleNode := Carrier.Model[index];
      particleNode := particleNode.(Name := StoredName(name), Occupied := true);
      particleNode := particleNode.(HorizontalVector := horizontalVector, VerticalVector := verticalVector);
      particleNode := particleNode.(Mass := mass, Speed := speed, Type := particleType);
      Carrier.Model := Carrier.Model[index := particleNode];
      InitializedCells := InitializedCells + [index];
    }

    /** One Propagate call, with no delay, per recorded cell. */
    method SignalInitialCells() returns (emitted: seq<Emission<ParticleOperation>>)
      requires forall i :: 0 <= i < |InitializedCells| ==> InitializedCells[i] < |Carrier.Model|
      ensures emitted == InitialSignals(Carrier.Model, InitializedCells)
    {
      emitted := [];
      for i := 0 to |InitializedCells|
        invariant emitted == InitialSignals(Carrier.Model, InitializedCells[..i])
      {
        var index := InitializedCells[i];
        var particleNode := Carrier.Model[index];
        var particleName := CString(particleNode.Name);
        emitted := emitted + [Emission(PropagateOperation(index, particleName), 0)];
      }
      assert InitializedCells[..|InitializedCells|] == InitializedCells;
    }
  }
}
