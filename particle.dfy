/** The particle sample's worker
    (samples/particle/include/ParticleImplementation.h): named particles
    move across a `Width` × `Height` grid stored row by row in one vector.
    A Propagate signal moves the particle out of its cell one step along
    its vector, walking the straightest grid line with Bresenham's error
    term and bouncing off the walls, and signals it to Land in the next
    cell. Landing in a free cell stores the particle and schedules its next
    Propagate `10 - Speed` ticks later; landing in an occupied cell bounces
    the newcomer straight back. */
module Particle {
  import opened Basics
  import opened WorkItems
  import opened WorkerContexts

  datatype Operation = Propagate | Land | Collide

  datatype ParticleType = Neutron | Electron | Fermion | Gluon | Photon

  /** A signal to a cell: the fields a Land signal carries describe the
      arriving particle. */
  datatype ParticleOperation = ParticleOperation(
    Index: Word, Op: Operation, Name: string,
    VerticalVector: int, HorizontalVector: int, Gradient: int,
    Mass: int, Speed: int, Type: ParticleType)

  /** `ParticleOperation(index, name)`: a Propagate signal. */
  function PropagateOperation(index: Word, name: string): (op: ParticleOperation)
    ensures op.Op == Propagate && op.Index == index && op.Name == name
  {
    ParticleOperation(index, Propagate, name, 0, 0, 0, 0, 0, Photon)
  }

  /** `ParticleOperation(index, name, v, h, gradient, mass, speed, type)`:
      a Land signal. */
  function LandOperation(index: Word, name: string, verticalVector: int, horizontalVector: int,
                         gradient: int, mass: int, speed: int, particleType: ParticleType): (op: ParticleOperation)
    ensures op.Op == Land && op.Index == index && op.Name == name
    ensures op.VerticalVector == verticalVector && op.HorizontalVector == horizontalVector
    ensures op.Gradient == gradient && op.Mass == mass && op.Speed == speed && op.Type == particleType
  {
    ParticleOperation(index, Land, name, verticalVector, horizontalVector, gradient, mass, speed, particleType)
  }

  // ---------------------------------------------------------------------
  // The 20-byte name buffer of a cell.

  /** `sizeof(ParticleNode::Name)`. */
  const NameSize: nat := 20

  /** `n` NUL characters. */
  function Nuls(n: nat): (s: seq<char>)
    ensures |s| == n && forall i :: 0 <= i < n ==> s[i] == '\0'
  {
    seq(n, _ => '\0')
  }

  /** `memset` to zero, then `memcpy` of at most 19 characters: the name
      truncated so that a NUL always ends it. */
  function StoredName(name: string): (buffer: seq<char>)
    ensures |buffer| == NameSize && buffer[NameSize - 1] == '\0'
  {
    var n := if |name| < NameSize - 1 then |name| else NameSize - 1;
    name[..n] + Nuls(NameSize - n)
  }

  /** The characters of a buffer before its first NUL: what a `string`
      built from it holds. */
  function CString(buffer: seq<char>): (s: string)
    ensures |s| <= |buffer| && s == buffer[..|s|] && '\0' !in s
    ensures |s| < |buffer| ==> buffer[|s|] == '\0'
  {
    if buffer == [] || buffer[0] == '\0' then [] else [buffer[0]] + CString(buffer[1..])
  }

  /** A NUL-free prefix followed by a NUL reads back as the prefix. */
  lemma {:induction false} CStringOfPrefix(prefix: string, rest: seq<char>)
    requires '\0' !in prefix && rest != [] && rest[0] == '\0'
    ensures CString(prefix + rest) == prefix
  {
    if prefix != [] {
      assert (prefix + rest)[1..] == prefix[1..] + rest;
      CStringOfPrefix(prefix[1..], rest);
    }
  }

  /** Reading a stored name back gives the name cut to 19 characters; a
      name of at most 19 characters and no NUL comes back whole. */
  lemma StoredNameRoundTrip(name: string)
    requires '\0' !in name
    ensures CString(StoredName(name)) == if |name| < NameSize then name else name[..NameSize - 1]
  {
    var n := if |name| < NameSize - 1 then |name| else NameSize - 1;
    assert '\0' !in name[..n] by {
      forall i | 0 <= i < n
        ensures name[..n][i] != '\0'
      {
        assert name[..n][i] == name[i];
      }
    }
    CStringOfPrefix(name[..n], Nuls(NameSize - n));
    assert |name| < NameSize ==> name[..n] == name;
  }

  /** One cell of the grid; `Occupied` tells whether a particle is in it. */
  datatype ParticleNode = ParticleNode(
    Name: seq<char>, HorizontalVector: int, VerticalVector: int, Gradient: int,
    Speed: int, Mass: int, Occupied: bool, Type: ParticleType)

  /** A value-initialised cell, as a resize creates it. */
  const EmptyNode := ParticleNode(Nuls(NameSize), 0, 0, 0, 0, 0, false, Photon)

  // ---------------------------------------------------------------------
  // DoBresenhamAlgorithm: one step along the straightest grid line.

  function Abs(x: int): nat
  {
    if x < 0 then -x else x
  }

  /** The direction of a vector component, a zero one counting as
      positive. */
  function Sign(x: int): int
  {
    if x >= 0 then 1 else -1
  }

  /** The axis of the longer component: horizontal exactly when it is
      strictly longer. */
  predicate WiderThanTall(verticalVector: int, horizontalVector: int)
  {
    Abs(horizontalVector) > Abs(verticalVector)
  }

  /** The lengths of the longer (base) and the shorter (rise) component. */
  function BaseLength(verticalVector: int, horizontalVector: int): nat
  {
    if WiderThanTall(verticalVector, horizontalVector) then Abs(horizontalVector) else Abs(verticalVector)
  }

  function RiseLength(verticalVector: int, horizontalVector: int): nat
  {
    if WiderThanTall(verticalVector, horizontalVector) then Abs(verticalVector) else Abs(horizontalVector)
  }

  /** The unit steps along the base and the rise axis for the octant of
      the vector, as the quadrant-by-quadrant table gives them. */
  function Magnitudes(verticalVector: int, horizontalVector: int): (int, int)
  {
    var wider := WiderThanTall(verticalVector, horizontalVector);
    if verticalVector >= 0 && horizontalVector >= 0 then
      if wider then (1, 1) else (1, 1)
    else if verticalVector >= 0 && horizontalVector < 0 then
      if wider then (-1, 1) else (1, -1)
    else if verticalVector < 0 && horizontalVector < 0 then
      if wider then (-1, -1) else (-1, -1)
    else
      if wider then (1, -1) else (-1, 1)
  }

  /** The horizontal and vertical steps and the new error term. */
  datatype Steps = Steps(XStep: int, YStep: int, Gradient: int)

  /** The base axis always moves; the rise axis moves when the error term
      is positive, which then drops by the base length, and the error term
      grows by the rise length each step. */
  function DoBresenhamAlgorithm(verticalVector: int, horizontalVector: int, gradient: int): Steps
  {
    var wider := WiderThanTall(verticalVector, horizontalVector);
    var absBase := BaseLength(verticalVector, horizontalVector);
    var absRise := RiseLength(verticalVector, horizontalVector);
    var (baseMagnitude, riseMagnitude) := Magnitudes(verticalVector, horizontalVector);
    var baseStep := baseMagnitude;
    var riseStep := if gradient > 0 then riseMagnitude else 0;
    var gradient' := if gradient > 0 then gradient + absRise - absBase else gradient + absRise;
    if wider then Steps(baseStep, riseStep, gradient') else Steps(riseStep, baseStep, gradient')
  }

  /** Both steps are -1, 0 or 1, each in the direction of its vector
      component or 0, and the step along the longer component is never 0:
      a particle moves to a neighbouring cell, the way it is heading. */
  lemma StepsFollowVector(verticalVector: int, horizontalVector: int, gradient: int)
    ensures var s := DoBresenhamAlgorithm(verticalVector, horizontalVector, gradient);
      (s.XStep == 0 || s.XStep == Sign(horizontalVector)) &&
      (s.YStep == 0 || s.YStep == Sign(verticalVector)) &&
      (if WiderThanTall(verticalVector, horizontalVector) then s.XStep != 0 else s.YStep != 0)
  {
  }

  /** The error term: a positive one moves the rise axis and takes off the
      base length; otherwise the rise axis stays. Either way the rise
      length is added. */
  lemma GradientUpdate(verticalVector: int, horizontalVector: int, gradient: int)
    ensures var s := DoBresenhamAlgorithm(verticalVector, horizontalVector, gradient);
      var riseStep := if WiderThanTall(verticalVector, horizontalVector) then s.YStep else s.XStep;
      var base := BaseLength(verticalVector, horizontalVector);
      var rise := RiseLength(verticalVector, horizontalVector);
      (gradient > 0 ==> riseStep != 0 && s.Gradient == gradient + rise - base) &&
      (gradient <= 0 ==> riseStep == 0 && s.Gradient == gradient + rise)
  {
  }

  /** The error term of a moving particle stays in `(-base, rise]`, which
      holds the initial 0. */
  predicate GradientInBounds(verticalVector: int, horizontalVector: int, gradient: int)
  {
    -(BaseLength(verticalVector, horizontalVector) as int) < gradient <= RiseLength(verticalVector, horizontalVector)
  }

  lemma GradientStaysInBounds(verticalVector: int, horizontalVector: int, gradient: int)
    requires GradientInBounds(verticalVector, horizontalVector, gradient)
    ensures GradientInBounds(verticalVector, horizontalVector, DoBresenhamAlgorithm(verticalVector, horizontalVector, gradient).Gradient)
  {
  }

  /** `n` steps with a fixed vector from error term `gradient`: the total
      horizontal and vertical distance and the final error term. */
  function Travel(verticalVector: int, horizontalVector: int, gradient: int, n: nat): Steps
  {
    if n == 0 then Steps(0, 0, gradient)
    else
      var t := Travel(verticalVector, horizontalVector, gradient, n - 1);
      var s := DoBresenhamAlgorithm(verticalVector, horizontalVector, t.Gradient);
      Steps(t.XStep + s.XStep, t.YStep + s.YStep, s.Gradient)
  }

  /** Where `n` steps from error term `gradient` leave a particle with a
      fixed vector, by Bresenham's guarantee: `n` cells along the longer
      component and `r` cells along the shorter one, each in the direction
      of its component, with the error term at `gradient + n * rise - r *
      base` and in bounds, so that `r * base` is within one base length of
      `n * rise`: the path stays within a cell of the straight line. */
  predicate OnLine(verticalVector: int, horizontalVector: int, gradient: int, n: nat, t: Steps)
  {
    var wider := WiderThanTall(verticalVector, horizontalVector);
    var baseTravel := if wider then t.XStep else t.YStep;
    var riseTravel := if wider then t.YStep else t.XStep;
    var m := Magnitudes(verticalVector, horizontalVector);
    var r := Abs(riseTravel);
    baseTravel == n * m.0 && riseTravel == r * m.1 &&
    t.Gradient == gradient + n * RiseLength(verticalVector, horizontalVector) - r * BaseLength(verticalVector, horizontalVector) &&
    GradientInBounds(verticalVector, horizontalVector, t.Gradient)
  }

  /** The arithmetic of one step along the line: `n` base steps and `r`
      rise steps of unit length, then one more base step and a rise step
      that is taken (and takes off the base length) or not. */
  lemma LineArithmetic(n: nat, r: nat, baseUnit: int, riseUnit: int, rise: int, base: int,
                       gradient: int, g: int, riseStep: int, g': int)
    requires baseUnit == 1 || baseUnit == -1
    requires riseUnit == 1 || riseUnit == -1
    requires g == gradient + n * rise - r * base
    requires (riseStep == riseUnit && g' == g + rise - base) || (riseStep == 0 && g' == g + rise)
    ensures n * baseUnit + baseUnit == (n + 1) * baseUnit
    ensures Abs(r * riseUnit) == r
    ensures var r' := Abs(r * riseUnit + riseStep);
      r * riseUnit + riseStep == r' * riseUnit && g' == gradient + (n + 1) * rise - r' * base
  {
    assert n * rise + rise == (n + 1) * rise;
    if riseStep != 0 {
      assert r * base + base == (r + 1) * base;
      assert r * riseUnit + riseUnit == (r + 1) * riseUnit;
    }
  }

  lemma OnLineStep(verticalVector: int, horizontalVector: int, gradient: int, n: nat, t: Steps)
    requires OnLine(verticalVector, horizontalVector, gradient, n, t)
    ensures var s := DoBresenhamAlgorithm(verticalVector, horizontalVector, t.Gradient);
      OnLine(verticalVector, horizontalVector, gradient, n + 1, Steps(t.XStep + s.XStep, t.YStep + s.YStep, s.Gradient))
  {
    GradientStaysInBounds(verticalVector, horizontalVector, t.Gradient);
    var s := DoBresenhamAlgorithm(verticalVector, horizontalVector, t.Gradient);
    var wider := WiderThanTall(verticalVector, horizontalVector);
    var r := Abs(if wider then t.YStep else t.XStep);
    var m := Magnitudes(verticalVector, horizontalVector);
    LineArithmetic(n, r, m.0, m.1, RiseLength(verticalVector, horizontalVector), BaseLength(verticalVector, horizontalVector),
                   gradient, t.Gradient, if wider then s.YStep else s.XStep, s.Gradient);
  }

  lemma {:induction false} TravelFollowsLine(verticalVector: int, horizontalVector: int, gradient: int, n: nat)
    requires GradientInBounds(verticalVector, horizontalVector, gradient)
    ensures OnLine(verticalVector, horizontalVector, gradient, n, Travel(verticalVector, horizontalVector, gradient, n))
  {
    if n > 0 {
      TravelFollowsLine(verticalVector, horizontalVector, gradient, n - 1);
      OnLineStep(verticalVector, horizontalVector, gradient, n - 1, Travel(verticalVector, horizontalVector, gradient, n - 1));
    }
  }

  // ---------------------------------------------------------------------
  // NewPositionAndVelocity: one step with elastic walls.

  /** The grid and the cell admit the source's `int` arithmetic: the
      dimensions convert to `int` unchanged, the row of the cell and the
      row after a step fit an `int`. The width is not 0 (the row is a
      division by it). */
  predicate Steppable(width: Word, height: Word, index: Word)
  {
    1 <= width < 0x8000_0000 && height < 0x8000_0000 && index / width < 0x7FFF_FFFF
  }

  /** A row or column after a step, bounced off the walls at `-1` and
      `size`: one past the far end comes back to the last one, one before
      the start is mirrored onto `1`. */
  function Reflected(p: int, size: int): int
  {
    if p >= size then size - (p - size) - 1 else if p < 0 then 0 - p else p
  }

  /** The next cell, the vector after any bounce, and the new error
      term. */
  datatype NextPosition = NextPosition(Index: Word, VerticalVector: int, HorizontalVector: int, Gradient: int)

  function NewPositionAndVelocity(width: Word, height: Word, index: Word, verticalVector: int, horizontalVector: int, gradient: int): NextPosition
    requires Steppable(width, height, index)
  {
    var s := DoBresenhamAlgorithm(verticalVector, horizontalVector, gradient);
    var row := index / width + s.YStep;
    var column := index % width + s.XStep;
    var nextVerticalVector := if row >= height || row < 0 then -verticalVector else verticalVector;
    var nextHorizontalVector := if column >= width || column < 0 then -horizontalVector else horizontalVector;
    NextPosition(Wrap(Wrap(Reflected(row, height)) * width + Wrap(Reflected(column, width))),
                 nextVerticalVector, nextHorizontalVector, s.Gradient)
  }

  /** A bounce keeps a coordinate that stepped at most one cell out of
      `[0, size)` inside it, at most one cell from where it started, when
      the size is at least 2. */
  lemma ReflectedStaysInside(p: int, step: int, size: int)
    requires 2 <= size && 0 <= p < size && -1 <= step <= 1
    ensures 0 <= Reflected(p + step, size) < size
    ensures -1 <= Reflected(p + step, size) - p <= 1
    ensures Reflected(p + step, size) == p + step <==> 0 <= p + step < size
  {
  }

  /** On a grid at least 2 × 2, a particle inside it stays inside it and
      moves to a cell at most one row and one column away; each component
      of its vector is reversed exactly when the step would have crossed
      the wall on that axis; the error term is Bresenham's. */
  lemma NewPositionInGrid(width: Word, height: Word, index: Word, verticalVector: int, horizontalVector: int, gradient: int)
    requires Steppable(width, height, index) && 2 <= width && 2 <= height && index < width * height
    ensures var next := NewPositionAndVelocity(width, height, index, verticalVector, horizontalVector, gradient);
      var s := DoBresenhamAlgorithm(verticalVector, horizontalVector, gradient);
      next.Index < width * height &&
      -1 <= next.Index / width - index / width <= 1 &&
      -1 <= next.Index % width - index % width <= 1 &&
      (next.VerticalVector == if 0 <= index / width + s.YStep < height then verticalVector else -verticalVector) &&
      (next.HorizontalVector == if 0 <= index % width + s.XStep < width then horizontalVector else -horizontalVector) &&
      next.Gradient == s.Gradient
  {
    var s := DoBresenhamAlgorithm(verticalVector, horizontalVector, gradient);
    StepsFollowVector(verticalVector, horizontalVector, gradient);
    var row, column := index / width, index % width;
    RowInGrid(width, height, index);
    ReflectedStaysInside(row, s.YStep, height);
    ReflectedStaysInside(column, s.XStep, width);
    var r, c := Reflected(row + s.YStep, height), Reflected(column + s.XStep, width);
    CellOfGrid(width, height, r, c);
    assert NewPositionAndVelocity(width, height, index, verticalVector, horizontalVector, gradient).Index == r * width + c;
  }

  /** A cell below `width * height` lies in one of the `height` rows. */
  lemma RowInGrid(width: nat, height: nat, index: nat)
    requires 1 <= width && index < width * height
    ensures index / width < height
  {
    MulMonotone(height, index / width, width);
  }

  /** The cell at a row and column inside a grid whose sides fit an `int`
      is below the grid size and has that row and column. */
  lemma CellOfGrid(width: nat, height: nat, row: int, column: int)
    requires 1 <= width < 0x8000_0000 && height < 0x8000_0000
    requires 0 <= row < height && 0 <= column < width
    ensures 0 <= row * width + column < width * height < WordModulus
    ensures (row * width + column) / width == row && (row * width + column) % width == column
  {
    MulMonotone(row, height - 1, width);
    MulMonotone(0, row, width);
    MulMonotone(width, 0x8000_0000, height);
    MulMonotone(height, 0x8000_0000, 0x8000_0000);
    assert (height - 1) * width + width == height * width;
    DivModUnique(row * width + column, width, row, column);
  }

  /** On a grid one row high the mirror at the top wall sends a particle
      to row 1, out of the grid: index 0 of a 2 × 1 grid heading up moves
      to index 2. */
  lemma OneRowGridLetsParticleOut()
    ensures NewPositionAndVelocity(2, 1, 0, -1, 0, 0).Index == 2
  {
  }

  // ---------------------------------------------------------------------
  // The effects of a signal, as values.

  /** The new model and the callback calls of one operation. */
  datatype ParticleStep = ParticleStep(Model: seq<ParticleNode>, Emitted: seq<Emission<ParticleOperation>>)

  /** The cell can be worked on: it is in the model (the source indexes it
      unchecked) and its row arithmetic fits. */
  predicate Processable(model: seq<ParticleNode>, width: Word, height: Word, index: Word)
  {
    index < |model| && Steppable(width, height, index)
  }

  /** ProcessPropagation: the particle's next position and vector are
      worked out with its own error term, which the cell keeps; a Land
      signal carries the particle on; the cell is vacated, its name
      cleared. */
  function Propagation(model: seq<ParticleNode>, width: Word, height: Word, name: string, index: Word): ParticleStep
    requires Processable(model, width, height, index)
  {
    var node := model[index];
    var next := NewPositionAndVelocity(width, height, index, node.VerticalVector, node.HorizontalVector, node.Gradient);
    var land := LandOperation(next.Index, name, next.VerticalVector, next.HorizontalVector, next.Gradient, node.Mass, node.Speed, node.Type);
    ParticleStep(model[index := node.(Gradient := next.Gradient, Name := Nuls(NameSize), Occupied := false)], [Emission(land, 0)])
  }

  /** ProcessLanding: into an occupied cell the newcomer bounces back, its
      vector reversed, stepping with the occupant's error term, which the
      occupant keeps; into a free cell it is stored and scheduled to move
      on after `10 - speed` ticks. */
  function Landing(model: seq<ParticleNode>, width: Word, height: Word, index: Word, name: string,
                   verticalVector: int, horizontalVector: int, gradient: int, mass: int, speed: int,
                   particleType: ParticleType): ParticleStep
    requires Processable(model, width, height, index)
  {
    var node := model[index];
    if node.Occupied then
      var next := NewPositionAndVelocity(width, height, index, -1 * verticalVector, -1 * horizontalVector, node.Gradient);
      var land := LandOperation(next.Index, name, next.VerticalVector, next.HorizontalVector, gradient, mass, speed, particleType);
      ParticleStep(model[index := node.(Gradient := next.Gradient)], [Emission(land, 0)])
    else
      var stored := node.(Name := StoredName(name), Occupied := true, VerticalVector := verticalVector,
                          HorizontalVector := horizontalVector, Gradient := gradient, Mass := mass,
                          Speed := speed, Type := particleType);
      ParticleStep(model[index := stored], [Emission(PropagateOperation(index, name), 10 - speed)])
  }

  /** ProcessWorkItem: Propagate and Land are handled, any other signal is
      ignored. */
  function WorkItemStep(model: seq<ParticleNode>, width: Word, height: Word, work: ParticleOperation): ParticleStep
    requires Processable(model, width, height, work.Index)
  {
    match work.Op
    case Propagate => Propagation(model, width, height, work.Name, work.Index)
    case Land => Landing(model, width, height, work.Index, work.Name, work.VerticalVector, work.HorizontalVector,
                         work.Gradient, work.Mass, work.Speed, work.Type)
    case Collide => ParticleStep(model, [])
  }

  lemma WorkItemStepKeepsSize(model: seq<ParticleNode>, width: Word, height: Word, work: ParticleOperation)
    requires Processable(model, width, height, work.Index)
    ensures |WorkItemStep(model, width, height, work).Model| == |model|
  {
  }

  /** The work items processed one after another, calls concatenated in
      order. */
  function ProcessAll(model: seq<ParticleNode>, width: Word, height: Word, items: seq<WorkItem<ParticleOperation>>): (r: ParticleStep)
    requires forall i :: 0 <= i < |items| ==> Processable(model, width, height, items[i].Operator.Index)
    ensures |r.Model| == |model|
  {
    if items == [] then ParticleStep(model, [])
    else
      var front := items[..|items| - 1];
      var s := ProcessAll(model, width, height, front);
      var work := items[|items| - 1].Operator;
      assert Processable(model, width, height, work.Index);
      WorkItemStepKeepsSize(s.Model, width, height, work);
      var t := WorkItemStep(s.Model, width, height, work);
      ParticleStep(t.Model, s.Emitted + t.Emitted)
  }

  /** A propagation vacates the cell, which keeps the advanced error term
      and its vectors, mass, speed and type, and touches no other; it makes one
      call, a Land at the next position carrying the particle's name,
      mass, speed and type and its new vector and error term. */
  lemma PropagationMovesParticle(model: seq<ParticleNode>, width: Word, height: Word, name: string, index: Word)
    requires Processable(model, width, height, index)
    ensures var r := Propagation(model, width, height, name, index);
      var node := model[index];
      var next := NewPositionAndVelocity(width, height, index, node.VerticalVector, node.HorizontalVector, node.Gradient);
      |r.Model| == |model| && !r.Model[index].Occupied && CString(r.Model[index].Name) == [] &&
      r.Model[index] == node.(Gradient := next.Gradient, Name := Nuls(NameSize), Occupied := false) &&
      (forall p :: 0 <= p < |model| && p != index ==> r.Model[p] == model[p]) &&
      |r.Emitted| == 1 && r.Emitted[0].TickDelay == 0 &&
      r.Emitted[0].Work == ParticleOperation(next.Index, Land, name, next.VerticalVector, next.HorizontalVector,
                                             next.Gradient, node.Mass, node.Speed, node.Type)
  {
  }

  /** A landing in a free cell occupies it with the arriving particle,
      touches no other cell, and schedules the particle's next move: the
      slower the particle, the longer the wait. */
  lemma LandingOnFreeCell(model: seq<ParticleNode>, width: Word, height: Word, work: ParticleOperation)
    requires Processable(model, width, height, work.Index) && work.Op == Land && !model[work.Index].Occupied
    requires '\0' !in work.Name && |work.Name| < NameSize
    ensures var r := WorkItemStep(model, width, height, work);
      var node := r.Model[work.Index];
      |r.Model| == |model| && node.Occupied && CString(node.Name) == work.Name &&
      node.VerticalVector == work.VerticalVector && node.HorizontalVector == work.HorizontalVector &&
      node.Gradient == work.Gradient && node.Mass == work.Mass && node.Speed == work.Speed && node.Type == work.Type &&
      (forall p :: 0 <= p < |model| && p != work.Index ==> r.Model[p] == model[p]) &&
      r.Emitted == [Emission(PropagateOperation(work.Index, work.Name), 10 - work.Speed)]
  {
    StoredNameRoundTrip(work.Name);
  }

  /** A landing in an occupied cell keeps the occupant where it is, with
      its name, vector, mass, speed and type; only its error term moves on.
      The newcomer leaves again at once with its vector reversed (reversed
      once more on an axis where it meets a wall) and its own error term,
      mass, speed and type. */
  lemma LandingOnOccupiedCell(model: seq<ParticleNode>, width: Word, height: Word, work: ParticleOperation)
    requires Processable(model, width, height, work.Index) && work.Op == Land && model[work.Index].Occupied
    ensures var r := WorkItemStep(model, width, height, work);
      var occupant := model[work.Index];
      var s := DoBresenhamAlgorithm(-work.VerticalVector, -work.HorizontalVector, occupant.Gradient);
      |r.Model| == |model| && r.Model[work.Index] == occupant.(Gradient := s.Gradient) &&
      (forall p :: 0 <= p < |model| && p != work.Index ==> r.Model[p] == model[p]) &&
      |r.Emitted| == 1 && r.Emitted[0].TickDelay == 0 &&
      var bounced := r.Emitted[0].Work;
      bounced.Op == Land && bounced.Name == work.Name &&
      bounced.Gradient == work.Gradient && bounced.Mass == work.Mass && bounced.Speed == work.Speed &&
      bounced.Type == work.Type &&
      Abs(bounced.VerticalVector) == Abs(work.VerticalVector) &&
      Abs(bounced.HorizontalVector) == Abs(work.HorizontalVector) &&
      (0 <= work.Index / width + s.YStep < height ==> bounced.VerticalVector == -work.VerticalVector) &&
      (0 <= work.Index % width + s.XStep < width ==> bounced.HorizontalVector == -work.HorizontalVector)
  {
  }

  /** A propagation followed by the landing it signals, into a free cell,
      moves the particle whole: the new cell holds its name, mass, speed
      and type with the vector and error term of the step, and its next
      Propagate is scheduled there. */
  lemma PropagateThenLand(model: seq<ParticleNode>, width: Word, height: Word, name: string, index: Word)
    requires Processable(model, width, height, index)
    requires '\0' !in name && |name| < NameSize
    requires var node := model[index];
      var next := NewPositionAndVelocity(width, height, index, node.VerticalVector, node.HorizontalVector, node.Gradient);
      Processable(model, width, height, next.Index) && next.Index != index && !model[next.Index].Occupied
    ensures var p := Propagation(model, width, height, name, index);
      var land := p.Emitted[0].Work;
      var l := WorkItemStep(p.Model, width, height, land);
      var node := model[index];
      var next := NewPositionAndVelocity(width, height, index, node.VerticalVector, node.HorizontalVector, node.Gradient);
      var arrived := l.Model[next.Index];
      !l.Model[index].Occupied && arrived.Occupied && CString(arrived.Name) == name &&
      arrived.Mass == node.Mass && arrived.Speed == node.Speed && arrived.Type == node.Type &&
      arrived.VerticalVector == next.VerticalVector && arrived.HorizontalVector == next.HorizontalVector &&
      arrived.Gradient == next.Gradient &&
      l.Emitted == [Emission(PropagateOperation(next.Index, name), 10 - node.Speed)]
  {
    var p := Propagation(model, width, height, name, index);
    PropagationMovesParticle(model, width, height, name, index);
    LandingOnFreeCell(p.Model, width, height, p.Emitted[0].Work);
  }

  /** Samples/particle's model: the shared vector of cells. */
  class ParticleModelCarrier {
    var Model: seq<ParticleNode>
    var Valid: bool

    constructor (model: seq<ParticleNode>)
      ensures Model == model && Valid
    {
      Model := model;
      Valid := true;
    }
  }

  class ParticleImplementation {
    const WorkerId: int
    const Carrier: ParticleModelCarrier
    const Width: Word
    const Height: Word
    const MaxIndex: Word

    /** The dimensions default to 100 × 100; configured ones are `int`s
        converted to `unsigned long`, and the grid size is their product in
        64 bits. */
    constructor (workerId: int, carrier: ParticleModelCarrier, dimensions: Option<(int, int)>)
      ensures WorkerId == workerId && Carrier == carrier
      ensures Width == (if dimensions.Some? then Wrap(dimensions.value.0) else 100)
      ensures Height == (if dimensions.Some? then Wrap(dimensions.value.1) else 100)
      ensures MaxIndex == Wrap(Width * Height)
    {
      WorkerId := workerId;
      Carrier := carrier;
      var width: Word := 100;
      var height: Word := 100;
      if dimensions.Some? {
        width := Wrap(dimensions.value.0);
        height := Wrap(dimensions.value.1);
      }
      Width := width;
      Height := height;
      MaxIndex := Wrap(width * height);
    }

    method ProcessPropagation(name: string, index: Word) returns (emitted: seq<Emission<ParticleOperation>>)
      requires Processable(Carrier.Model, Width, Height, index)
      modifies Carrier`Model
      ensures ParticleStep(Carrier.Model, emitted) == Propagation(old(Carrier.Model), Width, Height, name, index)
    {
      var particleNode := Carrier.Model[index];
      var next := NewPositionAndVelocity(Width, Height, index, particleNode.VerticalVector, particleNode.HorizontalVector, particleNode.Gradient);
      particleNode := particleNode.(Gradient := next.Gradient);
      emitted := [Emission(LandOperation(next.Index, name, next.VerticalVector, next.HorizontalVector, particleNode.Gradient,
                                         particleNode.Mass, particleNode.Speed, particleNode.Type), 0)];
      particleNode := particleNode.(Name := Nuls(NameSize), Occupied := false);
      Carrier.Model := Carrier.Model[index := particleNode];
    }

    method ProcessLanding(index: Word, name: string, verticalVector: int, horizontalVector: int, gradient: int,
                          mass: int, speed: int, particleType: ParticleType) returns (emitted: seq<Emission<ParticleOperation>>)
      requires Processable(Carrier.Model, Width, Height, index)
      modifies Carrier`Model
      ensures ParticleStep(Carrier.Model, emitted) ==
        Landing(old(Carrier.Model), Width, Height, index, name, verticalVector, horizontalVector, gradient, mass, speed, particleType)
    {
      var particleNode := Carrier.Model[index];
      if particleNode.Occupied {
        var v := -1 * verticalVector;
        var h := -1 * horizontalVector;
        var next := NewPositionAndVelocity(Width, Height, index, v, h, particleNode.Gradient);
        Carrier.Model := Carrier.Model[index := particleNode.(Gradient := next.Gradient)];
        emitted := [Emission(LandOperation(next.Index, name, next.VerticalVector, next.HorizontalVector, gradient, mass, speed, particleType), 0)];
        return;
      }
      particleNode := particleNode.(Name := StoredName(name), Occupied := true);
      particleNode := particleNode.(VerticalVector := verticalVector, HorizontalVector := horizontalVector, Gradient := gradient);
      particleNode := particleNode.(Mass := mass, Speed := speed, Type := particleType);
      Carrier.Model := Carrier.Model[index := particleNode];
      emitted := [Emission(PropagateOperation(index, name), 10 - particleNode.Speed)];
    }

    method ProcessWorkItem(work: ParticleOperation) returns (emitted: seq<Emission<ParticleOperation>>)
      requires Processable(Carrier.Model, Width, Height, work.Index)
      modifies Carrier`Model
      ensures ParticleStep(Carrier.Model, emitted) == WorkItemStep(old(Carrier.Model), Width, Height, work)
    {
      var particleName := work.Name;
      match work.Op
      case Propagate =>
        emitted := ProcessPropagation(particleName, work.Index);
      case Land =>
        emitted := ProcessLanding(work.Index, particleName, work.VerticalVector, work.HorizontalVector,
                                  work.Gradient, work.Mass, work.Speed, work.Type);
      case Collide =>
        emitted := [];
    }

    /** Process: every work item of the range, in order. */
    method Process(items: seq<WorkItem<ParticleOperation>>) returns (emitted: seq<Emission<ParticleOperation>>)
      requires forall i :: 0 <= i < |items| ==> Processable(Carrier.Model, Width, Height, items[i].Operator.Index)
      modifies Carrier`Model
      ensures ParticleStep(Carrier.Model, emitted) == ProcessAll(old(Carrier.Model), Width, Height, items)
    {
      emitted := [];
      ghost var start := Carrier.Model;
      for i := 0 to |items|
        invariant |Carrier.Model| == |start|
        invariant ParticleStep(Carrier.Model, emitted) == ProcessAll(start, Width, Height, items[..i])
      {
        assert items[..i + 1][..i] == items[..i];
        var more := ProcessWorkItem(items[i].Operator);
        emitted := emitted + more;
      }
      assert items[..|items|] == items;
    }
  }
}
