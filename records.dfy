/** The CSV records the two sample models write
    (samples/life/include/LifeRecord.h,
    samples/particle/include/ParticleRecord.h): a fixed header row and one
    row per recorded event. */
module Records {
  import opened Basics
  import opened Text
  import Life
  import Particle

  // ---------------------------------------------------------------------
  // LifeRecord

  /** Evaluation is written as 0, Propagate as 1. */
  datatype LifeRecordType = Evaluation | Propagate

  function LifeRecordTypeCode(t: LifeRecordType): nat
  {
    match t
    case Evaluation => 0
    case Propagate => 1
  }

  datatype LifeRecord = LifeRecord(Type: LifeRecordType, LifeIndex: Word, Alive: bool)

  /** The constructor: the event type and index as given, the state of the
      cell at the time. */
  function MakeLifeRecord(recordType: LifeRecordType, lifeIndex: Word, lifeNode: Life.LifeNode): (r: LifeRecord)
    ensures r.Type == recordType && r.LifeIndex == lifeIndex && r.Alive == lifeNode.Alive
  {
    LifeRecord(recordType, lifeIndex, lifeNode.Alive)
  }

  const LifeHeaderFields: seq<string> :=
    ["Life-Event-Type", "Life-Index", "Life-Alive", "u-l", "up", "u-r", "right", "l-r", "lower", "l-l", "left"]

  /** `Life-Event-Type,Life-Index,Life-Alive,u-l,up,u-r,right,l-r,lower,l-l,left`. */
  function LifeHeader(): string
  {
    Join(LifeHeaderFields)
  }

  /** A `bool` written to a stream: 1 or 0. */
  function BoolToString(b: bool): string
  {
    if b then "1" else "0"
  }

  /** The type code, the index and the state, each followed by a comma;
      then nothing for an evaluation and two `N/A` fields otherwise. */
  function LifeFormat(r: LifeRecord): string
  {
    var prefix := [NatToString(LifeRecordTypeCode(r.Type)), NatToString(r.LifeIndex), BoolToString(r.Alive)];
    match r.Type
    case Evaluation => Join(prefix + [""])
    case Propagate => Join(prefix + ["N/A", "N/A"])
  }

  /** The header names eleven columns. */
  lemma LifeHeaderColumns()
    ensures Split(LifeHeader()) == LifeHeaderFields
  {
    SplitJoin(LifeHeaderFields);
  }

  /** A row reads back as the type code, the index and the state (0 or 1),
      then one empty field for an evaluation and two `N/A` fields for a
      propagation: four or five fields, not the header's eleven. */
  lemma LifeRowFields(r: LifeRecord)
    ensures var fields := Split(LifeFormat(r));
      |fields| == (if r.Type == Evaluation then 4 else 5) &&
      fields[0] == NatToString(LifeRecordTypeCode(r.Type)) && DecimalValue(fields[0]) == LifeRecordTypeCode(r.Type) &&
      fields[1] == NatToString(r.LifeIndex) && DecimalValue(fields[1]) == r.LifeIndex &&
      fields[2] == BoolToString(r.Alive) &&
      (r.Type == Evaluation ==> fields[3] == []) &&
      (r.Type == LifeRecordType.Propagate ==> fields[3] == "N/A" && fields[4] == "N/A")
  {
    var code, index, alive := NatToString(LifeRecordTypeCode(r.Type)), NatToString(r.LifeIndex), BoolToString(r.Alive);
    IntToStringHasNoComma(LifeRecordTypeCode(r.Type));
    IntToStringHasNoComma(r.LifeIndex);
    NatToStringRoundTrip(LifeRecordTypeCode(r.Type));
    NatToStringRoundTrip(r.LifeIndex);
    var fields := if r.Type == Evaluation then [code, index, alive, []] else [code, index, alive, "N/A", "N/A"];
    assert ',' !in alive && ',' !in "N/A";
    if r.Type == Evaluation {
      assert [code, index, alive] + [""] == fields;
    } else {
      assert [code, index, alive] + ["N/A", "N/A"] == fields;
    }
    SplitJoin(fields);
  }

  // ---------------------------------------------------------------------
  // ParticleRecord

  /** Propagate is written as 0, Land as 1, Collide as 2. */
  datatype ParticleRecordType = Propagate | Land | Collide

  function ParticleRecordTypeCode(t: ParticleRecordType): nat
  {
    match t
    case Propagate => 0
    case Land => 1
    case Collide => 2
  }

  /** `Name` is the 20-byte buffer. */
  datatype ParticleRecord = ParticleRecord(
    Name: seq<char>, Type: ParticleRecordType, ParticleIndex: Word,
    VerticalVector: int, HorizontalVector: int, Mass: int, Speed: int)

  /** The constructor from a cell: the name cut to 19 characters, the
      vector, mass and speed of the cell. */
  function ParticleRecordOfNode(name: string, recordType: ParticleRecordType, particleIndex: Word,
                                particleNode: Particle.ParticleNode): (r: ParticleRecord)
    ensures r.Type == recordType && r.ParticleIndex == particleIndex
    ensures r.VerticalVector == particleNode.VerticalVector && r.HorizontalVector == particleNode.HorizontalVector
    ensures r.Mass == particleNode.Mass && r.Speed == particleNode.Speed
    ensures r.Name == Particle.StoredName(name)
  {
    ParticleRecord(Particle.StoredName(name), recordType, particleIndex,
                   particleNode.VerticalVector, particleNode.HorizontalVector, particleNode.Mass, particleNode.Speed)
  }

  /** The constructor from values. */
  function ParticleRecordOfValues(name: string, recordType: ParticleRecordType, particleIndex: Word,
                                  verticalVector: int, horizontalVector: int, mass: int, speed: int): (r: ParticleRecord)
    ensures r.Type == recordType && r.ParticleIndex == particleIndex
    ensures r.VerticalVector == verticalVector && r.HorizontalVector == horizontalVector
    ensures r.Mass == mass && r.Speed == speed
    ensures r.Name == Particle.StoredName(name)
  {
    ParticleRecord(Particle.StoredName(name), recordType, particleIndex, verticalVector, horizontalVector, mass, speed)
  }

  const ParticleHeaderFields: seq<string> :=
    ["Particle-Name", "Particle-Event-Type", "Particle-Index", "horizontal-vector", "vertical-vector", "mass", "speed"]

  /** `Particle-Name,Particle-Event-Type,Particle-Index,horizontal-vector,vertical-vector,mass,speed`. */
  function ParticleHeader(): string
  {
    Join(ParticleHeaderFields)
  }

  /** The name, the type code and the index; then the horizontal and
      vertical vector, mass and speed for a propagation or a landing, four
      `N/A` fields otherwise; a comma between each two. */
  function ParticleFormat(r: ParticleRecord): string
  {
    var prefix := [Particle.CString(r.Name), NatToString(ParticleRecordTypeCode(r.Type)), NatToString(r.ParticleIndex)];
    match r.Type
    case Propagate | Land =>
      Join(prefix + [IntToString(r.HorizontalVector), IntToString(r.VerticalVector), IntToString(r.Mass), IntToString(r.Speed)])
    case Collide => Join(prefix + ["N/A", "N/A", "N/A", "N/A"])
  }

  lemma ParticleHeaderColumns()
    ensures Split(ParticleHeader()) == ParticleHeaderFields
  {
    SplitJoin(ParticleHeaderFields);
  }

  /** A row whose name holds no comma reads back field by field: the
      name, the type code, the index, then the four values or four `N/A`
      fields, seven in all, as many as the header has. */
  lemma ParticleRowFields(r: ParticleRecord)
    requires ',' !in Particle.CString(r.Name)
    ensures var fields := Split(ParticleFormat(r));
      |fields| == |ParticleHeaderFields| == 7 &&
      fields[0] == Particle.CString(r.Name) &&
      fields[1] == NatToString(ParticleRecordTypeCode(r.Type)) && DecimalValue(fields[1]) == ParticleRecordTypeCode(r.Type) &&
      fields[2] == NatToString(r.ParticleIndex) && DecimalValue(fields[2]) == r.ParticleIndex &&
      (r.Type != Collide ==> fields[3..] == [IntToString(r.HorizontalVector), IntToString(r.VerticalVector),
                                             IntToString(r.Mass), IntToString(r.Speed)]) &&
      (r.Type == Collide ==> fields[3..] == ["N/A", "N/A", "N/A", "N/A"])
  {
    var name, code, index := Particle.CString(r.Name), NatToString(ParticleRecordTypeCode(r.Type)), NatToString(r.ParticleIndex);
    IntToStringHasNoComma(ParticleRecordTypeCode(r.Type));
    IntToStringHasNoComma(r.ParticleIndex);
    NatToStringRoundTrip(ParticleRecordTypeCode(r.Type));
    NatToStringRoundTrip(r.ParticleIndex);
    IntToStringHasNoComma(r.HorizontalVector);
    IntToStringHasNoComma(r.VerticalVector);
    IntToStringHasNoComma(r.Mass);
    IntToStringHasNoComma(r.Speed);
    var values := if r.Type == Collide then ["N/A", "N/A", "N/A", "N/A"]
                  else [IntToString(r.HorizontalVector), IntToString(r.VerticalVector), IntToString(r.Mass), IntToString(r.Speed)];
    var fields := [name, code, index] + values;
    SplitJoin(fields);
  }

  /** Two fields in front of a row. */
  lemma JoinPair(x: string, y: string, tail: seq<string>)
    requires |tail| >= 1
    ensures Join([x, y] + tail) == x + "," + (y + "," + Join(tail))
  {
    JoinCons(y, tail);
    JoinCons(x, [y] + tail);
    assert [x, y] + tail == [x] + ([y] + tail);
  }

  /** A field holding a comma joins like the two fields around it. */
  lemma JoinCommaField(x: string, y: string, tail: seq<string>)
    requires |tail| >= 1
    ensures Join([x + "," + y] + tail) == Join([x, y] + tail)
  {
    var field := x + "," + y;
    JoinCons(field, tail);
    JoinPair(x, y, tail);
    CommaAssociates(x, y, Join(tail));
  }

  lemma CommaAssociates(x: string, y: string, z: string)
    ensures (x + "," + y) + "," + z == x + "," + (y + "," + z)
  {
  }

  /** The name is written as it is: a comma in it adds a field, and the row
      no longer lines up with the header. */
  lemma CommaInNameShiftsColumns()
    ensures var r := ParticleRecordOfValues("a,b", Collide, 0, 0, 0, 0, 0);
      |Split(ParticleFormat(r))| == 8
  {
    var r := ParticleRecordOfValues("a,b", Collide, 0, 0, 0, 0, 0);
    Particle.StoredNameRoundTrip("a,b");
    var tail := ["2", "0", "N/A", "N/A", "N/A", "N/A"];
    assert NatToString(2) == "2" && NatToString(0) == "0";
    assert [Particle.CString(r.Name), NatToString(2), NatToString(0)] + ["N/A", "N/A", "N/A", "N/A"] == ["a,b"] + tail;
    assert "a,b" == "a" + "," + "b";
    JoinCommaField("a", "b", tail);
    SplitJoin(["a", "b"] + tail);
  }
}
