/** Strings as the records and the configuration code build them: numbers
    written in decimal the way an `ostringstream` writes them, and rows of
    comma-separated fields. */
module Text {

  function DigitChar(d: nat): char
    requires d < 10
  {
    "0123456789"[d]
  }

  predicate IsDigit(c: char)
  {
    '0' <= c <= '9'
  }

  function DigitValue(c: char): nat
    requires IsDigit(c)
  {
    (c - '0') as nat
  }

  /** A natural number in decimal, without leading zeros. */
  function NatToString(n: nat): (s: string)
    ensures |s| >= 1 && forall i :: 0 <= i < |s| ==> IsDigit(s[i])
    ensures s[0] == '0' ==> n == 0
  {
    if n < 10 then [DigitChar(n)] else NatToString(n / 10) + [DigitChar(n % 10)]
  }

  /** An integer in decimal, a `-` before a negative one. */
  function IntToString(i: int): string
  {
    if i < 0 then "-" + NatToString(-i) else NatToString(i)
  }

  /** The number a string of digits denotes. */
  function DecimalValue(s: string): nat
    requires forall i :: 0 <= i < |s| ==> IsDigit(s[i])
  {
    if s == [] then 0 else 10 * DecimalValue(s[..|s| - 1]) + DigitValue(s[|s| - 1])
  }

  /** Reading a written number gives it back. */
  lemma {:induction false} NatToStringRoundTrip(n: nat)
    ensures DecimalValue(NatToString(n)) == n
  {
    if n >= 10 {
      var s := NatToString(n);
      assert s[..|s| - 1] == NatToString(n / 10);
      NatToStringRoundTrip(n / 10);
    }
  }

  /** A written integer holds no comma: it is one field of a row. */
  lemma IntToStringHasNoComma(i: int)
    ensures ',' !in IntToString(i)
  {
    var s := NatToString(if i < 0 then -i else i);
    assert forall k :: 0 <= k < |s| ==> s[k] != ',';
  }

  /** The fields with a comma between each two. */
  function Join(fields: seq<string>): string
    requires |fields| >= 1
  {
    if |fields| == 1 then fields[0] else fields[0] + "," + Join(fields[1..])
  }

  lemma JoinCons(field: string, fields: seq<string>)
    requires |fields| >= 1
    ensures Join([field] + fields) == field + "," + Join(fields)
  {
    assert ([field] + fields)[1..] == fields;
  }

  /** The fields of a comma-separated row, in order; a row without a comma
      is one field. */
  function Split(row: string): (fields: seq<string>)
    ensures |fields| >= 1
  {
    if row == [] then [[]]
    else
      var rest := Split(row[1..]);
      if row[0] == ',' then [[]] + rest else [[row[0]] + rest[0]] + rest[1..]
  }

  lemma {:induction false} SplitField(field: string, rest: string)
    requires ',' !in field
    ensures Split(field + rest) == [field + Split(rest)[0]] + Split(rest)[1..]
  {
    if field != [] {
      assert (field + rest)[1..] == field[1..] + rest;
      SplitField(field[1..], rest);
      var r := Split(rest);
      var tail := Split(field[1..] + rest);
      assert tail[0] == field[1..] + r[0] && tail[1..] == r[1..];
      assert (field + rest)[0] == field[0] != ',';
      assert [field[0]] + (field[1..] + r[0]) == field + r[0];
    } else {
      var r := Split(rest);
      assert field + rest == rest && field + r[0] == r[0];
      assert [r[0]] + r[1..] == r;
    }
  }

  /** Splitting a joined row gives its fields back when no field holds a
      comma. */
  lemma {:induction false} SplitJoin(fields: seq<string>)
    requires |fields| >= 1 && forall i :: 0 <= i < |fields| ==> ',' !in fields[i]
    ensures Split(Join(fields)) == fields
  {
    if |fields| == 1 {
      SplitField(fields[0], []);
      assert fields[0] + [] == fields[0];
    } else {
      SplitJoin(fields[1..]);
      var rest := "," + Join(fields[1..]);
      SplitField(fields[0], rest);
      assert fields[0] + "," + Join(fields[1..]) == fields[0] + rest;
      assert rest[1..] == Join(fields[1..]);
      assert Split(rest) == [[]] + fields[1..];
      assert fields[0] + [] == fields[0];
      assert [fields[0]] + fields[1..] == fields;
    }
  }
}
