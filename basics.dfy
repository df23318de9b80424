/** Shared vocabulary: 64-bit unsigned words, optional values and the
    flattening of a list of lists. */
module Basics {

  /** One more than the largest `unsigned long long`. */
  const WordModulus: nat := 0x1_0000_0000_0000_0000

  /** The values of an `unsigned long long`. */
  type Word = n: nat | n < WordModulus

  /** The values of a 32-bit `int`. */
  predicate IsInt(x: int)
  {
    -0x8000_0000 <= x < 0x8000_0000
  }

  /** Conversion of any integer to `unsigned long long` (C++ wraps modulo 2^64). */
  function Wrap(x: int): (r: Word)
    ensures 0 <= x < WordModulus ==> r == x
    ensures (r - x) % WordModulus == 0
  {
    x % WordModulus
  }

  /** Adding after a wrap-around is adding before it: a counter incremented
      step by step in `unsigned long long` equals the wrapped total. */
  lemma WrapAdd(x: int, y: int)
    ensures Wrap(Wrap(x) + y) == Wrap(x + y)
  {
    var q := x / WordModulus;
    assert Wrap(x) + y == (x + y) - q * WordModulus;
    ShiftByMultiple(x + y, q);
  }

  lemma ShiftByMultiple(z: int, q: int)
    ensures (z - q * WordModulus) % WordModulus == z % WordModulus
  {
    var r := z % WordModulus;
    var d := z / WordModulus;
    assert z - q * WordModulus == (d - q) * WordModulus + r;
  }

  /** `++` on an `unsigned long long`: the largest value steps to 0. */
  function Increment(w: Word): Word
  {
    if w == WordModulus - 1 then 0 else w + 1
  }

  /** `n` increments in a row. */
  function Incremented(w: Word, n: nat): Word
  {
    if n == 0 then w else Increment(Incremented(w, n - 1))
  }

  /** An increment is an addition of 1 wrapped to 64 bits. */
  lemma IncrementWraps(w: Word)
    ensures Increment(w) == Wrap(w + 1)
  {
  }

  /** `n` increments add `n`, wrapped to 64 bits. */
  lemma {:induction false} IncrementedWraps(w: Word, n: nat)
    ensures Incremented(w, n) == Wrap(w + n)
  {
    if n > 0 {
      IncrementedWraps(w, n - 1);
      IncrementWraps(Incremented(w, n - 1));
      WrapAdd(w + (n - 1), 1);
    }
  }

  datatype Option<T> = None | Some(value: T)

  /** The concatenation of a list of lists, in order. */
  function Flatten<T>(ss: seq<seq<T>>): seq<T>
  {
    if ss == [] then [] else ss[0] + Flatten(ss[1..])
  }

  lemma FlattenCons<T>(s: seq<T>, ss: seq<seq<T>>)
    ensures Flatten([s] + ss) == s + Flatten(ss)
  {
    assert ([s] + ss)[1..] == ss;
  }

  lemma {:induction false} FlattenAppend<T>(ss: seq<seq<T>>, s: seq<T>)
    ensures Flatten(ss + [s]) == Flatten(ss) + s
  {
    if ss == [] {
      assert ss + [s] == [s];
    } else {
      assert (ss + [s])[1..] == ss[1..] + [s];
      FlattenAppend(ss[1..], s);
    }
  }

  lemma {:induction false} FlattenLength<T>(ss: seq<seq<T>>)
    ensures |Flatten(ss)| == SumOfLengths(ss)
  {
    if ss != [] {
      FlattenLength(ss[1..]);
    }
  }

  /** The concatenations of the first `k` lists of `ss`, for every `k`:
      each one extends the previous by the next list, and the last one is
      `Flatten(ss)`. */
  lemma {:induction false} FlattenPrefixes<T>(ss: seq<seq<T>>) returns (parts: seq<seq<T>>)
    ensures |parts| == |ss| + 1 && parts[0] == []
    ensures forall k :: 0 <= k < |ss| ==> parts[k + 1] == parts[k] + ss[k]
    ensures parts[|ss|] == Flatten(ss)
  {
    if ss == [] {
      parts := [[]];
    } else {
      var front := ss[..|ss| - 1];
      var last := ss[|ss| - 1];
      var shorter := FlattenPrefixes(front);
      parts := shorter + [shorter[|front|] + last];
      assert front + [last] == ss;
      FlattenAppend(front, last);
    }
  }

  /** `n` empty lists. */
  function EmptyLists<T>(n: nat): (r: seq<seq<T>>)
    ensures |r| == n && forall i :: 0 <= i < n ==> r[i] == []
  {
    seq(n, _ => [])
  }

  /** The total number of elements of a list of lists. */
  function SumOfLengths<T>(ss: seq<seq<T>>): nat
  {
    if ss == [] then 0 else |ss[0]| + SumOfLengths(ss[1..])
  }

  lemma {:induction false} SumOfLengthsAppend<T>(ss: seq<seq<T>>, s: seq<T>)
    ensures SumOfLengths(ss + [s]) == SumOfLengths(ss) + |s|
  {
    if ss == [] {
      assert ss + [s] == [s];
    } else {
      assert (ss + [s])[1..] == ss[1..] + [s];
      SumOfLengthsAppend(ss[1..], s);
    }
  }

  /** `std::vector::resize`: the first `size` elements are kept, and new
      ones take the default value. */
  function Resized<T>(s: seq<T>, size: nat, default: T): seq<T>
  {
    seq(size, i requires 0 <= i < size => if i < |s| then s[i] else default)
  }

  /** The values of an `unsigned int`: conversion to it keeps the low 32
      bits. */
  const UIntModulus: nat := 0x1_0000_0000

  /** Multiplying by a natural number keeps the order. */
  lemma MulMonotone(a: int, b: int, w: nat)
    ensures a <= b ==> a * w <= b * w
  {
  }

  /** A non-zero multiple of `w` is at least `w` away from 0. */
  lemma MultipleAtLeast(k: int, w: nat)
    ensures k >= 1 ==> k * w >= w
    ensures k <= -1 ==> k * w + w <= 0
  {
  }

  /** Integer division on a non-negative dividend and a positive divisor
      is the unique quotient and remainder. */
  lemma DivModUnique(a: nat, w: nat, q: int, r: int)
    requires 0 < w && a == q * w + r && 0 <= r < w
    ensures a / w == q && a % w == r
  {
    var q0, r0 := a / w, a % w;
    assert (q0 - q) * w == r - r0;
    MultipleAtLeast(q0 - q, w);
  }

  /** Moving a multiple of `w` by `k` rows and `r` columns lands in row
      `q + k` and column `r`. */
  lemma DivModOffset(base: int, w: nat, q: int, k: int, r: int)
    requires 0 < w && base == q * w && 0 <= base + k * w + r && 0 <= r < w
    ensures (base + k * w + r) / w == q + k && (base + k * w + r) % w == r
  {
    assert base + k * w + r == (q + k) * w + r;
    DivModUnique(base + k * w + r, w, q + k, r);
  }

  /** The size the sample models' CreateModel settles on: the supplied
      size when it is not 0, otherwise the configured `ModelSize` (when it
      is an unsigned number) converted to `unsigned int`, otherwise 0. */
  function ResolvedSize(modelSize: Word, configuredSize: Option<nat>): Word
  {
    if modelSize != 0 then modelSize
    else if configuredSize.Some? then configuredSize.value % UIntModulus
    else 0
  }

  /** The model can be created exactly when a size is supplied or the
      configured one has a non-zero low 32 bits; a supplied size always
      wins over the configured one. */
  lemma ResolvedSizeCases(modelSize: Word, configuredSize: Option<nat>)
    ensures ResolvedSize(modelSize, configuredSize) != 0 <==>
      modelSize != 0 || (configuredSize.Some? && configuredSize.value % UIntModulus != 0)
    ensures modelSize != 0 ==> ResolvedSize(modelSize, configuredSize) == modelSize
    ensures modelSize == 0 && configuredSize.Some? && configuredSize.value < UIntModulus ==>
      ResolvedSize(modelSize, configuredSize) == configuredSize.value
  {
  }
}
