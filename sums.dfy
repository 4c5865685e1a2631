/**
 * The summation variants of part2/sum.ts. Elements are integers: the
 * benchmark sums the integers 0 to 999, where every partial sum is exact in
 * a double, so the order of the additions cannot change a result. A read
 * past the end of the array is `undefined`, and adding it makes NaN, written
 * here as None.
 */
module Sums {
  import opened Wrappers

  /** The sum of the elements. */
  function Sum(s: seq<int>): int
  {
    if s == [] then 0 else s[0] + Sum(s[1..])
  }

  lemma {:induction false} SumAppend(a: seq<int>, b: seq<int>)
    ensures Sum(a + b) == Sum(a) + Sum(b)
  {
    if a == [] {
      assert a + b == b;
    } else {
      assert (a + b)[1..] == a[1..] + b;
      SumAppend(a[1..], b);
    }
  }

  /** The sum of the first i + 1 elements is that of the first i, plus element i. */
  lemma SumNext(s: seq<int>, i: nat)
    requires i < |s|
    ensures Sum(s[..i + 1]) == Sum(s[..i]) + s[i]
  {
    assert s[..i + 1] == s[..i] + [s[i]];
    SumAppend(s[..i], [s[i]]);
  }

  /** `array.reduce((acc, i) => acc + i, 0)`: the additions from the left, starting at acc. */
  function Reduce(s: seq<int>, acc: int): int
  {
    if s == [] then acc else Reduce(s[1..], acc + s[0])
  }

  lemma {:induction false} ReduceSum(s: seq<int>, acc: int)
    ensures Reduce(s, acc) == acc + Sum(s)
  {
    if s != [] {
      ReduceSum(s[1..], acc + s[0]);
    }
  }

  /** testReduce returns the sum of the elements. */
  lemma TestReduce(s: seq<int>)
    ensures Reduce(s, 0) == Sum(s)
  {
    ReduceSum(s, 0);
  }

  /** testForLoop: `sum += array[i]` for i from 0. */
  method TestForLoop(values: array<int>) returns (sum: int)
    ensures sum == Sum(values[..])
  {
    sum := 0;
    for i := 0 to values.Length
      invariant sum == Sum(values[..i])
    {
      SumNext(values[..], i);
      sum := sum + values[i];
    }
    assert values[..values.Length] == values[..];
  }

  /** testWhileLoop: the same sum, with the index stepped by hand. */
  method TestWhileLoop(values: array<int>) returns (sum: int)
    ensures sum == Sum(values[..])
  {
    sum := 0;
    var i := 0;
    while i < values.Length
      invariant 0 <= i <= values.Length && sum == Sum(values[..i])
      decreases values.Length - i
    {
      SumNext(values[..], i);
      sum := sum + values[i];
      i := i + 1;
    }
    assert values[..values.Length] == values[..];
  }

  /** sumForOf: `for (let i of array)`, element by element. */
  method SumForOf(values: array<int>) returns (sum: int)
    ensures sum == Sum(values[..])
  {
    sum := 0;
    var rest := values[..];
    while rest != []
      invariant sum + Sum(rest) == Sum(values[..])
      decreases |rest|
    {
      sum := sum + rest[0];
      rest := rest[1..];
    }
  }

  /** `x + y` on numbers that may be NaN. */
  function Add(x: Option<int>, y: Option<int>): (r: Option<int>)
    ensures r.Some? <==> x.Some? && y.Some?
    ensures r.Some? ==> r.value == x.value + y.value
  {
    if x.Some? && y.Some? then Some(x.value + y.value) else None
  }

  /** `array[i]`: undefined past the end. */
  function At(s: seq<int>, i: nat): (r: Option<int>)
    ensures r.Some? <==> i < |s|
    ensures r.Some? ==> r.value == s[i]
  {
    if i < |s| then Some(s[i]) else None
  }

  /** The sum of the first i elements, NaN once an index runs past the end. */
  function Partial(s: seq<int>, i: nat): Option<int>
  {
    if i <= |s| then Some(Sum(s[..i])) else None
  }

  /** Two more elements read from i on, in lanes A and B. */
  lemma PairStep(s: seq<int>, i: nat, a: Option<int>, b: Option<int>)
    requires i < |s| && Add(a, b) == Partial(s, i)
    ensures Add(Add(a, At(s, i)), Add(b, At(s, i + 1))) == Partial(s, i + 2)
  {
    SumNext(s, i);
    if i + 1 < |s| {
      SumNext(s, i + 1);
    }
  }

  /**
   * biSum: lanes A and B take the even and the odd indexes. With an odd
   * length the last turn reads past the end and the result is NaN.
   */
  method BiSum(values: array<int>) returns (r: Option<int>)
    ensures values.Length % 2 == 0 ==> r == Some(Sum(values[..]))
    ensures values.Length % 2 == 1 ==> r == None
  {
    var sumA, sumB := Some(0), Some(0);
    var i := 0;
    while i < values.Length
      invariant i % 2 == 0 && i <= values.Length + 1
      invariant Add(sumA, sumB) == Partial(values[..], i)
      decreases values.Length - i
    {
      PairStep(values[..], i, sumA, sumB);
      sumA := Add(sumA, At(values[..], i));
      sumB := Add(sumB, At(values[..], i + 1));
      i := i + 2;
    }
    r := Add(sumA, sumB);
    assert values[..values.Length] == values[..];
  }

  /** Four more elements read from i on, in lanes A to D. */
  lemma QuadStep(s: seq<int>, i: nat, a: Option<int>, b: Option<int>, c: Option<int>, d: Option<int>)
    requires i < |s| && Add(Add(Add(a, b), c), d) == Partial(s, i)
    ensures Add(Add(Add(Add(a, At(s, i)), Add(b, At(s, i + 1))), Add(c, At(s, i + 2))), Add(d, At(s, i + 3)))
         == Partial(s, i + 4)
  {
    SumNext(s, i);
    if i + 1 < |s| {
      SumNext(s, i + 1);
    }
    if i + 2 < |s| {
      SumNext(s, i + 2);
    }
    if i + 3 < |s| {
      SumNext(s, i + 3);
    }
  }

  /**
   * quadSum: four lanes over the indexes modulo four. Unless the length is
   * a multiple of four the last turn reads past the end and the result is NaN.
   */
  method QuadSum(values: array<int>) returns (r: Option<int>)
    ensures values.Length % 4 == 0 ==> r == Some(Sum(values[..]))
    ensures values.Length % 4 != 0 ==> r == None
  {
    var sumA, sumB, sumC, sumD := Some(0), Some(0), Some(0), Some(0);
    var i := 0;
    while i < values.Length
      invariant i % 4 == 0 && i <= values.Length + 3
      invariant Add(Add(Add(sumA, sumB), sumC), sumD) == Partial(values[..], i)
      decreases values.Length - i
    {
      QuadStep(values[..], i, sumA, sumB, sumC, sumD);
      sumA := Add(sumA, At(values[..], i));
      sumB := Add(sumB, At(values[..], i + 1));
      sumC := Add(sumC, At(values[..], i + 2));
      sumD := Add(sumD, At(values[..], i + 3));
      i := i + 4;
    }
    r := Add(Add(Add(sumA, sumB), sumC), sumD);
    assert values[..values.Length] == values[..];
  }

  /** The elements of an Int32Array. */
  newtype Int32 = x: int | -0x8000_0000 <= x < 0x8000_0000

  /** The elements of a typed array as numbers. */
  function Widen(s: seq<Int32>): (r: seq<int>)
    ensures |r| == |s| && forall i :: 0 <= i < |s| ==> r[i] == s[i] as int
  {
    seq(|s|, i requires 0 <= i < |s| => s[i] as int)
  }

  /** sumTypedArray: the for loop over an Int32Array. */
  method SumTypedArray(values: array<Int32>) returns (sum: int)
    ensures sum == Sum(Widen(values[..]))
  {
    sum := 0;
    for i := 0 to values.Length
      invariant sum == Sum(Widen(values[..])[..i])
    {
      SumNext(Widen(values[..]), i);
      sum := sum + values[i] as int;
    }
    assert Widen(values[..])[..values.Length] == Widen(values[..]);
  }

  /** Zeros sum to zero. */
  lemma {:induction false} SumZeros(s: seq<int>)
    requires forall i :: 0 <= i < |s| ==> s[i] == 0
    ensures Sum(s) == 0
  {
    if s != [] {
      SumZeros(s[1..]);
    }
  }

  /** The typedArray entry: a fresh zero-filled Int32Array of 1000 elements, whose sum is 0. */
  method TypedArrayEntry() returns (sum: int)
    ensures sum == 0
  {
    var initArray := new Int32[1_000](_ => 0);
    sum := SumTypedArray(initArray);
    SumZeros(Widen(initArray[..]));
  }
}
