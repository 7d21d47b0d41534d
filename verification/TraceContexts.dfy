/** The kernels of trace_contexts.c: 16-bit fixed-point loops and an in-place bubble sort. */
module TraceContexts {

  type Short = x: int | -0x8000 <= x < 0x8000
  type Int32 = x: int | -0x8000_0000 <= x < 0x8000_0000

  const LENGTH := 100

  /** Conversion of an int to short: the low 16 bits, read as two's complement. */
  function Wrap16(x: int): (r: Short)
    ensures (x - r) % 0x1_0000 == 0
  {
    (x + 0x8000) % 0x1_0000 - 0x8000
  }

  /** Wrapping on the way is the same as wrapping once at the end. */
  lemma WrapOnce(x: int, y: int)
    ensures Wrap16(Wrap16(x) + y) == Wrap16(x + y)
  {
  }

  lemma {:induction false} ScaleBound(m: nat, y: int)
    requires -0x8000 <= y <= 0x8000
    ensures -0x8000 * m <= m * y <= 0x8000 * m
  {
    if m > 0 {
      ScaleBound(m - 1, y);
      assert m * y == (m - 1) * y + y;
    }
  }

  /** The exact product of two shorts. */
  lemma ProductFits(x: int, y: int)
    requires -0x8000 <= x < 0x8000 && -0x8000 <= y < 0x8000
    ensures -0x4000_0000 <= x * y <= 0x4000_0000
  {
    if x >= 0 {
      ScaleBound(x, y);
    } else {
      ScaleBound(-x, y);
      assert (-x) * y == -(x * y);
    }
  }

  /** A product scaled back from 30 to 15 fraction bits. */
  function Scaled(x: int, y: int): int { x * y / 0x8000 }

  /** The arithmetic shift rounds the exact product down. */
  lemma ScaledFloor(x: int, y: int)
    ensures 0x8000 * Scaled(x, y) <= x * y < 0x8000 * (Scaled(x, y) + 1)
  {
  }

  /** The sum of the first n products, in unbounded integers. */
  function Dot(x: seq<int>, y: seq<int>, n: nat): int
    requires n <= |x| && n <= |y|
  {
    if n == 0 then 0 else Dot(x, y, n - 1) + x[n - 1] * y[n - 1]
  }

  lemma DotSums(x: seq<int>, y: seq<int>, n: nat)
    requires n < |x| && n < |y|
    ensures Dot(x, y, 0) == 0
    ensures Dot(x, y, n + 1) == Dot(x, y, n) + x[n] * y[n]
  {
  }

  /** One hundred ones give one hundred. */
  lemma {:induction false} DotOfOnes(x: seq<int>, n: nat)
    requires n <= |x| && forall k :: 0 <= k < |x| ==> x[k] == 1
    ensures Dot(x, x, n) == n
  {
    if n > 0 {
      DotOfOnes(x, n - 1);
    }
  }

  function Scaling(y: seq<Short>, x: seq<Short>, scaler: Short): (r: seq<Short>)
    requires |x| == |y|
  {
    seq(|y|, i requires 0 <= i < |y| => Wrap16(y[i] + Scaled(scaler, x[i])))
  }

  // ---------------------------------------------------------------------------------------------
  // Any number of calls of math
  // ---------------------------------------------------------------------------------------------

  /** The global arrays and scalars math works on. */
  datatype Globals = Globals(a: seq<Short>, b: seq<Short>, c: Short, output: Short)

  predicate Sized(g: Globals) { |g.a| == LENGTH && |g.b| == LENGTH }

  function Energy(g: Globals): int
    requires Sized(g)
  {
    Dot(g.b, g.b, LENGTH)
  }

  function MathCall(g: Globals): (r: Globals)
    requires Sized(g)
    ensures Sized(r)
  {
    var a := Scaling(g.a, g.b, g.c);
    Globals(a, g.b, Wrap16(g.c + Energy(g)), Wrap16(g.output + Dot(g.b, a, LENGTH)))
  }

  function Calls(g: Globals, k: nat): (r: Globals)
    requires Sized(g)
    ensures Sized(r)
  {
    if k == 0 then g else MathCall(Calls(g, k - 1))
  }

  /** The scaler of call j. */
  function ScalerAt(c: Short, energy: int, j: nat): Short { Wrap16(c + j * energy) }

  /** What k calls add to one element, without any wrapping of the sum. */
  function Gain(c: Short, energy: int, x: Short, k: nat): int {
    if k == 0 then 0 else Gain(c, energy, x, k - 1) + Scaled(ScalerAt(c, energy, k - 1), x)
  }

  /** What k calls add to the output, without any wrapping of the sum. */
  function Correlation(g: Globals, k: nat): int
    requires Sized(g)
  {
    if k == 0 then 0 else Correlation(g, k - 1) + Dot(g.b, Calls(g, k).a, LENGTH)
  }

  lemma ScalerStep(c: Short, energy: int, j: nat)
    ensures ScalerAt(c, energy, 0) == c
    ensures Wrap16(ScalerAt(c, energy, j) + energy) == ScalerAt(c, energy, j + 1)
  {
    assert (j + 1) * energy == j * energy + energy;
    WrapOnce(c + j * energy, energy);
  }

  /** After any number of calls every element is its first value plus all its exact contributions, wrapped once. */
  lemma {:induction false} AfterCalls(g: Globals, k: nat)
    requires Sized(g)
    ensures Calls(g, k).b == g.b
    ensures Calls(g, k).c == ScalerAt(g.c, Energy(g), k)
    ensures forall i :: 0 <= i < LENGTH ==> Calls(g, k).a[i] == Wrap16(g.a[i] + Gain(g.c, Energy(g), g.b[i], k))
    ensures Calls(g, k).output == Wrap16(g.output + Correlation(g, k))
  {
    hide Wrap16, Dot, ScalerAt, Scaled;
    if k == 0 {
      ScalerStep(g.c, Energy(g), 0);
      forall x: Short
        ensures Wrap16(x) == x
      {
        WrapShort(x);
      }
    } else {
      var was := Calls(g, k - 1);
      AfterCalls(g, k - 1);
      ScalerStep(g.c, Energy(g), k - 1);
      forall i | 0 <= i < LENGTH
        ensures Calls(g, k).a[i] == Wrap16(g.a[i] + Gain(g.c, Energy(g), g.b[i], k))
      {
        WrapOnce(g.a[i] + Gain(g.c, Energy(g), g.b[i], k - 1), Scaled(was.c, g.b[i]));
      }
      WrapOnce(g.output + Correlation(g, k - 1), Dot(g.b, Calls(g, k).a, LENGTH));
    }
  }

  lemma WrapShort(x: Short)
    ensures Wrap16(x) == x
  {
  }

  /** The scaler repeats after 2^16 calls, whatever the energy. */
  lemma ScalerPeriod(g: Globals, k: nat)
    requires Sized(g)
    ensures Calls(g, k + 0x1_0000).c == Calls(g, k).c
  {
    var e := Energy(g);
    AfterCalls(g, k);
    AfterCalls(g, k + 0x1_0000);
    hide Calls, Dot;
    assert (k + 0x1_0000) * e == k * e + 0x1_0000 * e;
    WrapPeriod(g.c + k * e, e);
  }

  lemma WrapPeriod(x: int, t: int)
    ensures Wrap16(x + 0x1_0000 * t) == Wrap16(x)
  {
  }

  // ---------------------------------------------------------------------------------------------
  // Bubble sort
  // ---------------------------------------------------------------------------------------------

  predicate Descending(s: seq<int>) { forall i, j :: 0 <= i < j < |s| ==> s[i] >= s[j] }

  predicate StrictlyAscending(s: seq<int>) { forall i, j :: 0 <= i < j < |s| ==> s[i] < s[j] }

  /** How many elements are greater than x. */
  function Above(x: int, s: seq<int>): (n: nat)
    ensures n <= |s|
    decreases |s|
  {
    if s == [] then 0 else (if s[0] > x then 1 else 0) + Above(x, s[1..])
  }

  lemma {:induction false} AboveExtremes(x: int, s: seq<int>)
    ensures Above(x, s) == 0 <==> forall i :: 0 <= i < |s| ==> s[i] <= x
    ensures Above(x, s) == |s| <==> forall i :: 0 <= i < |s| ==> s[i] > x
    decreases |s|
  {
    if s != [] {
      var t := s[1..];
      AboveExtremes(x, t);
      assert forall i :: 0 < i < |s| ==> s[i] == t[i - 1];
      assert forall i :: 0 <= i < |t| ==> t[i] == s[i + 1];
    }
  }

  /** Pairs of positions whose elements are out of descending order. */
  function Inversions(s: seq<int>): nat {
    if s == [] then 0 else Above(s[0], s[1..]) + Inversions(s[1..])
  }

  function Swapped(s: seq<int>, p: nat): (t: seq<int>)
    requires p + 1 < |s|
    ensures |t| == |s| && multiset(t) == multiset(s)
  {
    s[p := s[p + 1]][p + 1 := s[p]]
  }

  lemma {:induction false} SwapKeepsAbove(x: int, s: seq<int>, p: nat)
    requires p + 1 < |s|
    ensures Above(x, Swapped(s, p)) == Above(x, s)
    decreases p
  {
    var t := Swapped(s, p);
    if p == 0 {
      assert t[1..][1..] == s[1..][1..];
    } else {
      SwapKeepsAbove(x, s[1..], p - 1);
      assert t[1..] == Swapped(s[1..], p - 1);
    }
  }

  /** Every swap the sort makes removes exactly one inversion. */
  lemma {:induction false} SwapRemovesOne(s: seq<int>, p: nat)
    requires p + 1 < |s| && s[p] < s[p + 1]
    ensures Inversions(Swapped(s, p)) == Inversions(s) - 1
    decreases p
  {
    var t := Swapped(s, p);
    if p == 0 {
      assert t[1..][1..] == s[1..][1..];
    } else {
      SwapRemovesOne(s[1..], p - 1);
      SwapKeepsAbove(s[0], s[1..], p - 1);
      assert t[1..] == Swapped(s[1..], p - 1);
    }
  }

  lemma DescendingCons(s: seq<int>)
    requires s != []
    ensures Descending(s) <==> Above(s[0], s[1..]) == 0 && Descending(s[1..])
  {
    var t := s[1..];
    AboveExtremes(s[0], t);
    assert forall i :: 0 < i < |s| ==> s[i] == t[i - 1];
    assert forall i :: 0 <= i < |t| ==> t[i] == s[i + 1];
  }

  lemma AscendingCons(s: seq<int>)
    requires s != []
    ensures StrictlyAscending(s) <==> Above(s[0], s[1..]) == |s| - 1 && StrictlyAscending(s[1..])
  {
    var t := s[1..];
    AboveExtremes(s[0], t);
    assert forall i :: 0 < i < |s| ==> s[i] == t[i - 1];
    assert forall i :: 0 <= i < |t| ==> t[i] == s[i + 1];
  }

  /** So a sorted array is left alone, and only a sorted one is. */
  lemma {:induction false} NoInversionIffDescending(s: seq<int>)
    ensures Inversions(s) == 0 <==> Descending(s)
  {
    if s != [] {
      NoInversionIffDescending(s[1..]);
      DescendingCons(s);
    }
  }

  /** The number of pairs of n things. */
  function PairCount(n: nat): (k: nat)
    ensures 2 * k == n * (n - 1)
  {
    if n == 0 then 0 else PairCount(n - 1) + n - 1
  }

  /** No input needs more swaps than a strictly ascending one, and only those need as many. */
  lemma {:induction false} WorstCase(s: seq<int>)
    ensures Inversions(s) <= PairCount(|s|)
    ensures Inversions(s) == PairCount(|s|) <==> StrictlyAscending(s)
  {
    hide StrictlyAscending;
    if s == [] {
      NothingAscends();
    } else {
      WorstCase(s[1..]);
      AscendingCons(s);
    }
  }

  lemma NothingAscends()
    ensures StrictlyAscending([])
  {
  }

  lemma FirstIsLargest(s: seq<int>, t: seq<int>)
    requires Descending(s) && multiset(s) == multiset(t) && t != []
    ensures s != [] && s[0] >= t[0]
  {
    assert t[0] in multiset(s);
  }

  lemma SameTails(s: seq<int>, t: seq<int>)
    requires s != [] && t != [] && s[0] == t[0] && multiset(s) == multiset(t)
    ensures multiset(s[1..]) == multiset(t[1..])
  {
    assert s == [s[0]] + s[1..] && t == [t[0]] + t[1..];
    assert multiset(s[1..]) == multiset(s) - multiset{s[0]};
    assert multiset(t[1..]) == multiset(t) - multiset{t[0]};
  }

  /** There is only one descending arrangement, so sorting leaves no freedom. */
  lemma {:induction false} DescendingUnique(s: seq<int>, t: seq<int>)
    requires Descending(s) && Descending(t) && multiset(s) == multiset(t)
    ensures s == t
    decreases |s|
  {
    hide Descending;
    assert |multiset(s)| == |s| && |multiset(t)| == |t|;
    if s != [] {
      FirstIsLargest(s, t);
      FirstIsLargest(t, s);
      SameTails(s, t);
      DescendingCons(s);
      DescendingCons(t);
      DescendingUnique(s[1..], t[1..]);
    }
  }

  /** trace_contexts.c with its globals; the sort works on arr[1..], whatever its length. */
  class Kernels {
    const a: array<Short>
    const b: array<Short>
    var c: Short
    const output: array<Short>

    ghost predicate Valid()
      reads this
    {
      a.Length == LENGTH && b.Length == LENGTH && output.Length == 1 && a != b
    }

    ghost function Snapshot(): (g: Globals)
      requires Valid()
      reads this, a, b, output
      ensures Sized(g)
    {
      Globals(a[..], b[..], c, output[0])
    }

    constructor (a: array<Short>, b: array<Short>, c: Short, output: array<Short>)
      requires a.Length == 100 && b.Length == 100 && output.Length == 1 && a != b
      ensures Valid() && Snapshot() == Globals(a[..], b[..], c, output[0])
    {
      this.a, this.b, this.c, this.output := a, b, c, output;
    }

    static method VecMpy1(y: array<Short>, x: array<Short>, scaler: Short)
      requires y.Length == 100 && x.Length == 100
      modifies y
      ensures y[..] == Scaling(old(y[..]), old(x[..]), scaler)
      ensures forall k :: 0 <= k < 100 ==>
                var m: int := scaler;
                y[k] == Wrap16(old(y[k]) + m * old(x[k]) / 0x8000)
    {
      var i := 0;
      while i < LENGTH
        invariant 0 <= i <= LENGTH
        invariant forall k :: 0 <= k < i ==> y[k] == Wrap16(old(y[k]) + Scaled(scaler, old(x[k])))
        invariant forall k :: i <= k < LENGTH ==> y[k] == old(y[k])
      {
        var m: int := scaler;
        ProductFits(m, x[i]);
        var product: Int32 := m * x[i];
        y[i] := Wrap16(y[i] + product / 0x8000);
        i := i + 1;
      }
    }

    /** The sums are kept in 16 bits at every step; every int in between fits 32 bits. */
    static method Mac(a: array<Short>, b: array<Short>, sqr0: Short, sum: array<Short>) returns (sqr: Short)
      requires a.Length == 100 && b.Length == 100 && sum.Length == 1
      modifies sum
      ensures sum[0] == Wrap16(old(sum[0]) + Dot(b[..], a[..], 100))
      ensures sqr == Wrap16(sqr0 + Dot(b[..], b[..], 100))
    {
      hide Wrap16;
      var dotp, i := sum[0], 0;
      sqr := sqr0;
      WrapShort(dotp);
      WrapShort(sqr);
      while i < LENGTH
        invariant 0 <= i <= LENGTH
        invariant dotp == Wrap16(old(sum[0]) + Dot(b[..], a[..], i))
        invariant sqr == Wrap16(sqr0 + Dot(b[..], b[..], i))
      {
        var m: int := b[i];
        ProductFits(m, a[i]);
        ProductFits(m, m);
        var dot: Int32, square: Int32 := dotp + m * a[i], sqr + m * m;
        WrapOnce(old(sum[0]) + Dot(b[..], a[..], i), m * a[i]);
        WrapOnce(sqr0 + Dot(b[..], b[..], i), m * m);
        dotp, sqr := Wrap16(dot), Wrap16(square);
        i := i + 1;
      }
      sum[0] := dotp;
    }

    method Math() returns (r: int)
      requires Valid()
      modifies this, a, output
      ensures Valid() && Snapshot() == MathCall(old(Snapshot())) && r == 0
      ensures forall k :: 0 <= k < 100 ==>
                var m: int := old(c);
                a[k] == Wrap16(old(a[k]) + m * b[k] / 0x8000)
      ensures c == Wrap16(old(c) + Dot(b[..], b[..], 100))
      ensures output[0] == Wrap16(old(output[0]) + Dot(b[..], a[..], 100))
    {
      VecMpy1(a, b, c);
      c := Mac(a, b, c, output);
      r := 0;
    }

    static method SwapWithNext(arr: array<int>, j: nat)
      requires 1 <= j && j + 1 < arr.Length && arr[j] < arr[j + 1]
      modifies arr
      ensures arr[j] == old(arr[j + 1]) && arr[j + 1] == old(arr[j])
      ensures forall k :: 0 <= k < arr.Length && k != j && k != j + 1 ==> arr[k] == old(arr[k])
      ensures multiset(arr[1..]) == multiset(old(arr[1..]))
      ensures Inversions(arr[1..]) == Inversions(old(arr[1..])) - 1
    {
      SwapRemovesOne(arr[1..], j - 1);
      var temp := arr[j];
      arr[j] := arr[j + 1];
      arr[j + 1] := temp;
      assert arr[1..] == Swapped(old(arr[1..]), j - 1);
    }

    /** bs for any number of elements; swaps counts the times it stores. */
    static method Bs(arr: array<int>) returns (swaps: nat)
      requires arr.Length > 0
      modifies arr
      ensures arr[0] == old(arr[0])
      ensures Descending(arr[1..]) && multiset(arr[1..]) == multiset(old(arr[1..]))
      ensures swaps == Inversions(old(arr[1..])) && Inversions(arr[1..]) == 0
    {
      hide Inversions;
      var i := arr.Length - 1;
      swaps := 0;
      while i > 1
        invariant 0 <= i < arr.Length
        invariant arr[0] == old(arr[0])
        invariant multiset(arr[1..]) == multiset(old(arr[1..]))
        invariant swaps + Inversions(arr[1..]) == Inversions(old(arr[1..]))
        invariant SettledFrom(arr, i + 1)
      {
        var more := SinkSmallest(arr, i);
        swaps := swaps + more;
        i := i - 1;
      }
      NoInversionIffDescending(arr[1..]);
    }

    /** The elements from here on are in their final places. */
    static ghost predicate SettledFrom(arr: array<int>, first: nat)
      reads arr
    {
      forall p, q :: 1 <= p < q < arr.Length && first <= q ==> arr[p] >= arr[q]
    }

    /** The inner loop: the smallest of arr[1..i+1] ends up in arr[i]. */
    static method SinkSmallest(arr: array<int>, i: nat) returns (swaps: nat)
      requires 1 < i < arr.Length && SettledFrom(arr, i + 1)
      modifies arr
      ensures arr[0] == old(arr[0])
      ensures multiset(arr[1..]) == multiset(old(arr[1..]))
      ensures swaps + Inversions(arr[1..]) == Inversions(old(arr[1..]))
      ensures SettledFrom(arr, i)
    {
      hide Inversions;
      var j := 1;
      swaps := 0;
      while j <= i - 1
        invariant 1 <= j <= i
        invariant arr[0] == old(arr[0])
        invariant multiset(arr[1..]) == multiset(old(arr[1..]))
        invariant swaps + Inversions(arr[1..]) == Inversions(old(arr[1..]))
        invariant SettledFrom(arr, i + 1)
        invariant forall p :: 1 <= p < j ==> arr[p] >= arr[j]
      {
        if arr[j] < arr[j + 1] {
          SwapWithNext(arr, j);
          swaps := swaps + 1;
        }
        j := j + 1;
      }
    }
  }
}
