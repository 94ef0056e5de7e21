/** The row-major layout of a multi-dimensional array, computed in 32-bit unsigned arithmetic. */
module MultiArray {
  const TWO_32: int := 0x1_0000_0000

  type u32 = x: int | 0 <= x < 0x1_0000_0000

  function Add32(a: u32, b: u32): u32 { (a + b) % TWO_32 }

  function Sub32(a: u32, b: u32): u32 { (a - b) % TWO_32 }

  function Mul32(a: u32, b: u32): u32 { (a * b) % TWO_32 }

  // ----- the layout over the integers --------------------------------------------------------------------

  function Product(dims: seq<u32>): nat {
    if dims == [] then 1 else dims[0] * Product(dims[1..])
  }

  /** Sizes are positive and the array has fewer than 2^32 elements. */
  ghost predicate Sized(dims: seq<u32>) {
    (forall i | 0 <= i < |dims| :: dims[i] > 0) && Product(dims) < TWO_32
  }

  predicate InBox(x: seq<u32>, dims: seq<u32>) {
    |x| == |dims| && forall i | 0 <= i < |dims| :: x[i] < dims[i]
  }

  function Flat(x: seq<u32>, dims: seq<u32>): nat
    requires |x| == |dims|
  {
    if dims == [] then 0 else x[0] * Product(dims[1..]) + Flat(x[1..], dims[1..])
  }

  lemma MulAtMost(a: nat, b: nat, c: nat)
    requires a <= b
    ensures a * c <= b * c
  {
  }

  lemma {:induction false} ProductPositive(dims: seq<u32>)
    requires forall i | 0 <= i < |dims| :: dims[i] > 0
    ensures Product(dims) > 0
  {
    if dims != [] {
      ProductPositive(dims[1..]);
      MulAtMost(1, dims[0], Product(dims[1..]));
    }
  }

  lemma SizedTail(dims: seq<u32>)
    requires Sized(dims) && dims != []
    ensures Sized(dims[1..]) && 0 < Product(dims[1..]) <= Product(dims)
  {
    ProductPositive(dims[1..]);
    MulAtMost(1, dims[0], Product(dims[1..]));
  }

  /** An index in the box is the number of an element. */
  lemma {:induction false} FlatInRange(x: seq<u32>, dims: seq<u32>)
    requires InBox(x, dims)
    ensures Flat(x, dims) < Product(dims)
  {
    if dims != [] {
      var p := Product(dims[1..]);
      FlatInRange(x[1..], dims[1..]);
      MulAtMost(x[0] + 1, dims[0], p);
      assert (x[0] + 1) * p == x[0] * p + p;
    }
  }

  /** Division by repeated subtraction. */
  function Quotient(k: nat, p: nat): (q: nat)
    requires p > 0
    ensures 0 <= k - q * p < p
  {
    if k < p then 0 else Quotient(k - p, p) + 1
  }

  lemma QuotientIs(k: nat, q: nat, r: nat, p: nat)
    requires p > 0 && k == q * p + r && r < p
    ensures Quotient(k, p) == q && k / p == q
  {
    SameQuotient(Quotient(k, p), k - Quotient(k, p) * p, q, r, p);
    SameQuotient(k / p, k % p, q, r, p);
  }

  lemma SameQuotient(a: int, r: int, b: int, s: int, p: int)
    requires a * p + r == b * p + s && 0 <= r < p && 0 <= s < p
    ensures a == b
  {
    var d := a - b;
    assert d * p == s - r;
    if d >= 1 {
      MulAtMost(1, d, p);
    } else if d <= -1 {
      MulAtMost(1, -d, p);
    }
  }

  function Box(k: nat, dims: seq<u32>): seq<nat>
    requires forall i | 0 <= i < |dims| :: dims[i] > 0
    decreases |dims|
  {
    if dims == [] then []
    else
      ProductPositive(dims[1..]);
      var p := Product(dims[1..]);
      var q := Quotient(k, p);
      [q] + Box(k - q * p, dims[1..])
  }

  /** The number of an element gives back its index. */
  lemma {:induction false} BoxOfFlat(x: seq<u32>, dims: seq<u32>)
    requires InBox(x, dims)
    ensures Box(Flat(x, dims), dims) == x
    decreases |dims|
  {
    if dims != [] {
      ProductPositive(dims[1..]);
      FlatInRange(x[1..], dims[1..]);
      QuotientIs(Flat(x, dims), x[0], Flat(x[1..], dims[1..]), Product(dims[1..]));
      BoxOfFlat(x[1..], dims[1..]);
    }
  }

  lemma QuotientBelow(k: nat, d: nat, p: nat)
    requires p > 0 && k < d * p
    ensures Quotient(k, p) < d
  {
    if Quotient(k, p) >= d {
      MulAtMost(d, Quotient(k, p), p);
    }
  }

  /** Every number of an element comes from an index in the box. */
  lemma {:induction false} FlatOfBox(k: nat, dims: seq<u32>)
    requires (forall i | 0 <= i < |dims| :: dims[i] > 0) && k < Product(dims)
    ensures |Box(k, dims)| == |dims| && forall i | 0 <= i < |dims| :: Box(k, dims)[i] < dims[i]
    ensures Flat(Box(k, dims), dims) == k
    decreases |dims|
  {
    if dims != [] {
      var p := Product(dims[1..]);
      ProductPositive(dims[1..]);
      QuotientBelow(k, dims[0], p);
      FlatOfBox(k - Quotient(k, p) * p, dims[1..]);
      assert Box(k, dims)[1..] == Box(k - Quotient(k, p) * p, dims[1..]);
    }
  }

  predicate Less(x: seq<u32>, y: seq<u32>)
    requires |x| == |y|
  {
    x != [] && (x[0] < y[0] || (x[0] == y[0] && Less(x[1..], y[1..])))
  }

  lemma Blocks(a: nat, r: nat, b: nat, s: nat, p: nat)
    requires a < b && r < p && s < p
    ensures a * p + r < b * p + s
  {
    MulAtMost(a + 1, b, p);
    assert (a + 1) * p == a * p + p;
  }

  /** Elements are stored in lexicographic order. */
  lemma {:induction false} FlatMonotoneIff(x: seq<u32>, y: seq<u32>, dims: seq<u32>)
    requires InBox(x, dims) && InBox(y, dims)
    ensures Less(x, y) <==> Flat(x, dims) < Flat(y, dims)
  {
    if dims != [] {
      var p, r, s := Product(dims[1..]), Flat(x[1..], dims[1..]), Flat(y[1..], dims[1..]);
      FlatInRange(x[1..], dims[1..]);
      FlatInRange(y[1..], dims[1..]);
      if x[0] < y[0] {
        Blocks(x[0], r, y[0], s, p);
      } else if y[0] < x[0] {
        Blocks(y[0], s, x[0], r, p);
      } else {
        FlatMonotoneIff(x[1..], y[1..], dims[1..]);
      }
    }
  }

  // ----- wrap-around -----------------------------------------------------------------------------------------

  lemma Congruent(a: int, b: int, k: int)
    requires a == b + k * TWO_32
    ensures a % TWO_32 == b % TWO_32
  {
  }

  lemma MulWraps(a: int, b: int)
    ensures (a * (b % TWO_32)) % TWO_32 == (a * b) % TWO_32
  {
    var q := b / TWO_32;
    assert a * b == a * (b % TWO_32) + (a * q) * TWO_32 by {
      assert b == b % TWO_32 + q * TWO_32;
      assert a * (q * TWO_32) == (a * q) * TWO_32;
    }
    Congruent(a * b, a * (b % TWO_32), a * q);
  }

  lemma AddWraps(a: int, b: int)
    ensures (a % TWO_32 + b) % TWO_32 == (a + b) % TWO_32
  {
    Congruent(a + b, a % TWO_32 + b, a / TWO_32);
  }

  lemma IndexStep(index: u32, x: u32, p: nat, rest: nat, sum: nat)
    requires sum == x * p + rest
    ensures (Add32(index, Mul32(Add32(0, x), p % TWO_32)) + rest) % TWO_32 == (index + sum) % TWO_32
  {
    var product: nat := x * p;
    TermWraps(x, p);
    SumWraps(index, product, rest);
    assert sum == product + rest;
  }

  lemma TermWraps(x: u32, p: nat)
    ensures Mul32(Add32(0, x), p % TWO_32) == (x * p) % TWO_32
  {
    assert Add32(0, x) == x;
    MulWraps(x, p);
  }

  lemma SumWraps(index: u32, product: nat, rest: nat)
    ensures (Add32(index, product % TWO_32) + rest) % TWO_32 == (index + (product + rest)) % TWO_32
  {
    AddWraps(index + product % TWO_32, rest);
    AddWraps(product, index + rest);
  }

  lemma IndicesStep(rest: u32, p: u32)
    requires p > 0
    ensures rest / p == Quotient(rest, p)
    ensures Sub32(rest, Mul32(rest / p, p)) == rest - Quotient(rest, p) * p < p
  {
    var q := Quotient(rest, p);
    QuotientIs(rest, q, rest - q * p, p);
    assert Mul32(q, p) == q * p;
  }

  /** With sizes that fit, nothing wraps: the number is exact and below the element count. */
  lemma FlatIsExact(x: seq<u32>, dims: seq<u32>)
    requires Sized(dims) && InBox(x, dims)
    ensures Flat(x, dims) % TWO_32 == Flat(x, dims) < Product(dims) == Product(dims) % TWO_32
  {
    FlatInRange(x, dims);
  }

  /** What the loop over the dimensions has still to add. */
  ghost predicate Remains(index: u32, x: seq<u32>, dims: seq<u32>, i: nat)
    requires |x| == |dims|
  {
    i <= |dims| && (index + Flat(x[i..], dims[i..])) % TWO_32 == Flat(x, dims) % TWO_32
  }

  lemma Started(x: seq<u32>, dims: seq<u32>)
    requires |x| == |dims|
    ensures Remains(0, x, dims, 0)
  {
    assert x[0..] == x && dims[0..] == dims;
  }

  lemma FlatStep(x: seq<u32>, dims: seq<u32>, i: nat)
    requires |x| == |dims| && i < |dims|
    ensures Flat(x[i..], dims[i..]) == x[i] * Product(dims[i + 1..]) + Flat(x[i + 1..], dims[i + 1..])
  {
    assert x[i..][1..] == x[i + 1..] && dims[i..][1..] == dims[i + 1..];
  }

  lemma RemainsNext(index: u32, x: seq<u32>, dims: seq<u32>, i: nat)
    requires |x| == |dims| && i < |dims| && Remains(index, x, dims, i)
    ensures Remains(Add32(index, Mul32(Add32(0, x[i]), Product(dims[i + 1..]) % TWO_32)), x, dims, i + 1)
  {
    FlatStep(x, dims, i);
    IndexStep(index, x[i], Product(dims[i + 1..]), Flat(x[i + 1..], dims[i + 1..]), Flat(x[i..], dims[i..]));
  }

  /** What the division of an element number has found and what is left to divide. */
  ghost predicate Rest(index: u32, dims: seq<u32>, i: nat, found: seq<u32>, rest: u32)
    requires Sized(dims)
  {
    && i <= |dims| && Sized(dims[i..]) && rest < Product(dims[i..])
    && Box(index, dims) == found + Box(rest, dims[i..])
  }

  lemma Opened(index: u32, dims: seq<u32>)
    requires Sized(dims) && index < Product(dims)
    ensures Rest(index, dims, 0, [], index)
  {
    assert dims[0..] == dims;
  }

  lemma RestNext(index: u32, dims: seq<u32>, i: nat, found: seq<u32>, rest: u32, q: u32, r: u32)
    requires Sized(dims) && i < |dims| && Rest(index, dims, i, found, rest)
    requires var p := Product(dims[i + 1..]); p > 0 && q == Quotient(rest, p) && r == rest - q * p
    ensures Rest(index, dims, i + 1, found + [q], r)
  {
    assert dims[i..][1..] == dims[i + 1..];
    SizedTail(dims[i..]);
  }

  lemma StrideFits(dims: seq<u32>, i: nat)
    requires Sized(dims) && i < |dims| && Sized(dims[i..])
    ensures 0 < Product(dims[i + 1..]) == Product(dims[i + 1..]) % TWO_32
  {
    assert dims[i..][1..] == dims[i + 1..];
    SizedTail(dims[i..]);
  }

  /** One division step of `indices`. */
  method Divide(index: u32, offset: u32, stride: u32) returns (quotient: u32, rest: u32)
    requires stride > 0 && offset == 0
    ensures quotient == Quotient(index, stride) && rest == index - quotient * stride
  {
    rest := Sub32(index, offset);
    assert rest == index;
    IndicesStep(index, stride);
    quotient := rest / stride;
    rest := Sub32(rest, Mul32(quotient, stride));
  }

  class Array {
    const dims: seq<u32>
    const strides: array<u32>
    const offsets: array<u32>
    var count: u32

    /** Strides are the products of the later sizes, as far as 32 bits hold them. */
    ghost predicate Valid()
      reads this, strides, offsets
    {
      && dims != [] && strides.Length == offsets.Length == |dims|
      && count == Product(dims) % TWO_32
      && (forall i | 0 <= i < |dims| :: offsets[i] == 0)
      && (forall i | 0 <= i < |dims| :: strides[i] == Product(dims[i + 1..]) % TWO_32)
    }

    constructor (dims: seq<u32>)
      requires dims != []
      ensures Valid() && this.dims == dims && fresh(strides) && fresh(offsets)
    {
      this.dims := dims;
      strides := new u32[|dims|](_ => 0);
      offsets := new u32[|dims|](_ => 0);
      count := dims[|dims| - 1];
      new;
      strides[|dims| - 1] := 1;
      var i := |dims| - 1;
      assert dims[i + 1..] == [] && dims[i..] == [dims[i]];
      while i > 0
        invariant 0 <= i < |dims| && count == Product(dims[i..]) % TWO_32
        invariant forall k | 0 <= k < |dims| :: offsets[k] == 0
        invariant forall k | i <= k < |dims| :: strides[k] == Product(dims[k + 1..]) % TWO_32
      {
        assert dims[i - 1..][1..] == dims[i..] && dims[i..][1..] == dims[i + 1..];
        MulWraps(dims[i - 1], Product(dims[i..]));
        MulWraps(dims[i], Product(dims[i + 1..]));
        count := Mul32(dims[i - 1], count);
        strides[i - 1] := Mul32(dims[i], strides[i]);
        i := i - 1;
      }
      assert dims[0..] == dims;
    }

    /** The element number modulo 2^32, whatever the arguments. */
    method Index(x: seq<u32>) returns (index: u32)
      requires Valid() && |x| == |dims|
      ensures index == Flat(x, dims) % TWO_32
    {
      index := 0;
      Started(x, dims);
      for i := 0 to |dims|
        invariant Remains(index, x, dims, i)
      {
        RemainsNext(index, x, dims, i);
        index := Add32(index, Mul32(Add32(offsets[i], x[i]), strides[i]));
      }
    }

    /** The index of the element with a given number. */
    method Indices(index: u32) returns (indices: seq<u32>)
      requires Valid() && Sized(dims) && index < count
      ensures indices == Box(index, dims)
    {
      var rest: u32 := index;
      indices := [];
      Opened(index, dims);
      for i := 0 to |dims|
        invariant Rest(index, dims, i, indices, rest)
      {
        StrideFits(dims, i);
        var quotient, rest' := Divide(rest, offsets[i], strides[i]);
        RestNext(index, dims, i, indices, rest, quotient, rest');
        rest := rest';
        indices := indices + [quotient];
      }
    }
  }
}
