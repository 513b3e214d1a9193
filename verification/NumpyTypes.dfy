/** The type the library gives a numpy array: how large it is, when it is well formed, and that its elements are where
    numpy has them. */
module NumpyTypes {
  import opened Alignment
  import opened Datatypes
  import opened NumpyStrides

  // ----- machine arithmetic -----

  /** The division goes toward zero: what is left has the sign of the dividend and is smaller than the divisor. */
  lemma QuotientTruncates(x: int, y: int)
    requires y != 0
    ensures var r := x - Quotient(x, y) * y;
      Abs(r) < Abs(y) && (x >= 0 ==> r >= 0) && (x <= 0 ==> r <= 0)
  {
    var a, b := Abs(x), Abs(y);
    assert a == (a / b) * b + a % b;
    var q := a / b;
    assert (-q) * b == -(q * b) && q * (-b) == -(q * b) && (-q) * (-b) == q * b;
  }

  /** A signed number survives being stored as a `size_t`. */
  lemma WordRoundTrip(x: int)
    requires -HALF <= x < HALF
    ensures 0 <= AsWord(x) < WORD && AsSigned(AsWord(x)) == x && (AsWord(x) - x == 0 || AsWord(x) - x == WORD)
  {
  }

  // ----- arrays in C order -----

  /** Strides that grow outwards by whole factors from the size of an item. */
  ghost predicate InOrder(a: View) {
    IsView(a) && Divisible(a, 0) && Regular(a, 0) && forall k | 0 <= k < |a.strides| :: a.strides[k] > 0
  }

  lemma SizeTimesStride(a: View, k: nat)
    requires InOrder(a) && 0 < k < |a.shape|
    ensures Divisible(a, k) && SizeAt(a, k) * a.strides[k] == a.strides[k - 1]
  {
    hide Quotient;
    assert RegularAt(a, k - 1);
    PositiveQuotient(a.strides[k - 1], a.strides[k]);
    QuotientBound(a.strides[k - 1], a.strides[k]);
  }

  lemma PositiveQuotient(x: int, y: int)
    requires x > 0 && y > 0
    ensures Quotient(x, y) >= 0
  {
    QuotientSmaller(x, y);
  }

  /** A dimension takes the stride of the one around it; the outermost its length times its stride. */
  lemma {:induction false} SizeFrom(a: View, i: nat)
    requires InOrder(a) && i <= |a.shape|
    ensures Divisible(a, i)
    ensures Buffersize(TypeFrom(a, i)) ==
      if |a.shape| == 0 then a.item.bytes else if i == 0 then a.shape[0] * a.strides[0] else a.strides[i - 1]
    decreases |a.shape| - i
  {
    hide SizeAt, Span;
    var n := |a.shape|;
    if i < n {
      SizeFrom(a, i + 1);
      SpanIsProduct(SizeAt(a, i), Buffersize(TypeFrom(a, i + 1)));
      if i == 0 { FirstSize(a); } else { SizeTimesStride(a, i); }
    } else if n > 0 {
      LastRegular(a);
    }
  }

  lemma FirstSize(a: View)
    requires IsView(a) && |a.shape| > 0 && Divisible(a, 0)
    ensures SizeAt(a, 0) == a.shape[0]
  {
  }

  lemma LastRegular(a: View)
    requires InOrder(a) && |a.shape| > 0
    ensures a.strides[|a.shape| - 1] == a.item.bytes
  {
    assert RegularAt(a, |a.shape| - 1);
  }

  /** From dimension `i` on, what a dimension holds fits in the stride of the one around it. */
  ghost predicate Fits(a: View, i: nat)
    requires IsView(a)
  {
    forall k | i <= k < |a.shape| && k > 0 :: FitsAt(a, k)
  }

  ghost predicate FitsAt(a: View, k: nat)
    requires IsView(a) && 0 < k < |a.shape|
  {
    a.shape[k] * a.strides[k] <= a.strides[k - 1]
  }

  lemma {:induction false} WellFormedFrom(a: View, i: nat)
    requires InOrder(a) && i <= |a.shape|
    ensures Divisible(a, i)
    ensures WellFormed(TypeFrom(a, i)) <==> WellFormed(a.item) && Fits(a, i)
    decreases |a.shape| - i
  {
    hide SizeAt, Aligned, FitsAt;
    if i < |a.shape| {
      WellFormedFrom(a, i + 1);
      if i == 0 {
        FirstSize(a);
      } else {
        assert FitsAt(a, i) <==> a.shape[i] <= SizeAt(a, i) by { FitsIff(a, i); }
      }
      assert Fits(a, i) <==> Fits(a, i + 1) && (i > 0 ==> FitsAt(a, i));
    }
  }

  lemma FitsIff(a: View, k: nat)
    requires InOrder(a) && 0 < k < |a.shape|
    ensures Divisible(a, k) && (FitsAt(a, k) <==> a.shape[k] <= SizeAt(a, k))
  {
    hide SizeAt;
    SizeTimesStride(a, k);
    Monotone(a.shape[k], SizeAt(a, k), a.strides[k]);
  }

  lemma Monotone(x: int, y: int, s: int)
    requires s > 0
    ensures x * s <= y * s <==> x <= y
  {
    assert x >= y + 1 ==> x * s >= (y + 1) * s;
    assert x <= y ==> x * s <= y * s;
  }

  lemma {:induction false} ElementsFrom(a: View, i: nat, address: nat, index: seq<nat>)
    requires InOrder(a) && i <= |a.shape| && |index| == |a.shape| - i
    ensures Divisible(a, i) && |index| == |Shape(TypeFrom(a, i))|
    ensures Indexed(TypeFrom(a, i), address, index) == address + SignedDot(index, a.strides[i..])
    decreases |a.shape| - i
  {
    hide SizeAt, Span, Buffersize;
    TypeFromNest(a, i);
    if i < |a.shape| {
      SizeFrom(a, i + 1);
      var step := a.strides[i];
      assert Buffersize(TypeFrom(a, i + 1)) == step;
      SpanIsProduct(index[0], step);
      ElementsFrom(a, i + 1, address + Span(index[0], step), index[1..]);
      assert a.strides[i..][0] == step && a.strides[i..][1..] == a.strides[i + 1..];
    }
  }

  /** The type of an array in C order takes its outermost length times its outermost stride; it is well formed exactly
      when its item is and every inner dimension fits in the stride of the one around it; and each element is where
      numpy has it. */
  lemma TypeIs(a: View, address: nat, index: seq<nat>)
    requires InOrder(a) && |index| == |a.shape|
    ensures var t := TypeFrom(a, 0);
      && Buffersize(t) == (if |a.shape| == 0 then a.item.bytes else a.shape[0] * a.strides[0])
      && (WellFormed(t) <==> WellFormed(a.item) && Fits(a, 0))
      && |index| == |Shape(t)| && Indexed(t, address, index) == address + SignedDot(index, a.strides)
  {
    hide TypeFrom, WellFormed, Buffersize, Fits, Indexed, SignedDot;
    SizeFrom(a, 0);
    WellFormedFrom(a, 0);
    ElementsFrom(a, 0, address, index);
    assert a.strides[0..] == a.strides;
  }

  /** Then every element of the array lies inside the buffer of its type. */
  lemma ElementsInside(a: View, address: nat, index: seq<nat>)
    requires InOrder(a) && WellFormed(a.item) && Fits(a, 0) && InShape(index, a.shape)
    ensures var at := address + SignedDot(index, a.strides);
      address <= at && at + a.item.bytes <= address + Buffersize(TypeFrom(a, 0))
  {
    hide TypeFrom, WellFormed, Buffersize, Fits, Indexed, SignedDot;
    TypeIs(a, address, index);
    TypeFromNest(a, 0);
    assert a.shape[0..] == a.shape;
    ViewInBounds(TypeFrom(a, 0), address, index);
    ItemFrom(a, 0);
  }

  lemma {:induction false} ItemFrom(a: View, i: nat)
    requires IsView(a) && i <= |a.shape| && Divisible(a, i)
    ensures IsNest(TypeFrom(a, i)) && ItemSize(TypeFrom(a, i)) == a.item.bytes
    decreases |a.shape| - i
  {
    if i < |a.shape| { ItemFrom(a, i + 1); }
  }
}
