/** Nests of windowed arrays over a scalar as numpy arrays: shape, strides and offset, and back. */
module NumpyStrides {
  import opened Options
  import opened Alignment
  import opened Datatypes
  import opened StructLayout

  predicate IsNest(t: Type) {
    t.Scalar? || (t.Array? && IsNest(t.element))
  }

  function Shape(t: Type): seq<nat> {
    if t.Array? then [t.subsize] + Shape(t.element) else []
  }

  function Starts(t: Type): seq<nat> {
    if t.Array? then [t.start] + Starts(t.element) else []
  }

  /** The bytes from one element to the next, in each dimension. */
  function Strides(t: Type): (s: seq<nat>)
    ensures |s| == |Shape(t)|
  {
    if t.Array? then [Buffersize(t.element)] + Strides(t.element) else []
  }

  function Dot(a: seq<nat>, b: seq<nat>): nat
    requires |a| == |b|
  {
    if a == [] then 0 else Span(a[0], b[0]) + Dot(a[1..], b[1..])
  }

  /** The address of an element by indexing one array after the other. */
  function Indexed(t: Type, address: nat, index: seq<nat>): nat
    requires |index| == |Shape(t)|
  {
    if t.Array? then Indexed(t.element, address + Span(t.start + index[0], Buffersize(t.element)),
                             index[1..]) else address
  }

  predicate InShape(index: seq<nat>, shape: seq<nat>) {
    |index| == |shape| && forall i | 0 <= i < |index| :: index[i] < shape[i]
  }

  // ----- the view is the array -----

  lemma {:induction false} StartsLength(t: Type)
    ensures |Starts(t)| == |Shape(t)|
    decreases t
  {
    if t.Array? { StartsLength(t.element); }
  }

  lemma {:induction false} StridesRefine(t: Type, address: nat, index: seq<nat>)
    requires |index| == |Shape(t)|
    ensures |Starts(t)| == |Shape(t)|
    ensures address + Dot(Starts(t), Strides(t)) + Dot(index, Strides(t)) == Indexed(t, address, index)
    decreases t
  {
    hide Span, Buffersize;
    StartsLength(t);
    if t.Array? {
      var width := Buffersize(t.element);
      SpanAdd(t.start, index[0], width);
      StridesRefine(t.element, address + Span(t.start + index[0], width), index[1..]);
      assert Starts(t)[1..] == Starts(t.element) && Strides(t)[1..] == Strides(t.element);
    }
  }

  function ItemSize(t: Type): nat
    requires IsNest(t)
  {
    if t.Array? then ItemSize(t.element) else t.bytes
  }

  /** Every element of the view lies inside the buffer. */
  lemma {:induction false} ViewInBounds(t: Type, address: nat, index: seq<nat>)
    requires IsNest(t) && WellFormed(t) && InShape(index, Shape(t))
    ensures address <= Indexed(t, address, index)
    ensures Indexed(t, address, index) + ItemSize(t) <= address + Buffersize(t)
    decreases t
  {
    hide Span, Aligned;
    if t.Array? {
      var width, at := Buffersize(t.element), t.start + index[0];
      assert index[0] < Shape(t)[0];
      assert InShape(index[1..], Shape(t.element)) by { TailInShape(index, Shape(t)); }
      ViewInBounds(t.element, address + Span(at, width), index[1..]);
      SpanSucc(at, width);
      SpanMonotone(at + 1, t.size, width, width);
    }
  }

  lemma TailInShape(index: seq<nat>, shape: seq<nat>)
    requires InShape(index, shape) && shape != []
    ensures InShape(index[1..], shape[1..])
  {
  }

  /** Different indices are different elements: they do not overlap. */
  lemma {:induction false} ViewDisjoint(t: Type, address: nat, i: seq<nat>, j: seq<nat>)
    requires IsNest(t) && WellFormed(t) && InShape(i, Shape(t)) && InShape(j, Shape(t)) && i != j
    ensures var a, b := Indexed(t, address, i), Indexed(t, address, j);
      a + ItemSize(t) <= b || b + ItemSize(t) <= a
    decreases t
  {
    hide Span, Aligned;
    if t.Array? {
      var width := Buffersize(t.element);
      TailInShape(i, Shape(t));
      TailInShape(j, Shape(t));
      if i[0] == j[0] {
        assert i == [i[0]] + i[1..] && j == [j[0]] + j[1..];
        ViewDisjoint(t.element, address + Span(t.start + i[0], width), i[1..], j[1..]);
      } else {
        FarApart(t, address, if i[0] < j[0] then i else j, if i[0] < j[0] then j else i);
      }
    }
  }

  lemma FarApart(t: Type, address: nat, low: seq<nat>, high: seq<nat>)
    requires IsNest(t) && WellFormed(t) && InShape(low, Shape(t)) && InShape(high, Shape(t)) && t.Array?
    requires low[0] < high[0]
    ensures Indexed(t, address, low) + ItemSize(t) <= Indexed(t, address, high)
  {
    hide Span, Aligned, Shape;
    var width := Buffersize(t.element);
    ShapeTail(t);
    TailInShape(low, Shape(t));
    TailInShape(high, Shape(t));
    ViewInBounds(t.element, address + Span(t.start + low[0], width), low[1..]);
    ViewInBounds(t.element, address + Span(t.start + high[0], width), high[1..]);
    SpanSucc(t.start + low[0], width);
    SpanMonotone(t.start + low[0] + 1, t.start + high[0], width, width);
  }

  lemma ShapeTail(t: Type)
    requires t.Array?
    ensures Shape(t) != [] && Shape(t)[1..] == Shape(t.element)
  {
  }

  /** Indexing one array after the other is following the path of the indices. */
  lemma {:induction false} IndexedIsFollowed(t: Type, address: nat, index: seq<nat>, load: nat -> nat)
    requires IsNest(t) && InShape(index, Shape(t))
    ensures Follow(t, address, seq(|index|, i requires 0 <= i < |index| => Index(index[i])), load)
         == Some((Item(t), Indexed(t, address, index)))
    decreases t
  {
    hide Span, Buffersize;
    var path := seq(|index|, i requires 0 <= i < |index| => Index(index[i]));
    if t.Array? {
      TailInShape(index, Shape(t));
      var rest := index[1..];
      assert path[1..] == seq(|rest|, i requires 0 <= i < |rest| => Index(rest[i]));
      IndexedIsFollowed(t.element, address + Span(t.start + index[0], Buffersize(t.element)), rest, load);
    }
  }

  function Item(t: Type): Type
    requires IsNest(t)
  {
    if t.Array? then Item(t.element) else t
  }

  // ----- machine words -----

  const WORD: int := 0x1_0000_0000_0000_0000
  const HALF: int := 0x8000_0000_0000_0000

  /** A signed number stored as a `size_t`. */
  function AsWord(x: int): nat
    requires -HALF <= x < WORD
  {
    if x < 0 then WORD + x else x
  }

  /** A `size_t` read as a signed number. */
  function AsSigned(x: nat): int {
    if x < HALF then x else x - WORD
  }

  // ----- the code: sizes collected outside in, then accumulated inside out -----

  /** The sizes inside a type as signed numbers, the scalar's last. */
  function Sizes(t: Type): seq<int> {
    if t.Array? then [AsSigned(t.size)] + Sizes(t.element) else [Buffersize(t)]
  }

  function Product(s: seq<int>): int {
    if s == [] then 1 else s[0] * Product(s[1..])
  }

  function SignedStrides(t: Type): (s: seq<int>)
    ensures |s| == |Shape(t)|
  {
    if t.Array? then [Product(Sizes(t.element))] + SignedStrides(t.element) else []
  }

  function SignedDot(a: seq<nat>, b: seq<int>): int
    requires |a| == |b|
  {
    if a == [] then 0 else a[0] * b[0] + SignedDot(a[1..], b[1..])
  }

  /** No dimension is too large for a signed number. */
  predicate Sizable(t: Type) {
    t.Array? ==> t.size < HALF && Sizable(t.element)
  }

  lemma {:induction false} SizesProduct(t: Type)
    requires IsNest(t) && Sizable(t)
    ensures Product(Sizes(t)) == Buffersize(t)
    decreases t
  {
    if t.Array? {
      SizesProduct(t.element);
      SpanIsProduct(t.size, Buffersize(t.element));
      assert Sizes(t)[1..] == Sizes(t.element);
    } else {
      assert Sizes(t)[1..] == [];
    }
  }

  /** The signed strides are the bytes from one element to the next. */
  lemma {:induction false} SignedStridesAre(t: Type)
    requires IsNest(t) && Sizable(t)
    ensures SignedStrides(t) == Strides(t)
    decreases t
  {
    hide Product, Buffersize;
    if t.Array? {
      SizesProduct(t.element);
      SignedStridesAre(t.element);
    }
  }

  lemma {:induction false} SignedDotIs(a: seq<nat>, b: seq<nat>)
    requires |a| == |b|
    ensures SignedDot(a, b) == Dot(a, b)
    decreases |a|
  {
    if a != [] {
      SpanIsProduct(a[0], b[0]);
      SignedDotIs(a[1..], b[1..]);
    }
  }

  /** What numpy gets is the shape, the strides and the offset of the array. */
  lemma NumpyViewIs(t: Type)
    requires IsNest(t) && Sizable(t)
    ensures |Starts(t)| == |SignedStrides(t)| == |Strides(t)|
    ensures SignedStrides(t) == Strides(t) && SignedDot(Starts(t), SignedStrides(t)) == Dot(Starts(t), Strides(t))
  {
    hide Strides, SignedStrides;
    StartsLength(t);
    SignedStridesAre(t);
    SignedDotIs(Starts(t), Strides(t));
  }

  lemma {:induction false} StridesAt(t: Type, i: nat)
    requires t.Array? && i < |SignedStrides(t)|
    ensures |Sizes(t.element)| == |SignedStrides(t)| && SignedStrides(t)[i] == Product(Sizes(t.element)[i..])
    decreases t
  {
    hide Product;
    assert Sizes(t.element)[0..] == Sizes(t.element);
    if t.element.Array? {
      StridesAt(t.element, if i > 0 then i - 1 else 0);
      if i > 0 {
        assert Sizes(t.element)[i..] == Sizes(t.element.element)[i - 1..];
      }
    }
  }

  method ToNumpy(t: Type) returns (shape: seq<nat>, strides: seq<int>, offset: int)
    requires IsNest(t)
    ensures shape == Shape(t) && strides == SignedStrides(t)
    ensures |Starts(t)| == |strides| && offset == SignedDot(Starts(t), strides)
  {
    StartsLength(t);
    var starts;
    shape, starts, strides := Collect(t);
    var cumulated := 1;
    var i := |strides|;
    ghost var raw := strides;
    assert raw[i..] == [];
    while i > 0
      invariant 0 <= i <= |raw| == |strides| && cumulated == Product(raw[i..])
      invariant forall k | 0 <= k < i :: strides[k] == raw[k]
      invariant forall k | i <= k < |raw| :: strides[k] == Product(raw[k..])
    {
      i := i - 1;
      assert raw[i..][1..] == raw[i + 1..];
      strides := strides[i := strides[i] * cumulated];
      cumulated := strides[i];
    }
    forall k | 0 <= k < |strides|
      ensures strides[k] == SignedStrides(t)[k]
    {
      StridesAt(t, k);
    }
    offset := SumUp(starts, strides);
  }

  /** The loop down the nest. */
  method Collect(t: Type) returns (shape: seq<nat>, starts: seq<nat>, strides: seq<int>)
    requires IsNest(t)
    ensures shape == Shape(t) && starts == Starts(t) && strides == if t.Array? then Sizes(t.element) else []
    ensures |strides| == |Shape(t)|
  {
    shape, starts, strides := [], [], [];
    var subtype := t;
    while subtype.Array?
      invariant IsNest(subtype)
      invariant shape + Shape(subtype) == Shape(t) && starts + Starts(subtype) == Starts(t)
      invariant shape == [] <==> subtype == t
      invariant subtype != t ==> t.Array? && strides + Sizes(subtype) == Sizes(t.element) && |strides| == |shape| - 1
      invariant subtype == t ==> strides == []
      decreases subtype
    {
      if shape != [] { strides := strides + [AsSigned(subtype.size)]; }
      shape, starts := shape + [subtype.subsize], starts + [subtype.start];
      assert shape + Shape(subtype.element) == Shape(t);
      assert starts + Starts(subtype.element) == Starts(t);
      subtype := subtype.element;
    }
    if shape != [] { strides := strides + [Buffersize(subtype)]; }
    assert shape + [] == shape && starts + [] == starts;
  }

  method SumUp(a: seq<nat>, b: seq<int>) returns (sum: int)
    requires |a| == |b|
    ensures sum == SignedDot(a, b)
  {
    sum := 0;
    var i := 0;
    assert a[0..] == a && b[0..] == b;
    while i < |a|
      invariant 0 <= i <= |a| && sum + SignedDot(a[i..], b[i..]) == SignedDot(a, b)
    {
      assert a[i..][1..] == a[i + 1..] && b[i..][1..] == b[i + 1..];
      sum := sum + a[i] * b[i];
      i := i + 1;
    }
  }

  // ----- from python -----

  /** A numpy array; strides may be zero or negative. */
  datatype View = View(shape: seq<nat>, strides: seq<int>, item: Type)

  predicate IsView(a: View) {
    |a.shape| == |a.strides| && a.item.Scalar? && forall i | 0 <= i < |a.strides| :: -HALF < a.strides[i] < HALF
  }

  function Abs(x: int): int {
    if x < 0 then -x else x
  }

  /** Division that truncates toward zero. */
  function Quotient(x: int, y: int): int
    requires y != 0
  {
    if (x < 0) == (y < 0) then Abs(x) / Abs(y) else -(Abs(x) / Abs(y))
  }

  lemma QuotientBound(x: int, y: int)
    requires y != 0
    ensures -Abs(x) <= Quotient(x, y) <= Abs(x)
  {
    QuotientSmaller(Abs(x), Abs(y));
  }

  lemma QuotientSmaller(x: int, y: int)
    requires x >= 0 && y > 0
    ensures 0 <= x / y <= x
  {
    assert x == (x / y) * y + x % y;
    FactorSmaller(x / y, y, x % y);
  }

  lemma FactorSmaller(q: int, y: int, r: int)
    requires y > 0 && 0 <= r < y && q * y + r >= 0
    ensures 0 <= q <= q * y + r
  {
    assert q <= -1 ==> q * y <= -y;
    assert q >= 0 ==> q * y >= q;
  }

  /** No division by zero: only the outermost stride may be zero. */
  predicate Divisible(a: View, i: nat)
    requires IsView(a)
  {
    forall k | i <= k < |a.strides| && k > 0 :: a.strides[k] != 0
  }

  /** The sizes of the dimensions: the outermost is its shape, the others the quotients of the strides. */
  function SizeAt(a: View, i: nat): nat
    requires IsView(a) && i < |a.shape| && Divisible(a, i)
  {
    if i == 0 then a.shape[0]
    else
      QuotientBound(a.strides[i - 1], a.strides[i]);
      AsWord(Quotient(a.strides[i - 1], a.strides[i]))
  }

  /** The type of the dimensions from `i` on. */
  function TypeFrom(a: View, i: nat): Type
    requires IsView(a) && i <= |a.shape| && Divisible(a, i)
    decreases |a.shape| - i
  {
    if i == |a.shape| then a.item else Array(TypeFrom(a, i + 1), SizeAt(a, i), 0, a.shape[i])
  }

  /** `None` when the code divides by zero. */
  method PythonType(a: View) returns (t: Option<Type>)
    requires IsView(a)
    ensures t == if Divisible(a, 0) then Some(TypeFrom(a, 0)) else None
    ensures t.Some? && |a.shape| > 0 ==>
      t.value.Array? && t.value.start == 0 && t.value.size == t.value.subsize == a.shape[0]
  {
    var n := |a.shape|;
    var sizes: seq<nat> := seq(n, _ => 0);
    if n > 0 { sizes := sizes[0 := a.shape[0]]; }
    var i := 1;
    while i < n
      invariant |sizes| == n && i >= 1 && (n > 0 ==> i <= n)
      invariant forall k | 1 <= k < i && k < n :: a.strides[k] != 0
      invariant n > 0 ==> sizes[0] == a.shape[0]
      invariant forall k | 1 <= k < i && k < n ::
        sizes[k] == (QuotientBound(a.strides[k - 1], a.strides[k]); AsWord(Quotient(a.strides[k - 1], a.strides[k])))
    {
      if a.strides[i] == 0 { return None; }
      QuotientBound(a.strides[i - 1], a.strides[i]);
      sizes := sizes[i := AsWord(Quotient(a.strides[i - 1], a.strides[i]))];
      i := i + 1;
    }
    var result := a.item;
    i := n;
    while i > 0
      invariant 0 <= i <= n && Divisible(a, 0) && result == TypeFrom(a, i)
    {
      i := i - 1;
      result := Array(result, sizes[i], 0, a.shape[i]);
    }
    return Some(result);
  }

  predicate Divides(x: int, y: int)
    requires x != 0
  {
    Quotient(y, x) * x == y
  }

  predicate RegularAt(a: View, k: nat)
    requires IsView(a) && k < |a.strides| && Divisible(a, k)
  {
    if k + 1 == |a.strides| then a.strides[k] == a.item.bytes else Divides(a.strides[k + 1], a.strides[k])
  }

  /** From `i` on: the innermost stride is the item size, and each stride divides the one outside it. */
  predicate Regular(a: View, i: nat)
    requires IsView(a) && Divisible(a, i)
  {
    forall k | i <= k < |a.strides| :: RegularAt(a, k)
  }

  lemma {:induction false} TypeFromNest(a: View, i: nat)
    requires IsView(a) && i <= |a.shape| && Divisible(a, i)
    ensures IsNest(TypeFrom(a, i)) && Shape(TypeFrom(a, i)) == a.shape[i..]
    decreases |a.shape| - i
  {
    if i < |a.shape| { TypeFromNest(a, i + 1); }
  }

  /** The first stride of the type is the size of its second dimension times the next stride. */
  lemma FirstStride(a: View, i: nat)
    requires IsView(a) && i + 1 < |a.shape| && Divisible(a, i)
    ensures var s, rest := SignedStrides(TypeFrom(a, i)), SignedStrides(TypeFrom(a, i + 1));
      |s| > 0 && |rest| > 0 && s[0] == Quotient(a.strides[i], a.strides[i + 1]) * rest[0]
  {
    var inner := TypeFrom(a, i + 1);
    QuotientBound(a.strides[i], a.strides[i + 1]);
    TypeFromNest(a, i);
    TypeFromNest(a, i + 1);
    assert Sizes(inner)[1..] == Sizes(inner.element);
  }

  lemma {:induction false} StridesBackIff(a: View, i: nat)
    requires IsView(a) && i <= |a.shape| && Divisible(a, i)
    ensures SignedStrides(TypeFrom(a, i)) == a.strides[i..] <==> Regular(a, i)
    decreases |a.shape| - i
  {
    hide RegularAt, Quotient, AsWord, Sizes, Product;
    TypeFromNest(a, i);
    var n := |a.shape|;
    if i < n {
      StridesBackIff(a, i + 1);
      RegularStep(a, i);
      var s, rest := SignedStrides(TypeFrom(a, i)), SignedStrides(TypeFrom(a, i + 1));
      assert s[1..] == rest && a.strides[i..][1..] == a.strides[i + 1..];
      assert s == a.strides[i..] <==> s[0] == a.strides[i] && rest == a.strides[i + 1..] by {
        assert s == [s[0]] + rest && a.strides[i..] == [a.strides[i]] + a.strides[i + 1..];
      }
      HeadRegular(a, i);
      if i + 1 < n {
        FirstStride(a, i);
        assert rest == a.strides[i + 1..] ==> rest[0] == a.strides[i + 1];
      } else {
        LastStride(a, i);
      }
    }
  }

  lemma LastStride(a: View, i: nat)
    requires IsView(a) && i + 1 == |a.shape| && Divisible(a, i)
    ensures SignedStrides(TypeFrom(a, i)) == [a.item.bytes]
  {
    assert TypeFrom(a, i + 1) == a.item;
    assert Sizes(a.item) == [a.item.bytes] && Sizes(a.item)[1..] == [];
    assert Product(Sizes(a.item)) == a.item.bytes * Product([]);
  }

  lemma HeadRegular(a: View, i: nat)
    requires IsView(a) && i < |a.shape| && Divisible(a, i)
    ensures RegularAt(a, i) <==>
      if i + 1 == |a.strides| then a.strides[i] == a.item.bytes
      else Quotient(a.strides[i], a.strides[i + 1]) * a.strides[i + 1] == a.strides[i]
  {
  }

  lemma RegularStep(a: View, i: nat)
    requires IsView(a) && i < |a.shape| && Divisible(a, i)
    ensures Regular(a, i) <==> Regular(a, i + 1) && RegularAt(a, i)
  {
    hide RegularAt;
  }

  /** Through the library and back, a numpy array keeps its shape, and its strides exactly when the innermost
      one is the item size and each one divides the next one out; whatever the signs of the others. */
  lemma RoundTripIff(a: View)
    requires IsView(a) && Divisible(a, 0)
    ensures IsNest(TypeFrom(a, 0)) && Shape(TypeFrom(a, 0)) == a.shape
    ensures SignedStrides(TypeFrom(a, 0)) == a.strides <==> Regular(a, 0)
  {
    TypeFromNest(a, 0);
    StridesBackIff(a, 0);
    assert a.shape[0..] == a.shape && a.strides[0..] == a.strides;
  }

  /** A broadcast dimension, whose stride is zero, makes the code divide by zero unless it is the outermost one. */
  lemma BroadcastFails(item: Type)
    requires item.Scalar?
    ensures var a := View([2, 3], [8, 0], item);
      IsView(a) && !Divisible(a, 0)
  {
    var a := View([2, 3], [8, 0], item);
    assert a.strides[1] == 0;
  }
}
