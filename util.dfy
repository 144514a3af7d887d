/** Vectors and the OCR-tolerant float conversion of the utility module. */
module Util {
  import opened Wrappers
  import Strings

  /** The exceptions raised by the utilities. */
  datatype UtilError = TypeError | IndexError | ValueError

  /** Sum of `a[i] * b[i]` over all positions, accumulated left to right
      as Python's `sum` does. */
  function SumProducts(a: seq<real>, b: seq<real>): real
    requires |a| == |b|
  {
    if a == [] then 0.0
    else SumProducts(a[..|a| - 1], b[..|b| - 1]) + a[|a| - 1] * b[|b| - 1]
  }

  /** An n-dimensional vector; its items are frozen into a tuple when it is
      built, so the model keeps them as an immutable sequence. */
  datatype Vector = Vector(items: seq<real>) {

    /** `len(v)`. */
    function Len(): (n: nat)
      ensures n == |items|
    {
      |items|
    }

    /** `v[key]`, with Python's negative indices counted from the end. */
    function Get(key: int): (r: Result<real, UtilError>)
      ensures r.Err? <==> !(-|items| <= key < |items|)
      ensures 0 <= key < |items| ==> r == Ok(items[key])
      ensures -|items| <= key < 0 ==> r == Ok(items[|items| + key])
    {
      if 0 <= key < |items| then Ok(items[key])
      else if -|items| <= key < 0 then Ok(items[|items| + key])
      else Err(IndexError)
    }

    /** `v.dot(w)`: a `TypeError` on a dimension mismatch, otherwise the
        sum of the pairwise products. */
    function Dot(other: Vector): (r: Result<real, UtilError>)
      ensures r.Err? <==> Len() != other.Len()
      ensures r.Err? ==> r.error == TypeError
    {
      if |items| != |other.items| then Err(TypeError)
      else Ok(SumProducts(items, other.items))
    }

    /** `v * w`: only a vector is accepted on the right; then it is `v.dot(w)`. */
    function Mul(other: Operand): (r: Result<real, UtilError>)
      ensures !other.VectorOperand? ==> r == Err(TypeError)
      ensures other.VectorOperand? ==> r == Dot(other.v)
    {
      match other
      case VectorOperand(w) => Dot(w)
      case OtherOperand => Err(TypeError)
    }
  }

  /** The right operand of `*`: a vector, or any other Python object. */
  datatype Operand = VectorOperand(v: Vector) | OtherOperand

  /** `Vector(items)`: the vector reflects exactly the items it was given. */
  function MakeVector(items: seq<real>): (v: Vector)
    ensures v.Len() == |items|
    ensures forall i :: 0 <= i < |items| ==> v.Get(i) == Ok(items[i])
  {
    Vector(items)
  }

  /** `Vector.new(a, b)`: the vector pointing from point `a` to point `b`. */
  function NewVector(a: seq<real>, b: seq<real>): (r: Result<Vector, UtilError>)
    ensures r.Err? <==> |a| != |b|
    ensures r.Err? ==> r.error == TypeError
    ensures r.Ok? ==> r.value.Len() == |a|
    ensures r.Ok? ==> forall i :: 0 <= i < |a| ==> a[i] + r.value.items[i] == b[i]
  {
    if |a| != |b| then Err(TypeError)
    else Ok(Vector(seq(|a|, i requires 0 <= i < |a| => b[i] - a[i])))
  }

  lemma {:induction false} SumProductsCommutes(a: seq<real>, b: seq<real>)
    requires |a| == |b|
    ensures SumProducts(a, b) == SumProducts(b, a)
  {
    if a != [] {
      SumProductsCommutes(a[..|a| - 1], b[..|b| - 1]);
    }
  }

  /** The dot product is symmetric, its error case included. */
  lemma DotCommutes(v: Vector, w: Vector)
    ensures v.Dot(w) == w.Dot(v)
  {
    if v.Len() == w.Len() {
      SumProductsCommutes(v.items, w.items);
    }
  }

  lemma {:induction false} SumSquaresNonNegative(a: seq<real>)
    ensures SumProducts(a, a) >= 0.0
  {
    if a != [] {
      SumSquaresNonNegative(a[..|a| - 1]);
    }
  }

  /** `v * v` is never negative. */
  lemma MulSelfNonNegative(v: Vector)
    ensures v.Mul(VectorOperand(v)).Ok?
    ensures v.Mul(VectorOperand(v)).value >= 0.0
  {
    SumSquaresNonNegative(v.items);
  }

  lemma {:induction false} SumProductsDifference(a: seq<real>, b: seq<real>, d: seq<real>, w: seq<real>)
    requires |a| == |b| == |d| == |w|
    requires forall i :: 0 <= i < |a| ==> d[i] == b[i] - a[i]
    ensures SumProducts(d, w) == SumProducts(b, w) - SumProducts(a, w)
  {
    if a != [] {
      var n := |a| - 1;
      SumProductsDifference(a[..n], b[..n], d[..n], w[..n]);
    }
  }

  /** Dotting the vector from `a` to `b` with `w` is the difference of the
      two points' products with `w`. */
  lemma NewVectorDot(a: seq<real>, b: seq<real>, w: Vector)
    requires |a| == |b| == w.Len()
    ensures NewVector(a, b).Ok?
    ensures NewVector(a, b).value.Dot(w) == Ok(Vector(b).Dot(w).value - Vector(a).Dot(w).value)
  {
    var d := NewVector(a, b).value;
    SumProductsDifference(a, b, d.items, w.items);
  }

  /** The characters that OCR output commonly mistakes for digits or the
      decimal point, and what `asfloat` turns them into. */
  function FixChar(c: char): char
  {
    if c == 'O' then '0'
    else if c == 'l' then '1'
    else if c == 'S' then '5'
    else if c == 'I' then '1'
    else if c == ',' then '.'
    else c
  }

  predicate IsMisread(c: char)
  {
    c == 'O' || c == 'l' || c == 'S' || c == 'I' || c == ','
  }

  /** The chain of `replace` calls `asfloat` applies before its second
      parse attempt. */
  function Substitute(s: string): (r: string)
    ensures |r| == |s|
    ensures forall i :: 0 <= i < |r| ==> !IsMisread(r[i])
    ensures forall i :: 0 <= i < |s| ==> r[i] == FixChar(s[i])
  {
    Strings.ReplaceChar(
      Strings.ReplaceChar(
        Strings.ReplaceChar(
          Strings.ReplaceChar(
            Strings.ReplaceChar(s, 'O', '0'),
            'l', '1'),
          'S', '5'),
        'I', '1'),
      ',', '.')
  }

  /** A string with no misread character is left as it is, so the
      substitution is idempotent. */
  lemma SubstituteFixesClean(s: string)
    requires forall i :: 0 <= i < |s| ==> !IsMisread(s[i])
    ensures Substitute(s) == s
  {
    assert forall i :: 0 <= i < |s| ==> Substitute(s)[i] == s[i];
  }

  lemma SubstituteIdempotent(s: string)
    ensures Substitute(Substitute(s)) == Substitute(s)
  {
    SubstituteFixesClean(Substitute(s));
  }

  /** The Python values `asfloat` is given. */
  datatype PyValue = Float(f: real) | Str(s: string) | Int(n: int)

  /** `asfloat(value)`. The string parse of the runtime is the parameter
      `parse`, which answers `None` where Python raises `ValueError`. */
  function AsFloat(value: PyValue, parse: string -> Option<real>): (r: Result<real, UtilError>)
    ensures value.Float? ==> r == Ok(value.f)
    ensures value.Int? ==> r == Ok(value.n as real)
    ensures value.Str? && parse(value.s).Some? ==> r == Ok(parse(value.s).value)
    ensures value.Str? && parse(value.s).None? ==>
              r == (if parse(Substitute(value.s)).Some? then Ok(parse(Substitute(value.s)).value) else Err(ValueError))
  {
    match value
    case Float(f) => Ok(f)
    case Int(n) => Ok(n as real)
    case Str(s) =>
      match parse(s)
      case Some(x) => Ok(x)
      case None =>
        match parse(Substitute(s))
        case Some(x) => Ok(x)
        case None => Err(ValueError)
  }

  /** On a string without misread characters the retry changes nothing:
      `asfloat` succeeds exactly when the first parse does. */
  lemma AsFloatCleanString(s: string, parse: string -> Option<real>)
    requires forall i :: 0 <= i < |s| ==> !IsMisread(s[i])
    ensures AsFloat(Str(s), parse).Ok? <==> parse(s).Some?
  {
    SubstituteFixesClean(s);
  }
}
