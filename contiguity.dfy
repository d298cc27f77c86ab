/** Contiguity predicates of ndtypes.c (ndt_is_c_contiguous,
    ndt_is_f_contiguous, _is_var_contiguous, ndt_really_fortran) and the
    conversion of a C-contiguous array to Fortran order (ndt_to_fortran). */
module Contiguity {
  import opened Results
  import opened Int64
  import opened Types
  import opened Dimensions

  /** The shape of every ndarray ndt_fixed_dim builds: a chain of fixed
      dimensions, each one dimension more than its child and concrete only
      over a concrete child, ending in a type without dimensions. */
  predicate FixedChain(t: Type)
    decreases Size(t)
  {
    if t.ndim == 0 then !IsDimNode(t)
    else
      && t.ndim > 0 && t.node.FixedDim? && t.ndim == t.node.inner.ndim + 1
      && (IsConcrete(t) ==> IsConcrete(t.node.inner))
      && FixedChain(t.node.inner)
  }

  predicate AllFixed(ds: seq<Type>) {
    forall i :: 0 <= i < |ds| ==> ds[i].node.FixedDim?
  }

  lemma {:induction false} FixedChainDims(t: Type)
    requires FixedChain(t)
    ensures AllFixed(Dims(t)) && |Dims(t)| == t.ndim
    decreases Size(t)
  {
    if t.ndim != 0 {
      FixedChainDims(t.node.inner);
    }
  }

  /** ndt_fixed_dim keeps a chain a chain. */
  lemma FixedDimChain(inner: Type, shape: int, step: int)
    requires FixedChain(inner) && Dimensions.FixedDim(inner, shape, step).Ok?
    ensures FixedChain(Dimensions.FixedDim(inner, shape, step).value)
  {
    var u := Dimensions.FixedDim(inner, shape, step).value;
    assert u.node.inner == inner;
  }

  function Shapes(ds: seq<Type>): (s: seq<int>)
    requires AllFixed(ds)
    ensures |s| == |ds| && forall i :: 0 <= i < |ds| ==> s[i] == ds[i].node.shape
  {
    seq(|ds|, i requires 0 <= i < |ds| => ds[i].node.shape)
  }

  /** The product of a list of shapes (unbounded; see the README). */
  function Product(xs: seq<int>): int {
    if xs == [] then 1 else xs[0] * Product(xs[1..])
  }

  lemma {:induction false} ProductSnoc(xs: seq<int>, x: int)
    ensures Product(xs + [x]) == Product(xs) * x
  {
    if xs == [] {
      assert [x][1..] == [];
    } else {
      assert (xs + [x])[1..] == xs[1..] + [x];
      ProductSnoc(xs[1..], x);
    }
  }

  /** C order: every dimension of shape > 1 steps over the product of the
      shapes inside it. */
  predicate CSteps(ds: seq<Type>)
    requires AllFixed(ds)
  {
    forall i :: 0 <= i < |ds| && ds[i].node.shape > 1 ==> ds[i].node.step == Product(Shapes(ds)[i + 1..])
  }

  /** Fortran order: every dimension of shape > 1 steps over the product of
      the shapes outside it. */
  predicate FSteps(ds: seq<Type>)
    requires AllFixed(ds)
  {
    forall i :: 0 <= i < |ds| && ds[i].node.shape > 1 ==> ds[i].node.step == Product(Shapes(ds)[..i])
  }

  /** The contiguity tests read fixed-dimension fields of every dimension of
      a concrete ndarray; such an ndarray is a fixed chain. */
  predicate ChainIfNdarray(t: Type) {
    IsConcrete(t) && IsNdarray(t) ==> FixedChain(t)
  }

  /** The dimensions of a concrete ndarray are ndim fixed dimensions. */
  lemma NdarrayDims(t: Type)
    requires ChainIfNdarray(t)
    ensures IsConcrete(t) && IsNdarray(t) ==> AllFixed(Dims(t)) && |Dims(t)| == t.ndim
  {
    if IsConcrete(t) && IsNdarray(t) {
      FixedChainDims(t);
    }
  }

  /** C order: only a concrete ndarray qualifies, and every concrete scalar
      does. */
  predicate CContiguous(t: Type)
    requires ChainIfNdarray(t)
    ensures CContiguous(t) ==> IsConcrete(t) && IsNdarray(t)
    ensures IsConcrete(t) && IsNdarray(t) && t.ndim == 0 ==> CContiguous(t)
  {
    IsConcrete(t) && IsNdarray(t) && (t.ndim == 0 || (AllFixed(Dims(t)) && CSteps(Dims(t))))
  }

  /** Fortran order: as C order, and with at most one dimension the two
      agree. */
  predicate FContiguous(t: Type)
    requires ChainIfNdarray(t)
    ensures FContiguous(t) ==> IsConcrete(t) && IsNdarray(t)
    ensures IsConcrete(t) && IsNdarray(t) && t.ndim == 0 ==> FContiguous(t)
    ensures t.ndim <= 1 ==> (FContiguous(t) <==> CContiguous(t))
  {
    NdarrayDims(t);
    IsConcrete(t) && IsNdarray(t) && (t.ndim == 0 || (AllFixed(Dims(t)) && FSteps(Dims(t))))
  }

  /** ndt_is_c_contiguous: the steps are checked innermost first while the
      expected step accumulates the shapes. */
  method IsCContiguous(t: Type) returns (b: bool)
    requires ChainIfNdarray(t)
    ensures b == CContiguous(t)
  {
    if IsAbstract(t) || !IsNdarray(t) {
      return false;
    }
    if t.ndim == 0 {
      return true;
    }
    FixedChainDims(t);
    var dims := Dims(t);
    ghost var shapes := Shapes(dims);
    var step := 1;
    var i := |dims| - 1;
    while i >= 0
      invariant -1 <= i < |dims|
      invariant step == Product(shapes[i + 1..])
      invariant forall j :: i < j < |dims| && dims[j].node.shape > 1 ==> dims[j].node.step == Product(shapes[j + 1..])
    {
      var shape := dims[i].node.shape;
      if shape > 1 && dims[i].node.step != step {
        return false;
      }
      assert shapes[i..][1..] == shapes[i + 1..];
      step := step * shape;
      i := i - 1;
    }
    return true;
  }

  /** ndt_is_f_contiguous: the same test outermost first. */
  method IsFContiguous(t: Type) returns (b: bool)
    requires ChainIfNdarray(t)
    ensures b == FContiguous(t)
  {
    if IsAbstract(t) || !IsNdarray(t) {
      return false;
    }
    if t.ndim == 0 {
      return true;
    }
    FixedChainDims(t);
    var dims := Dims(t);
    ghost var shapes := Shapes(dims);
    var step := 1;
    var i := 0;
    while i < |dims|
      invariant 0 <= i <= |dims|
      invariant step == Product(shapes[..i])
      invariant forall j :: 0 <= j < i && dims[j].node.shape > 1 ==> dims[j].node.step == Product(shapes[..j])
    {
      var shape := dims[i].node.shape;
      if shape > 1 && dims[i].node.step != step {
        return false;
      }
      assert shapes[..i + 1] == shapes[..i] + [shape];
      ProductSnoc(shapes[..i], shape);
      step := step * shape;
      i := i + 1;
    }
    return true;
  }

  /** ndt_really_fortran. With fewer than two dimensions C and Fortran
      order agree, so an array that is really Fortran has at least two. */
  predicate ReallyFortran(t: Type)
    requires ChainIfNdarray(t)
    ensures ReallyFortran(t) ==> t.ndim >= 2
  {
    FContiguous(t) && !CContiguous(t)
  }

  /** _is_var_contiguous: below 'nitems' lists, each var dimension has
      exactly nitems + 1 offsets, no slices, and its last offset is the list
      count of the next dimension. */
  predicate VarContiguousFrom(t: Type, nitems: int)
    ensures VarContiguousFrom(t, nitems) && t.ndim != 0 ==>
      && t.node.VarDim? && t.node.slices == [] && 0 <= nitems && |t.node.offsets| == nitems + 1
      && (t.node.inner.ndim != 0 ==>
            t.node.inner.node.VarDim? && |t.node.inner.node.offsets| == t.node.offsets[nitems] + 1)
    decreases Size(t)
  {
    t.ndim == 0 ||
    (&& t.node.VarDim? && nitems >= 0 && |t.node.offsets| == nitems + 1 && t.node.slices == []
     && VarContiguousFrom(t.node.inner, t.node.offsets[nitems]))
  }

  /** ndt_is_var_contiguous: a var-contiguous array is concrete and, when it
      has dimensions, its outermost one holds a single unsliced list. */
  predicate VarContiguous(t: Type)
    ensures VarContiguous(t) ==> IsConcrete(t)
    ensures VarContiguous(t) && t.ndim != 0 ==>
      t.node.VarDim? && t.node.slices == [] && |t.node.offsets| == 2
  {
    IsConcrete(t) && VarContiguousFrom(t, 1)
  }

  /** _ndt_to_fortran: rebuild the fixed dimensions outermost first with
      steps that accumulate the outer shapes. */
  function ToFortranFrom(t: Type, step: int): (r: Result<Type>)
    requires FixedChain(t)
    ensures r.Err? ==> r.error == TypeError || r.error == ValueError
    decreases Size(t)
  {
    if t.ndim == 0 then Ok(t)
    else
      var next := MulI64(step, t.node.shape);
      if next.overflow then Err(ValueError)
      else
        var dt :- ToFortranFrom(t.node.inner, next.value);
        Dimensions.FixedDim(dt, t.node.shape, step)
  }

  /** ndt_to_fortran. */
  function ToFortran(t: Type): (r: Result<Type>)
    requires ChainIfNdarray(t)
    ensures IsAbstract(t) ==> r == Err(TypeError)
    ensures !CContiguous(t) ==> r == Err(TypeError)
    ensures r.Err? ==> r.error == TypeError || r.error == ValueError
  {
    if IsAbstract(t) then Err(TypeError)
    else if !CContiguous(t) then Err(TypeError)
    else ToFortranFrom(t, 1)
  }

  /** ndt_fixed_dim reads the step INT64_MAX as "use the default step"; the
      steps _ndt_to_fortran passes avoid it. */
  predicate StepsAvoidSentinel(t: Type, step: int)
    requires FixedChain(t)
    decreases Size(t)
  {
    t.ndim == 0 || (step != INT64_MAX && StepsAvoidSentinel(t.node.inner, step * t.node.shape))
  }

  /** Prepending a dimension of step 'step' and shape 'shape' to dimensions
      stepping over 'step * shape' times the outer products. */
  lemma ConsSteps(head: Type, ds: seq<Type>, shape: int, si: seq<int>, step: int, next: int)
    requires next == step * shape && |ds| == |si| && head.node.FixedDim? && head.node.step == step
    requires AllFixed(ds)
    requires forall k :: 0 <= k < |ds| ==> ds[k].node.step == next * Product(si[..k])
    ensures AllFixed([head] + ds)
    ensures forall i :: 0 <= i < |[head] + ds| ==> ([head] + ds)[i].node.step == step * Product(([shape] + si)[..i])
  {
    var st := [shape] + si;
    forall i | 0 <= i < |[head] + ds|
      ensures ([head] + ds)[i].node.FixedDim? && ([head] + ds)[i].node.step == step * Product(st[..i])
    {
      if i == 0 {
        assert st[..0] == [];
      } else {
        var p := Product(si[..i - 1]);
        assert ([head] + ds)[i] == ds[i - 1];
        assert st[..i][1..] == si[..i - 1];
        assert Product(st[..i]) == shape * p;
        MulAssoc(step, shape, p);
      }
    }
  }

  /** The conversion keeps the number of dimensions and every shape, and
      dimension i steps over 'step' times the product of the shapes outside
      it. */
  lemma {:induction false} ToFortranFromFacts(t: Type, step: int)
    requires FixedChain(t) && IsConcrete(t) && StepsAvoidSentinel(t, step)
    requires ToFortranFrom(t, step).Ok?
    ensures var u := ToFortranFrom(t, step).value;
      && FixedChain(u) && IsConcrete(u) && u.ndim == t.ndim
      && AllFixed(Dims(u)) && AllFixed(Dims(t))
      && Shapes(Dims(u)) == Shapes(Dims(t))
      && forall i :: 0 <= i < |Dims(u)| ==> Dims(u)[i].node.step == step * Product(Shapes(Dims(t))[..i])
    decreases Size(t)
  {
    var u := ToFortranFrom(t, step).value;
    if t.ndim != 0 {
      var shape := t.node.shape;
      var next := step * shape;
      var inner := t.node.inner;
      var dt := ToFortranFrom(inner, next).value;
      assert ToFortranFrom(inner, next).Ok?;
      ToFortranFromFacts(inner, next);
      assert u == Dimensions.FixedDim(dt, shape, step).value;
      FixedDimChain(dt, shape, step);
      FixedChainDims(t);
      FixedChainDims(u);
      assert Dims(u) == [u] + Dims(dt);
      assert Dims(t) == [t] + Dims(inner);
      var st := Shapes(Dims(t));
      var si := Shapes(Dims(inner));
      assert st == [shape] + si;
      assert Shapes(Dims(u)) == [shape] + Shapes(Dims(dt));
      assert u.node.step == step;
      ConsSteps(u, Dims(dt), shape, si, step, next);
    } else {
      FixedChainDims(t);
    }
  }

  /** ndt_to_fortran turns a C-contiguous array into a Fortran-contiguous
      one with the same shapes. */
  lemma ToFortranIsFortran(t: Type)
    requires ChainIfNdarray(t) && ToFortran(t).Ok?
    requires StepsAvoidSentinel(t, 1)
    ensures var u := ToFortran(t).value;
      && ChainIfNdarray(u) && FContiguous(u) && u.ndim == t.ndim
      && AllFixed(Dims(u)) && AllFixed(Dims(t)) && Shapes(Dims(u)) == Shapes(Dims(t))
  {
    var u := ToFortran(t).value;
    ToFortranFromFacts(t, 1);
    var ds := Dims(u);
    forall i | 0 <= i < |ds| && ds[i].node.shape > 1
      ensures ds[i].node.step == Product(Shapes(ds)[..i])
    {
      assert Shapes(ds)[..i] == Shapes(Dims(t))[..i];
    }
    if u.ndim != 0 {
      assert u.node.FixedDim?;
    }
  }

  /** A float64 with the C ABI size and alignment. */
  const FLOAT64 := Type(Concrete, NoFlags, 0, 8, 8, Primitive(Float64))

  /** `4 * float64`: one row of eight-byte items, step 1, 32 bytes. */
  const ROW := Type(Concrete, NoFlags, 1, 32, 8, Node.FixedDim(RequireNA, 4, FLOAT64, 8, 1))

  /** `3 * 4 * float64` in C order: outer step 4, 96 bytes. */
  const MATRIX := Type(Concrete, NoFlags, 2, 96, 8, Node.FixedDim(RequireNA, 3, ROW, 8, 4))

  /** The same matrix in Fortran order: outer step 1, inner step 3. */
  const FORTRAN_MATRIX :=
    Type(Concrete, NoFlags, 2, 96, 8,
         Node.FixedDim(RequireNA, 3, Type(Concrete, NoFlags, 1, 80, 8, Node.FixedDim(RequireNA, 4, FLOAT64, 8, 3)), 8, 1))

  /** ndt_fixed_dim with default steps builds the matrix (the row steps 1,
      the outer dimension datasize / itemsize of the row, 4), and the matrix
      is C-contiguous but not Fortran contiguous. */
  lemma MatrixContiguity()
    ensures Dimensions.FixedDim(FLOAT64, 4, INT64_MAX) == Ok(ROW)
    ensures Dimensions.FixedDim(ROW, 3, INT64_MAX) == Ok(MATRIX)
    ensures FixedChain(MATRIX) && CContiguous(MATRIX) && !FContiguous(MATRIX)
  {
    assert FixedDatasize(FLOAT64, 4, 1, 8) == Checked(32, false);
    assert FixedStep(ROW, INT64_MAX) == DivI64(32, 8) == Checked(4, false);
    assert FixedDatasize(ROW, 3, 4, 8) == Checked(96, false);
    assert Dims(MATRIX) == [MATRIX, ROW];
    var sh := Shapes(Dims(MATRIX));
    assert sh == [3, 4];
    assert sh[1..] == [4] && sh[2..] == [] && sh[..1] == [3];
    assert Product(sh[1..]) == 4 && Product(sh[2..]) == 1 && Product(sh[..1]) == 3;
  }

  /** Its Fortran conversion steps 1 over the rows and 3 within them. */
  lemma MatrixToFortran()
    ensures FixedChain(MATRIX) && ToFortran(MATRIX) == Ok(FORTRAN_MATRIX)
  {
    MatrixContiguity();
    assert ToFortranFrom(FLOAT64, 12) == Ok(FLOAT64);
    assert FixedDatasize(FLOAT64, 4, 3, 8) == Checked(80, false);
    var inner := FORTRAN_MATRIX.node.inner;
    assert Dimensions.FixedDim(FLOAT64, 4, 3) == Ok(inner);
    assert ToFortranFrom(ROW, 3) == Ok(inner);
    assert FixedDatasize(inner, 3, 1, 8) == Checked(96, false);
  }
}
