/** Contiguous re-layout of copy.c: fixed_copy_contiguous,
    ndt_copy_contiguous_dtype, ndt_copy_contiguous and
    ndt_copy_abstract_var_dtype. The var-dimension walk they use is in
    module VarCopy. */
module Relayout {
  import opened Results
  import opened Int64
  import opened Types
  import opened Invariants
  import Dimensions
  import Contiguity
  import VarCopy

  // ---------------------------------------------------------------------
  // fixed_copy_contiguous

  /** r is t with dtype at the bottom, every shape and contiguity tag kept
      and every step the default step over the new inner type. */
  predicate Relaid(t: Type, dtype: Type, r: Type)
    requires Contiguity.FixedChain(t)
    decreases Size(t)
  {
    if t.ndim == 0 then r == dtype
    else
      && r.node.FixedDim? && r.node.shape == t.node.shape && r.node.contig == t.node.contig
      && r.ndim == r.node.inner.ndim + 1
      && (IsConcrete(r.node.inner) && !IsVarNode(r.node.inner) && !r.node.inner.node.Array? ==>
            r.node.step == Dimensions.FixedStep(r.node.inner, INT64_MAX).value)
      && Relaid(t.node.inner, dtype, r.node.inner)
  }

  /** fixed_copy_contiguous: rebuild the fixed dimensions of t, innermost
      first, over dtype with the default step. */
  function FixedCopyContiguous(t: Type, dtype: Type): (r: Result<Type>)
    requires Contiguity.FixedChain(t)
    ensures r.Ok? ==> Relaid(t, dtype, r.value) && r.value.ndim == t.ndim + dtype.ndim
    ensures r.Err? ==> r.error == TypeError || r.error == ValueError
    decreases Size(t)
  {
    if t.ndim == 0 then Ok(dtype)
    else
      var u :- FixedCopyContiguous(t.node.inner, dtype);
      Dimensions.FixedDimTag(u, t.node.contig, t.node.shape, INT64_MAX)
  }

  /** Every dimension of t carries the tag RequireNA, as every dimension of
      a concrete array does (ndt_fixed_dim_tag makes a tagged one abstract). */
  predicate Untagged(t: Type)
    requires Contiguity.FixedChain(t)
    decreases Size(t)
  {
    t.ndim == 0 || (t.node.contig == RequireNA && Untagged(t.node.inner))
  }

  /** The number of elements of a fixed chain. */
  function Elements(t: Type): (n: int)
    requires Contiguity.FixedChain(t)
    decreases Size(t)
  {
    if t.ndim == 0 then 1 else t.node.shape * Elements(t.node.inner)
  }

  /** Each step is the element count of the dimensions inside it. */
  predicate RowMajor(t: Type)
    requires Contiguity.FixedChain(t)
    decreases Size(t)
  {
    t.ndim == 0 || (t.node.step == Elements(t.node.inner) && RowMajor(t.node.inner))
  }

  lemma ShiftedProduct(shape: int, a: int, d: int)
    ensures (shape - 1) * a * d + a * d == shape * a * d
  {
    calc {
      (shape - 1) * a * d + a * d;
      == { assert (shape - 1) * a * d == shape * a * d - a * d; }
      shape * a * d;
    }
  }

  lemma ExactQuotient(a: int, d: int)
    requires a >= 0 && d > 0
    ensures DivTrunc(a * d, d) == a
  {
    var q := a * d;
    assert q >= 0;
    assert Abs(q) == q && Abs(d) == d;
    var k := q / d;
    var m := q % d;
    assert q == d * k + m && 0 <= m < d;
    assert d * (a - k) == m;
    if a - k >= 1 {
      MulAtLeast(d, a - k);
    } else if a - k <= -1 {
      MulAtLeast(d, k - a);
    }
  }

  lemma MulAtLeast(d: int, x: int)
    requires d > 0 && x >= 1
    ensures d * x >= d
  {
  }

  /** One level of the re-layout: the default step over a row-major inner
      type u is its element count, and the datasize stays elements times
      the dtype's datasize. */
  lemma LevelLayout(u: Type, shape: int, dsize: int)
    requires Contiguity.FixedChain(u) && IsConcrete(u) && CheckFixed(u).Pass? && shape >= 0
    requires dsize >= 0 && ItemSize(u) == dsize && u.datasize == Elements(u) * dsize
    requires Elements(u) >= 0 && RowMajor(u)
    requires Dimensions.FixedDim(u, shape, INT64_MAX).Ok?
    ensures var r := Dimensions.FixedDim(u, shape, INT64_MAX).value;
      && r.node.step == Elements(u) && ItemSize(r) == dsize
      && r.datasize == shape * Elements(u) * dsize
  {
    var step := Dimensions.FixedStep(u, INT64_MAX);
    var r := Dimensions.FixedDim(u, shape, INT64_MAX).value;
    assert !step.overflow;
    if u.node.FixedDim? {
      if dsize == 0 {
        assert step.value == u.node.shape * u.node.step;
      } else {
        ExactQuotient(Elements(u), dsize);
      }
    }
    assert step.value == Elements(u);
    var ds := Dimensions.FixedDatasize(u, shape, step.value, dsize);
    assert !ds.overflow;
    if shape != 0 && u.datasize != 0 {
      ShiftedProduct(shape, Elements(u), dsize);
    } else if shape != 0 {
      assert Elements(u) * dsize == 0;
      assert shape * Elements(u) * dsize == shape * (Elements(u) * dsize);
    }
  }

  /** The re-layout over a concrete dtype without dimensions is a concrete
      row-major chain whose datasize is its element count times the
      dtype's datasize. */
  lemma {:induction false} FixedCopyLayout(t: Type, dtype: Type)
    requires Contiguity.FixedChain(t) && Untagged(t)
    requires IsConcrete(dtype) && dtype.ndim == 0 && !IsDimNode(dtype) && dtype.datasize >= 0
    requires FixedCopyContiguous(t, dtype).Ok?
    ensures var r := FixedCopyContiguous(t, dtype).value;
      && Contiguity.FixedChain(r) && IsConcrete(r) && RowMajor(r)
      && ItemSize(r) == dtype.datasize && Elements(r) >= 0
      && r.datasize == Elements(r) * dtype.datasize
    decreases Size(t)
  {
    if t.ndim != 0 {
      var u := FixedCopyContiguous(t.node.inner, dtype).value;
      FixedCopyLayout(t.node.inner, dtype);
      var r := Dimensions.FixedDim(u, t.node.shape, INT64_MAX).value;
      assert FixedCopyContiguous(t, dtype).value == r;
      LevelLayout(u, t.node.shape, dtype.datasize);
      assert Elements(r) == t.node.shape * Elements(u);
      Contiguity.FixedDimChain(u, t.node.shape, INT64_MAX);
    }
  }

  lemma {:induction false} ElementsProduct(t: Type)
    requires Contiguity.FixedChain(t)
    ensures Contiguity.AllFixed(Dims(t))
    ensures Elements(t) == Contiguity.Product(Contiguity.Shapes(Dims(t)))
    decreases Size(t)
  {
    Contiguity.FixedChainDims(t);
    if t.ndim != 0 {
      ElementsProduct(t.node.inner);
      var s := Contiguity.Shapes(Dims(t));
      assert s == [t.node.shape] + Contiguity.Shapes(Dims(t.node.inner));
      assert s[1..] == Contiguity.Shapes(Dims(t.node.inner));
    }
  }

  lemma {:induction false} RowMajorCSteps(t: Type)
    requires Contiguity.FixedChain(t) && RowMajor(t)
    ensures Contiguity.AllFixed(Dims(t)) && Contiguity.CSteps(Dims(t))
    decreases Size(t)
  {
    Contiguity.FixedChainDims(t);
    if t.ndim != 0 {
      var inner := t.node.inner;
      RowMajorCSteps(inner);
      ElementsProduct(inner);
      var ds := Dims(t);
      var di := Dims(inner);
      assert ds == [t] + di;
      var s := Contiguity.Shapes(ds);
      var si := Contiguity.Shapes(di);
      assert s == [t.node.shape] + si;
      forall i | 0 <= i < |ds| && ds[i].node.shape > 1
        ensures ds[i].node.step == Contiguity.Product(s[i + 1..])
      {
        if i == 0 {
          assert s[1..] == si;
        } else {
          assert ds[i] == di[i - 1];
          assert s[i + 1..] == si[i..];
        }
      }
    }
  }

  /** The contiguous copy of a concrete fixed array is C-contiguous. */
  lemma FixedCopyIsCContiguous(t: Type, dtype: Type)
    requires Contiguity.FixedChain(t) && Untagged(t)
    requires IsConcrete(dtype) && dtype.ndim == 0 && !IsDimNode(dtype) && dtype.datasize >= 0
    requires FixedCopyContiguous(t, dtype).Ok?
    ensures var r := FixedCopyContiguous(t, dtype).value;
      Contiguity.FixedChain(r) && Contiguity.CContiguous(r)
  {
    var r := FixedCopyContiguous(t, dtype).value;
    FixedCopyLayout(t, dtype);
    RowMajorCSteps(r);
  }

  // ---------------------------------------------------------------------
  // ndt_copy_contiguous_dtype and ndt_copy_contiguous

  /** What ndt_copy_contiguous_dtype reads of t: the fixed dimensions form a
      chain, and so do the var dimensions. */
  predicate Relayable(t: Type) {
    (t.node.FixedDim? ==> Contiguity.FixedChain(t)) && (IsVarNode(t) ==> VarCopy.VarChain(t))
  }

  /** What ndt_copy_contiguous_dtype returns, as a function of its inputs. */
  function ContiguousDtypeSpec(t: Type, dtype: Type, linear: int, adjust: Dimensions.SliceAdjust): Result<Type>
    requires Relayable(t)
  {
    if IsAbstract(t) || IsAbstract(dtype) then Err(ValueError)
    else if t.node.FixedDim? then FixedCopyContiguous(t, dtype)
    else if IsVarNode(t) then VarCopy.VarCopySpec(t, dtype, linear, adjust)
    else Ok(dtype)
  }

  /** ndt_copy_contiguous_dtype: the array t laid out contiguously over dtype.
      ContiguousDtypeSpec is its specification, which the functions of
      Substitute use; this method exists because it calls the imperative
      VarCopy.VarCopyContiguous, which a function cannot. */
  method CopyContiguousDtype(t: Type, dtype: Type, linear: int, adjust: Dimensions.SliceAdjust)
    returns (r: Result<Type>)
    requires Relayable(t)
    ensures IsAbstract(t) || IsAbstract(dtype) ==> r == Err(ValueError)
    ensures IsConcrete(t) && IsConcrete(dtype) ==>
      && (t.node.FixedDim? ==> r == FixedCopyContiguous(t, dtype))
      && (IsVarNode(t) ==> r == VarCopy.VarCopySpec(t, dtype, linear, adjust))
      && (!t.node.FixedDim? && !IsVarNode(t) ==> r == Ok(dtype))
    ensures r == ContiguousDtypeSpec(t, dtype, linear, adjust)
  {
    if IsAbstract(t) || IsAbstract(dtype) {
      return Err(ValueError);
    }
    if t.node.FixedDim? {
      return FixedCopyContiguous(t, dtype);
    }
    if IsVarNode(t) {
      r := VarCopy.VarCopyContiguous(t, dtype, linear, adjust);
      return r;
    }
    return Ok(dtype);
  }

  /** ndt_copy_contiguous: the same over the dtype of t. */
  method CopyContiguous(t: Type, linear: int, adjust: Dimensions.SliceAdjust) returns (r: Result<Type>)
    requires Relayable(t)
    ensures IsAbstract(t) || IsAbstract(DType(t)) ==> r == Err(ValueError)
    ensures IsConcrete(t) && IsConcrete(DType(t)) ==>
      && (t.node.FixedDim? ==> r == FixedCopyContiguous(t, DType(t)))
      && (IsVarNode(t) ==> r == VarCopy.VarCopySpec(t, DType(t), linear, adjust))
      && (!t.node.FixedDim? && !IsVarNode(t) ==> r == Ok(DType(t)))
      && (!IsDimNode(t) ==> r == Ok(t))
  {
    r := CopyContiguousDtype(t, DType(t), linear, adjust);
  }

  // ---------------------------------------------------------------------
  // ndt_copy_abstract_var_dtype

  /** ndt_copy_abstract_var_dtype: the abstract var dimensions of t, each
      with its optional flag, over dtype. */
  function CopyAbstractVarDtype(t: Type, dtype: Type): (r: Result<Type>)
    ensures t.ndim == 0 ==> r == Ok(dtype)
    ensures t.ndim != 0 && !(t.node.VarDim? && IsAbstract(t)) ==> r == Err(ValueError)
    ensures r.Ok? && t.ndim != 0 ==>
      && IsAbstract(r.value) && r.value.node.VarDim?
      && IsOptional(r.value) == IsOptional(t)
      && r.value.ndim == r.value.node.inner.ndim + 1
    ensures r.Ok? ==> DType(r.value) == DType(dtype)
    ensures r.Err? ==> r.error == ValueError || r.error == TypeError
    decreases Size(t)
  {
    if t.ndim == 0 then Ok(dtype)
    else if !t.node.VarDim? then Err(ValueError)
    else if !IsAbstract(t) then Err(ValueError)
    else
      var u :- CopyAbstractVarDtype(t.node.inner, dtype);
      Dimensions.AbstractVarDim(u, IsOptional(t))
  }

  /** Level by level: the first n dimensions of the result, one for each
      dimension of t the recursion passes (those with ndim != 0), are
      abstract var dimensions with the optional flag of that dimension of
      t, and the dimensions of dtype follow them. */
  lemma {:induction false} CopyAbstractVarDtypeLevels(t: Type, dtype: Type)
    requires CopyAbstractVarDtype(t, dtype).Ok?
    ensures var r := CopyAbstractVarDtype(t, dtype).value;
      var n := |Dims(r)| - |Dims(dtype)|;
      && 0 <= n <= |Dims(t)|
      && Dims(r)[n..] == Dims(dtype)
      && (forall k :: 0 <= k < n ==>
            && Dims(t)[k].ndim != 0 && Dims(t)[k].node.VarDim? && IsAbstract(Dims(t)[k])
            && Dims(r)[k].node.VarDim? && IsAbstract(Dims(r)[k])
            && IsOptional(Dims(r)[k]) == IsOptional(Dims(t)[k]))
      && (n < |Dims(t)| ==> Dims(t)[n].ndim == 0)
    decreases Size(t)
  {
    if t.ndim != 0 {
      var u := CopyAbstractVarDtype(t.node.inner, dtype).value;
      CopyAbstractVarDtypeLevels(t.node.inner, dtype);
      var r := CopyAbstractVarDtype(t, dtype).value;
      assert r.node.inner == u;
      assert Dims(r) == [r] + Dims(u);
      assert Dims(t) == [t] + Dims(t.node.inner);
      var n := |Dims(u)| - |Dims(dtype)|;
      assert Dims(r)[n + 1..] == Dims(u)[n..];
      forall k | 0 < k < n + 1
        ensures Dims(r)[k] == Dims(u)[k - 1] && Dims(t)[k] == Dims(t.node.inner)[k - 1]
      {
      }
    }
  }

  /** A chain of abstract var dimensions as ndt_abstract_var_dim builds it. */
  predicate AbstractVarChain(t: Type)
    decreases Size(t)
  {
    if t.ndim == 0 then !IsDimNode(t)
    else
     (&& t.node.VarDim? && Dimensions.AbstractVarDim(t.node.inner, IsOptional(t)) == Ok(t)
     && AbstractVarChain(t.node.inner))
  }

  /** Putting back the dtype of an abstract var chain gives the chain
      itself. */
  lemma {:induction false} CopyAbstractVarOwnDtype(t: Type)
    requires AbstractVarChain(t)
    ensures CopyAbstractVarDtype(t, DType(t)) == Ok(t)
    decreases Size(t)
  {
    if t.ndim != 0 {
      CopyAbstractVarOwnDtype(t.node.inner);
      assert DType(t) == DType(t.node.inner);
    }
  }
}
