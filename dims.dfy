/** Dimension constructors of ndtypes.c: fixed dimensions (with fixed_step
    and fixed_datasize), abstract and concrete var dimensions with their
    slice stacks and index computation, symbolic and ellipsis dimensions. */
module Dimensions {
  import opened Results
  import opened Int64
  import opened Types
  import opened Invariants

  /** The datasize and align ndt_new leaves in a type that stays abstract. */
  const ABSTRACT_DATASIZE: int := 0
  const ABSTRACT_ALIGN: u16 := 0xffff

  /** fixed_step: an explicit step is kept; the default step (INT64_MAX) over
      a fixed dimension is its element count, over any other type 1. */
  function FixedStep(inner: Type, step: int): (r: Checked)
    requires IsConcrete(inner) && !IsVarNode(inner) && !inner.node.Array?
    ensures step != INT64_MAX ==> r == Checked(step, false)
    ensures step == INT64_MAX && !inner.node.FixedDim? ==> r == Checked(1, false)
  {
    if step != INT64_MAX then Checked(step, false)
    else match inner.node
      case FixedDim(_, shape, _, itemsize, innerStep) =>
        if itemsize == 0 then MulI64(shape, innerStep)
        else DivI64(inner.datasize, itemsize)
      case _ => Checked(1, false)
  }

  /** fixed_datasize: the bytes spanned by 'shape' elements 'step' items
      apart, the last one occupying the inner type's datasize. */
  function FixedDatasize(inner: Type, shape: int, step: int, itemsize: int): (r: Checked)
    ensures shape == 0 || inner.datasize == 0 ==> r == Checked(0, false)
    ensures shape != 0 && inner.datasize != 0 && !r.overflow ==>
      r.value == (shape - 1) * Abs(step) * itemsize + inner.datasize
  {
    if shape == 0 || inner.datasize == 0 then Checked(0, false)
    else
      var absStep := AbsI64(step);
      var indexRange := MulI64(shape - 1, absStep.value);
      var datasize := MulI64(indexRange.value, itemsize);
      var total := AddI64(datasize.value, inner.datasize);
      Checked(total.value, absStep.overflow || indexRange.overflow || datasize.overflow || total.overflow)
  }

  /** The span fixed_datasize computes covers every element: element k (for
      0 <= k < shape) starts k * |step| * itemsize bytes in and ends within
      the datasize. */
  lemma {:induction false} FixedDatasizeCovers(inner: Type, shape: int, step: int, itemsize: int, k: int)
    requires 0 <= k < shape && itemsize >= 0 && inner.datasize > 0
    requires !FixedDatasize(inner, shape, step, itemsize).overflow
    ensures k * Abs(step) * itemsize + inner.datasize <= FixedDatasize(inner, shape, step, itemsize).value
  {
    var s := Abs(step);
    MulNonNegative(s, itemsize);
    MulMonotone(k, shape - 1, s * itemsize);
    MulAssoc(k, s, itemsize);
    MulAssoc(shape - 1, s, itemsize);
  }

  /** ndt_fixed_dim. */
  function FixedDim(inner: Type, shape: int, step: int): (r: Result<Type>)
    ensures CheckFixed(inner).Fail? ==> r == Err(TypeError)
    ensures CheckFixed(inner).Pass? && shape < 0 ==> r == Err(ValueError)
    ensures r.Err? ==> r.error == TypeError || r.error == ValueError
    ensures r.Err? && CheckFixed(inner).Pass? && shape >= 0 ==> IsConcrete(inner)
    ensures r.Ok? ==>
      && CheckFixed(inner).Pass? && shape >= 0
      && r.value.node.FixedDim? && r.value.node.contig == RequireNA
      && r.value.node.shape == shape && r.value.node.inner == inner
      && r.value.ndim == inner.ndim + 1 && r.value.ndim <= MAX_DIM
      && r.value.access == inner.access
      && r.value.flags == DimFlags(inner)
    ensures r.Ok? && IsConcrete(inner) ==>
      && r.value.node.itemsize == ItemSize(inner)
      && r.value.node.step == FixedStep(inner, step).value
      && r.value.datasize == FixedDatasize(inner, shape, r.value.node.step, ItemSize(inner)).value
      && r.value.align == inner.align
    ensures r.Ok? && IsAbstract(inner) ==>
      r.value.node.itemsize == 0 && r.value.node.step == INT64_MAX &&
      r.value.datasize == ABSTRACT_DATASIZE && r.value.align == ABSTRACT_ALIGN
  {
    var nesting := CheckFixed(inner);
    :- nesting;
    :- Need(shape >= 0, ValueError);
    if IsAbstract(inner) then
      Ok(Type(Abstract, DimFlags(inner), inner.ndim + 1, ABSTRACT_DATASIZE, ABSTRACT_ALIGN,
              Node.FixedDim(RequireNA, shape, inner, 0, INT64_MAX)))
    else
      var itemsize := ItemSize(inner);
      var s := FixedStep(inner, step);
      var datasize := FixedDatasize(inner, shape, s.value, itemsize);
      if s.overflow || datasize.overflow then Err(ValueError)
      else Ok(Type(Concrete, DimFlags(inner), inner.ndim + 1, datasize.value, inner.align,
                   Node.FixedDim(RequireNA, shape, inner, itemsize, s.value)))
  }

  /** ndt_fixed_dim_tag: a contiguity requirement makes the dimension abstract
      but leaves the computed layout in place. */
  function FixedDimTag(inner: Type, tag: Contig, shape: int, step: int): (r: Result<Type>)
    ensures r.Ok? <==> FixedDim(inner, shape, step).Ok?
    ensures r.Err? ==> r.error == FixedDim(inner, shape, step).error
    ensures r.Ok? ==>
      var u := FixedDim(inner, shape, step).value;
      && r.value.node == Node.FixedDim(tag, u.node.shape, u.node.inner, u.node.itemsize, u.node.step)
      && r.value.access == (if tag != RequireNA then Abstract else u.access)
      && r.value.flags == u.flags && r.value.ndim == u.ndim
      && r.value.datasize == u.datasize && r.value.align == u.align
  {
    var u :- FixedDim(inner, shape, step);
    Ok(u.(node := Node.FixedDim(tag, u.node.shape, u.node.inner, u.node.itemsize, u.node.step),
          access := if tag != RequireNA then Abstract else u.access))
  }

  /** ndt_abstract_var_dim. */
  function AbstractVarDim(inner: Type, opt: bool): (r: Result<Type>)
    ensures r.Ok? <==> CheckAbstractVar(inner).Pass?
    ensures r.Err? ==> r.error == TypeError
    ensures r.Ok? ==>
      && IsAbstract(r.value) && r.value.node == Node.VarDim(inner, 0, [], [])
      && r.value.ndim == inner.ndim + 1 && r.value.ndim <= MAX_DIM
      && r.value.flags == FlagsOr(OptFlags(opt), DimFlags(inner))
  {
    var nesting := CheckAbstractVar(inner);
    :- nesting;
    Ok(Type(Abstract, FlagsOr(OptFlags(opt), DimFlags(inner)), inner.ndim + 1,
            ABSTRACT_DATASIZE, ABSTRACT_ALIGN, Node.VarDim(inner, 0, [], [])))
  }

  /** ndt_var_dim: a concrete var dimension over offsets (offsets[i] to
      offsets[i+1] delimit the i-th list). Over another var dimension the
      last offset must equal that dimension's list count. */
  function VarDim(inner: Type, offsets: seq<int>, slices: seq<Slice>, opt: bool): (r: Result<Type>)
    ensures CheckVar(inner).Fail? ==> r == Err(TypeError)
    ensures CheckVar(inner).Pass? && (|offsets| < 2 || IsAbstract(inner)) ==> r == Err(InvalidArgumentError)
    ensures r.Ok? ==>
      && CheckVar(inner).Pass? && |offsets| >= 2 && IsConcrete(inner)
      && IsConcrete(r.value) && r.value.node.VarDim?
      && r.value.node.inner == inner && r.value.node.offsets == offsets && r.value.node.slices == slices
      && r.value.ndim == inner.ndim + 1 && r.value.ndim <= MAX_DIM
      && r.value.align == inner.align
      && r.value.flags == FlagsOr(OptFlags(opt), DimFlags(inner))
    ensures r.Ok? && IsVarNode(inner) ==>
      && offsets[|offsets| - 1] == |inner.node.offsets| - 1
      && r.value.datasize == inner.datasize && r.value.node.itemsize == inner.node.itemsize
    ensures r.Ok? && !IsVarNode(inner) ==>
      r.value.datasize == offsets[|offsets| - 1] * inner.datasize && r.value.node.itemsize == inner.datasize
    ensures CheckVar(inner).Pass? && |offsets| >= 2 && IsConcrete(inner) && IsVarNode(inner) ==>
      (r.Ok? <==> offsets[|offsets| - 1] == |inner.node.offsets| - 1)
  {
    var nesting := CheckVar(inner);
    :- nesting;
    :- Need(|offsets| >= 2, InvalidArgumentError);
    :- Need(IsConcrete(inner), InvalidArgumentError);
    var last := offsets[|offsets| - 1];
    var sizes :- if IsVarNode(inner) then
                   if last != |inner.node.offsets| - 1 then Err(ValueError)
                   else Ok((inner.datasize, inner.node.itemsize))
                 else
                   var d := MulI64(last, inner.datasize);
                   if d.overflow then Err(ValueError) else Ok((d.value, inner.datasize));
    Ok(Type(Concrete, FlagsOr(OptFlags(opt), DimFlags(inner)), inner.ndim + 1, sizes.0, inner.align,
            Node.VarDim(inner, sizes.1, offsets, slices)))
  }

  /** The slice stack of a var dimension. */
  function Slices(t: Type): seq<Slice>
    requires IsVarNode(t)
  {
    t.node.slices
  }

  /** ndt_var_add_slice: the slice stack of a concrete (non-element) var
      dimension with one more slice on top. */
  function VarAddSlice(t: Type, s: Slice): (r: Result<seq<Slice>>)
    ensures r.Ok? <==> t.node.VarDim? && IsConcrete(t) && |t.node.slices| != INT_MAX
    ensures r.Err? ==> r.error == RuntimeError
    ensures r.Ok? ==> r.value == t.node.slices + [s] && |r.value| == |t.node.slices| + 1
  {
    if !t.node.VarDim? || IsAbstract(t) then Err(RuntimeError)
    else if |t.node.slices| == INT_MAX then Err(RuntimeError)
    else Ok(t.node.slices + [s])
  }

  /** ndt_slice_adjust_indices, whose definition is not part of this model:
      given the length of a sequence and a slice it returns the length of
      the slice and the adjusted start (and stop). */
  datatype Adjusted = Adjusted(shape: int, start: int, stop: int)
  type SliceAdjust = (int, Slice) -> Adjusted

  /** Start, step and shape of one list of a var dimension, seen through its
      slice stack. */
  datatype Indices = Indices(start: int, step: int, shape: int)

  /** One slice of the loop of ndt_var_indices. With 'skipEmpty' (the
      ndt_var_indices_non_empty variant) a slice that selects nothing is
      ignored. */
  function SliceStep(acc: Indices, s: Slice, adjust: SliceAdjust, skipEmpty: bool): Indices {
    var a := adjust(acc.shape, s);
    if skipEmpty && a.shape <= 0 then acc
    else Indices(acc.start + a.start * acc.step, acc.step * s.step, a.shape)
  }

  /** The slices applied to acc, bottom of the stack first. */
  function ApplySlices(acc: Indices, slices: seq<Slice>, adjust: SliceAdjust, skipEmpty: bool): Indices
    decreases |slices|
  {
    if slices == [] then acc
    else ApplySlices(SliceStep(acc, slices[0], adjust, skipEmpty), slices[1..], adjust, skipEmpty)
  }

  /** Pushing a slice (what ndt_var_add_slice prepares) adds exactly one step
      on top of the indices of the existing stack. */
  lemma {:induction false} ApplySlicesPush(acc: Indices, slices: seq<Slice>, s: Slice,
                                           adjust: SliceAdjust, skipEmpty: bool)
    ensures ApplySlices(acc, slices + [s], adjust, skipEmpty) ==
            SliceStep(ApplySlices(acc, slices, adjust, skipEmpty), s, adjust, skipEmpty)
    decreases |slices|
  {
    if slices == [] {
      assert [s][1..] == [];
    } else {
      assert (slices + [s])[1..] == slices[1..] + [s];
      ApplySlicesPush(SliceStep(acc, slices[0], adjust, skipEmpty), slices[1..], s, adjust, skipEmpty);
    }
  }

  /** ndt_var_indices as a function: list 'index' of the dimension, seen
      through the slice stack; the start is absolute in the offsets. */
  function VarIndicesSpec(t: Type, index: int, adjust: SliceAdjust, skipEmpty: bool): (r: Result<Indices>)
    requires IsConcrete(t) && IsVarNode(t)
  {
    var offsets := t.node.offsets;
    if index < 0 || index + 1 >= |offsets| then Err(IndexError)
    else
      var listStart := offsets[index];
      var res := ApplySlices(Indices(0, 1, offsets[index + 1] - listStart), t.node.slices, adjust, skipEmpty);
      Ok(res.(start := res.start + listStart))
  }

  /** Without slices, list 'index' starts at offsets[index], has step 1 and
      offsets[index+1] - offsets[index] elements. */
  lemma VarIndicesUnsliced(t: Type, index: int, adjust: SliceAdjust, skipEmpty: bool)
    requires IsConcrete(t) && IsVarNode(t) && t.node.slices == []
    requires 0 <= index && index + 1 < |t.node.offsets|
    ensures VarIndicesSpec(t, index, adjust, skipEmpty) ==
      Ok(Indices(t.node.offsets[index], 1, t.node.offsets[index + 1] - t.node.offsets[index]))
  {
  }

  /** ndt_var_indices (skipEmpty false) and ndt_var_indices_non_empty
      (skipEmpty true). */
  method VarIndices(t: Type, index: int, adjust: SliceAdjust, skipEmpty: bool) returns (r: Result<Indices>)
    requires IsConcrete(t) && IsVarNode(t)
    ensures r == VarIndicesSpec(t, index, adjust, skipEmpty)
    ensures r.Err? <==> index < 0 || index + 1 >= |t.node.offsets|
    ensures r.Err? ==> r.error == IndexError
  {
    var offsets := t.node.offsets;
    if index < 0 || index + 1 >= |offsets| {
      return Err(IndexError);
    }
    var listStart := offsets[index];
    var listStop := offsets[index + 1];
    var resStart := 0;
    var resStep := 1;
    var resShape := listStop - listStart;
    var slices := t.node.slices;
    var i := 0;
    while i < |slices|
      invariant 0 <= i <= |slices|
      invariant ApplySlices(Indices(0, 1, listStop - listStart), slices, adjust, skipEmpty) ==
                ApplySlices(Indices(resStart, resStep, resShape), slices[i..], adjust, skipEmpty)
    {
      var a := adjust(resShape, slices[i]);
      assert slices[i..][1..] == slices[i + 1..];
      if !skipEmpty || a.shape > 0 {
        resShape := a.shape;
        resStart := resStart + a.start * resStep;
        resStep := resStep * slices[i].step;
      }
      i := i + 1;
    }
    return Ok(Indices(resStart + listStart, resStep, resShape));
  }

  /** ndt_symbolic_dim. */
  function SymbolicDim(name: string, inner: Type): (r: Result<Type>)
    ensures r.Ok? <==> CheckFixed(inner).Pass?
    ensures r.Err? ==> r.error == TypeError
    ensures r.Ok? ==>
      && IsAbstract(r.value) && r.value.node == Node.SymbolicDim(RequireNA, name, inner)
      && r.value.ndim == inner.ndim + 1 && r.value.ndim <= MAX_DIM
      && r.value.flags == DimFlags(inner)
  {
    var nesting := CheckFixed(inner);
    :- nesting;
    Ok(Type(Abstract, DimFlags(inner), inner.ndim + 1, ABSTRACT_DATASIZE, ABSTRACT_ALIGN,
            Node.SymbolicDim(RequireNA, name, inner)))
  }

  /** ndt_symbolic_dim_tag. */
  function SymbolicDimTag(name: string, inner: Type, tag: Contig): (r: Result<Type>)
    ensures r.Ok? <==> SymbolicDim(name, inner).Ok?
    ensures r.Ok? ==> r.value == SymbolicDim(name, inner).value.(node := Node.SymbolicDim(tag, name, inner))
  {
    var u :- SymbolicDim(name, inner);
    Ok(u.(node := Node.SymbolicDim(tag, name, inner)))
  }

  /** ndt_ellipsis_dim: at most one ellipsis per type. */
  function EllipsisDim(name: Option<string>, inner: Type): (r: Result<Type>)
    ensures CheckEllipsis(inner).Fail? ==> r == Err(TypeError)
    ensures CheckEllipsis(inner).Pass? && inner.flags.ellipsis ==> r == Err(ValueError)
    ensures r.Ok? <==> CheckEllipsis(inner).Pass? && !inner.flags.ellipsis
    ensures r.Ok? ==>
      && IsAbstract(r.value) && r.value.node == Node.EllipsisDim(RequireNA, name, inner)
      && r.value.ndim == inner.ndim + 1 && r.value.ndim <= MAX_DIM
      && r.value.flags == DimFlags(inner).(ellipsis := true)
  {
    var nesting := CheckEllipsis(inner);
    :- nesting;
    var flags := DimFlags(inner);
    :- Need(!flags.ellipsis, ValueError);
    Ok(Type(Abstract, flags.(ellipsis := true), inner.ndim + 1, ABSTRACT_DATASIZE, ABSTRACT_ALIGN,
            Node.EllipsisDim(RequireNA, name, inner)))
  }

  /** ndt_ellipsis_dim_tag. */
  function EllipsisDimTag(name: Option<string>, inner: Type, tag: Contig): (r: Result<Type>)
    ensures r.Ok? <==> EllipsisDim(name, inner).Ok?
    ensures r.Ok? ==> r.value == EllipsisDim(name, inner).value.(node := Node.EllipsisDim(tag, name, inner))
  {
    var u :- EllipsisDim(name, inner);
    Ok(u.(node := Node.EllipsisDim(tag, name, inner)))
  }
}
