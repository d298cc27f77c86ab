/** The shallow copy of copy.c (ndt_copy and its helpers) and
    ndt_convert_to_var_elem. A copy rebuilds the top node with the
    constructor that made it, over the same children, and then takes the
    common fields of the original. */
module TypeCopy {
  import opened Results
  import opened Int64
  import opened Types
  import opened Invariants
  import Dimensions
  import Containers

  /** copy_common: the node of u with access, flags, ndim, datasize and
      align of t. */
  function CopyCommon(u: Type, t: Type): (r: Type)
    ensures SameCommon(r, t) && r.node == u.node
  {
    Type(t.access, t.flags, t.ndim, t.datasize, t.align, u.node)
  }

  predicate SameCommon(a: Type, b: Type) {
    a.access == b.access && a.flags == b.flags && a.ndim == b.ndim &&
    a.datasize == b.datasize && a.align == b.align
  }

  /** The two nodes carry the same tag (enum ndt). */
  predicate SameTag(a: Node, b: Node) {
    && (a.Module? <==> b.Module?) && (a.Function? <==> b.Function?)
    && (a.FixedDim? <==> b.FixedDim?) && (a.VarDim? <==> b.VarDim?)
    && (a.VarDimElem? <==> b.VarDimElem?) && (a.SymbolicDim? <==> b.SymbolicDim?)
    && (a.EllipsisDim? <==> b.EllipsisDim?) && (a.Array? <==> b.Array?)
    && (a.Tuple? <==> b.Tuple?) && (a.Record? <==> b.Record?) && (a.Union? <==> b.Union?)
    && (a.Ref? <==> b.Ref?) && (a.Constr? <==> b.Constr?) && (a.Typevar? <==> b.Typevar?)
    && (a.KindNode? <==> b.KindNode?) && (a.FixedString? <==> b.FixedString?)
    && (a.FixedBytes? <==> b.FixedBytes?) && (a.Bytes? <==> b.Bytes?)
    && (a.Char? <==> b.Char?) && (a.Primitive? <==> b.Primitive?)
  }

  /** ndt_copy_var_dim: an abstract var dimension is rebuilt by
      ndt_abstract_var_dim, a concrete one by ndt_var_dim over the same
      offsets and slices. Either way the result is a VarDim node. */
  function CopyVarDim(t: Type, opt: bool): (r: Result<Type>)
    requires IsVarNode(t)
    ensures IsAbstract(t) ==> r == Dimensions.AbstractVarDim(t.node.inner, opt)
    ensures IsConcrete(t) ==> r == Dimensions.VarDim(t.node.inner, t.node.offsets, t.node.slices, opt)
    ensures r.Ok? ==> r.value.node.VarDim? && r.value.node.inner == t.node.inner
  {
    if IsAbstract(t) then Dimensions.AbstractVarDim(t.node.inner, opt)
    else Dimensions.VarDim(t.node.inner, t.node.offsets, t.node.slices, opt)
  }

  /** A VarDim node re-tagged as an element selection of 'index'. */
  function AsVarElem(n: Node, index: int): (m: Node)
    requires n.VarDim?
    ensures m.VarDimElem? && m.index == index
    ensures m.inner == n.inner && m.itemsize == n.itemsize && m.offsets == n.offsets && m.slices == n.slices
  {
    Node.VarDimElem(n.inner, n.itemsize, n.offsets, n.slices, index)
  }

  /** Nodes that ndt_copy duplicates byte for byte (`*u = *t`) or returns
      as they are (the static primitives), and the containers whose copy
      takes over every member (tuples, records, function signatures). */
  predicate CopiedVerbatim(t: Type) {
    t.node.Primitive? || t.node.KindNode? || t.node.FixedString? || t.node.FixedBytes? ||
    t.node.Bytes? || t.node.Char? || t.node.Tuple? || t.node.Record? || t.node.Function?
  }

  /** ndt_copy: a copy with the same tag and the same children as t, and
      the common fields of t. */
  function Copy(t: Type): (r: Result<Type>)
    requires !t.node.Union?
    ensures r.Ok? ==> SameCommon(r.value, t) && SameTag(r.value.node, t.node)
    ensures r.Ok? && HasInner(t) ==> r.value.node.inner == t.node.inner
    ensures CopiedVerbatim(t) ==> r == Ok(t)
    ensures t.node.Module? || t.node.Typevar? ==> r == Ok(t)
    ensures r.Err? ==> r.error == TypeError || r.error == ValueError || r.error == InvalidArgumentError
  {
    var opt := IsOptional(t);
    match t.node
    case FixedDim(contig, shape, inner, _, step) =>
      var u :- Dimensions.FixedDimTag(inner, contig, shape, step);
      Ok(CopyCommon(u, t))
    case VarDim(_, _, _, _) =>
      var u :- CopyVarDim(t, opt);
      Ok(CopyCommon(u, t))
    case VarDimElem(_, _, _, _, index) =>
      var u :- CopyVarDim(t, opt);
      Ok(CopyCommon(u.(node := AsVarElem(u.node, index)), t))
    case SymbolicDim(contig, name, inner) =>
      var u :- Dimensions.SymbolicDimTag(name, inner, contig);
      Ok(CopyCommon(u, t))
    case EllipsisDim(contig, ename, inner) =>
      var u :- Dimensions.EllipsisDimTag(ename, inner, contig);
      Ok(CopyCommon(u, t))
    case Array(inner, _) =>
      var u :- Containers.Array(inner, opt);
      Ok(CopyCommon(u, t))
    case Ref(inner) =>
      var u :- Containers.Ref(inner, opt);
      Ok(CopyCommon(u, t))
    case Constr(name, inner) =>
      var u :- Containers.Constr(name, inner, opt);
      Ok(CopyCommon(u, t))
    case Typevar(name) => Ok(CopyCommon(Containers.Typevar(name), t))
    case Module(name, inner) => Ok(CopyCommon(Containers.Module(name, inner), t))
    case _ => Ok(t)
  }

  // ---------------------------------------------------------------------
  // As written: the two cases whose code departs from the copy intended

  /** The VarDimElem case as written: ndt_copy_var_dim makes a VarDim node,
      the index is stored into it, and copy_common keeps the node's tag, so
      the copy comes out as a var dimension. */
  function CopyVarElemAsWritten(t: Type): (r: Result<Type>)
    requires t.node.VarDimElem?
    ensures r.Ok? ==> r.value.node.VarDim?
  {
    var u :- CopyVarDim(t, IsOptional(t));
    Ok(CopyCommon(u, t))
  }

  /** ndt_copy_function as written: the signature comes from
      ndt_function_new, which leaves Function.elemwise as the fresh allocation
      holds it ('leftover'); nin, nout, the arguments and the common fields
      are copied. */
  function CopyFunctionAsWritten(t: Type, leftover: bool): (r: Type)
    requires t.node.Function?
    ensures r.node.Function? && r.node.elemwise == leftover && SameCommon(r, t)
    ensures r.node.nin == t.node.nin && r.node.nout == t.node.nout && r.node.args == t.node.args
  {
    CopyCommon(Type(Abstract, NoFlags, 0, 0, 0xffff,
                    Node.Function(t.node.nin, t.node.nout, leftover, t.node.args)), t)
  }

  /** Whenever the allocation does not happen to hold t's elemwise flag, the
      copy as written differs from t, while the intended copy is t. */
  lemma FunctionCopyLosesElemwise(t: Type)
    requires t.node.Function?
    ensures CopyFunctionAsWritten(t, !t.node.elemwise) != t
    ensures Copy(t) == Ok(t)
  {
  }

  // ---------------------------------------------------------------------
  // ndt_convert_to_var_elem

  /** ndt_convert_to_var_elem: a concrete, non-optional var dimension (or
      element selection) becomes the selection of element 'index' of its
      lists of 'type'. */
  function ConvertToVarElem(t: Type, typ: Type, index: int): (r: Result<Type>)
    ensures !IsVarNode(t) || IsAbstract(t) || IsOptional(t) ==> r == Err(ValueError)
    ensures IsVarNode(t) && IsConcrete(t) && !IsOptional(t) ==>
      (r.Ok? <==> Dimensions.VarDim(typ, t.node.offsets, t.node.slices, false).Ok?)
    ensures r.Ok? ==>
      var u := Dimensions.VarDim(typ, t.node.offsets, t.node.slices, false).value;
      && r.value.node.VarDimElem? && r.value.node.index == index
      && r.value.node.inner == typ && r.value.node.offsets == t.node.offsets
      && r.value.node.slices == t.node.slices
      && IsConcrete(r.value) && !IsOptional(r.value) && SameCommon(r.value, u)
  {
    if !IsVarNode(t) then Err(ValueError)
    else if IsAbstract(t) then Err(ValueError)
    else if IsOptional(t) then Err(ValueError)
    else
      var u :- Dimensions.VarDim(typ, t.node.offsets, t.node.slices, false);
      Ok(u.(node := AsVarElem(u.node, index)))
  }

  /** The copy of an element selection is the selection itself, while the
      copy as written turns it back into a var dimension. */
  lemma VarElemCopy(t: Type, typ: Type, index: int)
    requires ConvertToVarElem(t, typ, index).Ok?
    ensures var v := ConvertToVarElem(t, typ, index).value;
      && Copy(v) == Ok(v)
      && CopyVarElemAsWritten(v).Ok? && CopyVarElemAsWritten(v).value != v
  {
    var v := ConvertToVarElem(t, typ, index).value;
    var u := Dimensions.VarDim(typ, t.node.offsets, t.node.slices, false).value;
    assert CopyVarDim(v, false) == Ok(u);
  }

  // ---------------------------------------------------------------------
  // A copy equals the original: one lemma per constructor

  lemma CopyFixedDim(inner: Type, tag: Contig, shape: int, step: int)
    requires Dimensions.FixedDimTag(inner, tag, shape, step).Ok?
    ensures var t := Dimensions.FixedDimTag(inner, tag, shape, step).value; Copy(t) == Ok(t)
  {
    var t := Dimensions.FixedDimTag(inner, tag, shape, step).value;
    var u := Dimensions.FixedDim(inner, shape, step).value;
    if IsConcrete(inner) {
      assert Dimensions.FixedStep(inner, u.node.step) == Checked(u.node.step, false);
    }
    assert Dimensions.FixedDim(inner, shape, t.node.step) == Ok(u);
  }

  lemma CopyVarDimOf(inner: Type, offsets: seq<int>, slices: seq<Slice>, opt: bool)
    requires Dimensions.VarDim(inner, offsets, slices, opt).Ok?
    ensures var t := Dimensions.VarDim(inner, offsets, slices, opt).value; Copy(t) == Ok(t)
  {
    var t := Dimensions.VarDim(inner, offsets, slices, opt).value;
    assert IsOptional(t) == opt;
  }

  lemma CopyAbstractVarDim(inner: Type, opt: bool)
    requires Dimensions.AbstractVarDim(inner, opt).Ok?
    ensures var t := Dimensions.AbstractVarDim(inner, opt).value; Copy(t) == Ok(t)
  {
    var t := Dimensions.AbstractVarDim(inner, opt).value;
    assert IsOptional(t) == opt;
  }

  lemma CopySymbolicDim(name: string, inner: Type, tag: Contig)
    requires Dimensions.SymbolicDimTag(name, inner, tag).Ok?
    ensures var t := Dimensions.SymbolicDimTag(name, inner, tag).value; Copy(t) == Ok(t)
  {
  }

  lemma CopyEllipsisDim(name: Option<string>, inner: Type, tag: Contig)
    requires Dimensions.EllipsisDimTag(name, inner, tag).Ok?
    ensures var t := Dimensions.EllipsisDimTag(name, inner, tag).value; Copy(t) == Ok(t)
  {
  }

  lemma CopyArray(inner: Type, opt: bool)
    requires Containers.Array(inner, opt).Ok?
    ensures var t := Containers.Array(inner, opt).value; Copy(t) == Ok(t)
  {
  }

  lemma CopyRef(inner: Type, opt: bool)
    requires Containers.Ref(inner, opt).Ok?
    ensures var t := Containers.Ref(inner, opt).value; Copy(t) == Ok(t)
  {
  }

  lemma CopyConstr(name: string, inner: Type, opt: bool)
    requires Containers.Constr(name, inner, opt).Ok?
    ensures var t := Containers.Constr(name, inner, opt).value; Copy(t) == Ok(t)
  {
  }
}
