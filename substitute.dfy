/** ndt_substitute: replace the symbolic dimensions, type variables and
    named ellipses of a type by what a symbol table binds them to. The
    symbol table is a map from names to bindings; its own implementation
    (symtable.c) is not part of this model. */
module Substitute {
  import opened Results
  import opened Int64
  import opened Types
  import Dimensions
  import Containers
  import Contiguity
  import VarCopy
  import Relayout

  /** One entry of the symbol table (symtable_entry_t): a dimension size, a
      type bound to a type variable, or the dimensions an ellipsis matched. */
  datatype Binding =
    | ShapeEntry(shape: int)
    | TypevarEntry(binding: Type)
    | FixedSeqEntry(dims: seq<Type>)
    | VarSeqEntry(dims: seq<Type>, linear: int)
    | ArraySeqEntry(dims: seq<Type>)

  type SymbolTable = map<string, Binding>

  /** What substitute_named_ellipsis relies on: the dimensions an ellipsis
      matched are fixed dimensions, and a var sequence starts with a
      well-formed array (ndt_copy_contiguous_dtype reads its dimensions). */
  predicate BindingOk(b: Binding) {
    match b
    case FixedSeqEntry(dims) => forall i :: 0 <= i < |dims| ==> IsConcrete(dims[i]) && dims[i].node.FixedDim?
    case VarSeqEntry(dims, _) => |dims| > 0 ==> Relayout.Relayable(dims[0])
    case _ => true
  }

  predicate TableOk(tbl: SymbolTable) {
    forall name :: name in tbl ==> BindingOk(tbl[name])
  }

  /** symtable_find_shape: the bound shape, or -1 when name is not bound to
      a shape. */
  function FindShape(tbl: SymbolTable, name: string): int {
    if name in tbl && tbl[name].ShapeEntry? then tbl[name].shape else -1
  }

  /** The leaf tags ndt_substitute returns as they are. */
  predicate IsScalarNode(t: Type) {
    t.node.Primitive? || t.node.FixedString? || t.node.FixedBytes? || t.node.Bytes? || t.node.Char?
  }

  /** The tags ndt_substitute does not handle. */
  predicate Unhandled(t: Type) {
    t.node.Module? || t.node.Function? || t.node.VarDimElem? || t.node.Array? ||
    t.node.Tuple? || t.node.Record? || t.node.Union? || t.node.KindNode?
  }

  /** The nodes ndt_substitute rebuilds around one substituted child. */
  predicate OneChild(t: Type) {
    t.node.FixedDim? || t.node.VarDim? || t.node.SymbolicDim? || t.node.Constr? || t.node.Ref?
  }

  /** That child: the dtype for a var dimension, the inner type otherwise. */
  function Child(t: Type): (c: Type)
    requires OneChild(t)
    ensures Size(c) < Size(t)
  {
    if t.node.VarDim? then
      assert DType(t) == DType(t.node.inner);
      DType(t)
    else t.node.inner
  }

  // ---------------------------------------------------------------------
  // ndt_substitute and substitute_named_ellipsis

  /** ndt_substitute. A chain of type variable bindings is followed at most
      fuel times; a longer one ends in RuntimeError. */
  function Substitute(t: Type, tbl: SymbolTable, reqConcrete: bool, fuel: nat,
                      adjust: Dimensions.SliceAdjust): (r: Result<Type>)
    requires TableOk(tbl)
    ensures IsConcrete(t) ==> r == Ok(t)
    ensures IsScalarNode(t) ==> r == Ok(t)
    ensures IsAbstract(t) && Unhandled(t) ==> r == Err(NotImplementedError)
    decreases fuel, Size(t), 1
  {
    if IsConcrete(t) then Ok(t)
    else match t.node
      case FixedDim(_, shape, inner, _, step) =>
        var u :- Substitute(inner, tbl, reqConcrete, fuel, adjust);
        Dimensions.FixedDim(u, shape, step)
      case VarDim(inner, _, _, _) =>
        assert DType(t) == DType(inner);
        var u :- Substitute(DType(t), tbl, reqConcrete, fuel, adjust);
        Relayout.CopyAbstractVarDtype(t, u)
      case SymbolicDim(_, name, inner) =>
        var u :- Substitute(inner, tbl, reqConcrete, fuel, adjust);
        var shape := FindShape(tbl, name);
        if shape < 0 then
          if reqConcrete then Err(ValueError) else Dimensions.SymbolicDim(name, u)
        else Dimensions.FixedDim(u, shape, INT64_MAX)
      case EllipsisDim(_, ename, inner) =>
        if ename.None? then Substitute(inner, tbl, true, fuel, adjust)
        else NamedEllipsis(t, tbl, fuel, adjust)
      case Typevar(name) =>
        if name !in tbl || !tbl[name].TypevarEntry? then
          if reqConcrete then Err(ValueError) else Ok(Containers.Typevar(name))
        else if fuel == 0 then Err(RuntimeError)
        else Substitute(tbl[name].binding, tbl, reqConcrete, fuel - 1, adjust)
      case Constr(name, inner) =>
        var u :- Substitute(inner, tbl, reqConcrete, fuel, adjust);
        Containers.Constr(name, u, IsOptional(t))
      case Ref(inner) =>
        var u :- Substitute(inner, tbl, reqConcrete, fuel, adjust);
        Containers.Ref(u, IsOptional(t))
      case Primitive(_) => Ok(t)
      case FixedString(_, _) => Ok(t)
      case FixedBytes(_, _) => Ok(t)
      case Bytes(_) => Ok(t)
      case Char(_) => Ok(t)
      case _ => Err(NotImplementedError)
  }

  /** substitute_named_ellipsis as a function: the inner type substituted
      with req_concrete set, then wrapped in the dimensions bound to the
      ellipsis name. */
  function NamedEllipsis(t: Type, tbl: SymbolTable, fuel: nat, adjust: Dimensions.SliceAdjust): Result<Type>
    requires TableOk(tbl) && t.node.EllipsisDim? && t.node.ename.Some?
    decreases fuel, Size(t), 0
  {
    var u :- Substitute(t.node.inner, tbl, true, fuel, adjust);
    var name := t.node.ename.value;
    if name !in tbl then Err(ValueError)
    else match tbl[name]
      case FixedSeqEntry(dims) => WrapFixed(u, dims)
      case VarSeqEntry(dims, linear) =>
        if |dims| == 0 then Ok(u) else Relayout.ContiguousDtypeSpec(dims[0], u, linear, adjust)
      case ArraySeqEntry(dims) => WrapArrays(u, |dims|)
      case _ => Err(ValueError)
  }

  predicate AllFixed(dims: seq<Type>) {
    forall i :: 0 <= i < |dims| ==> dims[i].node.FixedDim?
  }

  /** u under one fixed dimension per entry of dims, dims[0] outermost. */
  function WrapFixed(u: Type, dims: seq<Type>): Result<Type>
    requires AllFixed(dims)
  {
    if dims == [] then Ok(u)
    else
      var x :- WrapFixed(u, dims[1..]);
      Dimensions.FixedDim(x, dims[0].node.shape, INT64_MAX)
  }

  /** u under n flexible array dimensions. */
  function WrapArrays(u: Type, n: nat): Result<Type> {
    if n == 0 then Ok(u)
    else
      var x :- WrapArrays(u, n - 1);
      Containers.Array(x, false)
  }

  /** Once the innermost dims have failed, the outer ones are never built. */
  lemma {:induction false} WrapFixedStops(u: Type, dims: seq<Type>, k: int)
    requires AllFixed(dims) && 0 <= k <= |dims| && WrapFixed(u, dims[k..]).Err?
    ensures WrapFixed(u, dims) == WrapFixed(u, dims[k..])
  {
    if k > 0 {
      assert dims[k - 1..][1..] == dims[k..];
      WrapFixedStops(u, dims, k - 1);
    } else {
      assert dims[k..] == dims;
    }
  }

  lemma {:induction false} WrapArraysStops(u: Type, i: nat, n: nat)
    requires i <= n && WrapArrays(u, i).Err?
    ensures WrapArrays(u, n) == WrapArrays(u, i)
  {
    if i < n {
      WrapArraysStops(u, i, n - 1);
    }
  }

  /** The loop of the FixedSeq case: dims[size-1] down to dims[0]. */
  method WrapFixedLoop(u: Type, dims: seq<Type>) returns (r: Result<Type>)
    requires AllFixed(dims)
    ensures r == WrapFixed(u, dims)
  {
    var acc := u;
    var k := |dims|;
    while k > 0
      invariant 0 <= k <= |dims|
      invariant WrapFixed(u, dims[k..]) == Ok(acc)
    {
      var x := Dimensions.FixedDim(acc, dims[k - 1].node.shape, INT64_MAX);
      assert dims[k - 1..][1..] == dims[k..];
      if x.Err? {
        WrapFixedStops(u, dims, k - 1);
        return Err(x.error);
      }
      acc := x.value;
      k := k - 1;
    }
    assert dims[0..] == dims;
    return Ok(acc);
  }

  /** The loop of the ArraySeq case. */
  method WrapArraysLoop(u: Type, n: nat) returns (r: Result<Type>)
    ensures r == WrapArrays(u, n)
  {
    var acc := u;
    var i := 0;
    while i < n
      invariant 0 <= i <= n
      invariant WrapArrays(u, i) == Ok(acc)
    {
      var x := Containers.Array(acc, false);
      if x.Err? {
        WrapArraysStops(u, i + 1, n);
        return Err(x.error);
      }
      acc := x.value;
      i := i + 1;
    }
    return Ok(acc);
  }

  /** substitute_named_ellipsis. */
  method SubstituteNamedEllipsis(t: Type, tbl: SymbolTable, fuel: nat, adjust: Dimensions.SliceAdjust)
    returns (r: Result<Type>)
    requires TableOk(tbl) && t.node.EllipsisDim? && t.node.ename.Some?
    ensures r == NamedEllipsis(t, tbl, fuel, adjust)
  {
    var inner := Substitute(t.node.inner, tbl, true, fuel, adjust);
    if inner.Err? {
      return Err(inner.error);
    }
    var u := inner.value;
    var name := t.node.ename.value;
    if name !in tbl {
      return Err(ValueError);
    }
    match tbl[name]
    case FixedSeqEntry(dims) =>
      r := WrapFixedLoop(u, dims);
    case VarSeqEntry(dims, linear) =>
      if |dims| == 0 {
        return Ok(u);
      }
      r := Relayout.CopyContiguousDtype(dims[0], u, linear, adjust);
    case ArraySeqEntry(dims) =>
      r := WrapArraysLoop(u, |dims|);
    case _ =>
      return Err(ValueError);
  }

  // ---------------------------------------------------------------------
  // What each case produces

  /** A symbolic dimension bound to a shape n becomes a fixed dimension of
      shape n with the default step over the substituted inner type; an
      unbound one fails under req_concrete and is kept by name otherwise. */
  lemma SymbolicDimCases(t: Type, tbl: SymbolTable, rc: bool, fuel: nat, adjust: Dimensions.SliceAdjust)
    requires TableOk(tbl) && IsAbstract(t) && t.node.SymbolicDim?
    ensures var u := Substitute(t.node.inner, tbl, rc, fuel, adjust);
      var r := Substitute(t, tbl, rc, fuel, adjust);
      var name := t.node.name;
      && (u.Err? ==> r == u)
      && (u.Ok? && name in tbl && tbl[name].ShapeEntry? && tbl[name].shape >= 0 ==>
            && (r.Ok? <==> Dimensions.FixedDim(u.value, tbl[name].shape, INT64_MAX).Ok?)
            && (r.Ok? ==>
                  && r.value.node.FixedDim? && r.value.node.shape == tbl[name].shape
                  && r.value.node.inner == u.value && r.value.ndim == u.value.ndim + 1
                  && (IsConcrete(u.value) ==>
                        IsConcrete(r.value) && r.value.node.step == Dimensions.FixedStep(u.value, INT64_MAX).value)))
      && (u.Ok? && FindShape(tbl, name) < 0 && rc ==> r == Err(ValueError))
      && (u.Ok? && FindShape(tbl, name) < 0 && !rc ==>
            && (r.Ok? <==> Dimensions.SymbolicDim(name, u.value).Ok?)
            && (r.Ok? ==> r.value.node == Node.SymbolicDim(RequireNA, name, u.value)))
  {
  }

  /** A bound type variable is replaced by the substitution of its binding;
      an unbound one fails under req_concrete and is kept by name otherwise. */
  lemma TypevarCases(t: Type, tbl: SymbolTable, rc: bool, fuel: nat, adjust: Dimensions.SliceAdjust)
    requires TableOk(tbl) && IsAbstract(t) && t.node.Typevar?
    ensures var r := Substitute(t, tbl, rc, fuel, adjust);
      var name := t.node.name;
      && (name in tbl && tbl[name].TypevarEntry? && fuel > 0 ==>
            r == Substitute(tbl[name].binding, tbl, rc, fuel - 1, adjust))
      && (name in tbl && tbl[name].TypevarEntry? && IsConcrete(tbl[name].binding) && fuel > 0 ==>
            r == Ok(tbl[name].binding))
      && (!(name in tbl && tbl[name].TypevarEntry?) && rc ==> r == Err(ValueError))
      && (!(name in tbl && tbl[name].TypevarEntry?) && !rc ==>
            r.Ok? && r.value.node == Node.Typevar(name) && IsAbstract(r.value))
  {
  }

  /** An unnamed ellipsis disappears: what is left is its inner type,
      substituted with req_concrete set whatever the caller asked for. */
  lemma UnnamedEllipsis(t: Type, tbl: SymbolTable, rc: bool, fuel: nat, adjust: Dimensions.SliceAdjust)
    requires TableOk(tbl) && IsAbstract(t) && t.node.EllipsisDim? && t.node.ename.None?
    ensures Substitute(t, tbl, rc, fuel, adjust) == Substitute(t.node.inner, tbl, true, fuel, adjust)
    ensures Substitute(t, tbl, rc, fuel, adjust) == Substitute(t, tbl, true, fuel, adjust)
  {
  }

  /** A named ellipsis: a FixedSeq or ArraySeq binding puts the recorded
      dimensions back over the inner type, an empty VarSeq leaves the inner
      type alone, and a missing or other binding is a ValueError. */
  lemma NamedEllipsisCases(t: Type, tbl: SymbolTable, rc: bool, fuel: nat, adjust: Dimensions.SliceAdjust)
    requires TableOk(tbl) && IsAbstract(t) && t.node.EllipsisDim? && t.node.ename.Some?
    ensures var u := Substitute(t.node.inner, tbl, true, fuel, adjust);
      var r := Substitute(t, tbl, rc, fuel, adjust);
      var name := t.node.ename.value;
      && (u.Err? ==> r == u)
      && (u.Ok? && name in tbl && tbl[name].FixedSeqEntry? ==> r == WrapFixed(u.value, tbl[name].dims))
      && (u.Ok? && name in tbl && tbl[name].ArraySeqEntry? ==> r == WrapArrays(u.value, |tbl[name].dims|))
      && (u.Ok? && name in tbl && tbl[name].VarSeqEntry? && tbl[name].dims == [] ==> r == u)
      && (u.Ok? && name in tbl && tbl[name].VarSeqEntry? && tbl[name].dims != [] ==>
            r == Relayout.ContiguousDtypeSpec(tbl[name].dims[0], u.value, tbl[name].linear, adjust))
      && (u.Ok? && (name !in tbl || tbl[name].ShapeEntry? || tbl[name].TypevarEntry?) ==> r == Err(ValueError))
  {
  }

  /** A fixed dimension keeps its shape and step; Ref and Constr keep their
      name and optional flag; only the child is substituted. */
  lemma WrapperCases(t: Type, tbl: SymbolTable, rc: bool, fuel: nat, adjust: Dimensions.SliceAdjust)
    requires TableOk(tbl) && IsAbstract(t) && (t.node.FixedDim? || t.node.Ref? || t.node.Constr?)
    ensures var u := Substitute(t.node.inner, tbl, rc, fuel, adjust);
      var r := Substitute(t, tbl, rc, fuel, adjust);
      && (u.Err? ==> r == u)
      && (u.Ok? && t.node.FixedDim? ==> r == Dimensions.FixedDim(u.value, t.node.shape, t.node.step))
      && (r.Ok? && t.node.FixedDim? ==> r.value.node.FixedDim? && r.value.node.shape == t.node.shape && r.value.node.inner == u.value)
      && (r.Ok? && t.node.Ref? ==>
            r.value.node == Node.Ref(u.value) && IsOptional(r.value) == IsOptional(t))
      && (r.Ok? && t.node.Constr? ==>
            r.value.node == Node.Constr(t.node.name, u.value) && IsOptional(r.value) == IsOptional(t))
  {
  }

  /** A var dimension goes through its dtype and is rebuilt as abstract var
      dimensions with the optional flags of t. */
  lemma VarDimCase(t: Type, tbl: SymbolTable, rc: bool, fuel: nat, adjust: Dimensions.SliceAdjust)
    requires TableOk(tbl) && IsAbstract(t) && t.node.VarDim?
    ensures var u := Substitute(DType(t), tbl, rc, fuel, adjust);
      var r := Substitute(t, tbl, rc, fuel, adjust);
      && (u.Err? ==> r == u)
      && (u.Ok? ==> r == Relayout.CopyAbstractVarDtype(t, u.value))
      && (r.Ok? && t.ndim != 0 ==> IsAbstract(r.value) && r.value.node.VarDim? && IsOptional(r.value) == IsOptional(t))
  {
  }

  // ---------------------------------------------------------------------
  // The re-wrapped dimensions of a named ellipsis

  /** The FixedSeq case restores the recorded dimensions in their original
      order, outermost first, above the dimensions of the inner type. */
  lemma {:induction false} WrapFixedOrder(u: Type, dims: seq<Type>)
    requires AllFixed(dims)
    ensures var r := WrapFixed(u, dims);
      r.Ok? ==>
        && r.value.ndim == u.ndim + |dims|
        && |Dims(r.value)| == |dims| + |Dims(u)|
        && (forall i :: 0 <= i < |dims| ==>
              Dims(r.value)[i].node.FixedDim? && Dims(r.value)[i].node.shape == dims[i].node.shape)
        && Dims(r.value)[|dims|..] == Dims(u)
        && DType(r.value) == DType(u)
  {
    if dims != [] {
      WrapFixedOrder(u, dims[1..]);
      var r := WrapFixed(u, dims);
      if r.Ok? {
        var x := WrapFixed(u, dims[1..]).value;
        assert Dims(r.value) == [r.value] + Dims(x);
        forall i | 1 <= i < |dims|
          ensures Dims(r.value)[i].node.shape == dims[i].node.shape
        {
          assert Dims(r.value)[i] == Dims(x)[i - 1];
          assert dims[1..][i - 1] == dims[i];
        }
        assert Dims(r.value)[|dims|..] == Dims(x)[|dims| - 1..];
      }
    }
  }

  /** The ArraySeq case puts n array dimensions above the inner type. */
  lemma {:induction false} WrapArraysDepth(u: Type, n: nat)
    ensures var r := WrapArrays(u, n);
      r.Ok? ==>
        && r.value.ndim == u.ndim + n
        && |Dims(r.value)| == n + |Dims(u)|
        && (forall i :: 0 <= i < n ==> Dims(r.value)[i].node.Array?)
        && Dims(r.value)[n..] == Dims(u)
        && DType(r.value) == DType(u)
  {
    if n > 0 {
      WrapArraysDepth(u, n - 1);
      var r := WrapArrays(u, n);
      if r.Ok? {
        var x := WrapArrays(u, n - 1).value;
        assert Dims(r.value) == [r.value] + Dims(x);
        forall i | 1 <= i < n
          ensures Dims(r.value)[i].node.Array?
        {
          assert Dims(r.value)[i] == Dims(x)[i - 1];
        }
        assert Dims(r.value)[n..] == Dims(x)[n - 1..];
      }
    }
  }

  // ---------------------------------------------------------------------
  // req_concrete leaves no name behind

  /** No symbolic dimension, type variable or ellipsis anywhere in t. */
  predicate Resolved(t: Type)
    decreases Size(t), 0, 0
  {
    match t.node
    case SymbolicDim(_, _, _) => false
    case EllipsisDim(_, _, _) => false
    case Typevar(_) => false
    case Function(_, _, _, args) => ResolvedAll(args)
    case Tuple(_, types, _) => ResolvedAll(types)
    case Record(_, _, types, _) => ResolvedAll(types)
    case Union(_, types) => ResolvedAll(types)
    case Module(_, inner) => Resolved(inner)
    case FixedDim(_, _, inner, _, _) => Resolved(inner)
    case VarDim(inner, _, _, _) => Resolved(inner)
    case VarDimElem(inner, _, _, _, _) => Resolved(inner)
    case Array(inner, _) => Resolved(inner)
    case Ref(inner) => Resolved(inner)
    case Constr(_, inner) => Resolved(inner)
    case _ => true
  }

  predicate ResolvedAll(s: seq<Type>)
    decreases SizeSeq(s), 1, |s|
  {
    s == [] || (Resolved(s[0]) && ResolvedAll(s[1..]))
  }

  /** The concrete parts of t, which ndt_substitute returns as they are,
      hold no names. */
  predicate ConcreteResolved(t: Type)
    decreases Size(t)
  {
    if IsConcrete(t) then Resolved(t)
    else HasInner(t) ==> ConcreteResolved(t.node.inner)
  }

  /** Every type bound to a type variable has resolved concrete parts. */
  predicate BindingsResolved(tbl: SymbolTable) {
    forall name :: name in tbl && tbl[name].TypevarEntry? ==> ConcreteResolved(tbl[name].binding)
  }

  lemma {:induction false} ResolvedInConcrete(t: Type)
    requires Resolved(t)
    ensures ConcreteResolved(t)
    decreases Size(t)
  {
    if !IsConcrete(t) && HasInner(t) {
      ResolvedInConcrete(t.node.inner);
    }
  }

  lemma {:induction false} ConcreteResolvedDType(t: Type)
    requires ConcreteResolved(t)
    ensures ConcreteResolved(DType(t))
    decreases Size(t)
  {
    if IsDimNode(t) {
      if IsConcrete(t) {
        ResolvedInConcrete(t.node.inner);
      }
      ConcreteResolvedDType(t.node.inner);
    }
  }

  lemma {:induction false} AbstractVarResolved(t: Type, u: Type)
    requires Resolved(u)
    ensures var r := Relayout.CopyAbstractVarDtype(t, u); r.Ok? ==> Resolved(r.value)
    decreases Size(t)
  {
    if t.ndim != 0 && t.node.VarDim? && IsAbstract(t) {
      AbstractVarResolved(t.node.inner, u);
    }
  }

  lemma {:induction false} FixedCopyResolved(t: Type, dtype: Type)
    requires Contiguity.FixedChain(t) && Resolved(dtype)
    ensures var r := Relayout.FixedCopyContiguous(t, dtype); r.Ok? ==> Resolved(r.value)
    decreases Size(t)
  {
    if t.ndim != 0 {
      FixedCopyResolved(t.node.inner, dtype);
    }
  }

  lemma {:induction false} RebuildResolved(tb: VarCopy.Table, u: Type, i: int, n: int)
    requires VarCopy.TableShaped(tb) && 1 <= i && n <= MAX_DIM
    requires forall d :: i <= d <= n ==> 0 <= tb.index[d] < |tb.offsets[d]|
    requires Resolved(u)
    ensures var r := VarCopy.Rebuild(tb, u, i, n); r.Ok? ==> Resolved(r.value)
    decreases n - i + 1
  {
    if i <= n {
      if !tb.active[i] {
        RebuildResolved(tb, u, i + 1, n);
      } else {
        var v := Dimensions.VarDim(u, tb.offsets[i][..tb.index[i] + 1], [], false);
        if v.Ok? {
          RebuildResolved(tb, v.value, i + 1, n);
        }
      }
    }
  }

  lemma ContiguousResolved(w: Type, u: Type, linear: int, adjust: Dimensions.SliceAdjust)
    requires Relayout.Relayable(w) && Resolved(u)
    ensures var r := Relayout.ContiguousDtypeSpec(w, u, linear, adjust); r.Ok? ==> Resolved(r.value)
  {
    if IsConcrete(w) && IsConcrete(u) {
      if w.node.FixedDim? {
        FixedCopyResolved(w, u);
      } else if IsVarNode(w) {
        var e := VarCopy.Events(w, linear, adjust);
        if e.Ok? {
          VarCopy.EventsWellVisited(w, linear, adjust);
          RebuildResolved(VarCopy.SpecTable(e.value, w.ndim), u, 1, w.ndim);
        }
      }
    }
  }

  lemma {:induction false} WrapFixedResolved(u: Type, dims: seq<Type>)
    requires AllFixed(dims) && Resolved(u)
    ensures var r := WrapFixed(u, dims); r.Ok? ==> Resolved(r.value)
  {
    if dims != [] {
      WrapFixedResolved(u, dims[1..]);
    }
  }

  lemma {:induction false} WrapArraysResolved(u: Type, n: nat)
    requires Resolved(u)
    ensures var r := WrapArrays(u, n); r.Ok? ==> Resolved(r.value)
  {
    if n > 0 {
      WrapArraysResolved(u, n - 1);
    }
  }

  /** With req_concrete set, a successful substitution leaves no symbolic
      dimension, type variable or ellipsis in the result. */
  lemma {:induction false} SubstituteResolves(t: Type, tbl: SymbolTable, fuel: nat, adjust: Dimensions.SliceAdjust)
    requires TableOk(tbl) && BindingsResolved(tbl) && ConcreteResolved(t)
    ensures var r := Substitute(t, tbl, true, fuel, adjust); r.Ok? ==> Resolved(r.value)
    decreases fuel, Size(t), 1
  {
    if IsAbstract(t) {
      match t.node
      case EllipsisDim(_, ename, inner) =>
        if ename.None? {
          SubstituteResolves(inner, tbl, fuel, adjust);
        } else {
          NamedEllipsisResolves(t, tbl, fuel, adjust);
        }
      case Typevar(name) =>
        if name in tbl && tbl[name].TypevarEntry? && fuel > 0 {
          SubstituteResolves(tbl[name].binding, tbl, fuel - 1, adjust);
        }
      case _ =>
        if OneChild(t) {
          ChildResolves(t, tbl, fuel, adjust);
        }
    }
  }

  lemma {:induction false} ChildResolves(t: Type, tbl: SymbolTable, fuel: nat, adjust: Dimensions.SliceAdjust)
    requires TableOk(tbl) && BindingsResolved(tbl) && ConcreteResolved(t) && IsAbstract(t) && OneChild(t)
    ensures var r := Substitute(t, tbl, true, fuel, adjust); r.Ok? ==> Resolved(r.value)
    decreases fuel, Size(t), 0
  {
    if t.node.VarDim? {
      ConcreteResolvedDType(t);
    }
    SubstituteResolves(Child(t), tbl, fuel, adjust);
    var u := Substitute(Child(t), tbl, true, fuel, adjust);
    if u.Ok? && t.node.VarDim? {
      AbstractVarResolved(t, u.value);
    }
  }

  lemma {:induction false} NamedEllipsisResolves(t: Type, tbl: SymbolTable, fuel: nat, adjust: Dimensions.SliceAdjust)
    requires TableOk(tbl) && BindingsResolved(tbl) && ConcreteResolved(t)
    requires IsAbstract(t) && t.node.EllipsisDim? && t.node.ename.Some?
    ensures var r := NamedEllipsis(t, tbl, fuel, adjust); r.Ok? ==> Resolved(r.value)
    decreases fuel, Size(t), 0
  {
    SubstituteResolves(t.node.inner, tbl, fuel, adjust);
    var u := Substitute(t.node.inner, tbl, true, fuel, adjust);
    var name := t.node.ename.value;
    if u.Ok? && name in tbl {
      match tbl[name]
      case FixedSeqEntry(dims) => WrapFixedResolved(u.value, dims);
      case VarSeqEntry(dims, linear) =>
        if |dims| > 0 {
          ContiguousResolved(dims[0], u.value, linear, adjust);
        }
      case ArraySeqEntry(dims) => WrapArraysResolved(u.value, |dims|);
      case _ =>
    }
  }

  // ---------------------------------------------------------------------
  // The empty table

  /** An abstract type as the constructors build it, from dimensions,
      names, Ref and Constr over concrete parts; the only kinds of node
      ndt_substitute rebuilds without change when nothing is bound. */
  predicate Canonical(t: Type)
    decreases Size(t)
  {
    if IsConcrete(t) then true
    else match t.node
      case FixedDim(_, shape, inner, _, step) =>
        Dimensions.FixedDim(inner, shape, step) == Ok(t) && Canonical(inner)
      case VarDim(inner, _, _, _) =>
        assert DType(t) == DType(inner);
        Relayout.AbstractVarChain(t) && Canonical(DType(t))
      case SymbolicDim(_, name, inner) =>
        Dimensions.SymbolicDim(name, inner) == Ok(t) && Canonical(inner)
      case Typevar(name) => t == Containers.Typevar(name)
      case Constr(name, inner) =>
        Containers.Constr(name, inner, IsOptional(t)) == Ok(t) && Canonical(inner)
      case Ref(inner) =>
        Containers.Ref(inner, IsOptional(t)) == Ok(t) && Canonical(inner)
      case _ => IsScalarNode(t)
  }

  /** With nothing bound and req_concrete off, substitution gives back
      every canonical type unchanged. */
  lemma {:induction false} EmptyTableIdentity(t: Type, fuel: nat, adjust: Dimensions.SliceAdjust)
    requires Canonical(t)
    ensures Substitute(t, map[], false, fuel, adjust) == Ok(t)
    decreases Size(t)
  {
    if IsAbstract(t) {
      match t.node
      case FixedDim(_, _, inner, _, _) => EmptyTableIdentity(inner, fuel, adjust);
      case VarDim(inner, _, _, _) =>
        assert DType(t) == DType(inner);
        EmptyTableIdentity(DType(t), fuel, adjust);
        Relayout.CopyAbstractVarOwnDtype(t);
      case SymbolicDim(_, _, inner) => EmptyTableIdentity(inner, fuel, adjust);
      case Constr(_, inner) => EmptyTableIdentity(inner, fuel, adjust);
      case Ref(inner) => EmptyTableIdentity(inner, fuel, adjust);
      case _ =>
    }
  }

  // ---------------------------------------------------------------------
  // Fuel

  /** Unless the chain of type variable bindings ran out of fuel, more fuel
      changes nothing. */
  lemma {:induction false} FuelMonotone(t: Type, tbl: SymbolTable, rc: bool, fuel: nat, adjust: Dimensions.SliceAdjust)
    requires TableOk(tbl)
    ensures Substitute(t, tbl, rc, fuel, adjust) != Err(RuntimeError) ==>
      Substitute(t, tbl, rc, fuel + 1, adjust) == Substitute(t, tbl, rc, fuel, adjust)
    decreases fuel, Size(t), 1
  {
    if IsAbstract(t) {
      match t.node
      case EllipsisDim(_, ename, inner) =>
        if ename.None? {
          FuelMonotone(inner, tbl, true, fuel, adjust);
        } else {
          NamedEllipsisFuelMonotone(t, tbl, fuel, adjust);
        }
      case Typevar(name) =>
        if name in tbl && tbl[name].TypevarEntry? && fuel > 0 {
          FuelMonotone(tbl[name].binding, tbl, rc, fuel - 1, adjust);
        }
      case _ =>
        if OneChild(t) {
          ChildFuelMonotone(t, tbl, rc, fuel, adjust);
        }
    }
  }

  lemma {:induction false} ChildFuelMonotone(t: Type, tbl: SymbolTable, rc: bool, fuel: nat, adjust: Dimensions.SliceAdjust)
    requires TableOk(tbl) && IsAbstract(t) && OneChild(t)
    ensures Substitute(t, tbl, rc, fuel, adjust) != Err(RuntimeError) ==>
      Substitute(t, tbl, rc, fuel + 1, adjust) == Substitute(t, tbl, rc, fuel, adjust)
    decreases fuel, Size(t), 0
  {
    FuelMonotone(Child(t), tbl, rc, fuel, adjust);
  }

  lemma {:induction false} NamedEllipsisFuelMonotone(t: Type, tbl: SymbolTable, fuel: nat, adjust: Dimensions.SliceAdjust)
    requires TableOk(tbl) && t.node.EllipsisDim? && t.node.ename.Some?
    ensures NamedEllipsis(t, tbl, fuel, adjust) != Err(RuntimeError) ==>
      NamedEllipsis(t, tbl, fuel + 1, adjust) == NamedEllipsis(t, tbl, fuel, adjust)
    decreases fuel, Size(t), 0
  {
    FuelMonotone(t.node.inner, tbl, true, fuel, adjust);
  }

  /** Every type variable is bound to a concrete type, as matching against
      concrete arguments leaves it. */
  predicate ConcreteBindings(tbl: SymbolTable) {
    forall name :: name in tbl && tbl[name].TypevarEntry? ==> IsConcrete(tbl[name].binding)
  }

  /** When every binding is concrete, one unit of fuel is as good as any. */
  lemma {:induction false} OneHopSuffices(t: Type, tbl: SymbolTable, rc: bool, fuel: nat, adjust: Dimensions.SliceAdjust)
    requires TableOk(tbl) && ConcreteBindings(tbl) && fuel >= 1
    ensures Substitute(t, tbl, rc, fuel, adjust) == Substitute(t, tbl, rc, 1, adjust)
    decreases Size(t), 1
  {
    if IsAbstract(t) {
      match t.node
      case EllipsisDim(_, ename, inner) =>
        if ename.None? {
          OneHopSuffices(inner, tbl, true, fuel, adjust);
        } else {
          NamedEllipsisOneHop(t, tbl, fuel, adjust);
        }
      case _ =>
        if OneChild(t) {
          ChildOneHop(t, tbl, rc, fuel, adjust);
        }
    }
  }

  lemma {:induction false} ChildOneHop(t: Type, tbl: SymbolTable, rc: bool, fuel: nat, adjust: Dimensions.SliceAdjust)
    requires TableOk(tbl) && ConcreteBindings(tbl) && fuel >= 1 && IsAbstract(t) && OneChild(t)
    ensures Substitute(t, tbl, rc, fuel, adjust) == Substitute(t, tbl, rc, 1, adjust)
    decreases Size(t), 0
  {
    OneHopSuffices(Child(t), tbl, rc, fuel, adjust);
  }

  lemma {:induction false} NamedEllipsisOneHop(t: Type, tbl: SymbolTable, fuel: nat, adjust: Dimensions.SliceAdjust)
    requires TableOk(tbl) && ConcreteBindings(tbl) && fuel >= 1
    requires t.node.EllipsisDim? && t.node.ename.Some?
    ensures NamedEllipsis(t, tbl, fuel, adjust) == NamedEllipsis(t, tbl, 1, adjust)
    decreases Size(t), 0
  {
    OneHopSuffices(t.node.inner, tbl, true, fuel, adjust);
  }
}
