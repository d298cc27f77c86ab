/** The nesting checks that the constructors of ndtypes.c run on the child
    type before building a node (check_*_invariants), and the checks on the
    argument list of a function signature. */
module Invariants {
  import opened Results
  import opened Types

  /** check_type_invariants: every member of a container. */
  function CheckType(t: Type): (r: Check)
    ensures r.Fail? ==> r.error == TypeError
    ensures r.Pass? <==> !t.node.Module? && t.ndim < MAX_DIM
  {
    if t.node.Module? then Fail(TypeError)
    else if t.ndim >= MAX_DIM then Fail(TypeError)
    else Pass
  }

  /** check_fixed_invariants: the child of a fixed or symbolic dimension. */
  function CheckFixed(t: Type): (r: Check)
    ensures r.Fail? ==> r.error == TypeError
    ensures r.Pass? <==> CheckType(t).Pass? && !IsVarNode(t) && !t.node.Array?
  {
    if t.node.Module? then Fail(TypeError)
    else if t.node.VarDim? || t.node.VarDimElem? || t.node.Array? then Fail(TypeError)
    else if t.ndim >= MAX_DIM then Fail(TypeError)
    else Pass
  }

  /** check_abstract_var_invariants: the child of an abstract var dimension. */
  function CheckAbstractVar(t: Type): (r: Check)
    ensures r.Fail? ==> r.error == TypeError
    ensures r.Pass? <==>
      && CheckType(t).Pass? && !t.node.FixedDim? && !t.node.SymbolicDim? && !t.node.Array?
      && (IsVarNode(t) ==> t.node.VarDim? && IsAbstract(t))
  {
    if t.node.Module? then Fail(TypeError)
    else if t.node.FixedDim? || t.node.SymbolicDim? || t.node.Array? then Fail(TypeError)
    else if (t.node.VarDim? && IsConcrete(t)) || t.node.VarDimElem? then Fail(TypeError)
    else if t.ndim >= MAX_DIM then Fail(TypeError)
    else Pass
  }

  /** check_var_invariants: the child of a concrete var dimension. */
  function CheckVar(t: Type): (r: Check)
    ensures r.Fail? ==> r.error == TypeError
    ensures r.Pass? <==>
      && CheckType(t).Pass? && !t.node.FixedDim? && !t.node.SymbolicDim? && !t.node.Array?
      && (IsVarNode(t) ==> IsConcrete(t))
    ensures IsVarNode(t) && r.Pass? ==> CheckAbstractVar(t).Fail?
  {
    if t.node.Module? then Fail(TypeError)
    else if t.node.FixedDim? || t.node.SymbolicDim? || t.node.Array? then Fail(TypeError)
    else if IsVarNode(t) && IsAbstract(t) then Fail(TypeError)
    else if t.ndim >= MAX_DIM then Fail(TypeError)
    else Pass
  }

  /** check_array_invariants: the element of a flexible array. */
  function CheckArray(t: Type): (r: Check)
    ensures r.Fail? ==> r.error == TypeError
    ensures r.Pass? <==>
      !t.node.Module? && !t.node.FixedDim? && !t.node.SymbolicDim? && !IsVarNode(t) && IsRefFree(t)
  {
    if t.node.Module? then Fail(TypeError)
    else if t.node.FixedDim? || t.node.SymbolicDim? || IsVarNode(t) then Fail(TypeError)
    else if !IsRefFree(t) then Fail(TypeError)
    else Pass
  }

  /** check_ellipsis_invariants: the child of an ellipsis dimension. */
  function CheckEllipsis(t: Type): (r: Check)
    ensures r == CheckType(t)
  {
    if t.node.Module? then Fail(TypeError)
    else if t.ndim >= MAX_DIM then Fail(TypeError)
    else Pass
  }

  /** strcmp_null on the (possibly missing) names of two ellipses. */
  predicate SameEllipsisName(s: Type, t: Type)
    requires s.node.EllipsisDim? && t.node.EllipsisDim?
  {
    s.node.ename == t.node.ename
  }

  /** What check_function_invariants accepts: outputs of a function without
      inputs must be concrete, and either no argument or every argument is an
      ellipsis dimension, all with the same name. */
  ghost predicate FunctionArgsValid(types: seq<Type>, nin: int) {
    |types| == 0 ||
    ((nin != 0 || forall i :: 0 <= i < |types| ==> IsConcrete(types[i])) &&
     ((forall i :: 0 <= i < |types| ==> !types[i].node.EllipsisDim?) ||
      ((forall i :: 0 <= i < |types| ==> types[i].node.EllipsisDim?) &&
       forall i :: 0 <= i < |types| ==> types[i].node.ename == types[0].node.ename)))
  }

  /** check_function_invariants, loop by loop. */
  method CheckFunction(types: seq<Type>, nin: int) returns (c: Check)
    ensures c.Pass? <==> FunctionArgsValid(types, nin)
    ensures c.Fail? ==> c.error == ValueError
  {
    var nargs := |types|;
    if nargs == 0 {
      return Pass;
    }
    if nin == 0 {
      var i := 0;
      while i < nargs
        invariant 0 <= i <= nargs
        invariant forall j :: 0 <= j < i ==> IsConcrete(types[j])
      {
        if IsAbstract(types[i]) {
          return Fail(ValueError);
        }
        i := i + 1;
      }
    }
    var count := 0;
    var i := 0;
    while i < nargs
      invariant 0 <= i <= nargs
      invariant count == EllipsisCount(types[..i])
    {
      assert types[..i + 1][..i] == types[..i];
      if types[i].node.EllipsisDim? {
        count := count + 1;
      }
      i := i + 1;
    }
    assert types[..nargs] == types;
    EllipsisCountRange(types);
    if count == 0 {
      return Pass;
    }
    if count != nargs {
      return Fail(ValueError);
    }
    i := 1;
    while i < nargs
      invariant 1 <= i <= nargs
      invariant forall j :: 0 <= j < i ==> types[j].node.ename == types[0].node.ename
    {
      if !SameEllipsisName(types[0], types[i]) {
        return Fail(ValueError);
      }
      i := i + 1;
    }
    return Pass;
  }

  /** The number of ellipsis dimensions among the arguments. */
  function EllipsisCount(types: seq<Type>): nat {
    if types == [] then 0
    else EllipsisCount(types[..|types| - 1]) + if types[|types| - 1].node.EllipsisDim? then 1 else 0
  }

  lemma {:induction false} EllipsisCountRange(types: seq<Type>)
    ensures EllipsisCount(types) <= |types|
    ensures EllipsisCount(types) == 0 <==> forall i :: 0 <= i < |types| ==> !types[i].node.EllipsisDim?
    ensures EllipsisCount(types) == |types| <==> forall i :: 0 <= i < |types| ==> types[i].node.EllipsisDim?
  {
    if types != [] {
      var init := types[..|types| - 1];
      EllipsisCountRange(init);
      assert forall i :: 0 <= i < |init| ==> init[i] == types[i];
    }
  }

  /** What is_elemwise tests: every argument is scalar or a lone ellipsis. */
  predicate ElemwiseArgs(types: seq<Type>) {
    forall i :: 0 <= i < |types| ==>
      (types[i].ndim == 1 && types[i].node.EllipsisDim?) || types[i].ndim == 0
  }

  method IsElemwise(types: seq<Type>) returns (b: bool)
    ensures b == ElemwiseArgs(types)
  {
    var i := 0;
    while i < |types|
      invariant 0 <= i <= |types|
      invariant ElemwiseArgs(types[..i])
    {
      if (types[i].ndim == 1 && types[i].node.EllipsisDim?) || types[i].ndim == 0 {
        assert types[..i + 1] == types[..i] + [types[i]];
        i := i + 1;
        continue;
      }
      assert !ElemwiseArgs(types) by {
        assert !((types[i].ndim == 1 && types[i].node.EllipsisDim?) || types[i].ndim == 0);
      }
      return false;
    }
    assert types[..i] == types;
    return true;
  }
}
