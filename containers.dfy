/** Container and scalar constructors of ndtypes.c: tuples, records and
    unions over ndt_field_t members, flexible arrays, references,
    constraints, modules, function signatures, fixed bytes, bytes,
    typevars and the sized integer constructors. Allocation of the node
    and of its trailing arrays is not modelled. */
module Containers {
  import opened Results
  import opened Int64
  import opened Types
  import opened Invariants
  import opened Alignment
  import opened FieldLayout
  import opened Dimensions

  predicate FieldsMade(fields: seq<Field>) {
    forall i :: 0 <= i < |fields| ==> FieldMade(fields[i])
  }

  /** check_type_invariants holds for every member. */
  predicate MembersValid(fields: seq<Field>) {
    forall i :: 0 <= i < |fields| ==> CheckType(fields[i].ftype).Pass?
  }

  predicate AnyAbstract(fields: seq<Field>) {
    exists i :: 0 <= i < |fields| && fields[i].access == Abstract
  }

  /** A concrete member with an explicit 'align' or 'pack' attribute. */
  predicate AnyExplicitAlign(fields: seq<Field>) {
    exists i :: 0 <= i < |fields| && fields[i].access == Concrete && fields[i].explicitAlign
  }

  predicate AllNamed(fields: seq<Field>) {
    forall i :: 0 <= i < |fields| ==> fields[i].name.Some?
  }

  function MemberTypes(fields: seq<Field>): (ts: seq<Type>)
    ensures |ts| == |fields| && forall i :: 0 <= i < |fields| ==> ts[i] == fields[i].ftype
  {
    seq(|fields|, i requires 0 <= i < |fields| => fields[i].ftype)
  }

  function MemberNames(fields: seq<Field>): (ns: seq<string>)
    requires AllNamed(fields)
    ensures |ns| == |fields| && forall i :: 0 <= i < |fields| ==> ns[i] == fields[i].name.value
  {
    seq(|fields|, i requires 0 <= i < |fields| => fields[i].name.value)
  }

  /** The flags after `t->flags |= ndt_subtree_flags(fields[i].type)` for
      every member, starting from f. */
  function MembersFlags(f: Flags, fields: seq<Field>): Flags {
    if fields == [] then f
    else FlagsOr(MembersFlags(f, fields[..|fields| - 1]), SubtreeFlags(fields[|fields| - 1].ftype))
  }

  lemma {:induction false} MembersPointerFlags(f: Flags, fields: seq<Field>)
    ensures var g := MembersFlags(f, fields);
      && (g.pointer <==> f.pointer || exists i :: 0 <= i < |fields| && fields[i].ftype.flags.pointer)
      && (g.ref <==> f.ref || exists i :: 0 <= i < |fields| && fields[i].ftype.flags.ref)
    decreases |fields|
  {
    if fields != [] {
      var init := fields[..|fields| - 1];
      MembersPointerFlags(f, init);
      assert forall i :: 0 <= i < |init| ==> init[i] == fields[i];
    }
  }

  lemma {:induction false} MembersSubtreeFlags(f: Flags, fields: seq<Field>)
    ensures var g := MembersFlags(f, fields);
      && (g.chars <==> f.chars || exists i :: 0 <= i < |fields| && fields[i].ftype.flags.chars)
      && (g.subtreeOption <==>
            f.subtreeOption ||
            exists i :: 0 <= i < |fields| && (fields[i].ftype.flags.option || fields[i].ftype.flags.subtreeOption))
    decreases |fields|
  {
    if fields != [] {
      var init := fields[..|fields| - 1];
      MembersSubtreeFlags(f, init);
      assert forall i :: 0 <= i < |init| ==> init[i] == fields[i];
    }
  }

  /** A container keeps its own option bit and is a pointer, reference or
      char container, or has an optional subtree, exactly when one of its
      members says so. */
  lemma {:induction false} MembersFlagsOf(f: Flags, fields: seq<Field>)
    ensures var g := MembersFlags(f, fields);
      && g.option == f.option && g.ellipsis == f.ellipsis
      && g.littleEndian == f.littleEndian && g.bigEndian == f.bigEndian
      && (g.pointer <==> f.pointer || exists i :: 0 <= i < |fields| && fields[i].ftype.flags.pointer)
      && (g.ref <==> f.ref || exists i :: 0 <= i < |fields| && fields[i].ftype.flags.ref)
      && (g.chars <==> f.chars || exists i :: 0 <= i < |fields| && fields[i].ftype.flags.chars)
      && (g.subtreeOption <==>
            f.subtreeOption ||
            exists i :: 0 <= i < |fields| && (fields[i].ftype.flags.option || fields[i].ftype.flags.subtreeOption))
    decreases |fields|
  {
    MembersPointerFlags(f, fields);
    MembersSubtreeFlags(f, fields);
    if fields != [] {
      MembersFlagsOf(f, fields[..|fields| - 1]);
    }
  }

  /** The slot ndt_tuple_new and ndt_record_new give every field. */
  const DEFAULT_SLOT := Slot(0, 1, 0)

  /** What ndt_tuple and ndt_record compute alike: access, flags, size,
      alignment and the per-field slots. */
  datatype Members = Members(access: Access, flags: Flags, datasize: int, align: u16, slots: seq<Slot>)

  /** The common part of ndt_tuple and ndt_record. */
  function MembersSpec(variadic: bool, fields: seq<Field>, alignAttr: Option<u16>, pack: Option<u16>,
                       opt: bool): Result<Members>
    requires FieldsMade(fields)
  {
    if !MembersValid(fields) then Err(TypeError)
    else
      var flags := MembersFlags(OptFlags(opt), fields);
      if variadic || AnyAbstract(fields) then
        if AnyExplicitAlign(fields) then Err(InvalidArgumentError)
        else Ok(Members(Abstract, flags, ABSTRACT_DATASIZE, ABSTRACT_ALIGN, seq(|fields|, _ => DEFAULT_SLOT)))
      else
        var L :- ConcreteFieldsLayout(fields, alignAttr, pack);
        Ok(Members(Concrete, flags, L.datasize, L.align, L.slots))
  }

  /** The error cases and the access of a tuple or record: a member that
      fails check_type_invariants gives TypeError and nothing else does; an
      abstract container fails exactly when a concrete member carries an
      explicit alignment; the result is abstract exactly when it is variadic
      or has an abstract member, and then has the size and alignment of an
      abstract type. */
  lemma MembersFacts(variadic: bool, fields: seq<Field>, alignAttr: Option<u16>, pack: Option<u16>, opt: bool)
    requires FieldsMade(fields)
    ensures var r := MembersSpec(variadic, fields, alignAttr, pack, opt);
      && (r == Err(TypeError) <==> !MembersValid(fields))
      && (MembersValid(fields) && (variadic || AnyAbstract(fields)) ==>
            (r == Err(InvalidArgumentError) <==> AnyExplicitAlign(fields)) && (r.Err? ==> r.error == InvalidArgumentError))
      && (r.Ok? ==>
            && (r.value.access == Abstract <==> variadic || AnyAbstract(fields))
            && |r.value.slots| == |fields|
            && r.value.flags == MembersFlags(OptFlags(opt), fields)
            && (r.value.access == Abstract ==>
                  r.value.datasize == ABSTRACT_DATASIZE && r.value.align == ABSTRACT_ALIGN))
  {
  }

  /** A concrete tuple or record is laid out as init_concrete_fields
      promises, its fields do not overlap, and explicit pads are the natural
      ones. */
  lemma MembersLayout(variadic: bool, fields: seq<Field>, alignAttr: Option<u16>, pack: Option<u16>, opt: bool)
    requires FieldsMade(fields) && SizesNonNegative(fields)
    requires MembersSpec(variadic, fields, alignAttr, pack, opt).Ok?
    requires MembersSpec(variadic, fields, alignAttr, pack, opt).value.access == Concrete
    ensures var m := MembersSpec(variadic, fields, alignAttr, pack, opt).value;
      var L := Layout(m.slots, m.align, m.datasize);
      && !variadic && FieldsReady(fields)
      && GoodLayout(fields, pack, if alignAttr.Some? then alignAttr.value else 1, L)
      && (forall i, j :: 0 <= i < j < |fields| ==> SlotEnd(fields, m.slots, i) <= m.slots[j].offset)
      && (forall i :: 0 <= i < |fields| && fields[i].explicitPad ==> fields[i].pad == m.slots[i].pad)
  {
    var m := MembersSpec(variadic, fields, alignAttr, pack, opt).value;
    assert Ok(m) == MembersSpec(variadic, fields, alignAttr, pack, opt);
    assert FieldsReady(fields);
    LayoutFacts(fields, alignAttr, pack);
    var L := Layout(m.slots, m.align, m.datasize);
    var base: u16 := if alignAttr.Some? then alignAttr.value else 1;
    forall i, j | 0 <= i < j < |fields|
      ensures SlotEnd(fields, m.slots, i) <= m.slots[j].offset
    {
      SlotsDisjoint(fields, pack, base, L, i, j);
    }
  }

  /** The first loop of the constructors: check_type_invariants on every member. */
  method CheckMembers(fields: seq<Field>) returns (c: Check)
    ensures c.Pass? <==> MembersValid(fields)
    ensures c.Fail? ==> c.error == TypeError
  {
    var i := 0;
    while i < |fields|
      invariant 0 <= i <= |fields|
      invariant forall j :: 0 <= j < i ==> CheckType(fields[j].ftype).Pass?
    {
      var check := CheckType(fields[i].ftype);
      if check.Fail? {
        return check;
      }
      i := i + 1;
    }
    return Pass;
  }

  /** The "check concrete access" loop: any abstract member makes the
      container abstract. */
  method MembersAccess(initial: Access, fields: seq<Field>) returns (a: Access)
    ensures a == Abstract <==> initial == Abstract || AnyAbstract(fields)
  {
    a := initial;
    var i := 0;
    while i < |fields|
      invariant 0 <= i <= |fields|
      invariant a == Abstract <==> initial == Abstract || exists j :: 0 <= j < i && fields[j].access == Abstract
    {
      if fields[i].access == Abstract {
        a := Abstract;
      }
      i := i + 1;
    }
  }

  /** The loop rejecting explicit field alignment in an abstract container. */
  method HasExplicitAlign(fields: seq<Field>) returns (b: bool)
    ensures b == AnyExplicitAlign(fields)
  {
    var i := 0;
    while i < |fields|
      invariant 0 <= i <= |fields|
      invariant forall j :: 0 <= j < i ==> !(fields[j].access == Concrete && fields[j].explicitAlign)
    {
      if fields[i].access == Concrete && fields[i].explicitAlign {
        return true;
      }
      i := i + 1;
    }
    return false;
  }

  /** The flag accumulation of the member-storing loop. */
  method AddMembersFlags(f: Flags, fields: seq<Field>) returns (g: Flags)
    ensures g == MembersFlags(f, fields)
  {
    g := f;
    var i := 0;
    while i < |fields|
      invariant 0 <= i <= |fields|
      invariant g == MembersFlags(f, fields[..i])
    {
      assert fields[..i + 1][..i] == fields[..i];
      g := FlagsOr(g, SubtreeFlags(fields[i].ftype));
      i := i + 1;
    }
    assert fields[..i] == fields;
  }

  /** The body shared by ndt_tuple and ndt_record: concrete layouts are
      written into fresh offset, align and pad arrays. */
  method InitMembers(variadic: bool, fields: seq<Field>, alignAttr: Option<u16>, pack: Option<u16>, opt: bool)
      returns (r: Result<Members>)
    requires FieldsMade(fields)
    ensures r == MembersSpec(variadic, fields, alignAttr, pack, opt)
  {
    var valid := CheckMembers(fields);
    if valid.Fail? {
      return Err(valid.error);
    }
    var access := MembersAccess(if variadic then Abstract else Concrete, fields);
    if access == Abstract {
      var explicit := HasExplicitAlign(fields);
      if explicit {
        return Err(InvalidArgumentError);
      }
      var flags := AddMembersFlags(OptFlags(opt), fields);
      return Ok(Members(Abstract, flags, ABSTRACT_DATASIZE, ABSTRACT_ALIGN, seq(|fields|, _ => DEFAULT_SLOT)));
    }
    assert FieldsReady(fields);
    var offsets := new int[|fields|](_ => 0);
    var aligns := new u16[|fields|](_ => 1);
    var pads := new u16[|fields|](_ => 0);
    var sizing := InitConcreteFields(offsets, aligns, pads, fields, alignAttr, pack);
    if sizing.Err? {
      return Err(sizing.error);
    }
    var flags := AddMembersFlags(OptFlags(opt), fields);
    return Ok(Members(Concrete, flags, sizing.value.datasize, sizing.value.align,
                      Slots(offsets[..], aligns[..], pads[..])));
  }

  function TupleSpec(variadic: bool, fields: seq<Field>, alignAttr: Option<u16>, pack: Option<u16>,
                     opt: bool): Result<Type>
    requires FieldsMade(fields)
  {
    var m :- MembersSpec(variadic, fields, alignAttr, pack, opt);
    Ok(Type(m.access, m.flags, 0, m.datasize, m.align, Node.Tuple(variadic, MemberTypes(fields), m.slots)))
  }

  /** ndt_tuple: the members of a tuple are unnamed. */
  method Tuple(variadic: bool, fields: seq<Field>, alignAttr: Option<u16>, pack: Option<u16>, opt: bool)
      returns (r: Result<Type>)
    requires FieldsMade(fields)
    requires forall i :: 0 <= i < |fields| ==> fields[i].name.None?
    ensures r == TupleSpec(variadic, fields, alignAttr, pack, opt)
    ensures r.Ok? ==> r.value.node.Tuple? && r.value.node.types == MemberTypes(fields) && r.value.ndim == 0
  {
    var m :- InitMembers(variadic, fields, alignAttr, pack, opt);
    return Ok(Type(m.access, m.flags, 0, m.datasize, m.align, Node.Tuple(variadic, MemberTypes(fields), m.slots)));
  }

  function RecordSpec(variadic: bool, fields: seq<Field>, alignAttr: Option<u16>, pack: Option<u16>,
                      opt: bool): Result<Type>
    requires FieldsMade(fields) && AllNamed(fields)
  {
    var m :- MembersSpec(variadic, fields, alignAttr, pack, opt);
    Ok(Type(m.access, m.flags, 0, m.datasize, m.align,
            Node.Record(variadic, MemberNames(fields), MemberTypes(fields), m.slots)))
  }

  /** ndt_record: the members of a record are named. */
  method Record(variadic: bool, fields: seq<Field>, alignAttr: Option<u16>, pack: Option<u16>, opt: bool)
      returns (r: Result<Type>)
    requires FieldsMade(fields) && AllNamed(fields)
    ensures r == RecordSpec(variadic, fields, alignAttr, pack, opt)
    ensures r.Ok? ==>
      && r.value.node.Record? && r.value.node.types == MemberTypes(fields)
      && r.value.node.names == MemberNames(fields) && r.value.ndim == 0
  {
    var m :- InitMembers(variadic, fields, alignAttr, pack, opt);
    return Ok(Type(m.access, m.flags, 0, m.datasize, m.align,
                   Node.Record(variadic, MemberNames(fields), MemberTypes(fields), m.slots)));
  }

  /** The most members a union may have (its tag is one byte). */
  const MAX_TAGS: int := 255

  function UnionSpec(fields: seq<Field>, opt: bool): Result<Type>
    requires FieldsMade(fields) && AllNamed(fields)
  {
    if |fields| == 0 || |fields| > MAX_TAGS then Err(ValueError)
    else if !MembersValid(fields) then Err(TypeError)
    else
      var flags := MembersFlags(OptFlags(opt), fields);
      var node := Node.Union(MemberNames(fields), MemberTypes(fields));
      if AnyAbstract(fields) then
        if AnyExplicitAlign(fields) then Err(InvalidArgumentError)
        else Ok(Type(Abstract, flags, 0, ABSTRACT_DATASIZE, ABSTRACT_ALIGN, node))
      else if AnyRef(fields) then Err(ValueError)
      else Ok(Type(Concrete, flags, 0, 1 + MaxDatasize(fields), 1, node))
  }

  /** A union has 1 to 255 members; a concrete one holds no reference, has
      alignment 1 and one tag byte in front of its largest member. */
  lemma UnionFacts(fields: seq<Field>, opt: bool)
    requires FieldsMade(fields) && AllNamed(fields)
    ensures var r := UnionSpec(fields, opt);
      && (r.Ok? ==> 1 <= |fields| <= MAX_TAGS && MembersValid(fields))
      && (r.Ok? ==> (IsAbstract(r.value) <==> AnyAbstract(fields)))
      && (r.Ok? && IsConcrete(r.value) ==>
            && r.value.align == 1 && !AnyRef(fields)
            && (forall i :: 0 <= i < |fields| ==> fields[i].ftype.datasize < r.value.datasize)
            && (r.value.datasize == 1 ||
                exists i :: 0 <= i < |fields| && r.value.datasize == 1 + fields[i].ftype.datasize))
      && (1 <= |fields| <= MAX_TAGS && MembersValid(fields) && !AnyAbstract(fields) ==>
            (r.Err? <==> AnyRef(fields)))
  {
    MaxDatasizeBounds(fields);
  }

  /** ndt_union. */
  method Union(fields: seq<Field>, opt: bool) returns (r: Result<Type>)
    requires FieldsMade(fields) && AllNamed(fields)
    ensures r == UnionSpec(fields, opt)
  {
    if |fields| == 0 || |fields| > MAX_TAGS {
      return Err(ValueError);
    }
    var valid := CheckMembers(fields);
    if valid.Fail? {
      return Err(valid.error);
    }
    var access := MembersAccess(Concrete, fields);
    var node := Node.Union(MemberNames(fields), MemberTypes(fields));
    if access == Abstract {
      var explicit := HasExplicitAlign(fields);
      if explicit {
        return Err(InvalidArgumentError);
      }
      var flags := AddMembersFlags(OptFlags(opt), fields);
      return Ok(Type(Abstract, flags, 0, ABSTRACT_DATASIZE, ABSTRACT_ALIGN, node));
    }
    var sizing := InitConcreteTags(fields);
    if sizing.Err? {
      return Err(sizing.error);
    }
    var flags := AddMembersFlags(OptFlags(opt), fields);
    return Ok(Type(Concrete, flags, 0, sizing.value.datasize, sizing.value.align, node));
  }

  /** ndt_array: a flexible array of 'inner' elements, itself a pointer. */
  function Array(inner: Type, opt: bool): (r: Result<Type>)
    ensures r.Ok? <==> CheckArray(inner).Pass?
    ensures r.Err? ==> r.error == TypeError
    ensures r.Ok? ==>
      && r.value.node == Node.Array(inner, inner.datasize)
      && r.value.access == inner.access && r.value.ndim == inner.ndim + 1
      && r.value.flags.pointer && r.value.flags.option == opt && !r.value.flags.ref
      && r.value.datasize == ARRAY_SIZE && r.value.align == ARRAY_ALIGN
  {
    var nesting := CheckArray(inner);
    :- nesting;
    Ok(Type(inner.access, FlagsOr(OptFlags(opt).(pointer := true), SubtreeFlags(inner)), inner.ndim + 1,
            ARRAY_SIZE, ARRAY_ALIGN, Node.Array(inner, inner.datasize)))
  }

  /** ndt_ref: a pointer to 'inner', with the access of 'inner'. */
  function Ref(inner: Type, opt: bool): (r: Result<Type>)
    ensures r.Ok? <==> CheckType(inner).Pass?
    ensures r.Err? ==> r.error == TypeError
    ensures r.Ok? ==>
      && r.value.node == Node.Ref(inner) && r.value.access == inner.access && r.value.ndim == 0
      && r.value.flags.pointer && r.value.flags.ref && r.value.flags.option == opt
      && r.value.datasize == POINTER_SIZE && r.value.align == POINTER_ALIGN
  {
    var nesting := CheckType(inner);
    :- nesting;
    Ok(Type(inner.access, FlagsOr(OptFlags(opt).(pointer := true, ref := true), SubtreeFlags(inner)), 0,
            POINTER_SIZE, POINTER_ALIGN, Node.Ref(inner)))
  }

  /** ndt_constr: a named wrapper with the layout of 'inner' when concrete. */
  function Constr(name: string, inner: Type, opt: bool): (r: Result<Type>)
    ensures r.Ok? <==> CheckType(inner).Pass?
    ensures r.Err? ==> r.error == TypeError
    ensures r.Ok? ==>
      && r.value.node == Node.Constr(name, inner) && r.value.access == inner.access
      && r.value.flags == FlagsOr(OptFlags(opt), SubtreeFlags(inner)) && r.value.ndim == 0
      && (IsConcrete(inner) ==> r.value.datasize == inner.datasize && r.value.align == inner.align)
      && (IsAbstract(inner) ==> r.value.datasize == ABSTRACT_DATASIZE && r.value.align == ABSTRACT_ALIGN)
  {
    var nesting := CheckType(inner);
    :- nesting;
    var flags := FlagsOr(OptFlags(opt), SubtreeFlags(inner));
    if IsConcrete(inner) then Ok(Type(Concrete, flags, 0, inner.datasize, inner.align, Node.Constr(name, inner)))
    else Ok(Type(Abstract, flags, 0, ABSTRACT_DATASIZE, ABSTRACT_ALIGN, Node.Constr(name, inner)))
  }

  /** ndt_module: an abstract namespace; it checks nothing. */
  function Module(name: string, inner: Type): (r: Type)
    ensures IsAbstract(r) && r.node == Node.Module(name, inner) && r.ndim == 0
    ensures r.flags == SubtreeFlags(inner) && !r.flags.option
  {
    Type(Abstract, SubtreeFlags(inner), 0, ABSTRACT_DATASIZE, ABSTRACT_ALIGN, Node.Module(name, inner))
  }

  /** The flags after `t->flags |= ndt_dim_flags(types[i])` for every argument. */
  function ArgsFlags(types: seq<Type>): Flags {
    if types == [] then NoFlags
    else FlagsOr(ArgsFlags(types[..|types| - 1]), DimFlags(types[|types| - 1]))
  }

  /** A signature has an ellipsis flag exactly when one of its arguments does. */
  lemma {:induction false} ArgsFlagsEllipsis(types: seq<Type>)
    ensures ArgsFlags(types).ellipsis <==> exists i :: 0 <= i < |types| && types[i].flags.ellipsis
    ensures !ArgsFlags(types).option
    decreases |types|
  {
    if types != [] {
      var init := types[..|types| - 1];
      ArgsFlagsEllipsis(init);
      assert forall i :: 0 <= i < |init| ==> init[i] == types[i];
    }
  }

  /** ndt_function: nin inputs followed by nout outputs. */
  method Function(types: seq<Type>, nin: int, nout: int) returns (r: Result<Type>)
    requires 0 <= nin && 0 <= nout && |types| == nin + nout
    ensures r.Ok? <==> FunctionArgsValid(types, nin)
    ensures r.Err? ==> r.error == ValueError
    ensures r.Ok? ==>
      r.value == Type(Abstract, ArgsFlags(types), 0, ABSTRACT_DATASIZE, ABSTRACT_ALIGN,
                      Node.Function(nin, nout, ElemwiseArgs(types), types))
  {
    var valid := CheckFunction(types, nin);
    if valid.Fail? {
      return Err(valid.error);
    }
    var elemwise := IsElemwise(types);
    var flags := NoFlags;
    var i := 0;
    while i < |types|
      invariant 0 <= i <= |types|
      invariant flags == ArgsFlags(types[..i])
    {
      assert types[..i + 1][..i] == types[..i];
      flags := FlagsOr(flags, DimFlags(types[i]));
      i := i + 1;
    }
    assert types[..i] == types;
    return Ok(Type(Abstract, flags, 0, ABSTRACT_DATASIZE, ABSTRACT_ALIGN, Node.Function(nin, nout, elemwise, types)));
  }

  /** ndt_fixed_bytes: 'size' bytes, whose alignment must divide the size. */
  function FixedBytes(size: int, alignAttr: Option<u16>, opt: bool): (r: Result<Type>)
    ensures r.Ok? <==> GetAlign(alignAttr, 1).Ok? && MultipleOf(size, GetAlign(alignAttr, 1).value)
    ensures r.Err? ==> r.error == ValueError
    ensures r.Ok? ==>
      && IsConcrete(r.value) && r.value.datasize == size && IsPower2(r.value.align)
      && r.value.align == GetAlign(alignAttr, 1).value
      && r.value.node == Node.FixedBytes(size, r.value.align) && r.value.flags == OptFlags(opt)
  {
    var align :- GetAlign(alignAttr, 1);
    :- Need(size % align == 0, ValueError);
    Ok(Type(Concrete, OptFlags(opt), 0, size, align, Node.FixedBytes(size, align)))
  }

  /** ndt_bytes: a pointer-sized descriptor of variable-length bytes whose
      target alignment is recorded. */
  function Bytes(targetAlign: Option<u16>, opt: bool): (r: Result<Type>)
    ensures r.Ok? <==> GetAlign(targetAlign, 1).Ok?
    ensures r.Err? ==> r.error == ValueError
    ensures r.Ok? ==>
      && IsConcrete(r.value) && r.value.node == Node.Bytes(GetAlign(targetAlign, 1).value)
      && IsPower2(r.value.node.targetAlign)
      && r.value.flags == OptFlags(opt).(pointer := true)
      && r.value.datasize == BYTES_SIZE && r.value.align == BYTES_ALIGN
  {
    var align :- GetAlign(targetAlign, 1);
    Ok(Type(Concrete, OptFlags(opt).(pointer := true), 0, BYTES_SIZE, BYTES_ALIGN, Node.Bytes(align)))
  }

  /** ndt_typevar: an abstract type variable. */
  function Typevar(name: string): (r: Type)
    ensures IsAbstract(r) && r.node == Node.Typevar(name) && r.flags == NoFlags && r.ndim == 0
  {
    Type(Abstract, NoFlags, 0, ABSTRACT_DATASIZE, ABSTRACT_ALIGN, Node.Typevar(name))
  }

  predicate IsSignedPrim(p: Prim) {
    p in {Int8, Int16, Int32, Int64}
  }

  predicate IsUnsignedPrim(p: Prim) {
    p in {Uint8, Uint16, Uint32, Uint64}
  }

  /** The width in bytes that the name of an integer primitive states. */
  function IntWidth(p: Prim): int {
    match p
    case Int8 => 1
    case Uint8 => 1
    case Int16 => 2
    case Uint16 => 2
    case Int32 => 4
    case Uint32 => 4
    case Int64 => 8
    case Uint64 => 8
    case _ => 0
  }

  /** The call ndt_primitive(tag, flags) that ndt_signed and ndt_unsigned
      delegate to: the primitive's tag and the flags the caller asked for.
      ndt_primitive itself is defined outside these files. */
  datatype PrimitiveCall = PrimitiveCall(tag: Prim, flags: Flags)

  /** ndt_signed: the signed integer primitive of a byte width, with the
      caller's flags passed on. */
  function Signed(size: int, flags: Flags): (r: Result<PrimitiveCall>)
    ensures r.Ok? <==> size in {1, 2, 4, 8}
    ensures r.Err? ==> r.error == ValueError
    ensures r.Ok? ==> IsSignedPrim(r.value.tag) && IntWidth(r.value.tag) == size
    ensures r.Ok? ==> r.value.flags == flags
  {
    match size
    case 1 => Ok(PrimitiveCall(Int8, flags))
    case 2 => Ok(PrimitiveCall(Int16, flags))
    case 4 => Ok(PrimitiveCall(Int32, flags))
    case 8 => Ok(PrimitiveCall(Int64, flags))
    case _ => Err(ValueError)
  }

  /** ndt_unsigned: the unsigned integer primitive of a byte width, with the
      caller's flags passed on. */
  function Unsigned(size: int, flags: Flags): (r: Result<PrimitiveCall>)
    ensures r.Ok? <==> size in {1, 2, 4, 8}
    ensures r.Err? ==> r.error == ValueError
    ensures r.Ok? ==> IsUnsignedPrim(r.value.tag) && IntWidth(r.value.tag) == size
    ensures r.Ok? ==> r.value.flags == flags
  {
    match size
    case 1 => Ok(PrimitiveCall(Uint8, flags))
    case 2 => Ok(PrimitiveCall(Uint16, flags))
    case 4 => Ok(PrimitiveCall(Uint32, flags))
    case 8 => Ok(PrimitiveCall(Uint64, flags))
    case _ => Err(ValueError)
  }

  /** Signed and Unsigned are inverse to IntWidth on their primitives, and
      keep the flags. */
  lemma IntWidthRoundTrip(p: Prim, flags: Flags)
    ensures IsSignedPrim(p) ==> Signed(IntWidth(p), flags) == Ok(PrimitiveCall(p, flags))
    ensures IsUnsignedPrim(p) ==> Unsigned(IntWidth(p), flags) == Ok(PrimitiveCall(p, flags))
  {
  }
}
