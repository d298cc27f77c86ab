/** The type tree of libndtypes (ndt_t): a tagged node plus the fields every
    node carries (access, flags, ndim, datasize, align). Types are immutable
    values once built; reference counting is not modelled. */
module Types {
  import opened Results
  import opened Int64

  /** NDT_MAX_DIM of ndtypes.h. */
  const MAX_DIM: int := 128

  /** Sizes and alignments from the C ABI (sizeof(void *), ndt_array_t,
      ndt_bytes_t), fixed here at their LP64 values. */
  const POINTER_SIZE: int := 8
  const POINTER_ALIGN: int := 8
  const ARRAY_SIZE: int := 16
  const ARRAY_ALIGN: int := 8
  const BYTES_SIZE: int := 16
  const BYTES_ALIGN: int := 8

  datatype Access = Abstract | Concrete

  /** enum ndt_contig: the contiguity requirement attached to a dimension. */
  datatype Contig = RequireNA | RequireC | RequireF

  /** The flag bits of ndt_t.flags that the core reads or writes. */
  datatype Flags = Flags(
    option: bool,          // NDT_OPTION
    subtreeOption: bool,   // NDT_SUBTREE_OPTION
    pointer: bool,         // NDT_POINTER
    ref: bool,             // NDT_REF
    chars: bool,           // NDT_CHAR
    ellipsis: bool,        // NDT_ELLIPSIS
    littleEndian: bool,    // NDT_LITTLE_ENDIAN
    bigEndian: bool)       // NDT_BIG_ENDIAN

  const NoFlags := Flags(false, false, false, false, false, false, false, false)

  function OptFlags(opt: bool): Flags {
    NoFlags.(option := opt)
  }

  function FlagsOr(f: Flags, g: Flags): (h: Flags) {
    Flags(f.option || g.option, f.subtreeOption || g.subtreeOption,
          f.pointer || g.pointer, f.ref || g.ref, f.chars || g.chars,
          f.ellipsis || g.ellipsis, f.littleEndian || g.littleEndian,
          f.bigEndian || g.bigEndian)
  }

  /** One entry of a var dimension's slice stack (ndt_slice_t). */
  datatype Slice = Slice(start: int, stop: int, step: int)

  /** The fixed-width primitives that libndtypes keeps as static objects. */
  datatype Prim =
    | Bool | Int8 | Int16 | Int32 | Int64 | Uint8 | Uint16 | Uint32 | Uint64
    | BFloat16 | Float16 | Float32 | Float64
    | BComplex32 | Complex32 | Complex64 | Complex128
    | String

  /** The symbolic kinds (AnyKind, ScalarKind, SignedKind, ...). */
  datatype Kind =
    | AnyKind | ScalarKind | SignedKind | UnsignedKind | FloatKind | ComplexKind
    | FixedStringKind | FixedBytesKind

  datatype Encoding = Ascii | Utf8 | Utf16 | Utf32 | Ucs2

  /** Concrete.Tuple.offset[i], align[i] and pad[i] of one tuple or record field. */
  datatype Slot = Slot(offset: int, align: u16, pad: u16)

  datatype Type = Type(access: Access, flags: Flags, ndim: int, datasize: int, align: u16, node: Node)

  datatype Node =
    | Module(name: string, inner: Type)
    | Function(nin: int, nout: int, elemwise: bool, args: seq<Type>)
    | FixedDim(contig: Contig, shape: int, inner: Type, itemsize: int, step: int)
    | VarDim(inner: Type, itemsize: int, offsets: seq<int>, slices: seq<Slice>)
    | VarDimElem(inner: Type, itemsize: int, offsets: seq<int>, slices: seq<Slice>, index: int)
    | SymbolicDim(contig: Contig, name: string, inner: Type)
    | EllipsisDim(contig: Contig, ename: Option<string>, inner: Type)
    | Array(inner: Type, itemsize: int)
    | Tuple(variadic: bool, types: seq<Type>, slots: seq<Slot>)
    | Record(variadic: bool, names: seq<string>, types: seq<Type>, slots: seq<Slot>)
    | Union(tags: seq<string>, types: seq<Type>)
    | Ref(inner: Type)
    | Constr(name: string, inner: Type)
    | Typevar(name: string)
    | KindNode(kind: Kind)
    | FixedString(size: int, encoding: Encoding)
    | FixedBytes(size: int, falign: u16)
    | Bytes(targetAlign: u16)
    | Char(encoding: Encoding)
    | Primitive(prim: Prim)

  predicate IsAbstract(t: Type) {
    t.access == Abstract
  }

  predicate IsConcrete(t: Type) {
    t.access == Concrete
  }

  predicate IsOptional(t: Type) {
    t.flags.option
  }

  predicate IsRefFree(t: Type) {
    !t.flags.ref
  }

  predicate IsVarNode(t: Type) {
    t.node.VarDim? || t.node.VarDimElem?
  }

  /** ndt_is_static: the objects ndt_copy and ndt_incref never duplicate. */
  predicate IsStatic(t: Type) {
    t.node.Primitive? ||
    (t.node.KindNode? && t.node.kind in {SignedKind, UnsignedKind, FloatKind, ComplexKind})
  }

  /** ndt_is_ndarray: a fixed dimension or a type without dimensions. */
  predicate IsNdarray(t: Type) {
    t.node.FixedDim? || t.ndim == 0
  }

  /** ndt_subtree_flags: the flags a container inherits from a member. */
  function SubtreeFlags(t: Type): (f: Flags)
    ensures f.subtreeOption <==> t.flags.option || t.flags.subtreeOption
    ensures f.pointer == t.flags.pointer && f.ref == t.flags.ref && f.chars == t.flags.chars
    ensures !f.option && !f.ellipsis && !f.littleEndian && !f.bigEndian
  {
    NoFlags.(subtreeOption := t.flags.option || t.flags.subtreeOption,
             pointer := t.flags.pointer, ref := t.flags.ref, chars := t.flags.chars)
  }

  /** ndt_dim_flags: subtree flags plus the ellipsis flag. */
  function DimFlags(t: Type): Flags {
    SubtreeFlags(t).(ellipsis := t.flags.ellipsis)
  }

  /** ndt_itemsize of a concrete type. */
  function ItemSize(t: Type): int {
    match t.node
    case FixedDim(_, _, _, itemsize, _) => itemsize
    case VarDim(_, itemsize, _, _) => itemsize
    case VarDimElem(_, itemsize, _, _, _) => itemsize
    case _ => t.datasize
  }

  /** Nodes with exactly one child type. */
  predicate HasInner(t: Type) {
    t.node.Module? || t.node.FixedDim? || t.node.VarDim? || t.node.VarDimElem? ||
    t.node.SymbolicDim? || t.node.EllipsisDim? || t.node.Array? || t.node.Ref? ||
    t.node.Constr?
  }

  /** Dimension nodes: the ones ndt_dtype and ndt_dims_dtype step through. */
  predicate IsDimNode(t: Type) {
    t.node.FixedDim? || t.node.VarDim? || t.node.VarDimElem? ||
    t.node.SymbolicDim? || t.node.EllipsisDim? || t.node.Array?
  }

  /** Structural size, the termination measure of the rewrites. */
  function Size(t: Type): nat {
    match t.node
    case Function(_, _, _, args) => 1 + SizeSeq(args)
    case Tuple(_, types, _) => 1 + SizeSeq(types)
    case Record(_, _, types, _) => 1 + SizeSeq(types)
    case Union(_, types) => 1 + SizeSeq(types)
    case Module(_, inner) => 1 + Size(inner)
    case FixedDim(_, _, inner, _, _) => 1 + Size(inner)
    case VarDim(inner, _, _, _) => 1 + Size(inner)
    case VarDimElem(inner, _, _, _, _) => 1 + Size(inner)
    case SymbolicDim(_, _, inner) => 1 + Size(inner)
    case EllipsisDim(_, _, inner) => 1 + Size(inner)
    case Array(inner, _) => 1 + Size(inner)
    case Ref(inner) => 1 + Size(inner)
    case Constr(_, inner) => 1 + Size(inner)
    case _ => 1
  }

  function SizeSeq(s: seq<Type>): nat {
    if s == [] then 0 else Size(s[0]) + SizeSeq(s[1..])
  }

  lemma InnerSmaller(t: Type)
    requires HasInner(t)
    ensures Size(t.node.inner) < Size(t)
  {
  }

  /** ndt_dtype: the type below all dimensions. Its definition is not among
      the modelled sources; the model strips every dimension node. */
  function DType(t: Type): (r: Type)
    ensures Size(r) <= Size(t)
    ensures !IsDimNode(r)
    ensures !IsDimNode(t) ==> r == t
  {
    if IsDimNode(t) then DType(t.node.inner) else t
  }

  /** ndt_dims_dtype: the dimension nodes of t, outermost first. */
  function Dims(t: Type): (ds: seq<Type>)
    ensures forall i :: 0 <= i < |ds| ==> IsDimNode(ds[i])
  {
    if IsDimNode(t) then [t] + Dims(t.node.inner) else []
  }
}
