# libndtypes core in Dafny

This project models the core of libndtypes, the C library behind the Python
`ndtypes` package. It covers three files.

- `ndtypes.c` builds the type tree (`ndt_t`). Its smart constructors cover
  dimensions, containers and scalars. For concrete nodes they compute the
  memory layout: default steps, data sizes, field offsets, padding and
  alignment. The file also checks the nesting invariants between node kinds,
  answers the C, Fortran and var contiguity questions, and converts a
  C-contiguous array to Fortran order.
- `copy.c` makes shallow copies of types and contiguous re-layouts. The
  re-layout of ragged var dimensions is a two-pass walk over a shared table
  of counters and offset arrays.
- `substitute.c` replaces symbolic dimensions, type variables and named
  ellipses by what a symbol table binds them to.

A type is an immutable value:
`datatype Type = Type(access, flags, ndim, datasize, align, node)`, where
`node` is one of the tags of `enum ndt`. Every fallible constructor returns a
`Result<Type>`, so the NULL return and the context error of the C code become
an `Err` carrying the error kind. int64 arithmetic with overflow detection
(the `ADDi64`/`MULi64`/`ABSi64`/`DIVi64` helpers) returns the two's-complement
value together with the overflow flag.

Where the C code changes state in place, the model does too:
- `init_concrete_fields` fills three arrays;
- `var_copy_shapes` updates an `offsets_t` table, modelled as the class
  `VarCopy.OffsetsTable`;
- `substitute_named_ellipsis` runs descending loops.

Each of these is a method proved equal to a specification function, and the
properties are proved about that function.

One behaviour of `var_copy_contiguous` follows from the code rather than
from a stated intent. `active[]` starts out false (copy.c:630), and the
rebuild skips inactive dimensions (copy.c:596-601). So a var dimension
that the walk never reaches is dropped from the copy. For example, the
contiguous copy of `var * var * int64`, with its outer list sliced empty,
has one dimension fewer than the original. `VarCopy.VarCopyActive` states
this. The model keeps the behaviour, which has not been executed.

Modules, in dependency order:
- `Results`: the error kinds and `Result`.
- `Int64`: checked int64 arithmetic, `round_up`, powers of two.
- `Types`: the type tree.
- `Invariants`: the `check_*_invariants` checks, `check_function_invariants`
  and `is_elemwise`.
- `Alignment`: `get_align`, `min_field_align` and `ndt_field`.
- `FieldLayout`: `init_concrete_fields` and `init_concrete_tags`.
- `Dimensions`: the dimension constructors.
- `Containers`: tuples, records, unions and the other constructors.
- `Contiguity`: the contiguity tests and `ndt_to_fortran`.
- `TypeCopy`: `ndt_copy`.
- `VarCopy`: the var-dimension re-layout.
- `Relayout`: `fixed_copy_contiguous`, `ndt_copy_contiguous_dtype` and
  `ndt_copy_abstract_var_dtype`.
- `Substitute`: `ndt_substitute`.

Some functions the core calls are defined outside the three files, and the
model stands in for them:
- `ndt_slice_adjust_indices` (slice.h) is a function-typed parameter
  (`Dimensions.SliceAdjust`).
- `ndt_dtype` returns the type below all dimensions (`Types.DType`).
- `ndt_primitive` (a tag and flags to the static primitive type) is defined
  outside these files; `ndt_signed` and `ndt_unsigned` return the call they
  make to it (`Containers.PrimitiveCall`: the tag and the caller's flags).
- The symbol table (symtable.c) is a `map<string, Binding>`, and
  `symtable_find_shape` returns -1 for a name not bound to a shape.
- `NDT_MAX_DIM` is 128.
- Pointer, `ndt_array_t` and `ndt_bytes_t` sizes and alignments are fixed at
  their LP64 values of 8 and 16.

## Model

| member | source | states |
|---|---|---|
| Int64.AddI64 | ndtypes/libndtypes/ndtypes.c:75-83 | the overflow flag is set exactly when the sum leaves int64; otherwise the value is the sum |
| Int64.MulI64 | ndtypes/libndtypes/ndtypes.c:1493-1509 | the overflow flag is set exactly when the product leaves int64; otherwise the value is the product |
| Int64.AbsI64 | ndtypes/libndtypes/ndtypes.c:1493-1509 | overflow exactly when the absolute value leaves int64 (only for INT64_MIN); otherwise the absolute value |
| Int64.DivI64 | ndtypes/libndtypes/ndtypes.c:1466-1491 | overflow on division by zero or when the quotient, truncated toward zero, leaves int64; otherwise that quotient |
| Int64.Max16 | ndtypes/libndtypes/ndtypes.c:57-61 | the result is at least both arguments and is one of them |
| Int64.IsPower2Exactly | ndtypes/libndtypes/ndtypes.c:69-73 | ispower2 holds exactly for the powers 2^k |
| Int64.RoundUp | ndtypes/libndtypes/ndtypes.c:75-83 | the overflow flag is set exactly when offset + align - 1 leaves int64, and the value is always a multiple of align |
| Int64.RoundUpLeastMultiple | ndtypes/libndtypes/ndtypes.c:75-83 | without overflow, round_up gives the least multiple of align that is at least offset, and it is below offset + align |
| Invariants.CheckType | ndtypes/libndtypes/ndtypes.c:688-703 | passes exactly when the type is not a module and has fewer than NDT_MAX_DIM dimensions; TypeError otherwise |
| Invariants.CheckFixed | ndtypes/libndtypes/ndtypes.c:706-729 | passes exactly when check_type_invariants does and the type is neither a var dimension, an element selection nor a flexible array; TypeError otherwise |
| Invariants.CheckAbstractVar | ndtypes/libndtypes/ndtypes.c:732-762 | passes exactly when check_type_invariants does, the type is no fixed, symbolic or array dimension, and a var child is an abstract VarDim; TypeError otherwise |
| Invariants.CheckVar | ndtypes/libndtypes/ndtypes.c:765-796 | passes exactly when check_type_invariants does, the type is no fixed, symbolic or array dimension, and a var child is concrete; a var child that passes fails check_abstract_var_invariants |
| Invariants.CheckArray | ndtypes/libndtypes/ndtypes.c:799-822 | passes exactly when the type is no module, no fixed, symbolic or var dimension, and holds no reference (there is no ndim bound); TypeError otherwise |
| Invariants.CheckEllipsis | ndtypes/libndtypes/ndtypes.c:825-840 | the same check as check_type_invariants |
| Alignment.GetAlign | ndtypes/libndtypes/ndtypes.c:531-543 | no attribute gives the default; an attribute is accepted exactly when it is a power of two and is then returned; otherwise ValueError |
| Alignment.MinFieldAlign | ndtypes/libndtypes/ndtypes.c:488-528 | align together with pack is InvalidArgumentError, and so is either one on an abstract type; success exactly when the candidate (max(align, natural) with align, pack with pack, else the natural alignment or 1) is a power of two, and the result is that candidate |
| Alignment.MakeField | ndtypes/libndtypes/ndtypes.c:563-601 | a field is made exactly when min_field_align succeeds, with the same error otherwise; a concrete field records that alignment, which explicit bits are set, and the pad (UINT16_MAX when absent) |
| Types.SubtreeFlags | ndtypes/libndtypes/ndtypes.c:91-117 | a subtree is optional when the type or one of its descendants is; the pointer, ref and char bits pass through; option, ellipsis and endian bits are cleared |
| Invariants.CheckFunction | ndtypes/libndtypes/ndtypes.c:851-898 | passes exactly when the outputs of a function without inputs are concrete and either no argument or every argument is an ellipsis, all with the same name; it fails with ValueError |
| Invariants.EllipsisCountRange | ndtypes/libndtypes/ndtypes.c:851-898 | the ellipsis count is 0 exactly when no argument is an ellipsis, and equals the argument count exactly when all are |
| Invariants.IsElemwise | ndtypes/libndtypes/ndtypes.c:900-912 | true exactly when every argument is a scalar or a lone (ndim 1) ellipsis |
| FieldLayout.Trunc16 | ndtypes/libndtypes/ndtypes.c:2029-2039 | the uint16_t cast keeps every value in 0 .. UINT16_MAX |
| FieldLayout.MaxOfBounds | ndtypes/libndtypes/ndtypes.c:1990-2027 | the running maximum bounds the base and every field alignment and is one of them |
| FieldLayout.ScanFields | ndtypes/libndtypes/ndtypes.c:1990-2027 | the scan of n fields fills n offsets and aligns and the pads known so far; it fails only with InvalidArgumentError |
| FieldLayout.ScanFieldsFails | ndtypes/libndtypes/ndtypes.c:1994-1999 | the scan fails exactly when pack is given and one of the scanned fields has an explicit alignment |
| FieldLayout.ConcreteFieldsLayout | ndtypes/libndtypes/ndtypes.c:1969-2047 | an invalid align or pack attribute is ValueError; pack with an explicitly aligned field is InvalidArgumentError; a success has one slot per field and alignment at least 1 |
| FieldLayout.FinishLayout | ndtypes/libndtypes/ndtypes.c:2029-2046 | the steps after the loop fail only with ValueError and keep one slot per field, with the overall alignment the largest one |
| FieldLayout.ScanLayout | ndtypes/libndtypes/ndtypes.c:1990-2046 | a finished scan without overflow satisfies GoodLayout: first offset 0, each offset the least multiple of its alignment past the previous field's end, each pad the gap, size the end rounded up to the overall alignment |
| FieldLayout.ScanFacts | ndtypes/libndtypes/ndtypes.c:1990-2027 | every prefix of the scan without overflow places each field at the least aligned offset after the previous one |
| FieldLayout.LayoutFacts | ndtypes/libndtypes/ndtypes.c:1969-2047 | a successful concrete layout satisfies GoodLayout with base the align attribute (default 1) and pads that agree with every explicit pad |
| FieldLayout.SlotsDisjoint | ndtypes/libndtypes/ndtypes.c:1990-2046 | in a good layout every field ends at or before the start of any later field, and the last one ends within the datasize |
| FieldLayout.PlaceFields | ndtypes/libndtypes/ndtypes.c:1990-2027 | the loop writes the offsets, aligns and pads the scan specifies, or fails exactly when the scan does |
| FieldLayout.CheckPads | ndtypes/libndtypes/ndtypes.c:2029-2039 | succeeds exactly when no explicit pad differs from the computed one |
| FieldLayout.FinishFields | ndtypes/libndtypes/ndtypes.c:2029-2046 | writes the trailing pad and returns what FinishLayout specifies |
| FieldLayout.InitConcreteFields | ndtypes/libndtypes/ndtypes.c:1969-2047 | the arrays and the returned size and alignment are those of ConcreteFieldsLayout, and an error is that layout's error |
| FieldLayout.MaxDatasizeBounds | ndtypes/libndtypes/ndtypes.c:2057-2082 | the union payload is at least every member's datasize and is one of them (or 0 with no members) |
| FieldLayout.InitConcreteTags | ndtypes/libndtypes/ndtypes.c:2057-2082 | fails with ValueError exactly when a member holds a reference; otherwise alignment 1 and size 1 + the largest member size |
| Dimensions.FixedStep | ndtypes/libndtypes/ndtypes.c:1466-1491 | an explicit step is kept; the default step over a type that is not a fixed dimension is 1 |
| Dimensions.FixedDatasize | ndtypes/libndtypes/ndtypes.c:1493-1509 | 0 for shape 0 or an empty inner type, otherwise (shape-1) * abs(step) * itemsize + inner datasize, with overflow reported |
| Dimensions.FixedDatasizeCovers | ndtypes/libndtypes/ndtypes.c:1493-1509 | every element k < shape starts k * abs(step) * itemsize bytes in and ends within the datasize |
| Dimensions.FixedDim | ndtypes/libndtypes/ndtypes.c:1561-1612 | a bad inner type is TypeError, a negative shape ValueError; a success has ndim = inner ndim + 1 (at most NDT_MAX_DIM), the inner access, subtree flags, itemsize, the computed step and datasize, and the inner alignment |
| Dimensions.FixedDimTag | ndtypes/libndtypes/ndtypes.c:1614-1629 | succeeds exactly when ndt_fixed_dim does; a tag other than RequireNA makes the result abstract and keeps the computed layout |
| Dimensions.AbstractVarDim | ndtypes/libndtypes/ndtypes.c:1631-1659 | succeeds exactly when the inner type passes check_abstract_var_invariants (else TypeError); the result is abstract, one dimension more, with the option bit and subtree flags |
| Dimensions.VarDim | ndtypes/libndtypes/ndtypes.c:1789-1866 | a bad inner type is TypeError, fewer than two offsets or an abstract inner type InvalidArgumentError; over a var dimension it succeeds exactly when the last offset is the inner list count; a success keeps offsets and slices |
| Dimensions.VarAddSlice | ndtypes/libndtypes/ndtypes.c:1754-1787 | succeeds exactly on a concrete var dimension whose slice stack is not full (else RuntimeError), giving the stack with the slice on top |
| Dimensions.ApplySlicesPush | ndtypes/libndtypes/ndtypes.c:1666-1752 | one more slice on the stack adds exactly one step on top of the indices of the old stack |
| Dimensions.VarIndicesUnsliced | ndtypes/libndtypes/ndtypes.c:1666-1706 | without slices, list i starts at offsets[i], has step 1 and offsets[i+1] - offsets[i] elements |
| Dimensions.VarIndices | ndtypes/libndtypes/ndtypes.c:1666-1752 | equals the slice-stack specification; an index outside the lists is IndexError and nothing else fails |
| Dimensions.SymbolicDim | ndtypes/libndtypes/ndtypes.c:1868-1894 | succeeds exactly when check_fixed_invariants passes (else TypeError); the result is abstract, one dimension more, with the subtree flags |
| Dimensions.SymbolicDimTag | ndtypes/libndtypes/ndtypes.c:1896-1906 | ndt_symbolic_dim with the tag stored |
| Dimensions.EllipsisDim | ndtypes/libndtypes/ndtypes.c:1908-1942 | a bad inner type is TypeError and a second ellipsis ValueError; a success is abstract, one dimension more, with the ellipsis flag set |
| Dimensions.EllipsisDimTag | ndtypes/libndtypes/ndtypes.c:1944-1954 | ndt_ellipsis_dim with the tag stored |
| Containers.MembersPointerFlags | ndtypes/libndtypes/ndtypes.c:2124-2129 | the pointer and ref bits of the container are set exactly when the start flags or a member have them |
| Containers.MembersSubtreeFlags | ndtypes/libndtypes/ndtypes.c:2124-2129 | the char and subtree-option bits are set exactly when the start flags or a member have them |
| Containers.MembersFlagsOf | ndtypes/libndtypes/ndtypes.c:2141-2146 | the container keeps its own option bit and gains the pointer, ref, char and subtree-option bits exactly when a member has them |
| Containers.MembersFacts | ndtypes/libndtypes/ndtypes.c:2093-2131 | an invalid member is TypeError and nothing else is; an abstract container fails exactly when a concrete member is explicitly aligned; the result is abstract exactly when variadic or some member is abstract |
| Containers.MembersLayout | ndtypes/libndtypes/ndtypes.c:2132-2147 | a concrete tuple or record is laid out as GoodLayout says, its fields do not overlap, and explicit pads equal the computed ones |
| Containers.CheckMembers | ndtypes/libndtypes/ndtypes.c:2093-2097 | passes exactly when every member passes check_type_invariants; TypeError otherwise |
| Containers.MembersAccess | ndtypes/libndtypes/ndtypes.c:2105-2111 | abstract exactly when the start access is abstract or some member is |
| Containers.HasExplicitAlign | ndtypes/libndtypes/ndtypes.c:2113-2123 | true exactly when some concrete member has an explicit alignment |
| Containers.AddMembersFlags | ndtypes/libndtypes/ndtypes.c:2124-2129 | the loop computes the flags of every member OR-ed in |
| Containers.InitMembers | ndtypes/libndtypes/ndtypes.c:2093-2147 | the shared body of ndt_tuple and ndt_record computes MembersSpec, whose properties MembersFacts and MembersLayout state |
| Containers.Tuple | ndtypes/libndtypes/ndtypes.c:2084-2149 | the common member rules, with the member types in order and ndim 0 |
| Containers.Record | ndtypes/libndtypes/ndtypes.c:2151-2230 | as ndt_tuple, with the member names kept in order |
| Containers.UnionFacts | ndtypes/libndtypes/ndtypes.c:2232-2316 | a union that is built has 1 to 255 valid members and is abstract exactly when a member is; a concrete one holds no reference, has alignment 1 and datasize 1 + its largest member; with valid concrete members it fails exactly when one holds a reference |
| Containers.Union | ndtypes/libndtypes/ndtypes.c:2232-2316 | the loops compute what UnionSpec, and so UnionFacts, describe |
| Containers.Array | ndtypes/libndtypes/ndtypes.c:2318-2345 | succeeds exactly when check_array_invariants passes (else TypeError); a pointer-sized flexible array, one dimension more |
| Containers.Ref | ndtypes/libndtypes/ndtypes.c:2347-2372 | succeeds exactly when check_type_invariants passes; a pointer with the access of its target and the ref bit |
| Containers.Constr | ndtypes/libndtypes/ndtypes.c:2374-2406 | succeeds exactly when check_type_invariants passes; the name over the inner type, with its layout when concrete |
| Containers.Module | ndtypes/libndtypes/ndtypes.c:1398-1417 | an abstract, non-optional namespace with the subtree flags of its type |
| Containers.ArgsFlagsEllipsis | ndtypes/libndtypes/ndtypes.c:1420-1449 | a signature has the ellipsis bit exactly when one of its arguments does, and never the option bit |
| Containers.Function | ndtypes/libndtypes/ndtypes.c:1420-1449 | succeeds exactly when check_function_invariants passes (else ValueError); the result is abstract, of ndim 0, with the dimension flags of its arguments, nin, nout, the arguments and the is_elemwise result |
| Containers.FixedBytes | ndtypes/libndtypes/ndtypes.c:2563-2594 | succeeds exactly when the alignment attribute is valid and divides the size (else ValueError); datasize is the size and align the alignment |
| Containers.Bytes | ndtypes/libndtypes/ndtypes.c:2596-2620 | succeeds exactly when the target alignment is valid; a bytes descriptor recording that alignment |
| Containers.Typevar | ndtypes/libndtypes/ndtypes.c:2685-2699 | an abstract type variable without flags |
| Containers.Signed | ndtypes/libndtypes/ndtypes.c:2642-2655 | succeeds exactly for widths 1, 2, 4 and 8 (else ValueError), calling ndt_primitive with the signed tag of that width and the caller's flags |
| Containers.Unsigned | ndtypes/libndtypes/ndtypes.c:2657-2670 | succeeds exactly for widths 1, 2, 4 and 8 (else ValueError), calling ndt_primitive with the unsigned tag of that width and the caller's flags |
| Containers.IntWidthRoundTrip | ndtypes/libndtypes/ndtypes.c:2642-2670 | Signed and Unsigned invert the width of every integer primitive, for any flags |
| Contiguity.FixedChainDims | ndtypes/libndtypes/ndtypes.c:236-266 | a fixed chain has exactly ndim dimensions, all fixed |
| Contiguity.FixedDimChain | ndtypes/libndtypes/ndtypes.c:1561-1612 | ndt_fixed_dim over a chain builds a chain |
| Contiguity.IsCContiguous | ndtypes/libndtypes/ndtypes.c:236-266 | true exactly when the array is concrete, an ndarray, and every dimension of shape > 1 steps over the product of the shapes inside it |
| Contiguity.IsFContiguous | ndtypes/libndtypes/ndtypes.c:268-297 | the same with the product of the shapes outside it |
| Contiguity.ReallyFortran | ndtypes/libndtypes/ndtypes.c:337-341 | an array that is Fortran but not C contiguous has at least two dimensions |
| Contiguity.ToFortranFrom | ndtypes/libndtypes/ndtypes.c:1511-1540 | the rebuild fails only with the errors of ndt_fixed_dim |
| Contiguity.ToFortran | ndtypes/libndtypes/ndtypes.c:1543-1559 | an abstract or non-C-contiguous input is TypeError |
| Contiguity.ToFortranFromFacts | ndtypes/libndtypes/ndtypes.c:1511-1540 | the rebuild keeps ndim and every shape, and dimension i steps over step times the product of the outer shapes |
| Contiguity.ToFortranIsFortran | ndtypes/libndtypes/ndtypes.c:1543-1559 | the conversion of a C-contiguous array is Fortran-contiguous with the same shapes |
| Contiguity.CContiguous | ndtypes/libndtypes/ndtypes.c:236-266 | only a concrete ndarray is C-contiguous, and every concrete scalar is |
| Contiguity.FContiguous | ndtypes/libndtypes/ndtypes.c:268-297 | only a concrete ndarray is Fortran-contiguous, every concrete scalar is, and with at most one dimension Fortran and C contiguity agree |
| Contiguity.VarContiguousFrom | ndtypes/libndtypes/ndtypes.c:299-325 | below nitems lists, a var-contiguous dimension is an unsliced VarDim with nitems + 1 offsets, and the next dimension down has one offset more than the last offset |
| Contiguity.VarContiguous | ndtypes/libndtypes/ndtypes.c:327-335 | a var-contiguous array is concrete and its outermost dimension holds a single unsliced list |
| Contiguity.MatrixContiguity | ndtypes/libndtypes/ndtypes.c:236-297 | ndt_fixed_dim with default steps builds `3 * 4 * float64` (row step 1, outer step 4), which is C- but not Fortran-contiguous |
| Contiguity.MatrixToFortran | ndtypes/libndtypes/ndtypes.c:1511-1559 | its conversion steps 1 over the rows and 3 within them |
| TypeCopy.CopyCommon | ndtypes/libndtypes/copy.c:45-54 | the result has the node of the new type and access, flags, ndim, datasize and align of the original |
| TypeCopy.CopyVarDim | ndtypes/libndtypes/copy.c:56-83 | an abstract var dimension is rebuilt by ndt_abstract_var_dim, a concrete one by ndt_var_dim over the same offsets and slices; the result is a VarDim node |
| TypeCopy.Copy | ndtypes/libndtypes/copy.c:299-465 | a copy has the tag, the children and the common fields of the original; verbatim-copied nodes, modules and typevars copy to themselves |
| TypeCopy.CopyFixedDim | ndtypes/libndtypes/copy.c:306-311 | the copy of every fixed dimension ndt_fixed_dim_tag builds is the dimension itself |
| TypeCopy.CopyVarDimOf | ndtypes/libndtypes/copy.c:312-316 | the copy of every concrete var dimension is the dimension itself |
| TypeCopy.CopyAbstractVarDim | ndtypes/libndtypes/copy.c:312-316 | the copy of every abstract var dimension is the dimension itself |
| TypeCopy.CopySymbolicDim | ndtypes/libndtypes/copy.c:323-334 | the copy of every symbolic dimension is the dimension itself |
| TypeCopy.CopyEllipsisDim | ndtypes/libndtypes/copy.c:335-348 | the copy of every ellipsis dimension is the dimension itself |
| TypeCopy.CopyArray | ndtypes/libndtypes/copy.c:349-353 | the copy of every flexible array is the array itself |
| TypeCopy.CopyRef | ndtypes/libndtypes/copy.c:366-370 | the copy of every reference is the reference itself |
| TypeCopy.CopyConstr | ndtypes/libndtypes/copy.c:371-380 | the copy of every constraint is the constraint itself |
| TypeCopy.CopyVarElemAsWritten | ndtypes/libndtypes/copy.c:317-322 | as written, the copy of an element selection comes out as a VarDim node |
| TypeCopy.CopyFunctionAsWritten | ndtypes/libndtypes/copy.c:135-158 | as written, the copied signature takes nin, nout, the arguments and the common fields, and its elemwise bit is whatever the fresh node held |
| TypeCopy.FunctionCopyLosesElemwise | ndtypes/libndtypes/copy.c:135-158 | when the fresh node does not hold the elemwise bit of t, the copy as written differs from t, while the intended copy is t |
| TypeCopy.ConvertToVarElem | ndtypes/libndtypes/copy.c:85-133 | ValueError exactly for a non-var, abstract or optional input; otherwise ndt_var_dim over the new type, re-tagged VarDimElem with the given index |
| TypeCopy.VarElemCopy | ndtypes/libndtypes/copy.c:299-322 | the intended copy of a converted element selection is itself, while the copy as written is a VarDim |
| VarCopy.GetIndex | ndtypes/libndtypes/copy.c:524-541 | a negative index counts from the end; the result lies in [0, shape), and anything else (or an overflow) is IndexError |
| VarCopy.HeadOf | ndtypes/libndtypes/copy.c:550-570 | a var dimension records the shape ndt_var_indices returns and descends into elements 0 .. shape with its start and step; an element selection records 1, is inactive, and descends into the one element get_index selects; ndt_var_indices and get_index fail only with IndexError |
| VarCopy.ChildrenSplit | ndtypes/libndtypes/copy.c:578-584 | the walk over a range is the walk over its first part followed by the walk over the rest |
| VarCopy.EventsWellVisited | ndtypes/libndtypes/copy.c:543-587 | every visit reads a dimension of the chain with that dimension's activity and a non-negative count; an element selection records one element |
| VarCopy.EventsCounts | ndtypes/libndtypes/copy.c:543-587 | the walk visits t once, and each dimension below once per element the dimension above recorded |
| VarCopy.NoteAllAt | ndtypes/libndtypes/copy.c:561-576 | after a sequence of visits, dimension d's counter grew by its visit count, its activity is its last visit's, and when writing its offsets hold the running sums |
| VarCopy.RoomFromCounts | ndtypes/libndtypes/copy.c:506-522 | offsets of index[d] + 1 entries leave room for every write of the second walk |
| VarCopy.CountingPass | ndtypes/libndtypes/copy.c:636-638 | the counting walk leaves every dimension's visit count and activity, and no offsets |
| VarCopy.Prepared | ndtypes/libndtypes/copy.c:640-646 | var_init_offsets and the index reset leave zeroed offsets of the right length, reset counters, and room for the writing walk |
| VarCopy.WritingPassAt | ndtypes/libndtypes/copy.c:648-650 | the writing walk leaves dimension d as SpecTable has it |
| VarCopy.TwoPasses | ndtypes/libndtypes/copy.c:626-653 | the counting walk, the allocation, the reset and the writing walk leave SpecTable: per dimension, its activity, its visit count and the prefix sums of its shapes from 0 |
| VarCopy.VarCopyActive | ndtypes/libndtypes/copy.c:561-570 | a dimension is kept exactly when it is a var dimension (not an element selection) the walk reached; an element selection records one element per visit |
| VarCopy.VarCopyOffsets | ndtypes/libndtypes/copy.c:572-576 | dimension d's new offsets start at 0 and list j has the j-th recorded shape as its length |
| VarCopy.RebuildContiguous | ndtypes/libndtypes/copy.c:589-624 | the rebuild over prefix-sum offsets is var-contiguous |
| VarCopy.VarCopyIsContiguous | ndtypes/libndtypes/copy.c:626-653 | the copy var_copy_contiguous makes is var-contiguous: one outer list, no slices, each last offset the next dimension's list count |
| VarCopy.VisitOf | ndtypes/libndtypes/copy.c:554-570 | the head of var_copy_shapes computes HeadOf |
| VarCopy.OffsetsTable.constructor | ndtypes/libndtypes/copy.c:630-634 | the table starts zeroed, with maxdim = ndim |
| VarCopy.OffsetsTable.Mark | ndtypes/libndtypes/copy.c:561-576 | one visit updates the table as Note specifies |
| VarCopy.OffsetsTable.CopyShapes | ndtypes/libndtypes/copy.c:543-587 | succeeds exactly when the walk does, with the walk's error otherwise, and then leaves the visits recorded on the table |
| VarCopy.OffsetsTable.CopyChildren | ndtypes/libndtypes/copy.c:578-584 | the element loop records the walk over its range, or fails with its error |
| VarCopy.OffsetsTable.InitOffsets | ndtypes/libndtypes/copy.c:506-522 | allocates zeroed offsets of index[d] + 1 entries for dimensions 1 .. maxdim |
| VarCopy.OffsetsTable.ResetIndex | ndtypes/libndtypes/copy.c:644-646 | resets index[0 .. maxdim] and nothing else |
| VarCopy.OffsetsTable.FromOffsets | ndtypes/libndtypes/copy.c:589-624 | stacks a var dimension over dtype for every active dimension, innermost first, dropping inactive ones |
| VarCopy.VarCopyContiguous | ndtypes/libndtypes/copy.c:626-653 | computes VarCopySpec, whose result TwoPasses, VarCopyOffsets and VarCopyIsContiguous describe |
| Relayout.FixedCopyContiguous | ndtypes/libndtypes/copy.c:467-489 | keeps every shape and tag, sets every step to the default over the new inner type, over dtype at the bottom |
| Relayout.FixedCopyLayout | ndtypes/libndtypes/copy.c:467-489 | over a concrete scalar dtype the result is row-major and its datasize is the element count times the dtype's datasize |
| Relayout.FixedCopyIsCContiguous | ndtypes/libndtypes/copy.c:467-489 | the contiguous copy of a concrete fixed array is C-contiguous |
| Relayout.CopyContiguousDtype | ndtypes/libndtypes/copy.c:655-676 | an abstract t or dtype is ValueError; a fixed dimension goes through fixed_copy_contiguous, a var dimension through var_copy_contiguous, anything else gives dtype |
| Relayout.CopyContiguous | ndtypes/libndtypes/copy.c:678-684 | the same over the dtype of t |
| Relayout.CopyAbstractVarDtype | ndtypes/libndtypes/copy.c:686-717 | ndim 0 gives dtype; anything but an abstract var dimension is ValueError; otherwise an abstract var dimension with the optional flag of t, one dimension deeper than its child, with the dtype of dtype at the bottom |
| Relayout.CopyAbstractVarDtypeLevels | ndtypes/libndtypes/copy.c:686-717 | each dimension of t the recursion passes becomes one abstract var dimension with that dimension's optional flag, in order, and the dimensions of dtype follow |
| Relayout.CopyAbstractVarOwnDtype | ndtypes/libndtypes/copy.c:686-717 | putting back its own dtype gives back every abstract var chain |
| Substitute.Substitute | ndtypes/libndtypes/substitute.c:117-273 | a concrete input or a scalar comes back unchanged; an abstract node of an unhandled kind is NotImplementedError |
| Substitute.WrapFixedLoop | ndtypes/libndtypes/substitute.c:66-79 | the descending loop of the FixedSeq case builds WrapFixed |
| Substitute.WrapArraysLoop | ndtypes/libndtypes/substitute.c:92-107 | the descending loop of the ArraySeq case builds WrapArrays |
| Substitute.SubstituteNamedEllipsis | ndtypes/libndtypes/substitute.c:49-115 | computes NamedEllipsis, whose cases NamedEllipsisCases states |
| Substitute.SymbolicDimCases | ndtypes/libndtypes/substitute.c:153-181 | a name bound to shape n gives a fixed dimension of shape n with the default step over the substituted inner type; an unbound one is ValueError under req_concrete and kept by name otherwise |
| Substitute.TypevarCases | ndtypes/libndtypes/substitute.c:192-209 | a bound typevar gives the substitution of its binding; an unbound one is ValueError under req_concrete and kept otherwise |
| Substitute.UnnamedEllipsis | ndtypes/libndtypes/substitute.c:183-186 | an unnamed ellipsis disappears: the inner type substituted with req_concrete forced on |
| Substitute.NamedEllipsisCases | ndtypes/libndtypes/substitute.c:49-115 | FixedSeq and ArraySeq bindings put the recorded dimensions back over the substituted inner type; an empty VarSeq gives the inner type; a missing or other binding is ValueError |
| Substitute.WrapperCases | ndtypes/libndtypes/substitute.c:130-140 | a fixed dimension keeps shape and step, Ref and Constr keep name and optional flag, and only the child is substituted (see also substitute.c:211-254) |
| Substitute.VarDimCase | ndtypes/libndtypes/substitute.c:142-151 | a var dimension substitutes its dtype and is rebuilt as abstract var dimensions with the optional flags of t |
| Substitute.WrapFixedOrder | ndtypes/libndtypes/substitute.c:66-79 | the FixedSeq case restores the recorded shapes in their original order, outermost first, above the dimensions of the inner type, with its dtype below |
| Substitute.WrapArraysDepth | ndtypes/libndtypes/substitute.c:92-107 | the ArraySeq case puts exactly n array dimensions above the inner type |
| Substitute.SubstituteResolves | ndtypes/libndtypes/substitute.c:117-273 | with req_concrete set, a successful substitution leaves no symbolic dimension, typevar or ellipsis anywhere in the result |
| Substitute.EmptyTableIdentity | ndtypes/libndtypes/substitute.c:117-273 | with nothing bound and req_concrete off, every type the constructors build from dimensions, names, Ref and Constr comes back unchanged |
| Substitute.FuelMonotone | ndtypes/libndtypes/substitute.c:192-209 | unless the typevar chain ran out of fuel, more fuel gives the same result |
| Substitute.OneHopSuffices | ndtypes/libndtypes/substitute.c:192-209 | when every typevar is bound to a concrete type, one hop of fuel gives the same result as any larger amount |

## Left out

- TypeCopy.Copy: requires a non-union argument, so the union case of `ndt_copy` (copy.c:362-365) is left out; `ndt_copy_union` (copy.c:220-247) allocates with `ndt_new(t->Union.ntags, ...)` instead of `ndt_union_new`.
- Nominal types and categoricals: `ndt_nominal` needs the typedef table and `ndt_copy_categorical` needs `ndt_value_compare`, and neither is part of this model. The `Node` datatype has neither tag, so the Nominal cases of `ndt_copy` and `ndt_substitute` are absent too.
- Fixed strings, `char` and the kind constructors are not built by the model (their encoding sizes are defined outside these files), although `ndt_copy` and `ndt_substitute` handle such nodes.
- Reference counting (`ndt_incref`, `ndt_decref`, `ndt_move`), allocation, allocation failure (`ndt_memory_error`, a failing `ndt_strdup`), `clear_offsets`, `ndt_del` and the trailer layout of `ndt_new_extra`: types are immutable values.
- `ndt_offsets_from_ptr`: offsets are sequences, not refcounted buffers.
- The endianness predicates: they depend on the platform macro `NDT_SYS_BIG_ENDIAN`.
- `ndt_slice_adjust_indices` (slice.h) is a parameter, not a definition.
- `ndt_dtype`, `ndt_primitive` and `NDT_MAX_DIM` are defined outside these files; the stand-ins are listed above.
- The symbol table's implementation (symtable.c). The model assumes that an unbound name under req_concrete is reported as ValueError.
- Substitute.Substitute: it and every Substitute member that requires `TableOk(tbl)` assume two things of each binding (`BindingOk`). They are not modelled for other tables:
  - every dimension of a FixedSeq entry is a concrete FixedDim, as the assertions at substitute.c:69-70 demand; without assertions the C code reads `w->FixedDim.shape` of whatever node is there;
  - the first type of a non-empty VarSeq entry is `Relayout.Relayable`, since substitute.c:84-86 passes it unchecked to `ndt_copy_contiguous_dtype`.
  - ArraySeq entries carry no condition: their assertions (substitute.c:94-98) compile only in debug builds, and the loop does not read the entries.
- Substitute.Substitute: a chain of typevar bindings is followed at most `fuel` times and then ends in RuntimeError, where the C code would recurse without bound on a cyclic binding.
- VarCopy.HeadOf: a negative list length, from offsets that decrease such as `var(offsets=[0,2,1]) * int64` (accepted by `ndt_var_dim`), makes `ndt_var_indices` return a negative shape without an error (ndtypes.c:1685-1705). `var_copy_shapes` then fails at copy.c:555-558 without setting an error kind. The model reports IndexError there, and so does `VarCopy.VisitOf`.
- VarCopy.OffsetsTable.Mark: `index[]` and `offsets[]` are `int32_t` in the C code and unbounded integers here, so a copy with more than 2^31 lists is not modelled.
- VarCopy.Events: `next = start + i * step` is unchecked int64 arithmetic in the C code; the model computes it exactly.
- Contiguity.IsCContiguous: the expected step accumulates `step *= shape` (ndtypes.c:262) without an overflow check in the C code; the model uses the exact product (`Contiguity.Product`).
- Contiguity.IsFContiguous: likewise, `step *= shape` (ndtypes.c:293) is unchecked int64 in the C code and the exact product here.
- FieldLayout.InitConcreteTags: `t->datasize = 1+maxsize` (ndtypes.c:2079) is unchecked int64 addition in the C code; the model adds exactly, so a member of datasize INT64_MAX does not wrap the union's datasize.
- Containers.UnionFacts: inherits the exact `1 + maxsize` of FieldLayout.InitConcreteTags for the datasize of a concrete union.
- Dimensions.VarIndices: `*res_start += start * *res_step` and `*res_step *= step` (ndtypes.c:1699-1700 and 1744-1745) are unchecked int64 in the C code; the model (`Dimensions.SliceStep`) computes them exactly.
- Contiguity.ToFortranIsFortran: assumes that no computed step equals INT64_MAX (`StepsAvoidSentinel`), since `ndt_fixed_dim` would read that step as "use the default".
- TypeCopy.CopyVarElemAsWritten: models the build without assertions (NDEBUG). With assertions enabled, `assert(t->tag == VarDim)` (copy.c:61) aborts inside `ndt_copy_var_dim` on an element selection, which itself shows that the copy is meant to keep the tag. It also does not model the NULL dereference at copy.c:318-319, where the index is stored before the result of `ndt_copy_var_dim` is checked.
- Relayout.CopyContiguousDtype: requires `Relayable(t)`, meaning that the fixed dimensions form a chain and so do the var dimensions, as every constructed array satisfies; the C code reads those fields without checking.
- Parsing, printing, matching, serialisation and the Python glue are outside the core.

## Findings

| source | as written | input that shows it | evidently intended | confidence | as-written member | corrected member |
|---|---|---|---|---|---|---|
| ndtypes/libndtypes/copy.c:317-322 | `ndt_copy` on a VarDimElem calls `ndt_copy_var_dim`, which builds a VarDim node; the index is stored, but `copy_common` (copy.c:45-54) keeps the new node's tag, so in a build without assertions the copy is a VarDim (with assertions, copy.c:61 aborts) | any `ndt_convert_to_var_elem` result, e.g. element 0 of `var(offsets=[0,2]) * int64` | the copy is the VarDimElem itself, with the same index | not executed | TypeCopy.CopyVarElemAsWritten | TypeCopy.Copy |
| ndtypes/libndtypes/copy.c:135-158 | `ndt_copy_function` copies nin, nout, the arguments and the common fields but not `Function.elemwise`, which ndt_function_new (ndtypes.c:973-999) leaves unset | the signature `(int64) -> int64`, for which ndt_function sets the elemwise bit | the copy keeps `elemwise`, so that it equals the original | not executed | TypeCopy.FunctionCopyLosesElemwise | TypeCopy.Copy |
