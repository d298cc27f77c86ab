/** The contiguous copy of concrete var dimensions (var_copy_shapes,
    var_init_offsets, var_from_offsets_and_dtype, var_copy_contiguous and
    get_index of copy.c): a walk over the lists a linear index selects,
    made twice over a shared table of per-dimension counters and offset
    arrays, once to count and once to write prefix sums, and a rebuild of
    the dimensions over the new offsets. */
module VarCopy {
  import opened Results
  import opened Int64
  import opened Types
  import Dimensions
  import Contiguity

  /** get_index: a negative index counts from the end of the list. */
  function GetIndex(shape: int, index: int): (r: Result<int>)
    ensures r.Ok? <==> 0 <= index < shape || (index < 0 && 0 <= index + shape && InInt64(index + shape))
    ensures r.Ok? ==> 0 <= r.value < shape && r.value == (if index < 0 then index + shape else index)
    ensures r.Err? ==> r.error == IndexError
  {
    var k := if index < 0 then AddI64(index, shape) else Checked(index, false);
    if k.overflow || k.value < 0 || k.value >= shape then Err(IndexError) else Ok(k.value)
  }

  /** What var_copy_shapes reads of a type: var dimensions nested in one
      another (each one dimension more than its element type) down to a
      type without dimensions. */
  predicate VarChain(t: Type)
    decreases Size(t)
  {
    t.ndim == 0 ||
    (&& 0 < t.ndim <= MAX_DIM && IsVarNode(t) && IsConcrete(t)
     && t.ndim == t.node.inner.ndim + 1 && VarChain(t.node.inner))
  }

  /** Whether the dimension with ndim d of the chain is kept in the copy: a
      var dimension is, an element selection (VarDimElem) is not. */
  function ActiveAt(t: Type, d: int): bool
    requires VarChain(t) && 1 <= d <= t.ndim
    decreases Size(t)
  {
    if d == t.ndim then t.node.VarDim? else ActiveAt(t.node.inner, d)
  }

  /** One visit of var_copy_shapes: the dimension it reads (by its ndim),
      the number of elements it records, and whether the dimension stays
      active. */
  datatype Visit = Visit(depth: int, shape: int, active: bool)

  /** The visit of t itself and the range of elements [lo, hi) it descends
      into, element i at linear index start + i * step. */
  datatype Head = Head(visit: Visit, start: int, step: int, lo: int, hi: int)

  function HeadOf(t: Type, linear: int, adjust: Dimensions.SliceAdjust): (r: Result<Head>)
    requires VarChain(t) && t.ndim > 0
    ensures r.Ok? ==>
      && r.value.visit.depth == t.ndim
      && r.value.visit.active == t.node.VarDim?
      && 0 <= r.value.visit.shape == r.value.hi - r.value.lo
      && (!r.value.visit.active ==> r.value.visit.shape == 1)
    ensures r.Ok? && t.node.VarDimElem? ==>
      var idx := Dimensions.VarIndicesSpec(t, linear, adjust, false);
      && idx.Ok? && GetIndex(idx.value.shape, t.node.index).Ok?
      && r.value.lo == GetIndex(idx.value.shape, t.node.index).value && r.value.hi == r.value.lo + 1
    ensures r.Ok? && t.node.VarDim? ==>
      var idx := Dimensions.VarIndicesSpec(t, linear, adjust, false);
      && idx.Ok? && r.value.lo == 0 && r.value.visit.shape == idx.value.shape
      && r.value.start == idx.value.start && r.value.step == idx.value.step
    ensures r.Ok? && t.node.VarDimElem? ==>
      var idx := Dimensions.VarIndicesSpec(t, linear, adjust, false);
      r.value.start == idx.value.start && r.value.step == idx.value.step
    ensures r.Err? ==> r.error == IndexError
  {
    var idx :- Dimensions.VarIndicesSpec(t, linear, adjust, false);
    if idx.shape < 0 then Err(IndexError)
    else if t.node.VarDimElem? then
      var k :- GetIndex(idx.shape, t.node.index);
      Ok(Head(Visit(t.ndim, 1, false), idx.start, idx.step, k, k + 1))
    else
      Ok(Head(Visit(t.ndim, idx.shape, true), idx.start, idx.step, 0, idx.shape))
  }

  /** The visits of var_copy_shapes(.., linear, t), in the order it makes
      them, or the first error it meets. */
  function Events(t: Type, linear: int, adjust: Dimensions.SliceAdjust): Result<seq<Visit>>
    requires VarChain(t)
    decreases Size(t), 0
  {
    if t.ndim == 0 then Ok([])
    else
      var h :- HeadOf(t, linear, adjust);
      var rest :- Children(t.node.inner, h.start, h.step, h.lo, h.hi, adjust);
      Ok([h.visit] + rest)
  }

  /** The visits of the elements lo .. hi-1 of one list, one after the other. */
  function Children(inner: Type, start: int, step: int, lo: int, hi: int,
                    adjust: Dimensions.SliceAdjust): Result<seq<Visit>>
    requires VarChain(inner)
    decreases Size(inner), 1, hi - lo
  {
    if hi <= lo then Ok([])
    else
      var init :- Children(inner, start, step, lo, hi - 1, adjust);
      var last :- Events(inner, start + (hi - 1) * step, adjust);
      Ok(init + last)
  }

  /** Once an element fails, the walk over a longer range fails with it. */
  lemma {:induction false} ChildrenErrExtends(inner: Type, start: int, step: int, lo: int, mid: int, hi: int,
                                              adjust: Dimensions.SliceAdjust)
    requires VarChain(inner) && mid <= hi
    requires Children(inner, start, step, lo, mid, adjust).Err?
    ensures Children(inner, start, step, lo, hi, adjust) == Children(inner, start, step, lo, mid, adjust)
    decreases hi - mid
  {
    if hi > mid {
      ChildrenErrExtends(inner, start, step, lo, mid, hi - 1, adjust);
    }
  }

  /** The walk over [lo, hi) is the walk over [lo, mid) followed by the walk
      over [mid, hi). */
  lemma {:induction false} ChildrenSplit(inner: Type, start: int, step: int, lo: int, mid: int, hi: int,
                                         adjust: Dimensions.SliceAdjust)
    requires VarChain(inner) && lo <= mid <= hi
    requires Children(inner, start, step, lo, hi, adjust).Ok?
    ensures Children(inner, start, step, lo, mid, adjust).Ok?
    ensures Children(inner, start, step, mid, hi, adjust).Ok?
    ensures Children(inner, start, step, lo, hi, adjust).value ==
            Children(inner, start, step, lo, mid, adjust).value + Children(inner, start, step, mid, hi, adjust).value
    decreases hi - mid
  {
    if hi > mid {
      ChildrenSplit(inner, start, step, lo, mid, hi - 1, adjust);
      var a := Children(inner, start, step, lo, mid, adjust).value;
      var b := Children(inner, start, step, mid, hi - 1, adjust).value;
      var c := Events(inner, start + (hi - 1) * step, adjust).value;
      assert (a + b) + c == a + (b + c);
    }
  }

  // ---------------------------------------------------------------------
  // The per-dimension view of a walk

  /** The shapes recorded for dimension d, in visiting order. */
  function ShapesAt(vs: seq<Visit>, d: int): seq<int>
    decreases |vs|
  {
    if vs == [] then []
    else (if vs[0].depth == d then [vs[0].shape] else []) + ShapesAt(vs[1..], d)
  }

  /** The active flag of the last visit of dimension d, or a when there is none. */
  function LastActive(a: bool, vs: seq<Visit>, d: int): bool
    decreases |vs|
  {
    if vs == [] then a
    else LastActive(if vs[0].depth == d then vs[0].active else a, vs[1..], d)
  }

  function Sum(s: seq<int>): int
    decreases |s|
  {
    if s == [] then 0 else s[0] + Sum(s[1..])
  }

  /** x followed by the running sums x + s[0], x + s[0] + s[1], ... */
  function PrefixFrom(x: int, s: seq<int>): (p: seq<int>)
    ensures |p| == |s| + 1 && p[0] == x
    decreases |s|
  {
    if s == [] then [x] else [x] + PrefixFrom(x + s[0], s[1..])
  }

  function Zeros(n: nat): (z: seq<int>)
    ensures |z| == n && forall i :: 0 <= i < n ==> z[i] == 0
  {
    seq(n, _ => 0)
  }

  lemma {:induction false} ShapesAtAppend(a: seq<Visit>, b: seq<Visit>, d: int)
    ensures ShapesAt(a + b, d) == ShapesAt(a, d) + ShapesAt(b, d)
    decreases |a|
  {
    if a != [] {
      var ab := a + b;
      assert ab != [] && ab[0] == a[0] && ab[1..] == a[1..] + b;
      ShapesAtAppend(a[1..], b, d);
      var x := if a[0].depth == d then [a[0].shape] else [];
      assert ShapesAt(ab, d) == x + ShapesAt(ab[1..], d);
      assert ShapesAt(a, d) == x + ShapesAt(a[1..], d);
      assert x + (ShapesAt(a[1..], d) + ShapesAt(b, d)) == (x + ShapesAt(a[1..], d)) + ShapesAt(b, d);
    } else {
      assert a + b == b;
    }
  }

  lemma {:induction false} SumAppend(a: seq<int>, b: seq<int>)
    ensures Sum(a + b) == Sum(a) + Sum(b)
    decreases |a|
  {
    if a != [] {
      var ab := a + b;
      assert ab != [] && ab[0] == a[0] && ab[1..] == a[1..] + b;
      SumAppend(a[1..], b);
      assert Sum(ab) == ab[0] + Sum(ab[1..]);
    } else {
      assert a + b == b;
    }
  }

  /** The table entries start at x and grow by one shape at a time; the last
      one is x plus all the shapes. */
  lemma {:induction false} PrefixFromSums(x: int, s: seq<int>)
    ensures PrefixFrom(x, s)[|s|] == x + Sum(s)
    ensures forall j :: 0 <= j < |s| ==> PrefixFrom(x, s)[j + 1] == PrefixFrom(x, s)[j] + s[j]
    decreases |s|
  {
    if s != [] {
      var p := PrefixFrom(x, s);
      var q := PrefixFrom(x + s[0], s[1..]);
      PrefixFromSums(x + s[0], s[1..]);
      assert p == [x] + q;
      forall j | 0 <= j < |s|
        ensures p[j + 1] == p[j] + s[j]
      {
        if j > 0 {
          assert p[j + 1] == q[j] && p[j] == q[j - 1] && s[j] == s[1..][j - 1];
        }
      }
    }
  }

  /** Without a visit of d the start value remains; with one, the start
      value does not matter. */
  lemma {:induction false} LastActiveStart(a: bool, b: bool, vs: seq<Visit>, d: int)
    ensures ShapesAt(vs, d) == [] ==> LastActive(a, vs, d) == a
    ensures ShapesAt(vs, d) != [] ==> LastActive(a, vs, d) == LastActive(b, vs, d)
    decreases |vs|
  {
    if vs != [] {
      var a' := if vs[0].depth == d then vs[0].active else a;
      var b' := if vs[0].depth == d then vs[0].active else b;
      LastActiveStart(a', b', vs[1..], d);
      if vs[0].depth != d {
        assert ShapesAt(vs, d) == ShapesAt(vs[1..], d);
      } else {
        LastActiveStart(vs[0].active, vs[0].active, vs[1..], d);
      }
    }
  }

  /** All visits of d agree on the active flag, and inactive ones record one
      element. */
  predicate DepthUniform(vs: seq<Visit>, d: int, flag: bool) {
    forall j :: 0 <= j < |vs| && vs[j].depth == d ==> vs[j].active == flag && (!flag ==> vs[j].shape == 1)
  }

  lemma {:induction false} UniformDepth(a: bool, vs: seq<Visit>, d: int, flag: bool)
    requires DepthUniform(vs, d, flag)
    ensures LastActive(a, vs, d) == (if ShapesAt(vs, d) == [] then a else flag)
    ensures !flag ==> Sum(ShapesAt(vs, d)) == |ShapesAt(vs, d)|
    decreases |vs|
  {
    if vs != [] {
      assert DepthUniform(vs[1..], d, flag) by {
        forall j | 0 <= j < |vs[1..]| && vs[1..][j].depth == d
          ensures vs[1..][j].active == flag && (!flag ==> vs[1..][j].shape == 1)
        {
          assert vs[1..][j] == vs[j + 1];
        }
      }
      var a' := if vs[0].depth == d then vs[0].active else a;
      UniformDepth(a', vs[1..], d, flag);
      if vs[0].depth == d {
        LastActiveStart(a', a', vs[1..], d);
        assert ShapesAt(vs, d) == [vs[0].shape] + ShapesAt(vs[1..], d);
        assert ([vs[0].shape] + ShapesAt(vs[1..], d))[1..] == ShapesAt(vs[1..], d);
      } else {
        assert ShapesAt(vs, d) == ShapesAt(vs[1..], d);
      }
    }
  }

  // ---------------------------------------------------------------------
  // Facts about the walk

  /** Every visit reads a dimension of the chain, carries that dimension's
      active flag, records a non-negative count, and an element selection
      records exactly one element. */
  predicate WellVisited(t: Type, vs: seq<Visit>)
    requires VarChain(t)
  {
    forall j :: 0 <= j < |vs| ==>
      && 1 <= vs[j].depth <= t.ndim
      && vs[j].active == ActiveAt(t, vs[j].depth)
      && vs[j].shape >= 0
      && (!vs[j].active ==> vs[j].shape == 1)
  }

  lemma {:induction false} EventsWellVisited(t: Type, linear: int, adjust: Dimensions.SliceAdjust)
    requires VarChain(t) && Events(t, linear, adjust).Ok?
    ensures WellVisited(t, Events(t, linear, adjust).value)
    decreases Size(t), 0
  {
    if t.ndim > 0 {
      var h := HeadOf(t, linear, adjust).value;
      var inner := t.node.inner;
      ChildrenWellVisited(inner, h.start, h.step, h.lo, h.hi, adjust);
      var c := Children(inner, h.start, h.step, h.lo, h.hi, adjust).value;
      var e := [h.visit] + c;
      assert Events(t, linear, adjust).value == e;
      forall j | 1 <= j < |e|
        ensures 1 <= e[j].depth <= t.ndim && e[j].active == ActiveAt(t, e[j].depth)
      {
        assert e[j] == c[j - 1];
      }
    }
  }

  lemma {:induction false} ChildrenWellVisited(inner: Type, start: int, step: int, lo: int, hi: int,
                                               adjust: Dimensions.SliceAdjust)
    requires VarChain(inner) && Children(inner, start, step, lo, hi, adjust).Ok?
    ensures WellVisited(inner, Children(inner, start, step, lo, hi, adjust).value)
    decreases Size(inner), 1, hi - lo
  {
    if hi > lo {
      ChildrenWellVisited(inner, start, step, lo, hi - 1, adjust);
      EventsWellVisited(inner, start + (hi - 1) * step, adjust);
      var a := Children(inner, start, step, lo, hi - 1, adjust).value;
      var b := Events(inner, start + (hi - 1) * step, adjust).value;
      WellVisitedAppend(inner, a, b);
    }
  }

  lemma WellVisitedAppend(t: Type, a: seq<Visit>, b: seq<Visit>)
    requires VarChain(t) && WellVisited(t, a) && WellVisited(t, b)
    ensures WellVisited(t, a + b)
  {
    forall j | 0 <= j < |a + b|
      ensures (a + b)[j] == if j < |a| then a[j] else b[j - |a|]
    {
    }
  }

  /** The walk visits t once; below it, each dimension is visited once per
      element the dimension above recorded. */
  lemma {:induction false} EventsCounts(t: Type, linear: int, adjust: Dimensions.SliceAdjust, d: int)
    requires VarChain(t) && Events(t, linear, adjust).Ok?
    ensures var e := Events(t, linear, adjust).value;
      && (d > t.ndim ==> ShapesAt(e, d) == [])
      && (1 <= d == t.ndim ==> |ShapesAt(e, d)| == 1)
      && (1 <= d < t.ndim ==> |ShapesAt(e, d)| == Sum(ShapesAt(e, d + 1)))
    decreases Size(t), 0
  {
    if t.ndim > 0 {
      var h := HeadOf(t, linear, adjust).value;
      var inner := t.node.inner;
      var c := Children(inner, h.start, h.step, h.lo, h.hi, adjust).value;
      var e := [h.visit] + c;
      assert Events(t, linear, adjust).value == e;
      assert e[0] == h.visit && e[1..] == c;
      ChildrenCounts(inner, h.start, h.step, h.lo, h.hi, adjust, d);
      ChildrenCounts(inner, h.start, h.step, h.lo, h.hi, adjust, d + 1);
      assert ShapesAt(e, d) == (if d == t.ndim then [h.visit.shape] else []) + ShapesAt(c, d);
      assert ShapesAt(e, d + 1) == (if d + 1 == t.ndim then [h.visit.shape] else []) + ShapesAt(c, d + 1);
      if d + 1 < t.ndim {
        assert ShapesAt(e, d) == ShapesAt(c, d) && ShapesAt(e, d + 1) == ShapesAt(c, d + 1);
      } else if d + 1 == t.ndim {
        assert ShapesAt(c, d + 1) == [];
        assert ShapesAt(e, d + 1) == [h.visit.shape];
        assert Sum([h.visit.shape]) == h.visit.shape + Sum([]);
      }
    }
  }

  lemma {:induction false} ChildrenCounts(inner: Type, start: int, step: int, lo: int, hi: int,
                                          adjust: Dimensions.SliceAdjust, d: int)
    requires VarChain(inner) && Children(inner, start, step, lo, hi, adjust).Ok?
    ensures var c := Children(inner, start, step, lo, hi, adjust).value;
      && (d > inner.ndim ==> ShapesAt(c, d) == [])
      && (1 <= d == inner.ndim ==> |ShapesAt(c, d)| == (if lo < hi then hi - lo else 0))
      && (1 <= d < inner.ndim ==> |ShapesAt(c, d)| == Sum(ShapesAt(c, d + 1)))
    decreases Size(inner), 1, hi - lo
  {
    if hi > lo {
      ChildrenCounts(inner, start, step, lo, hi - 1, adjust, d);
      EventsCounts(inner, start + (hi - 1) * step, adjust, d);
      var a := Children(inner, start, step, lo, hi - 1, adjust).value;
      var b := Events(inner, start + (hi - 1) * step, adjust).value;
      ShapesAtAppend(a, b, d);
      if 1 <= d < inner.ndim {
        ChildrenCounts(inner, start, step, lo, hi - 1, adjust, d + 1);
        EventsCounts(inner, start + (hi - 1) * step, adjust, d + 1);
        ShapesAtAppend(a, b, d + 1);
        SumAppend(ShapesAt(a, d + 1), ShapesAt(b, d + 1));
      }
    }
  }

  // ---------------------------------------------------------------------
  // The table of offsets_t

  /** active[], index[] and offsets[] of offsets_t, NDT_MAX_DIM + 1 entries each. */
  datatype Table = Table(active: seq<bool>, index: seq<int>, offsets: seq<seq<int>>)

  predicate TableShaped(tb: Table) {
    |tb.active| == MAX_DIM + 1 && |tb.index| == MAX_DIM + 1 && |tb.offsets| == MAX_DIM + 1
  }

  /** The zero-initialised offsets_t of var_copy_contiguous. */
  function EmptyTable(): (tb: Table)
    ensures TableShaped(tb)
  {
    Table(seq(MAX_DIM + 1, _ => false), seq(MAX_DIM + 1, _ => 0), seq(MAX_DIM + 1, _ => []))
  }

  /** A visit can be recorded: its dimension has a slot and, when writing,
      the next write index lies inside the allocated offsets. */
  predicate Fits(tb: Table, v: Visit, write: bool) {
    && TableShaped(tb) && 1 <= v.depth <= MAX_DIM
    && (write ==> 0 <= tb.index[v.depth] && tb.index[v.depth] + 1 < |tb.offsets[v.depth]|)
  }

  /** The bookkeeping of one visit: mark the dimension, take the next write
      index and, when writing, store the previous entry plus the shape. */
  function Note(tb: Table, v: Visit, write: bool): (r: Table)
    requires Fits(tb, v, write)
    ensures TableShaped(r)
  {
    var d := v.depth;
    var w := tb.index[d];
    Table(tb.active[d := v.active], tb.index[d := w + 1],
          if write then tb.offsets[d := tb.offsets[d][w + 1 := tb.offsets[d][w] + v.shape]] else tb.offsets)
  }

  predicate HasRoom(tb: Table, vs: seq<Visit>, write: bool)
    decreases |vs|
  {
    vs == [] || (Fits(tb, vs[0], write) && HasRoom(Note(tb, vs[0], write), vs[1..], write))
  }

  function NoteAll(tb: Table, vs: seq<Visit>, write: bool): (r: Table)
    requires HasRoom(tb, vs, write)
    ensures TableShaped(tb) ==> TableShaped(r)
    decreases |vs|
  {
    if vs == [] then tb else NoteAll(Note(tb, vs[0], write), vs[1..], write)
  }

  lemma {:induction false} NoteAllAppend(tb: Table, a: seq<Visit>, b: seq<Visit>, write: bool)
    ensures HasRoom(tb, a + b, write) <==> HasRoom(tb, a, write) && HasRoom(NoteAll(tb, a, write), b, write)
    ensures HasRoom(tb, a + b, write) ==> NoteAll(tb, a + b, write) == NoteAll(NoteAll(tb, a, write), b, write)
    decreases |a|
  {
    if a == [] {
      assert a + b == b;
    } else {
      assert (a + b)[0] == a[0] && (a + b)[1..] == a[1..] + b;
      if Fits(tb, a[0], write) {
        NoteAllAppend(Note(tb, a[0], write), a[1..], b, write);
      }
    }
  }

  /** The effect of a sequence of visits on the entries of dimension d. */
  lemma {:induction false} NoteAllAt(tb: Table, vs: seq<Visit>, write: bool, d: int)
    requires TableShaped(tb) && HasRoom(tb, vs, write) && 0 <= d <= MAX_DIM
    ensures var r := NoteAll(tb, vs, write);
      var s := ShapesAt(vs, d);
      var w := tb.index[d];
      var o := tb.offsets[d];
      && r.active[d] == LastActive(tb.active[d], vs, d)
      && r.index[d] == w + |s|
      && (!write ==> r.offsets == tb.offsets)
      && (s == [] ==> r.offsets[d] == o)
      && (write && s != [] ==>
            Spliced(r.offsets[d], o, w, s))
    decreases |vs|
  {
    if vs != [] {
      var v := vs[0];
      var tb1 := Note(tb, v, write);
      NoteAllAt(tb1, vs[1..], write, d);
      var s' := ShapesAt(vs[1..], d);
      if v.depth == d {
        var w := tb.index[d];
        var o := tb.offsets[d];
        assert ShapesAt(vs, d) == [v.shape] + s';
        if write {
          SpliceStep(o, w, v.shape, s', NoteAll(tb, vs, write).offsets[d]);
        }
      } else {
        assert ShapesAt(vs, d) == s';
      }
    }
  }

  /** r is o with the running sums of s, from o[w] on, written over
      positions w .. w + |s|. */
  predicate Spliced(r: seq<int>, o: seq<int>, w: int, s: seq<int>) {
    && 0 <= w && w + |s| < |o| && |r| == |o|
    && forall k :: 0 <= k < |o| ==> r[k] == if w <= k <= w + |s| then PrefixFrom(o[w], s)[k - w] else o[k]
  }

  /** One write followed by the writes of s' stores the running sums of
      [x] + s' from position w on. */
  lemma SpliceStep(o: seq<int>, w: int, x: int, s': seq<int>, r: seq<int>)
    requires 0 <= w && w + |s'| + 1 < |o|
    requires s' == [] ==> r == o[w + 1 := o[w] + x]
    requires s' != [] ==> Spliced(r, o[w + 1 := o[w] + x], w + 1, s')
    ensures Spliced(r, o, w, [x] + s')
  {
    var p := PrefixFrom(o[w], [x] + s');
    PrefixCons(o[w], x, s');
    assert forall k :: 1 <= k <= |s'| + 1 ==> p[k] == PrefixFrom(o[w] + x, s')[k - 1];
  }

  lemma PrefixCons(a: int, x: int, s: seq<int>)
    ensures PrefixFrom(a, [x] + s) == [a] + PrefixFrom(a + x, s)
  {
    var xs := [x] + s;
    assert xs != [] && xs[0] == x && xs[1..] == s;
  }

  /** Enough room for every write: dimension d, whose next write index is
      index[d], receives |ShapesAt(vs, d)| more entries. */
  lemma {:induction false} RoomFromCounts(tb: Table, vs: seq<Visit>)
    requires TableShaped(tb)
    requires forall j :: 0 <= j < |vs| ==> 1 <= vs[j].depth <= MAX_DIM
    requires forall d :: 1 <= d <= MAX_DIM && ShapesAt(vs, d) != [] ==>
               0 <= tb.index[d] && tb.index[d] + |ShapesAt(vs, d)| < |tb.offsets[d]|
    ensures HasRoom(tb, vs, true)
    decreases |vs|
  {
    if vs != [] {
      var v := vs[0];
      assert ShapesAt(vs, v.depth) == [v.shape] + ShapesAt(vs[1..], v.depth);
      var tb1 := Note(tb, v, true);
      forall d | 1 <= d <= MAX_DIM && ShapesAt(vs[1..], d) != []
        ensures 0 <= tb1.index[d] && tb1.index[d] + |ShapesAt(vs[1..], d)| < |tb1.offsets[d]|
      {
        if d != v.depth {
          assert ShapesAt(vs, d) == ShapesAt(vs[1..], d);
        }
      }
      assert forall j :: 0 <= j < |vs[1..]| ==> vs[1..][j] == vs[j + 1];
      RoomFromCounts(tb1, vs[1..]);
    }
  }

  /** var_init_offsets: calloc'd offsets of index[i] + 1 entries for every
      dimension 1 .. n. */
  function WithOffsets(tb: Table, n: int): (r: Table)
    requires TableShaped(tb) && n <= MAX_DIM
    requires forall d :: 1 <= d <= n ==> tb.index[d] >= 0
    ensures TableShaped(r)
  {
    tb.(offsets := seq(MAX_DIM + 1, d requires 0 <= d <= MAX_DIM =>
                         if 1 <= d <= n then Zeros(tb.index[d] + 1) else tb.offsets[d]))
  }

  /** The loop of var_copy_contiguous that resets index[0 .. n]. */
  function WithIndexReset(tb: Table, n: int): (r: Table)
    requires TableShaped(tb)
    ensures TableShaped(r)
  {
    tb.(index := seq(MAX_DIM + 1, d requires 0 <= d <= MAX_DIM => if d <= n then 0 else tb.index[d]))
  }

  /** The table the two walks leave: dimension d is active when its last
      visit was, its counter is its number of visits, and its offsets are the
      prefix sums of the shapes recorded for it, starting at 0. */
  function SpecTable(e: seq<Visit>, n: int): (tb: Table)
    ensures TableShaped(tb)
  {
    Table(seq(MAX_DIM + 1, d => LastActive(false, e, d)),
          seq(MAX_DIM + 1, d => |ShapesAt(e, d)|),
          seq(MAX_DIM + 1, d => if 1 <= d <= n then PrefixFrom(0, ShapesAt(e, d)) else []))
  }

  lemma ShapesAtOutside(vs: seq<Visit>, d: int)
    requires forall j :: 0 <= j < |vs| ==> vs[j].depth != d
    ensures ShapesAt(vs, d) == []
    decreases |vs|
  {
    if vs != [] {
      assert forall j :: 0 <= j < |vs[1..]| ==> vs[1..][j] == vs[j + 1];
      ShapesAtOutside(vs[1..], d);
    }
  }

  /** What the counting walk leaves: the list count of every dimension,
      its activity, and no offsets yet. */
  lemma CountingPass(e: seq<Visit>, n: int)
    requires 0 <= n <= MAX_DIM
    requires forall j :: 0 <= j < |e| ==> 1 <= e[j].depth <= n
    requires HasRoom(EmptyTable(), e, false)
    ensures var t1 := NoteAll(EmptyTable(), e, false);
      forall d :: 0 <= d <= MAX_DIM ==>
        && t1.index[d] == |ShapesAt(e, d)| && t1.active[d] == LastActive(false, e, d)
        && t1.offsets[d] == []
        && ((d == 0 || d > n) ==> ShapesAt(e, d) == [])
  {
    var t0 := EmptyTable();
    forall d | 0 <= d <= MAX_DIM
      ensures var t1 := NoteAll(t0, e, false);
        && t1.index[d] == |ShapesAt(e, d)| && t1.active[d] == LastActive(false, e, d)
        && t1.offsets[d] == []
        && ((d == 0 || d > n) ==> ShapesAt(e, d) == [])
    {
      NoteAllAt(t0, e, false, d);
      if d == 0 || d > n {
        ShapesAtOutside(e, d);
      }
    }
  }

  /** Dimension d of the table the writing walk starts from: the activity
      the counting walk left, a reset counter and zeroed offsets. */
  predicate PreparedAt(t2: Table, e: seq<Visit>, n: int, d: int)
    requires TableShaped(t2) && 0 <= d <= MAX_DIM
  {
    && t2.active[d] == LastActive(false, e, d) && t2.index[d] == 0
    && (1 <= d <= n ==> t2.offsets[d] == Zeros(|ShapesAt(e, d)| + 1))
    && (!(1 <= d <= n) ==> ShapesAt(e, d) == [] && t2.offsets[d] == [])
  }

  /** var_init_offsets and the index reset after the counting walk prepare
      every dimension and leave room for the writing walk. */
  lemma Prepared(e: seq<Visit>, n: int)
    requires 0 <= n <= MAX_DIM
    requires forall j :: 0 <= j < |e| ==> 1 <= e[j].depth <= n
    requires HasRoom(EmptyTable(), e, false)
    ensures forall d :: 0 <= d <= MAX_DIM ==> NoteAll(EmptyTable(), e, false).index[d] == |ShapesAt(e, d)|
    ensures var t2 := WithIndexReset(WithOffsets(NoteAll(EmptyTable(), e, false), n), n);
      && HasRoom(t2, e, true)
      && (forall d :: 0 <= d <= MAX_DIM ==> PreparedAt(t2, e, n, d))
  {
    CountingPass(e, n);
    var t1 := NoteAll(EmptyTable(), e, false);
    var t2 := WithIndexReset(WithOffsets(t1, n), n);
    forall d | 0 <= d <= MAX_DIM
      ensures PreparedAt(t2, e, n, d)
    {
      assert t2.active[d] == t1.active[d];
    }
    forall d | 1 <= d <= MAX_DIM && ShapesAt(e, d) != []
      ensures 0 <= t2.index[d] && t2.index[d] + |ShapesAt(e, d)| < |t2.offsets[d]|
    {
      assert 1 <= d <= n;
    }
    RoomFromCounts(t2, e);
  }

  /** The writing walk over the table var_init_offsets and the index reset
      prepared: dimension d ends as SpecTable has it. */
  lemma WritingPassAt(t2: Table, e: seq<Visit>, n: int, d: int)
    requires TableShaped(t2) && 0 <= n <= MAX_DIM && 0 <= d <= MAX_DIM
    requires HasRoom(t2, e, true) && PreparedAt(t2, e, n, d)
    ensures var t3 := NoteAll(t2, e, true);
      var spec := SpecTable(e, n);
      t3.active[d] == spec.active[d] && t3.index[d] == spec.index[d] && t3.offsets[d] == spec.offsets[d]
  {
    var t3 := NoteAll(t2, e, true);
    NoteAllAt(t2, e, true, d);
    LastActiveStart(t2.active[d], false, e, d);
    var s := ShapesAt(e, d);
    if 1 <= d <= n && s != [] {
      assert forall k :: 0 <= k < |s| + 1 ==> t3.offsets[d][k] == PrefixFrom(0, s)[k];
      assert t3.offsets[d] == PrefixFrom(0, s);
    }
  }

  /** The counting walk, var_init_offsets and the index reset leave room for
      the writing walk, and the writing walk leaves SpecTable. */
  lemma TwoPasses(e: seq<Visit>, n: int)
    requires 0 <= n <= MAX_DIM
    requires forall j :: 0 <= j < |e| ==> 1 <= e[j].depth <= n
    requires HasRoom(EmptyTable(), e, false)
    ensures var t1 := NoteAll(EmptyTable(), e, false);
      && (forall d :: 0 <= d <= MAX_DIM ==> t1.index[d] == |ShapesAt(e, d)|)
      && HasRoom(WithIndexReset(WithOffsets(t1, n), n), e, true)
      && NoteAll(WithIndexReset(WithOffsets(t1, n), n), e, true) == SpecTable(e, n)
  {
    Prepared(e, n);
    var t2 := WithIndexReset(WithOffsets(NoteAll(EmptyTable(), e, false), n), n);
    var t3 := NoteAll(t2, e, true);
    var spec := SpecTable(e, n);
    forall d | 0 <= d <= MAX_DIM
      ensures t3.active[d] == spec.active[d] && t3.index[d] == spec.index[d] && t3.offsets[d] == spec.offsets[d]
    {
      WritingPassAt(t2, e, n, d);
    }
    assert t3.active == spec.active && t3.index == spec.index && t3.offsets == spec.offsets;
  }

  // ---------------------------------------------------------------------
  // The rebuild

  /** var_from_offsets_and_dtype from dimension i up to n: every active
      dimension becomes a var dimension (no slices, not optional) over the
      first index[i] + 1 offsets; inactive ones are dropped. */
  function Rebuild(tb: Table, u: Type, i: int, n: int): Result<Type>
    requires TableShaped(tb) && 1 <= i && n <= MAX_DIM
    requires forall d :: i <= d <= n ==> 0 <= tb.index[d] < |tb.offsets[d]|
    decreases n - i + 1
  {
    if i > n then Ok(u)
    else if !tb.active[i] then Rebuild(tb, u, i + 1, n)
    else
      var v :- Dimensions.VarDim(u, tb.offsets[i][..tb.index[i] + 1], [], false);
      Rebuild(tb, v, i + 1, n)
  }

  /** var_copy_contiguous as a function of the type, the new dtype and the
      linear index. */
  function VarCopySpec(t: Type, dtype: Type, linear: int, adjust: Dimensions.SliceAdjust): Result<Type>
    requires VarChain(t)
  {
    var e :- Events(t, linear, adjust);
    Rebuild(SpecTable(e, t.ndim), dtype, 1, t.ndim)
  }

  /** One var dimension over the prefix sums of s, placed over a type
      contiguous below Sum(s) lists, is contiguous below |s| lists. */
  lemma ActiveLevel(u: Type, s: seq<int>)
    requires Dimensions.VarDim(u, PrefixFrom(0, s), [], false).Ok?
    requires u.ndim >= 0
    requires u.ndim == 0 || Contiguity.VarContiguousFrom(u, Sum(s))
    ensures var v := Dimensions.VarDim(u, PrefixFrom(0, s), [], false).value;
      IsConcrete(v) && v.ndim != 0 && Contiguity.VarContiguousFrom(v, |s|)
  {
    PrefixFromSums(0, s);
  }

  /** What SpecTable holds for dimension i, and the list counts of an
      inactive dimension. */
  lemma LevelFacts(t: Type, e: seq<Visit>, i: int)
    requires VarChain(t) && WellVisited(t, e) && 1 <= i <= t.ndim
    ensures var tb := SpecTable(e, t.ndim);
      && tb.active[i] == LastActive(false, e, i)
      && tb.offsets[i][..tb.index[i] + 1] == PrefixFrom(0, ShapesAt(e, i))
      && (!tb.active[i] ==> Sum(ShapesAt(e, i)) == |ShapesAt(e, i)|)
  {
    assert DepthUniform(e, i, ActiveAt(t, i));
    UniformDepth(false, e, i, ActiveAt(t, i));
  }

  /** A dimension of the copy is kept exactly when it is a var dimension
      (not an element selection) that the walk reached; an element
      selection records one element per visit. */
  lemma VarCopyActive(t: Type, linear: int, adjust: Dimensions.SliceAdjust, d: int)
    requires VarChain(t) && Events(t, linear, adjust).Ok? && 1 <= d <= t.ndim
    ensures var e := Events(t, linear, adjust).value;
      && SpecTable(e, t.ndim).active[d] == (ActiveAt(t, d) && ShapesAt(e, d) != [])
      && (!ActiveAt(t, d) ==> Sum(ShapesAt(e, d)) == |ShapesAt(e, d)|)
  {
    var e := Events(t, linear, adjust).value;
    EventsWellVisited(t, linear, adjust);
    LevelFacts(t, e, d);
    assert DepthUniform(e, d, ActiveAt(t, d));
    UniformDepth(false, e, d, ActiveAt(t, d));
  }

  /** Dimension d of tb holds the prefix sums of the shapes the walk
      recorded there, and an inactive one records single elements. */
  predicate LevelShaped(tb: Table, e: seq<Visit>, d: int)
    requires TableShaped(tb) && 0 <= d <= MAX_DIM && 0 <= tb.index[d] < |tb.offsets[d]|
  {
    && tb.offsets[d][..tb.index[d] + 1] == PrefixFrom(0, ShapesAt(e, d))
    && (!tb.active[d] ==> Sum(ShapesAt(e, d)) == |ShapesAt(e, d)|)
  }

  /** One level of the rebuild: the type the rebuild continues from is
      var-contiguous below the list count of level i. */
  lemma RebuildStep(tb: Table, e: seq<Visit>, n: int, u: Type, i: int) returns (v: Type)
    requires TableShaped(tb) && 1 <= i <= n <= MAX_DIM
    requires 0 <= tb.index[i] < |tb.offsets[i]| && LevelShaped(tb, e, i)
    requires i >= 2 ==> |ShapesAt(e, i - 1)| == Sum(ShapesAt(e, i))
    requires forall d :: i <= d <= n ==> 0 <= tb.index[d] < |tb.offsets[d]|
    requires IsConcrete(u) && u.ndim >= 0
    requires u.ndim == 0 || (i >= 2 && Contiguity.VarContiguousFrom(u, |ShapesAt(e, i - 1)|))
    requires Rebuild(tb, u, i, n).Ok?
    ensures Rebuild(tb, u, i, n) == Rebuild(tb, v, i + 1, n)
    ensures IsConcrete(v) && v.ndim >= 0
    ensures v.ndim == 0 || Contiguity.VarContiguousFrom(v, |ShapesAt(e, i)|)
  {
    var s := ShapesAt(e, i);
    if tb.active[i] {
      ActiveLevel(u, s);
      v := Dimensions.VarDim(u, PrefixFrom(0, s), [], false).value;
    } else {
      v := u;
    }
  }

  lemma {:induction false} RebuildContiguous(tb: Table, e: seq<Visit>, n: int, u: Type, i: int)
    requires TableShaped(tb) && 1 <= n <= MAX_DIM && 1 <= i <= n + 1
    requires forall d :: 1 <= d <= n ==> 0 <= tb.index[d] < |tb.offsets[d]| && LevelShaped(tb, e, d)
    requires forall d :: 1 <= d < n ==> |ShapesAt(e, d)| == Sum(ShapesAt(e, d + 1))
    requires |ShapesAt(e, n)| == 1
    requires IsConcrete(u) && u.ndim >= 0
    requires u.ndim == 0 || (i >= 2 && Contiguity.VarContiguousFrom(u, |ShapesAt(e, i - 1)|))
    requires Rebuild(tb, u, i, n).Ok?
    ensures Contiguity.VarContiguous(Rebuild(tb, u, i, n).value)
    decreases n + 1 - i
  {
    if i <= n {
      var v := RebuildStep(tb, e, n, u, i);
      RebuildContiguous(tb, e, n, v, i + 1);
    }
  }

  /** The copy var_copy_contiguous makes is var-contiguous: one outer list,
      no slices, and each dimension's last offset is the list count of the
      next one. */
  lemma VarCopyIsContiguous(t: Type, dtype: Type, linear: int, adjust: Dimensions.SliceAdjust)
    requires VarChain(t) && t.ndim >= 1
    requires IsConcrete(dtype) && dtype.ndim == 0
    requires VarCopySpec(t, dtype, linear, adjust).Ok?
    ensures Contiguity.VarContiguous(VarCopySpec(t, dtype, linear, adjust).value)
  {
    var e := Events(t, linear, adjust).value;
    EventsWellVisited(t, linear, adjust);
    forall d | 1 <= d <= t.ndim
      ensures d < t.ndim ==> |ShapesAt(e, d)| == Sum(ShapesAt(e, d + 1))
      ensures d == t.ndim ==> |ShapesAt(e, d)| == 1
    {
      EventsCounts(t, linear, adjust, d);
    }
    var tb := SpecTable(e, t.ndim);
    forall d | 1 <= d <= t.ndim
      ensures 0 <= tb.index[d] < |tb.offsets[d]| && LevelShaped(tb, e, d)
    {
      LevelFacts(t, e, d);
    }
    RebuildContiguous(tb, e, t.ndim, dtype, 1);
  }

  /** The offsets the copy gets for dimension d: they start at 0 and the
      j-th list has the j-th recorded shape as its length. */
  lemma VarCopyOffsets(t: Type, linear: int, adjust: Dimensions.SliceAdjust, d: int)
    requires VarChain(t) && Events(t, linear, adjust).Ok? && 1 <= d <= t.ndim
    ensures var e := Events(t, linear, adjust).value;
      var o := SpecTable(e, t.ndim).offsets[d];
      var s := ShapesAt(e, d);
      && |o| == |s| + 1 && o[0] == 0 && o[|s|] == Sum(s)
      && forall j :: 0 <= j < |s| ==> o[j + 1] - o[j] == s[j]
  {
    var e := Events(t, linear, adjust).value;
    PrefixFromSums(0, ShapesAt(e, d));
  }

  /** The walk over [lo, hi) around element i: the elements before it, its
      own visits and the elements after it. */
  lemma ChildrenAround(inner: Type, start: int, step: int, lo: int, i: int, hi: int,
                       adjust: Dimensions.SliceAdjust)
    requires VarChain(inner) && lo <= i < hi
    requires Children(inner, start, step, lo, hi, adjust).Ok?
    ensures Children(inner, start, step, lo, i, adjust).Ok?
    ensures Events(inner, start + i * step, adjust).Ok?
    ensures Children(inner, start, step, i + 1, hi, adjust).Ok?
    ensures Children(inner, start, step, lo, hi, adjust).value ==
            Children(inner, start, step, lo, i, adjust).value +
            (Events(inner, start + i * step, adjust).value + Children(inner, start, step, i + 1, hi, adjust).value)
  {
    ChildrenSplit(inner, start, step, lo, i, hi, adjust);
    ChildrenSplit(inner, start, step, i, i + 1, hi, adjust);
    ChildrenOne(inner, start, step, i, adjust);
  }

  /** The walk over the single element i is that element's visits. */
  lemma ChildrenOne(inner: Type, start: int, step: int, i: int, adjust: Dimensions.SliceAdjust)
    requires VarChain(inner)
    ensures Children(inner, start, step, i, i + 1, adjust).Ok? <==> Events(inner, start + i * step, adjust).Ok?
    ensures Children(inner, start, step, i, i + 1, adjust).Ok? ==>
            Children(inner, start, step, i, i + 1, adjust).value == Events(inner, start + i * step, adjust).value
  {
    var ev := Events(inner, start + i * step, adjust);
    if ev.Ok? {
      assert [] + ev.value == ev.value;
    }
  }

  /** Before the writing walk descends into element i, the table has room
      for that element's visits. */
  lemma RoomForChild(t0: Table, prefix: seq<Visit>, inner: Type, start: int, step: int,
                     lo: int, i: int, hi: int, adjust: Dimensions.SliceAdjust)
    requires VarChain(inner) && lo <= i < hi
    requires Children(inner, start, step, lo, hi, adjust).Ok?
    requires HasRoom(t0, prefix + Children(inner, start, step, lo, hi, adjust).value, true)
    ensures Children(inner, start, step, lo, i, adjust).Ok?
    ensures Events(inner, start + i * step, adjust).Ok?
    ensures HasRoom(t0, prefix + Children(inner, start, step, lo, i, adjust).value, true)
    ensures HasRoom(NoteAll(t0, prefix + Children(inner, start, step, lo, i, adjust).value, true),
                    Events(inner, start + i * step, adjust).value, true)
  {
    ChildrenAround(inner, start, step, lo, i, hi, adjust);
    var before := Children(inner, start, step, lo, i, adjust).value;
    var ev := Events(inner, start + i * step, adjust).value;
    var after := Children(inner, start, step, i + 1, hi, adjust).value;
    assert prefix + (before + (ev + after)) == (prefix + before) + (ev + after);
    RoomInside(t0, prefix + before, ev, after, true);
  }

  /** Room for a + b + c leaves room for a, and then for b. */
  lemma RoomInside(tb: Table, a: seq<Visit>, b: seq<Visit>, c: seq<Visit>, write: bool)
    requires HasRoom(tb, a + (b + c), write)
    ensures HasRoom(tb, a, write) && HasRoom(NoteAll(tb, a, write), b, write)
  {
    NoteAllAppend(tb, a, b + c, write);
    NoteAllAppend(NoteAll(tb, a, write), b, c, write);
  }

  /** After element i has been walked, the walk over [lo, i + 1) is recorded. */
  lemma {:induction false} ChildDone(t0: Table, prefix: seq<Visit>, inner: Type, start: int, step: int,
                                     lo: int, i: int, adjust: Dimensions.SliceAdjust, write: bool)
    requires VarChain(inner) && lo <= i
    requires Children(inner, start, step, lo, i, adjust).Ok?
    requires HasRoom(t0, prefix + Children(inner, start, step, lo, i, adjust).value, write)
    requires Events(inner, start + i * step, adjust).Ok?
    requires HasRoom(NoteAll(t0, prefix + Children(inner, start, step, lo, i, adjust).value, write),
                     Events(inner, start + i * step, adjust).value, write)
    ensures Children(inner, start, step, lo, i + 1, adjust).Ok?
    ensures HasRoom(t0, prefix + Children(inner, start, step, lo, i + 1, adjust).value, write)
    ensures NoteAll(t0, prefix + Children(inner, start, step, lo, i + 1, adjust).value, write) ==
            NoteAll(NoteAll(t0, prefix + Children(inner, start, step, lo, i, adjust).value, write),
                    Events(inner, start + i * step, adjust).value, write)
  {
    ChildrenNext(inner, start, step, lo, i, adjust);
    AppendRoom(t0, prefix, Children(inner, start, step, lo, i, adjust).value,
               Events(inner, start + i * step, adjust).value, write);
  }

  lemma ChildrenNext(inner: Type, start: int, step: int, lo: int, i: int, adjust: Dimensions.SliceAdjust)
    requires VarChain(inner) && lo <= i
    requires Children(inner, start, step, lo, i, adjust).Ok? && Events(inner, start + i * step, adjust).Ok?
    ensures Children(inner, start, step, lo, i + 1, adjust) ==
            Ok(Children(inner, start, step, lo, i, adjust).value + Events(inner, start + i * step, adjust).value)
  {
  }

  lemma AppendRoom(t0: Table, p: seq<Visit>, b: seq<Visit>, c: seq<Visit>, write: bool)
    requires HasRoom(t0, p + b, write) && HasRoom(NoteAll(t0, p + b, write), c, write)
    ensures HasRoom(t0, p + (b + c), write)
    ensures NoteAll(t0, p + (b + c), write) == NoteAll(NoteAll(t0, p + b, write), c, write)
  {
    assert (p + b) + c == p + (b + c);
    NoteAllAppend(t0, p + b, c, write);
  }

  /** The head of var_copy_shapes: ndt_var_indices on the list, and for an
      element selection get_index on the selected element. HeadOf is its
      specification; this method exists because it calls the looping method
      Dimensions.VarIndices, which a function cannot. */
  method VisitOf(t: Type, linear: int, adjust: Dimensions.SliceAdjust) returns (r: Result<Head>)
    requires VarChain(t) && t.ndim > 0
    ensures r == HeadOf(t, linear, adjust)
  {
    var idx := Dimensions.VarIndices(t, linear, adjust, false);
    if idx.Err? {
      return Err(idx.error);
    }
    var shape := idx.value.shape;
    if shape < 0 {
      return Err(IndexError);
    }
    if t.node.VarDimElem? {
      var k := GetIndex(shape, t.node.index);
      if k.Err? {
        return Err(k.error);
      }
      return Ok(Head(Visit(t.ndim, 1, false), idx.value.start, idx.value.step, k.value, k.value + 1));
    }
    return Ok(Head(Visit(t.ndim, shape, true), idx.value.start, idx.value.step, 0, shape));
  }

  // ---------------------------------------------------------------------
  // The imperative walk

  /** offsets_t: the table both walks of var_copy_contiguous update. */
  class OffsetsTable {
    const maxdim: int
    var active: seq<bool>
    var index: seq<int>
    var offsets: seq<seq<int>>

    function State(): Table
      reads this
    {
      Table(active, index, offsets)
    }

    ghost predicate Valid()
      reads this
    {
      0 <= maxdim <= MAX_DIM && TableShaped(State())
    }

    constructor (maxdim: int)
      requires 0 <= maxdim <= MAX_DIM
      ensures this.maxdim == maxdim && Valid() && State() == EmptyTable()
    {
      this.maxdim := maxdim;
      active := seq(MAX_DIM + 1, _ => false);
      index := seq(MAX_DIM + 1, _ => 0);
      offsets := seq(MAX_DIM + 1, _ => []);
    }

    /** The bookkeeping var_copy_shapes does for one visit. */
    method Mark(v: Visit, write: bool)
      requires Valid() && Fits(State(), v, write)
      modifies this
      ensures Valid() && State() == Note(old(State()), v, write)
    {
      var d := v.depth;
      active := active[d := v.active];
      var w := index[d];
      index := index[d := w + 1];
      if write {
        offsets := offsets[d := offsets[d][w + 1 := offsets[d][w] + v.shape]];
      }
    }

    /** var_copy_shapes: record the visit of t and walk the elements of its
        list. */
    method CopyShapes(write: bool, linear: int, t: Type, adjust: Dimensions.SliceAdjust) returns (c: Check)
      requires Valid() && VarChain(t)
      requires write ==> Events(t, linear, adjust).Ok? && HasRoom(State(), Events(t, linear, adjust).value, true)
      modifies this
      ensures Valid()
      ensures c.Pass? <==> Events(t, linear, adjust).Ok?
      ensures c.Fail? ==> Events(t, linear, adjust) == Err(c.error)
      ensures c.Pass? ==>
        && HasRoom(old(State()), Events(t, linear, adjust).value, write)
        && State() == NoteAll(old(State()), Events(t, linear, adjust).value, write)
      decreases Size(t), 0
    {
      if t.ndim == 0 {
        return Pass;
      }
      var head := VisitOf(t, linear, adjust);
      if head.Err? {
        return Fail(head.error);
      }
      var h := head.value;
      ghost var t0 := State();
      if write {
        NoteAllAppend(t0, [h.visit], Children(t.node.inner, h.start, h.step, h.lo, h.hi, adjust).value, true);
      }
      Mark(h.visit, write);
      c := CopyChildren(write, t.node.inner, h.start, h.step, h.lo, h.hi, adjust, t0, [h.visit]);
    }

    /** The loop of var_copy_shapes over the elements lo .. hi-1 of the list,
        after the visits 'prefix' have been recorded on t0. */
    method CopyChildren(write: bool, inner: Type, start: int, step: int, lo: int, hi: int,
                        adjust: Dimensions.SliceAdjust, ghost t0: Table, ghost prefix: seq<Visit>)
      returns (c: Check)
      requires Valid() && VarChain(inner)
      requires HasRoom(t0, prefix, write) && State() == NoteAll(t0, prefix, write)
      requires write ==> Children(inner, start, step, lo, hi, adjust).Ok? &&
                         HasRoom(t0, prefix + Children(inner, start, step, lo, hi, adjust).value, true)
      modifies this
      ensures Valid()
      ensures c.Pass? <==> Children(inner, start, step, lo, hi, adjust).Ok?
      ensures c.Fail? ==> Children(inner, start, step, lo, hi, adjust) == Err(c.error)
      ensures c.Pass? ==>
        && HasRoom(t0, prefix + Children(inner, start, step, lo, hi, adjust).value, write)
        && State() == NoteAll(t0, prefix + Children(inner, start, step, lo, hi, adjust).value, write)
      decreases Size(inner), 1
    {
      assert prefix + Children(inner, start, step, lo, lo, adjust).value == prefix;
      var i := lo;
      while i < hi
        invariant lo <= i <= (if hi < lo then lo else hi)
        invariant Valid()
        invariant Children(inner, start, step, lo, i, adjust).Ok?
        invariant HasRoom(t0, prefix + Children(inner, start, step, lo, i, adjust).value, write)
        invariant State() == NoteAll(t0, prefix + Children(inner, start, step, lo, i, adjust).value, write)
        decreases hi - i
      {
        if write {
          RoomForChild(t0, prefix, inner, start, step, lo, i, hi, adjust);
        }
        c := CopyShapes(write, start + i * step, inner, adjust);
        if c.Fail? {
          ChildrenErrExtends(inner, start, step, lo, i + 1, hi, adjust);
          return c;
        }
        ChildDone(t0, prefix, inner, start, step, lo, i, adjust, write);
        i := i + 1;
      }
      if hi < lo {
        assert Children(inner, start, step, lo, i, adjust) == Children(inner, start, step, lo, hi, adjust);
      }
      return Pass;
    }

    /** var_init_offsets: zeroed offsets of index[i] + 1 entries for every
        dimension 1 .. maxdim. */
    method InitOffsets()
      requires Valid() && forall d :: 1 <= d <= maxdim ==> index[d] >= 0
      modifies this
      ensures Valid() && State() == WithOffsets(old(State()), maxdim)
    {
      var i := 1;
      while i <= maxdim
        invariant 1 <= i <= maxdim + 1 || (maxdim == 0 && i == 1)
        invariant Valid() && active == old(active) && index == old(index)
        invariant forall d :: 0 <= d <= MAX_DIM ==>
          offsets[d] == if 1 <= d < i then Zeros(index[d] + 1) else old(offsets[d])
      {
        offsets := offsets[i := Zeros(index[i] + 1)];
        i := i + 1;
      }
      assert offsets == WithOffsets(old(State()), maxdim).offsets;
    }

    /** The loop of var_copy_contiguous that resets index[0 .. maxdim]. */
    method ResetIndex()
      requires Valid()
      modifies this
      ensures Valid() && State() == WithIndexReset(old(State()), maxdim)
    {
      var i := 0;
      while i <= maxdim
        invariant 0 <= i <= maxdim + 1
        invariant Valid() && active == old(active) && offsets == old(offsets)
        invariant forall d :: 0 <= d <= MAX_DIM ==> index[d] == if d < i then 0 else old(index[d])
      {
        index := index[i := 0];
        i := i + 1;
      }
      assert index == WithIndexReset(old(State()), maxdim).index;
    }

    /** var_from_offsets_and_dtype: stack a var dimension over dtype for
        every active dimension, innermost first. */
    method FromOffsets(dtype: Type) returns (r: Result<Type>)
      requires Valid() && forall d :: 1 <= d <= maxdim ==> 0 <= index[d] < |offsets[d]|
      ensures r == Rebuild(State(), dtype, 1, maxdim)
    {
      var u := dtype;
      var i := 1;
      while i <= maxdim
        invariant 1 <= i <= maxdim + 1 || (maxdim == 0 && i == 1)
        invariant Rebuild(State(), u, i, maxdim) == Rebuild(State(), dtype, 1, maxdim)
      {
        if active[i] {
          var v := Dimensions.VarDim(u, offsets[i][..index[i] + 1], [], false);
          if v.Err? {
            return Err(v.error);
          }
          u := v.value;
        }
        i := i + 1;
      }
      return Ok(u);
    }
  }

  /** var_copy_contiguous: count the visits, allocate the offsets, record
      the shapes and rebuild the dimensions over dtype. */
  method VarCopyContiguous(t: Type, dtype: Type, linear: int, adjust: Dimensions.SliceAdjust)
    returns (r: Result<Type>)
    requires VarChain(t) && IsConcrete(t)
    ensures r == VarCopySpec(t, dtype, linear, adjust)
  {
    var m := new OffsetsTable(t.ndim);
    var c := m.CopyShapes(false, linear, t, adjust);
    if c.Fail? {
      return Err(c.error);
    }
    ghost var e := Events(t, linear, adjust).value;
    EventsWellVisited(t, linear, adjust);
    TwoPasses(e, t.ndim);
    m.InitOffsets();
    m.ResetIndex();
    c := m.CopyShapes(true, linear, t, adjust);
    assert m.State() == SpecTable(e, t.ndim);
    r := m.FromOffsets(dtype);
  }
}
