/** Memory layout of concrete tuples, records and unions
    (init_concrete_fields and init_concrete_tags in ndtypes.c). */
module FieldLayout {
  import opened Results
  import opened Int64
  import opened Types
  import opened Alignment

  /** The (uint16_t) cast of an int64 difference. */
  function Trunc16(x: int): (r: u16)
    ensures 0 <= x <= UINT16_MAX ==> r == x
  {
    x % 0x1_0000
  }

  /** What init_concrete_fields asserts about its fields; the alignment of a
      field made by ndt_field is a power of two and so never zero. */
  predicate FieldsReady(fields: seq<Field>) {
    forall i :: 0 <= i < |fields| ==>
      fields[i].access == Concrete && IsConcrete(fields[i].ftype) && fields[i].align > 0
  }

  /** Data sizes of built types are never negative. */
  predicate SizesNonNegative(fields: seq<Field>) {
    forall i :: 0 <= i < |fields| ==> fields[i].ftype.datasize >= 0
  }

  /** align[i] of the loop: the 'pack' value if there is one, else the field's. */
  function FieldAlign(f: Field, pack: Option<u16>): u16 {
    if pack.Some? then pack.value else f.align
  }

  /** The running state of the loop of init_concrete_fields. */
  datatype Scan = Scan(offset: int, maxalign: u16, overflow: bool,
                       offsets: seq<int>, aligns: seq<u16>, pads: seq<u16>)

  /** One iteration of the loop, for a field that is not the first when
      'first' is false. */
  function ScanStep(s: Scan, f: Field, first: bool, pack: Option<u16>): Result<Scan>
    requires f.align > 0 && (pack.Some? ==> pack.value > 0)
  {
    if pack.Some? && f.explicitAlign then Err(InvalidArgumentError)
    else
      var a := FieldAlign(f, pack);
      var start := if first then Checked(s.offset, false) else RoundUp(s.offset, a);
      var pads := if first then s.pads else s.pads + [Trunc16(start.value - s.offset)];
      var end := AddI64(start.value, f.ftype.datasize);
      Ok(Scan(end.value, Max16(a, s.maxalign), s.overflow || start.overflow || end.overflow,
              s.offsets + [start.value], s.aligns + [a], pads))
  }

  /** The greatest of m and the entries of aligns. */
  function MaxOf(m: u16, aligns: seq<u16>): u16 {
    if aligns == [] then m else Max16(aligns[|aligns| - 1], MaxOf(m, aligns[..|aligns| - 1]))
  }

  lemma {:induction false} MaxOfBounds(m: u16, aligns: seq<u16>)
    ensures MaxOf(m, aligns) >= m
    ensures forall i :: 0 <= i < |aligns| ==> aligns[i] <= MaxOf(m, aligns)
    ensures MaxOf(m, aligns) == m || exists i :: 0 <= i < |aligns| && MaxOf(m, aligns) == aligns[i]
    decreases |aligns|
  {
    if aligns != [] {
      var init := aligns[..|aligns| - 1];
      MaxOfBounds(m, init);
      assert forall i :: 0 <= i < |init| ==> aligns[i] == init[i];
      if MaxOf(m, aligns) != m && MaxOf(m, aligns) != aligns[|aligns| - 1] {
        var j :| 0 <= j < |init| && MaxOf(m, init) == init[j];
        assert MaxOf(m, aligns) == aligns[j];
      }
    }
  }

  /** The number of pad entries known after i fields: pad[i-1] is written
      once field i is placed. */
  function PadsKnown(i: nat): nat {
    if i == 0 then 0 else i - 1
  }

  /** The loop state after the first n fields. */
  function ScanFields(fields: seq<Field>, pack: Option<u16>, maxalign0: u16, n: nat): (r: Result<Scan>)
    requires n <= |fields| && FieldsReady(fields) && (pack.Some? ==> pack.value > 0)
    ensures r.Ok? ==>
      && |r.value.offsets| == n && |r.value.aligns| == n
      && |r.value.pads| == PadsKnown(n)
      && r.value.maxalign == MaxOf(maxalign0, r.value.aligns)
    ensures r.Err? ==> r.error == InvalidArgumentError
  {
    if n == 0 then Ok(Scan(0, maxalign0, false, [], [], []))
    else
      var s :- ScanFields(fields, pack, maxalign0, n - 1);
      var r := ScanStep(s, fields[n - 1], n == 1, pack);
      assert r.Ok? ==> r.value.aligns[..n - 1] == s.aligns;
      r
  }

  lemma ScanFieldsNext(fields: seq<Field>, pack: Option<u16>, maxalign0: u16, i: nat, before: Scan)
    requires i < |fields| && FieldsReady(fields) && (pack.Some? ==> pack.value > 0)
    requires ScanFields(fields, pack, maxalign0, i) == Ok(before)
    ensures ScanFields(fields, pack, maxalign0, i + 1) == ScanStep(before, fields[i], i == 0, pack)
  {
  }

  /** The loop fails exactly when 'pack' is given and one of the fields it
      has reached carries its own alignment. */
  lemma {:induction false} ScanFieldsFails(fields: seq<Field>, pack: Option<u16>, maxalign0: u16, n: nat)
    requires n <= |fields| && FieldsReady(fields) && (pack.Some? ==> pack.value > 0)
    ensures ScanFields(fields, pack, maxalign0, n).Err? <==>
            pack.Some? && exists i :: 0 <= i < n && fields[i].explicitAlign
    decreases n
  {
    if n > 0 {
      ScanFieldsFails(fields, pack, maxalign0, n - 1);
      var prev := ScanFields(fields, pack, maxalign0, n - 1);
      if prev.Ok? {
        assert ScanFields(fields, pack, maxalign0, n) == ScanStep(prev.value, fields[n - 1], n == 1, pack);
        ScanStepFails(prev.value, fields[n - 1], n == 1, pack);
        if pack.Some? && fields[n - 1].explicitAlign {
          assert exists i :: 0 <= i < n && fields[i].explicitAlign;
        }
      } else {
        var i :| 0 <= i < n - 1 && fields[i].explicitAlign;
        assert 0 <= i < n && fields[i].explicitAlign;
      }
    }
  }

  lemma ScanStepFails(s: Scan, f: Field, first: bool, pack: Option<u16>)
    requires f.align > 0 && (pack.Some? ==> pack.value > 0)
    ensures ScanStep(s, f, first, pack).Err? <==> pack.Some? && f.explicitAlign
  {
  }

  /** offset[i], align[i] and pad[i] side by side. */
  function Slots(offsets: seq<int>, aligns: seq<u16>, pads: seq<u16>): (r: seq<Slot>)
    requires |offsets| == |aligns| == |pads|
    ensures |r| == |offsets|
    ensures forall i :: 0 <= i < |r| ==> r[i] == Slot(offsets[i], aligns[i], pads[i])
  {
    seq(|offsets|, i requires 0 <= i < |offsets| => Slot(offsets[i], aligns[i], pads[i]))
  }

  /** What a concrete tuple or record learns from init_concrete_fields. */
  datatype Layout = Layout(slots: seq<Slot>, align: u16, datasize: int)

  /** The pad entries once the trailing padding (from the last field to the
      rounded-up size) has been added. */
  function FinalPads(s: Scan, fields: seq<Field>, size: int): seq<u16>
    requires |s.offsets| == |fields|
  {
    if |fields| == 0 then s.pads
    else s.pads + [Trunc16(size - s.offsets[|fields| - 1] - fields[|fields| - 1].ftype.datasize)]
  }

  predicate PadMismatch(fields: seq<Field>, pads: seq<u16>)
    requires |pads| == |fields|
  {
    exists i :: 0 <= i < |fields| && fields[i].explicitPad && fields[i].pad != pads[i]
  }

  /** init_concrete_fields as a function of the fields and the 'align' and
      'pack' attributes. */
  function ConcreteFieldsLayout(fields: seq<Field>, alignAttr: Option<u16>, pack: Option<u16>): (r: Result<Layout>)
    requires FieldsReady(fields)
    ensures GetAlign(alignAttr, 1).Err? ==> r == Err(ValueError)
    ensures GetAlign(alignAttr, 1).Ok? && GetAlign(pack, 1).Err? ==> r == Err(ValueError)
    ensures GetAlign(alignAttr, 1).Ok? && GetAlign(pack, 1).Ok? && pack.Some? &&
            (exists i :: 0 <= i < |fields| && fields[i].explicitAlign)
            ==> r == Err(InvalidArgumentError)
    ensures r.Err? ==> r.error == ValueError || r.error == InvalidArgumentError
    ensures r.Ok? ==> |r.value.slots| == |fields| && r.value.align >= 1
  {
    var maxalign0 :- GetAlign(alignAttr, 1);
    var packAlign :- GetAlign(pack, 1);
    ScanFieldsFails(fields, pack, maxalign0, |fields|);
    var s :- ScanFields(fields, pack, maxalign0, |fields|);
    MaxOfBounds(maxalign0, s.aligns);
    FinishLayout(fields, s)
  }

  /** What follows the loop: the total size, the trailing padding, the
      padding check and then the overflow check. */
  function FinishLayout(fields: seq<Field>, s: Scan): (r: Result<Layout>)
    requires |s.offsets| == |s.aligns| == |fields| && |s.pads| == PadsKnown(|fields|)
    requires s.maxalign > 0
    ensures r.Err? ==> r.error == ValueError
    ensures r.Ok? ==> |r.value.slots| == |fields| && r.value.align == s.maxalign
  {
    var size := RoundUp(s.offset, s.maxalign);
    var pads := FinalPads(s, fields, size.value);
    if PadMismatch(fields, pads) then Err(ValueError)
    else if s.overflow || size.overflow then Err(ValueError)
    else Ok(Layout(Slots(s.offsets, s.aligns, pads), s.maxalign, size.value))
  }

  /** End of field i: its offset plus its data size. */
  function End(fields: seq<Field>, offsets: seq<int>, i: int): int
    requires 0 <= i < |fields| && i < |offsets|
  {
    offsets[i] + fields[i].ftype.datasize
  }

  /** A field placed at the least multiple of its alignment at or after the
      end of the previous field, with the gap recorded as padding. */
  predicate Placed(prevEnd: int, offset: int, align: u16, pad: int) {
    align > 0 && MultipleOf(offset, align) && prevEnd <= offset < prevEnd + align &&
    pad == offset - prevEnd
  }

  /** What the loop has established after n fields when nothing overflowed. */
  predicate Laid(fields: seq<Field>, pack: Option<u16>, s: Scan, n: nat)
    requires n <= |fields|
  {
    && |s.offsets| == n && |s.aligns| == n && |s.pads| == (if n == 0 then 0 else n - 1)
    && (n == 0 ==> s.offset == 0)
    && (n > 0 ==> s.offsets[0] == 0 && s.offset == End(fields, s.offsets, n - 1))
    && (forall i :: 0 <= i < n ==> s.offsets[i] >= 0 && s.aligns[i] == FieldAlign(fields[i], pack))
    && (forall i :: 0 < i < n ==> Placed(End(fields, s.offsets, i - 1), s.offsets[i], s.aligns[i], s.pads[i - 1]))
  }

  /** Laid survives appending a field placed after the previous one. */
  lemma ExtendLaid(fields: seq<Field>, pack: Option<u16>, p: Scan, n: nat,
                   start: int, a: u16, pads: seq<u16>, maxalign: u16, overflow: bool)
    requires 0 < n <= |fields| && SizesNonNegative(fields)
    requires Laid(fields, pack, p, n - 1)
    requires a == FieldAlign(fields[n - 1], pack)
    requires n == 1 ==> start == p.offset && pads == p.pads
    requires n > 1 ==> |pads| == n - 1 && pads[..n - 2] == p.pads &&
                       Placed(p.offset, start, a, pads[n - 2])
    ensures Laid(fields, pack,
                 Scan(start + fields[n - 1].ftype.datasize, maxalign, overflow,
                      p.offsets + [start], p.aligns + [a], pads), n)
  {
    var s := Scan(start + fields[n - 1].ftype.datasize, maxalign, overflow,
                  p.offsets + [start], p.aligns + [a], pads);
    forall i | 0 < i < n
      ensures Placed(End(fields, s.offsets, i - 1), s.offsets[i], s.aligns[i], s.pads[i - 1])
    {
      assert End(fields, s.offsets, i - 1) == End(fields, p.offsets, i - 1);
      if i < n - 1 {
        assert s.pads[i - 1] == p.pads[i - 1];
        assert Placed(End(fields, p.offsets, i - 1), p.offsets[i], p.aligns[i], p.pads[i - 1]);
      }
    }
    assert forall i :: 0 <= i < n ==> s.offsets[i] >= 0 && s.aligns[i] == FieldAlign(fields[i], pack);
  }

  lemma ScanStepFacts(fields: seq<Field>, pack: Option<u16>, p: Scan, s: Scan, n: nat)
    requires 0 < n <= |fields| && FieldsReady(fields) && SizesNonNegative(fields)
    requires pack.Some? ==> pack.value > 0
    requires Laid(fields, pack, p, n - 1)
    requires ScanStep(p, fields[n - 1], n == 1, pack) == Ok(s)
    requires !s.overflow
    ensures Laid(fields, pack, s, n)
  {
    var f := fields[n - 1];
    var a := FieldAlign(f, pack);
    var start := if n == 1 then Checked(p.offset, false) else RoundUp(p.offset, a);
    var end := AddI64(start.value, f.ftype.datasize);
    assert !start.overflow && !end.overflow;
    assert s.offset == start.value + f.ftype.datasize;
    assert s.offsets == p.offsets + [start.value] && s.aligns == p.aligns + [a];
    if n > 1 {
      assert p.offset >= 0;
      RoundUpLeastMultiple(p.offset, a);
      assert s.pads == p.pads + [Trunc16(start.value - p.offset)];
      assert s.pads[n - 2] == start.value - p.offset;
      assert s.pads[..n - 2] == p.pads;
    }
    ExtendLaid(fields, pack, p, n, start.value, a, s.pads, s.maxalign, s.overflow);
  }

  lemma {:induction false} ScanFacts(fields: seq<Field>, pack: Option<u16>, maxalign0: u16, n: nat)
    requires n <= |fields| && FieldsReady(fields) && SizesNonNegative(fields)
    requires pack.Some? ==> pack.value > 0
    requires ScanFields(fields, pack, maxalign0, n).Ok?
    requires !ScanFields(fields, pack, maxalign0, n).value.overflow
    ensures Laid(fields, pack, ScanFields(fields, pack, maxalign0, n).value, n)
    decreases n
  {
    if n > 0 {
      var p := ScanFields(fields, pack, maxalign0, n - 1).value;
      var s := ScanFields(fields, pack, maxalign0, n).value;
      assert ScanStep(p, fields[n - 1], n == 1, pack) == Ok(s);
      ScanFacts(fields, pack, maxalign0, n - 1);
      ScanStepFacts(fields, pack, p, s, n);
    }
  }

  /** End of field i of a finished layout. */
  function SlotEnd(fields: seq<Field>, slots: seq<Slot>, i: int): int
    requires 0 <= i < |fields| && i < |slots|
  {
    slots[i].offset + fields[i].ftype.datasize
  }

  /** The layout init_concrete_fields promises: the first field at offset 0,
      each further field at the least multiple of its alignment that does not
      overlap the previous field, the padding after each field equal to the
      gap before the next field (or before the end), and the total size the
      end of the last field rounded up to the overall alignment, which is the
      largest of 'base' (the 'align' attribute, default 1) and the field
      alignments. */
  predicate GoodLayout(fields: seq<Field>, pack: Option<u16>, base: u16, L: Layout) {
    var n := |fields|;
    && |L.slots| == n
    && var last := if n == 0 then 0 else SlotEnd(fields, L.slots, n - 1);
    && (n > 0 ==> L.slots[0].offset == 0)
    && (forall i :: 0 <= i < n ==> L.slots[i].align == FieldAlign(fields[i], pack))
    && (forall i :: 0 < i < n ==>
          Placed(SlotEnd(fields, L.slots, i - 1), L.slots[i].offset, L.slots[i].align, L.slots[i - 1].pad))
    && Placed(last, L.datasize, L.align, L.datasize - last)
    && (n > 0 ==> L.slots[n - 1].pad == L.datasize - last)
    && base <= L.align && (forall i :: 0 <= i < n ==> L.slots[i].align <= L.align)
    && (L.align == base || exists i :: 0 <= i < n && L.align == L.slots[i].align)
  }

  /** The layout built from a finished scan satisfies GoodLayout. */
  lemma ScanLayout(fields: seq<Field>, pack: Option<u16>, base: u16, s: Scan, size: Checked)
    requires Laid(fields, pack, s, |fields|) && SizesNonNegative(fields)
    requires s.maxalign == MaxOf(base, s.aligns) && s.maxalign > 0
    requires s.offset >= 0 && size == RoundUp(s.offset, s.maxalign) && !size.overflow
    ensures GoodLayout(fields, pack, base,
                       Layout(Slots(s.offsets, s.aligns, FinalPads(s, fields, size.value)), s.maxalign, size.value))
  {
    var n := |fields|;
    var pads := FinalPads(s, fields, size.value);
    var L := Layout(Slots(s.offsets, s.aligns, pads), s.maxalign, size.value);
    MaxOfBounds(base, s.aligns);
    RoundUpLeastMultiple(s.offset, s.maxalign);
    assert forall i :: 0 <= i < n ==> SlotEnd(fields, L.slots, i) == End(fields, s.offsets, i);
    if n > 0 {
      assert forall i :: 0 <= i < n - 1 ==> pads[i] == s.pads[i];
    }
  }

  lemma LayoutFacts(fields: seq<Field>, alignAttr: Option<u16>, pack: Option<u16>)
    requires FieldsReady(fields) && SizesNonNegative(fields)
    requires ConcreteFieldsLayout(fields, alignAttr, pack).Ok?
    ensures var L := ConcreteFieldsLayout(fields, alignAttr, pack).value;
      && GoodLayout(fields, pack, if alignAttr.Some? then alignAttr.value else 1, L)
      && (forall i :: 0 <= i < |fields| && fields[i].explicitPad ==> fields[i].pad == L.slots[i].pad)
  {
    var n := |fields|;
    var maxalign0 := GetAlign(alignAttr, 1).value;
    var s := ScanFields(fields, pack, maxalign0, n).value;
    var size := RoundUp(s.offset, s.maxalign);
    MaxOfBounds(maxalign0, s.aligns);
    assert ConcreteFieldsLayout(fields, alignAttr, pack) == FinishLayout(fields, s);
    ScanFacts(fields, pack, maxalign0, n);
    ScanLayout(fields, pack, maxalign0, s, size);
  }

  /** In a good layout fields never overlap: every field ends at or before
      the start of any later field, and the last one ends within datasize. */
  lemma {:induction false} SlotsDisjoint(fields: seq<Field>, pack: Option<u16>, base: u16, L: Layout, i: int, j: int)
    requires GoodLayout(fields, pack, base, L) && SizesNonNegative(fields)
    requires 0 <= i < j <= |fields|
    ensures j < |fields| ==> SlotEnd(fields, L.slots, i) <= L.slots[j].offset
    ensures j == |fields| ==> SlotEnd(fields, L.slots, i) <= L.datasize
    decreases j - i
  {
    if j == i + 1 {
      if j < |fields| {
        assert Placed(SlotEnd(fields, L.slots, j - 1), L.slots[j].offset, L.slots[j].align, L.slots[j - 1].pad);
      }
    } else {
      SlotsDisjoint(fields, pack, base, L, i, j - 1);
      SlotsDisjoint(fields, pack, base, L, j - 1, j);
    }
  }

  /** Result of init_concrete_fields and init_concrete_tags: t->align and
      t->datasize. */
  datatype Sizing = Sizing(align: u16, datasize: int)

  /** The scalars the loop of init_concrete_fields carries. */
  datatype Cursor = Cursor(offset: int, maxalign: u16, overflow: bool)

  /** The loop state read off the cursor and the filled prefix of the arrays. */
  function ScanOf(c: Cursor, offsets: seq<int>, aligns: seq<u16>, pads: seq<u16>, i: nat): Scan
    requires i <= |offsets| && i <= |aligns| && PadsKnown(i) <= |pads|
  {
    Scan(c.offset, c.maxalign, c.overflow, offsets[..i], aligns[..i], pads[..PadsKnown(i)])
  }

  /** One iteration of the loop of init_concrete_fields: places field i. */
  method PlaceField(offsets: array<int>, aligns: array<u16>, pads: array<u16>,
                    f: Field, i: nat, pack: Option<u16>, c: Cursor)
      returns (r: Result<Cursor>)
    requires i < offsets.Length == aligns.Length == pads.Length
    requires aligns != pads
    requires f.align > 0 && (pack.Some? ==> pack.value > 0)
    modifies offsets, aligns, pads
    ensures ScanStep(ScanOf(c, old(offsets[..]), old(aligns[..]), old(pads[..]), i), f, i == 0, pack) ==
      if r.Err? then Err(r.error) else Ok(ScanOf(r.value, offsets[..], aligns[..], pads[..], i + 1))
  {
    var offset := c.offset;
    var overflow := c.overflow;
    if pack.Some? {
      if f.explicitAlign {
        return Err(InvalidArgumentError);
      }
      aligns[i] := pack.value;
    } else {
      aligns[i] := f.align;
    }
    var maxalign := Max16(aligns[i], c.maxalign);
    if i > 0 {
      var n := offset;
      var start := RoundUp(offset, aligns[i]);
      offset := start.value;
      overflow := overflow || start.overflow;
      pads[i - 1] := Trunc16(offset - n);
    }
    offsets[i] := offset;
    var end := AddI64(offset, f.ftype.datasize);
    offset := end.value;
    overflow := overflow || end.overflow;
    r := Ok(Cursor(offset, maxalign, overflow));
    assert offsets[..i + 1] == old(offsets[..i]) + [offsets[i]];
    assert aligns[..i + 1] == old(aligns[..i]) + [aligns[i]];
    assert i > 0 ==> pads[..i] == old(pads[..i - 1]) + [pads[i - 1]];
  }

  /** The loop of init_concrete_fields: places each field, filling offsets,
      aligns and all pads but the last. */
  method PlaceFields(offsets: array<int>, aligns: array<u16>, pads: array<u16>,
                     fields: seq<Field>, pack: Option<u16>, maxalign0: u16)
      returns (r: Result<Cursor>)
    requires offsets.Length == aligns.Length == pads.Length == |fields|
    requires aligns != pads
    requires FieldsReady(fields) && (pack.Some? ==> pack.value > 0)
    modifies offsets, aligns, pads
    ensures var spec := ScanFields(fields, pack, maxalign0, |fields|);
      && (r.Ok? <==> spec.Ok?)
      && (r.Err? ==> r.error == spec.error)
      && (r.Ok? ==> spec.value == ScanOf(r.value, offsets[..], aligns[..], pads[..], |fields|))
  {
    var cursor := Cursor(0, maxalign0, false);
    var i := 0;
    while i < |fields|
      invariant 0 <= i <= |fields|
      invariant ScanFields(fields, pack, maxalign0, i) == Ok(ScanOf(cursor, offsets[..], aligns[..], pads[..], i))
    {
      var next := PlaceNext(offsets, aligns, pads, fields, i, pack, maxalign0, cursor);
      if next.Err? {
        return next;
      }
      cursor := next.value;
      i := i + 1;
    }
    return Ok(cursor);
  }

  /** PlaceField read against the scan: the next prefix state, or the
      failure of the whole scan. */
  method PlaceNext(offsets: array<int>, aligns: array<u16>, pads: array<u16>,
                   fields: seq<Field>, i: nat, pack: Option<u16>, maxalign0: u16, c: Cursor)
      returns (r: Result<Cursor>)
    requires i < |fields| == offsets.Length == aligns.Length == pads.Length
    requires aligns != pads
    requires FieldsReady(fields) && (pack.Some? ==> pack.value > 0)
    requires ScanFields(fields, pack, maxalign0, i) == Ok(ScanOf(c, offsets[..], aligns[..], pads[..], i))
    modifies offsets, aligns, pads
    ensures r.Err? ==> r.error == InvalidArgumentError && ScanFields(fields, pack, maxalign0, |fields|).Err?
    ensures r.Ok? ==>
      ScanFields(fields, pack, maxalign0, i + 1) == Ok(ScanOf(r.value, offsets[..], aligns[..], pads[..], i + 1))
  {
    ghost var before := ScanOf(c, offsets[..], aligns[..], pads[..], i);
    r := PlaceField(offsets, aligns, pads, fields[i], i, pack, c);
    ScanFieldsNext(fields, pack, maxalign0, i, before);
    if r.Err? {
      ScanFieldsFails(fields, pack, maxalign0, i + 1);
      ScanFieldsFails(fields, pack, maxalign0, |fields|);
    }
  }

  /** pad[i] is explicit for field i and disagrees with the computed one. */
  method CheckPads(pads: array<u16>, fields: seq<Field>) returns (ok: bool)
    requires pads.Length == |fields|
    ensures ok <==> !PadMismatch(fields, pads[..])
  {
    var j := 0;
    while j < |fields|
      invariant 0 <= j <= |fields|
      invariant forall k :: 0 <= k < j ==> !(fields[k].explicitPad && fields[k].pad != pads[k])
    {
      if fields[j].explicitPad && fields[j].pad != pads[j] {
        return false;
      }
      j := j + 1;
    }
    return true;
  }

  /** The part of init_concrete_fields after the loop: the total size, the
      trailing padding, the padding check and the overflow check. */
  method FinishFields(offsets: array<int>, pads: array<u16>, fields: seq<Field>, c: Cursor, ghost s: Scan)
      returns (r: Result<Sizing>)
    requires offsets.Length == pads.Length == |fields|
    requires |s.aligns| == |fields| && s.maxalign > 0
    requires offsets[..] == s.offsets && pads[..PadsKnown(|fields|)] == s.pads
    requires c == Cursor(s.offset, s.maxalign, s.overflow)
    modifies pads
    ensures var spec := FinishLayout(fields, s);
      && (r.Ok? <==> spec.Ok?)
      && (r.Err? ==> r.error == spec.error)
      && (r.Ok? ==> r.value == Sizing(spec.value.align, spec.value.datasize) &&
                    Slots(s.offsets, s.aligns, pads[..]) == spec.value.slots)
  {
    var size := RoundUp(c.offset, c.maxalign);
    var overflow := c.overflow || size.overflow;
    if |fields| > 0 {
      var n := |fields|;
      assert offsets[n - 1] == s.offsets[n - 1];
      pads[n - 1] := Trunc16(size.value - offsets[n - 1] - fields[n - 1].ftype.datasize);
      assert pads[..] == pads[..n - 1] + [pads[n - 1]];
    }
    assert pads[..] == FinalPads(s, fields, size.value);
    var ok := CheckPads(pads, fields);
    if !ok {
      return Err(ValueError);
    }
    if overflow {
      return Err(ValueError);
    }
    return Ok(Sizing(c.maxalign, size.value));
  }

  /** init_concrete_fields: fills offsets, aligns and pads in place and
      returns the alignment and size of the tuple or record. */
  method InitConcreteFields(offsets: array<int>, aligns: array<u16>, pads: array<u16>,
                            fields: seq<Field>, alignAttr: Option<u16>, pack: Option<u16>)
      returns (r: Result<Sizing>)
    requires offsets.Length == aligns.Length == pads.Length == |fields|
    requires aligns != pads
    requires FieldsReady(fields)
    modifies offsets, aligns, pads
    ensures var spec := ConcreteFieldsLayout(fields, alignAttr, pack);
      && (r.Ok? <==> spec.Ok?)
      && (r.Err? ==> r.error == spec.error)
      && (r.Ok? ==> r.value == Sizing(spec.value.align, spec.value.datasize) &&
                    Slots(offsets[..], aligns[..], pads[..]) == spec.value.slots)
  {
    var maxalign0 := GetAlign(alignAttr, 1);
    if maxalign0.Err? {
      return Err(maxalign0.error);
    }
    var packAlign := GetAlign(pack, 1);
    if packAlign.Err? {
      return Err(packAlign.error);
    }
    var cursor := PlaceFields(offsets, aligns, pads, fields, pack, maxalign0.value);
    if cursor.Err? {
      return Err(cursor.error);
    }
    ghost var s := ScanFields(fields, pack, maxalign0.value, |fields|).value;
    MaxOfBounds(maxalign0.value, s.aligns);
    assert ConcreteFieldsLayout(fields, alignAttr, pack) == FinishLayout(fields, s);
    r := FinishFields(offsets, pads, fields, cursor.value, s);
  }

  /** The largest member size of a union (0 for no members). */
  function MaxDatasize(fields: seq<Field>): (m: int)
    ensures m >= 0
  {
    if fields == [] then 0
    else
      var rest := MaxDatasize(fields[..|fields| - 1]);
      var d := fields[|fields| - 1].ftype.datasize;
      if d >= rest then d else rest
  }

  lemma {:induction false} MaxDatasizeBounds(fields: seq<Field>)
    ensures forall i :: 0 <= i < |fields| ==> fields[i].ftype.datasize <= MaxDatasize(fields)
    ensures MaxDatasize(fields) == 0 ||
            exists i :: 0 <= i < |fields| && MaxDatasize(fields) == fields[i].ftype.datasize
    decreases |fields|
  {
    if fields != [] {
      var init := fields[..|fields| - 1];
      MaxDatasizeBounds(init);
      assert forall i :: 0 <= i < |init| ==> fields[i] == init[i];
      if MaxDatasize(fields) != 0 && MaxDatasize(fields) != fields[|fields| - 1].ftype.datasize {
        var j :| 0 <= j < |init| && MaxDatasize(init) == init[j].ftype.datasize;
        assert MaxDatasize(fields) == fields[j].ftype.datasize;
      }
    }
  }

  predicate AnyRef(fields: seq<Field>) {
    exists i :: 0 <= i < |fields| && fields[i].ftype.flags.ref
  }

  /** init_concrete_tags: a concrete union has alignment 1 and one tag byte
      in front of its largest member; members must not be references. */
  method InitConcreteTags(fields: seq<Field>) returns (r: Result<Sizing>)
    ensures r.Err? <==> AnyRef(fields)
    ensures r.Err? ==> r.error == ValueError
    ensures r.Ok? ==> r.value == Sizing(1, 1 + MaxDatasize(fields))
  {
    var maxsize := 0;
    var i := 0;
    while i < |fields|
      invariant 0 <= i <= |fields|
      invariant maxsize == MaxDatasize(fields[..i])
      invariant !AnyRef(fields[..i])
    {
      if fields[i].ftype.flags.ref {
        assert fields[..i + 1][i] == fields[i];
        return Err(ValueError);
      }
      var d := fields[i].ftype.datasize;
      assert fields[..i + 1][..i] == fields[..i];
      maxsize := if d >= maxsize then d else maxsize;
      i := i + 1;
    }
    assert fields[..i] == fields;
    return Ok(Sizing(1, 1 + maxsize));
  }
}
