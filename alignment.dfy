/** Alignment and packing of fields (min_field_align, get_align,
    align_ispower2 and ndt_field in ndtypes.c). */
module Alignment {
  import opened Results
  import opened Int64
  import opened Types

  /** get_align: an explicit alignment must be a power of two; without one
      the default is used unchecked. */
  function GetAlign(align: Option<u16>, default: u16): (r: Result<u16>)
    ensures align.None? ==> r == Ok(default)
    ensures align.Some? ==> (r.Ok? <==> IsPower2(align.value))
    ensures r.Ok? && align.Some? ==> r.value == align.value
    ensures r.Err? ==> r.error == ValueError
  {
    match align
    case Some(a) => if IsPower2(a) then Ok(a) else Err(ValueError)
    case None => Ok(default)
  }

  /** The alignment min_field_align settles on before checking that it is a
      power of two: max(align, natural) with 'align', exactly 'pack' with
      'pack', else the natural alignment (1 for an abstract member). */
  function FieldAlignCandidate(t: Type, align: Option<u16>, pack: Option<u16>): u16 {
    if align.Some? then Max16(align.value, t.align)
    else if pack.Some? then pack.value
    else if IsConcrete(t) then t.align
    else 1
  }

  /** min_field_align. */
  function MinFieldAlign(t: Type, align: Option<u16>, pack: Option<u16>): (r: Result<u16>)
    ensures align.Some? && pack.Some? ==> r == Err(InvalidArgumentError)
    ensures (align.Some? || pack.Some?) && IsAbstract(t) ==> r == Err(InvalidArgumentError)
    ensures r.Ok? <==>
      !(align.Some? && pack.Some?) && !((align.Some? || pack.Some?) && IsAbstract(t)) &&
      IsPower2(FieldAlignCandidate(t, align, pack))
    ensures r.Ok? ==> r.value == FieldAlignCandidate(t, align, pack) && IsPower2(r.value)
    ensures r.Ok? && align.Some? ==> r.value >= align.value && r.value >= t.align
    ensures r.Err? && !(align.Some? || pack.Some?) ==> r.error == ValueError
  {
    if align.Some? then
      if pack.Some? then Err(InvalidArgumentError)
      else if IsAbstract(t) then Err(InvalidArgumentError)
      else CheckedAlign(Max16(align.value, t.align))
    else if pack.Some? then
      if IsAbstract(t) then Err(InvalidArgumentError)
      else CheckedAlign(pack.value)
    else
      CheckedAlign(if IsConcrete(t) then t.align else 1)
  }

  /** align_ispower2. */
  function CheckedAlign(a: u16): (r: Result<u16>)
    ensures r.Ok? <==> IsPower2(a)
    ensures r.Ok? ==> r.value == a
    ensures r.Err? ==> r.error == ValueError
  {
    if IsPower2(a) then Ok(a) else Err(ValueError)
  }

  /** ndt_field_t: a member given to ndt_tuple, ndt_record or ndt_union. The
      align/pad entries are those of its Concrete part, meaningful only when
      access is Concrete. */
  datatype Field = Field(
    name: Option<string>, ftype: Type, access: Access,
    align: u16, explicitAlign: bool, pad: u16, explicitPad: bool)

  /** What every field made by ndt_field satisfies: its access is its
      type's, and a concrete field has a nonzero alignment. */
  predicate FieldMade(f: Field) {
    f.access == f.ftype.access && (f.access == Concrete ==> f.align > 0)
  }

  /** ndt_field. */
  function MakeField(name: Option<string>, t: Type, align: Option<u16>, pack: Option<u16>,
                     pad: Option<u16>): (r: Result<Field>)
    ensures r.Ok? <==> MinFieldAlign(t, align, pack).Ok?
    ensures r.Err? ==> r.error == MinFieldAlign(t, align, pack).error
    ensures r.Ok? ==> r.value.name == name && r.value.ftype == t && FieldMade(r.value)
    ensures r.Ok? && IsConcrete(t) ==>
      && r.value.align == FieldAlignCandidate(t, align, pack)
      && IsPower2(r.value.align)
      && (r.value.explicitAlign <==> align.Some? || pack.Some?)
      && (r.value.explicitPad <==> pad.Some?)
      && r.value.pad == (if pad.Some? then pad.value else UINT16_MAX)
  {
    var minAlign :- MinFieldAlign(t, align, pack);
    if IsConcrete(t) then
      Ok(Field(name, t, t.access, minAlign, align.Some? || pack.Some?,
               if pad.Some? then pad.value else UINT16_MAX, pad.Some?))
    else
      Ok(Field(name, t, t.access, 1, false, 0, false))
  }
}
