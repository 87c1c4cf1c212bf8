/** The number of bytes a message takes, counted without writing it. */
module ProtoSizes {
  import opened Wire
  import opened UnknownFields
  import opened ProtoMessage

  function Size(s: Schema, m: Message): nat
    requires Typed(s, m)
    decreases m, |m.slots| + 1
  {
    SizeFrom(s, m, 0)
  }

  function SizeFrom(s: Schema, m: Message, i: nat): nat
    requires Typed(s, m) && i <= |m.slots|
    decreases m, |m.slots| - i
  {
    if i == |m.slots| then FieldsSize(m.unknown) else SlotSize(s.entries[i], m.slots[i]) + SizeFrom(s, m, i + 1)
  }

  function TagSize(e: Entry): nat { VarintSize(EntryTag(e)) }

  /** A length and that many bytes. */
  function LengthAnd(n: nat): nat { VarintSize(n) + n }

  function SlotSize(e: Entry, slot: Slot): nat
    requires SlotTyped(e.ty, slot)
    decreases slot
  {
    match slot
    case Absent => 0
    case Num(v) => TagSize(e) + IntSize(v)
    case Str(b) => TagSize(e) + LengthAnd(|b|)
    case Sub(m) => TagSize(e) + LengthAnd(Size(e.ty.schema, m))
    case List(ms) => ListSize(e, ms)
  }

  function ListSize(e: Entry, ms: seq<Message>): nat
    requires e.ty.Many? && forall j :: 0 <= j < |ms| ==> Typed(e.ty.schema, ms[j])
    decreases ms
  {
    if ms == [] then 0 else TagSize(e) + LengthAnd(Size(e.ty.schema, ms[0])) + ListSize(e, ms[1..])
  }

  /** It is the number of bytes written. */
  lemma {:induction false} SizeIsLength(s: Schema, m: Message)
    requires Typed(s, m)
    ensures Size(s, m) == |Encode(s, m)|
    decreases m, |m.slots| + 1
  {
    SizeFromIsLength(s, m, 0);
  }

  lemma {:induction false} SizeFromIsLength(s: Schema, m: Message, i: nat)
    requires Typed(s, m) && i <= |m.slots|
    ensures SizeFrom(s, m, i) == |EncodeFrom(s, m, i)|
    decreases m, |m.slots| - i
  {
    if i == |m.slots| {
      FieldsLength(m.unknown);
    } else {
      SlotSizeIsLength(s.entries[i], m.slots[i]);
      SizeFromIsLength(s, m, i + 1);
    }
  }

  lemma {:induction false} SlotSizeIsLength(e: Entry, slot: Slot)
    requires SlotTyped(e.ty, slot)
    ensures SlotSize(e, slot) == |EncodeSlot(e, slot)|
    decreases slot
  {
    VarintLength(EntryTag(e));
    match slot
    case Absent =>
    case Num(v) => IntLength(v);
    case Str(b) => VarintLength(|b|);
    case Sub(m) =>
      SizeIsLength(e.ty.schema, m);
      VarintLength(|Encode(e.ty.schema, m)|);
    case List(ms) => ListSizeIsLength(e, ms);
  }

  lemma {:induction false} ListSizeIsLength(e: Entry, ms: seq<Message>)
    requires e.ty.Many? && forall j :: 0 <= j < |ms| ==> Typed(e.ty.schema, ms[j])
    ensures ListSize(e, ms) == |EncodeList(e, ms)|
    decreases ms
  {
    if ms != [] {
      VarintLength(EntryTag(e));
      SizeIsLength(e.ty.schema, ms[0]);
      VarintLength(|Encode(e.ty.schema, ms[0])|);
      ListSizeIsLength(e, ms[1..]);
    }
  }

  /** One field on while writing: `before` is written, `whole` is to be written in all. */
  lemma EncodeStep(s: Schema, m: Message, i: nat, before: Bytes, whole: Bytes)
    requires Typed(s, m) && i < |m.slots| && before + EncodeFrom(s, m, i) == whole
    ensures before + EncodeSlot(s.entries[i], m.slots[i]) + EncodeFrom(s, m, i + 1) == whole
  {
    assert before + (EncodeSlot(s.entries[i], m.slots[i]) + EncodeFrom(s, m, i + 1)) == whole;
  }
}
