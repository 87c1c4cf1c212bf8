/**
  What the generated parsers and serializers compute, for any message type: a schema gives
  the fields of the type in the order they are written.
 */
module ProtoMessage {
  import opened Wire
  import opened UnknownFields

  datatype FieldType = Int32 | Int64 | Text | One(schema: Schema) | Many(schema: Schema)

  datatype Entry = Entry(number: nat, ty: FieldType)

  datatype Schema = Schema(entries: seq<Entry>)

  /** What a message has for one entry of its schema; a repeated field is always a list. */
  datatype Slot = Absent | Num(v: int) | Str(b: Bytes) | Sub(m: Message) | List(ms: seq<Message>)

  datatype Message = Message(slots: seq<Slot>, unknown: seq<Field>)

  function BlankSlot(ty: FieldType): Slot { if ty.Many? then List([]) else Absent }

  function Blank(s: Schema): (m: Message)
    ensures |m.slots| == |s.entries|
    ensures forall i :: 0 <= i < |m.slots| ==> m.slots[i] == BlankSlot(s.entries[i].ty)
  {
    Message(seq(|s.entries|, i requires 0 <= i < |s.entries| => BlankSlot(s.entries[i].ty)), [])
  }

  predicate Typed(s: Schema, m: Message)
    decreases m
  {
    && |m.slots| == |s.entries|
    && forall i :: 0 <= i < |m.slots| ==> SlotTyped(s.entries[i].ty, m.slots[i])
  }

  predicate SlotTyped(ty: FieldType, slot: Slot)
    decreases slot
  {
    match ty
    case Int32 => slot.Absent? || (slot.Num? && -TWO31 <= slot.v < TWO31)
    case Int64 => slot.Absent? || (slot.Num? && -TWO63 <= slot.v < TWO63)
    case Text => slot.Absent? || slot.Str?
    case One(sub) => slot.Absent? || (slot.Sub? && Typed(sub, slot.m))
    case Many(sub) => slot.List? && forall j :: 0 <= j < |slot.ms| ==> Typed(sub, slot.ms[j])
  }

  function EntryTag(e: Entry): nat
  {
    MakeTag(e.number, if e.ty.Int32? || e.ty.Int64? then 0 else 2)
  }

  /** Field numbers are in range and all different. */
  predicate Legal(s: Schema)
    decreases s
  {
    && (forall i :: 0 <= i < |s.entries| ==> 1 <= s.entries[i].number <= MAX_NUMBER && TypeLegal(s.entries[i].ty))
    && (forall i, j :: 0 <= i < j < |s.entries| ==> s.entries[i].number != s.entries[j].number)
  }

  predicate TypeLegal(ty: FieldType)
    decreases ty
  {
    match ty
    case One(sub) => Legal(sub)
    case Many(sub) => Legal(sub)
    case _ => true
  }

  /** The entry with this tag, searched from `i`; the number of entries if there is none. */
  function Find(es: seq<Entry>, tag: nat, i: nat): (k: nat)
    requires i <= |es|
    ensures i <= k <= |es| && (k < |es| ==> EntryTag(es[k]) == tag)
    ensures forall j :: i <= j < k ==> EntryTag(es[j]) != tag
    decreases |es| - i
  {
    if i == |es| || EntryTag(es[i]) == tag then i else Find(es, tag, i + 1)
  }

  /** A message that ended at its limit (`legit`) or at a tag that ends nothing, or a failure. */
  datatype Outcome = Failed | Ended(m: Message, legit: bool)

  /** The plain loop: read a tag, then the field it announces, into `m`. */
  function Parse(s: Schema, m: Message, bs: Bytes, depth: nat): (o: Outcome)
    requires Typed(s, m)
    ensures o.Ended? ==> Typed(s, o.m)
    decreases |bs|, 2
  {
    if bs == [] then Ended(m, true)
    else
      match ReadVarint32(bs)
      case Fail => Ended(m, false)
      case Got(tag, rest) => Dispatch(s, m, tag, rest, depth)
  }

  function Dispatch(s: Schema, m: Message, tag: nat, rest: Bytes, depth: nat): (o: Outcome)
    requires Typed(s, m)
    ensures o.Ended? ==> Typed(s, o.m)
    decreases |rest|, 3
  {
    var i := Find(s.entries, tag, 0);
    if i < |s.entries| then
      match ParseSlot(s.entries[i].ty, m.slots[i], rest, depth)
      case Fail => Failed
      case Got(slot, rest') => Parse(s, m.(slots := m.slots[i := slot]), rest', depth)
    else if tag == 0 || tag % 8 == END_GROUP then Ended(m, false)
    else
      match SkipField(tag, rest, depth)
      case Fail => Failed
      case Got(f, rest') => Parse(s, m.(unknown := m.unknown + [f]), rest', depth)
  }

  /** A known field: scalars replace, a single message goes on from the one there is, a repeated one is added. */
  function ParseSlot(ty: FieldType, slot: Slot, bs: Bytes, depth: nat): (r: Scan<Slot>)
    requires SlotTyped(ty, slot)
    ensures r.Got? ==> |r.rest| < |bs| && SlotTyped(ty, r.value)
    decreases |bs|, 1
  {
    match ty
    case Int32 =>
      (match ReadVarint32(bs)
       case Fail => Fail
       case Got(u, rest) => Got(Num(ToInt32(u)), rest))
    case Int64 =>
      (match ReadVarint64(bs)
       case Fail => Fail
       case Got(u, rest) => Got(Num(ToInt64(u)), rest))
    case Text =>
      (match ReadBytes(bs)
       case Fail => Fail
       case Got(b, rest) => Got(Str(b), rest))
    case One(sub) =>
      (match Nested(sub, Current(sub, slot), bs, depth)
       case Fail => Fail
       case Got(m, rest) => Got(Sub(m), rest))
    case Many(sub) =>
      (match Nested(sub, Blank(sub), bs, depth)
       case Fail => Fail
       case Got(m, rest) => Got(List(slot.ms + [m]), rest))
  }

  /** The message a single field's parse goes on from. */
  function Current(sub: Schema, slot: Slot): (m: Message)
    requires SlotTyped(One(sub), slot)
    ensures Typed(sub, m)
  {
    if slot.Sub? then slot.m else Blank(sub)
  }

  /** The bytes a nested message may use: a limit never reaches beyond the limit around it. */
  function Limit(n: nat, left: nat): (k: nat)
    ensures k <= left
  {
    if n >= TWO31 || n > left then left else n
  }

  /** A length, and a message that must end legitimately within it. */
  function Nested(sub: Schema, m: Message, bs: Bytes, depth: nat): (r: Scan<Message>)
    requires Typed(sub, m)
    ensures r.Got? ==> |r.rest| < |bs| && Typed(sub, r.value)
    decreases |bs|, 0
  {
    match ReadVarint32(bs)
    case Fail => Fail
    case Got(n, rest) =>
      if depth == 0 then Fail
      else
        var k := Limit(n, |rest|);
        match Parse(sub, m, rest[..k], depth - 1)
        case Failed => Fail
        case Ended(m', legit) => if legit then Got(m', rest[k..]) else Fail
  }

  function Encode(s: Schema, m: Message): Bytes
    requires Typed(s, m)
    decreases m, |m.slots| + 1
  {
    EncodeFrom(s, m, 0)
  }

  /** The entries from `i` on, then the unknown fields. */
  function EncodeFrom(s: Schema, m: Message, i: nat): Bytes
    requires Typed(s, m) && i <= |m.slots|
    decreases m, |m.slots| - i
  {
    if i == |m.slots| then EncodeFields(m.unknown)
    else EncodeSlot(s.entries[i], m.slots[i]) + EncodeFrom(s, m, i + 1)
  }

  function EncodeSlot(e: Entry, slot: Slot): Bytes
    requires SlotTyped(e.ty, slot)
    decreases slot
  {
    match slot
    case Absent => []
    case Num(v) => EncodeVarint(EntryTag(e)) + EncodeVarint(ToUnsigned(v))
    case Str(b) => EncodeVarint(EntryTag(e)) + EncodeBytes(b)
    case Sub(m) => EncodeVarint(EntryTag(e)) + EncodeBytes(Encode(e.ty.schema, m))
    case List(ms) => EncodeList(e, ms)
  }

  function EncodeList(e: Entry, ms: seq<Message>): Bytes
    requires e.ty.Many? && forall j :: 0 <= j < |ms| ==> Typed(e.ty.schema, ms[j])
    decreases ms
  {
    if ms == [] then []
    else EncodeVarint(EntryTag(e)) + EncodeBytes(Encode(e.ty.schema, ms[0])) + EncodeList(e, ms[1..])
  }

  /** `MergeFrom`: the last scalar wins, lists are joined, single messages are merged. */
  function Merge(a: Message, b: Message): (m: Message)
    requires |a.slots| == |b.slots|
    ensures |m.slots| == |a.slots|
    decreases b
  {
    Message(seq(|b.slots|, i requires 0 <= i < |b.slots| => MergeSlot(a.slots[i], b.slots[i])), a.unknown + b.unknown)
  }

  /** Slots of different kinds never meet in messages of one type. */
  function MergeSlot(a: Slot, b: Slot): Slot
    decreases b
  {
    match b
    case Absent => a
    case Num(_) => b
    case Str(_) => b
    case Sub(y) => if a.Sub? && |a.m.slots| == |y.slots| then Sub(Merge(a.m, y)) else b
    case List(ys) => if a.List? then List(a.ms + ys) else b
  }
}
