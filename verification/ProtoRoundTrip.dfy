/** Reading back what was written, into a message that may hold something already. */
module ProtoRoundTrip {
  import opened Wire
  import opened UnknownFields
  import opened ProtoMessage

  /** Lengths fit an `int`, and no unknown field carries the tag of a known one. */
  predicate Writable(s: Schema, m: Message)
    requires Typed(s, m)
    decreases m
  {
    && (forall i :: 0 <= i < |m.slots| ==> SlotWritable(s.entries[i].ty, m.slots[i]))
    && AllSound(m.unknown)
    && forall k :: 0 <= k < |m.unknown| ==> Find(s.entries, Tag(m.unknown[k]), 0) == |s.entries|
  }

  predicate SlotWritable(ty: FieldType, slot: Slot)
    requires SlotTyped(ty, slot)
    decreases slot
  {
    match slot
    case Str(b) => |b| < TWO31
    case Sub(m) => Writable(ty.schema, m) && |Encode(ty.schema, m)| < TWO31
    case List(ms) => forall j :: 0 <= j < |ms| ==> Writable(ty.schema, ms[j]) && |Encode(ty.schema, ms[j])| < TWO31
    case _ => true
  }

  /** How deep messages and unknown groups are nested. */
  function MessageDepth(m: Message): nat
    decreases m, |m.slots| + 1
  {
    DepthFrom(m, 0)
  }

  function DepthFrom(m: Message, i: nat): nat
    requires i <= |m.slots|
    decreases m, |m.slots| - i
  {
    if i == |m.slots| then DepthOfAll(m.unknown) else Max(SlotDepth(m.slots[i]), DepthFrom(m, i + 1))
  }

  function SlotDepth(slot: Slot): nat
    decreases slot
  {
    match slot
    case Sub(m) => 1 + MessageDepth(m)
    case List(ms) => ListDepth(ms)
    case _ => 0
  }

  function ListDepth(ms: seq<Message>): nat
    decreases ms
  {
    if ms == [] then 0 else Max(1 + MessageDepth(ms[0]), ListDepth(ms[1..]))
  }

  lemma FindIs(s: Schema, i: nat)
    requires Legal(s) && i < |s.entries|
    ensures Find(s.entries, EntryTag(s.entries[i]), 0) == i
  {
    var k := Find(s.entries, EntryTag(s.entries[i]), 0);
    assert s.entries[k].number == EntryTag(s.entries[k]) / 8 && s.entries[i].number == EntryTag(s.entries[i]) / 8;
  }

  lemma ReadEntryTag(s: Schema, i: nat, tail: Bytes)
    requires Legal(s) && i < |s.entries|
    ensures ReadVarint32(EncodeVarint(EntryTag(s.entries[i])) + tail) == Got(EntryTag(s.entries[i]), tail)
  {
    VarintRoundTrip(EntryTag(s.entries[i]), tail);
  }

  /** One turn of `Parse` at a known tag. */
  lemma ParseKnown(s: Schema, m: Message, i: nat, bs: Bytes, body: Bytes, depth: nat)
    requires Legal(s) && Typed(s, m) && i < |s.entries| && ReadVarint32(bs) == Got(EntryTag(s.entries[i]), body)
    ensures Parse(s, m, bs, depth) ==
      match ParseSlot(s.entries[i].ty, m.slots[i], body, depth)
      case Fail => Failed
      case Got(slot, rest) => Parse(s, m.(slots := m.slots[i := slot]), rest, depth)
  {
    FindIs(s, i);
  }

  lemma EncodedNum(ty: FieldType, slot: Slot, v: int, tail: Bytes, depth: nat)
    requires SlotTyped(ty, slot) && SlotTyped(ty, Num(v))
    ensures ParseSlot(ty, slot, EncodeVarint(ToUnsigned(v)) + tail, depth) == Got(Num(v), tail)
  {
    SignedRoundTrip(v, tail);
  }

  lemma EncodedStr(ty: FieldType, slot: Slot, b: Bytes, tail: Bytes, depth: nat)
    requires SlotTyped(ty, slot) && SlotTyped(ty, Str(b)) && |b| < TWO31
    ensures ParseSlot(ty, slot, EncodeBytes(b) + tail, depth) == Got(Str(b), tail)
  {
    BytesRoundTrip(b, tail);
  }

  /** What is to be shown of a message nested in a field, one level down. */
  predicate ReadsInto(sub: Schema, cur: Message, y: Message, depth: nat)
    requires Typed(sub, cur) && Typed(sub, y)
  {
    Parse(sub, cur, Encode(sub, y), depth) == if MessageDepth(y) <= depth then Ended(Merge(cur, y), true) else Failed
  }

  lemma LengthRoundTrip(b: Bytes, tail: Bytes)
    requires |b| < TWO31
    ensures ReadVarint32(EncodeBytes(b) + tail) == Got(|b|, b + tail)
    ensures (b + tail)[..|b|] == b && (b + tail)[|b|..] == tail
  {
    assert EncodeBytes(b) + tail == EncodeVarint(|b|) + (b + tail);
    VarintRoundTrip(|b|, b + tail);
  }

  lemma EncodedNested(sub: Schema, cur: Message, y: Message, tail: Bytes, depth: nat)
    requires Typed(sub, cur) && Typed(sub, y) && |Encode(sub, y)| < TWO31
    requires depth > 0 ==> ReadsInto(sub, cur, y, depth - 1)
    ensures Nested(sub, cur, EncodeBytes(Encode(sub, y)) + tail, depth)
      == if 1 + MessageDepth(y) <= depth then Got(Merge(cur, y), tail) else Fail
  {
    LengthRoundTrip(Encode(sub, y), tail);
  }

  /** An empty message is neutral on both sides. */
  lemma {:induction false} MergeIntoBlank(s: Schema, y: Message)
    requires Typed(s, y)
    ensures Merge(Blank(s), y) == y
  {
    assert Blank(s).unknown + y.unknown == y.unknown;
    forall i | 0 <= i < |y.slots| ensures Merge(Blank(s), y).slots[i] == y.slots[i] {
      assert SlotTyped(s.entries[i].ty, y.slots[i]);
      if y.slots[i].List? {
        assert [] + y.slots[i].ms == y.slots[i].ms;
      }
    }
  }

  lemma {:induction false} MergeBlank(s: Schema, m: Message)
    requires Typed(s, m)
    ensures Merge(m, Blank(s)) == m
  {
    assert m.unknown + Blank(s).unknown == m.unknown;
    forall i | 0 <= i < |m.slots| ensures Merge(m, Blank(s)).slots[i] == m.slots[i] {
      assert SlotTyped(s.entries[i].ty, m.slots[i]);
      if m.slots[i].List? {
        assert m.slots[i].ms + [] == m.slots[i].ms;
      }
    }
  }

  lemma {:induction false} MergeTyped(s: Schema, a: Message, b: Message)
    requires Typed(s, a) && Typed(s, b)
    ensures Typed(s, Merge(a, b))
    decreases b
  {
    forall i | 0 <= i < |b.slots| ensures SlotTyped(s.entries[i].ty, Merge(a, b).slots[i]) {
      MergeSlotTyped(s.entries[i].ty, a.slots[i], b.slots[i]);
    }
  }

  lemma {:induction false} MergeSlotTyped(ty: FieldType, a: Slot, b: Slot)
    requires SlotTyped(ty, a) && SlotTyped(ty, b)
    ensures SlotTyped(ty, MergeSlot(a, b))
    decreases b
  {
    if b.Sub? && a.Sub? {
      MergeTyped(ty.schema, a.m, b.m);
    }
  }

  /** `m` with the unknown fields and the slots of `x` from `i` on merged in. */
  function MergeRest(m: Message, x: Message, i: nat): (r: Message)
    requires |m.slots| == |x.slots| && i <= |x.slots|
    ensures |r.slots| == |m.slots|
  {
    Message(seq(|x.slots|, j requires 0 <= j < |x.slots| =>
      if j < i then m.slots[j] else MergeSlot(m.slots[j], x.slots[j])), m.unknown + x.unknown)
  }

  lemma MergeRestStep(m: Message, x: Message, i: nat)
    requires |m.slots| == |x.slots| && i < |x.slots|
    ensures MergeRest(m, x, i) == MergeRest(m.(slots := m.slots[i := MergeSlot(m.slots[i], x.slots[i])]), x, i + 1)
  {
  }

  lemma MergeRestTyped(s: Schema, m: Message, x: Message, i: nat)
    requires Typed(s, m) && Typed(s, x) && i <= |x.slots|
    ensures Typed(s, MergeRest(m, x, i))
  {
    forall j | 0 <= j < |x.slots| ensures SlotTyped(s.entries[j].ty, MergeRest(m, x, i).slots[j]) {
      MergeSlotTyped(s.entries[j].ty, m.slots[j], x.slots[j]);
    }
  }

  /** Unknown fields are read back in order. */
  lemma {:induction false} EncodedUnknown(s: Schema, m: Message, fs: seq<Field>, rest: Bytes, depth: nat)
    requires Typed(s, m) && AllSound(fs)
    requires forall k :: 0 <= k < |fs| ==> Find(s.entries, Tag(fs[k]), 0) == |s.entries|
    ensures Parse(s, m, EncodeFields(fs) + rest, depth)
      == if DepthOfAll(fs) <= depth then Parse(s, m.(unknown := m.unknown + fs), rest, depth) else Failed
    decreases |fs|
  {
    if fs == [] {
      assert EncodeFields(fs) + rest == rest && m.unknown + fs == m.unknown;
    } else {
      var more := EncodeFields(fs[1..]) + rest;
      var m', all := m.(unknown := m.unknown + [fs[0]]), m.(unknown := m.unknown + fs);
      assert m'.(unknown := m'.unknown + fs[1..]) == all by {
        assert m.unknown + [fs[0]] + fs[1..] == m.unknown + fs;
      }
      EncodedUnknown(s, m', fs[1..], rest, depth);
      HeadRoundTrip(fs, more, rest, depth);
      UnknownStep(s, m, fs, EncodeFields(fs) + rest, EncodePayload(fs[0]) + more, more, Parse(s, all, rest, depth),
                  depth);
    }
  }

  /** One turn of `Parse` at an unknown field. */
  lemma UnknownStep(s: Schema, m: Message, fs: seq<Field>, bs: Bytes, payload: Bytes, more: Bytes, result: Outcome,
                    depth: nat)
    requires Typed(s, m) && fs != [] && ReadVarint32(bs) == Got(Tag(fs[0]), payload)
    requires Tag(fs[0]) > 0 && Tag(fs[0]) % 8 != END_GROUP && Find(s.entries, Tag(fs[0]), 0) == |s.entries|
    requires SkipField(Tag(fs[0]), payload, depth) == if Depth(fs[0]) <= depth then Got(fs[0], more) else Fail
    requires Parse(s, m.(unknown := m.unknown + [fs[0]]), more, depth)
      == if DepthOfAll(fs[1..]) <= depth then result else Failed
    ensures Parse(s, m, bs, depth) == if DepthOfAll(fs) <= depth then result else Failed
  {
  }

  /** `m` with slot `i` set. */
  function Put(s: Schema, m: Message, i: nat, slot: Slot): (r: Message)
    requires Typed(s, m) && i < |m.slots| && SlotTyped(s.entries[i].ty, slot)
    ensures Typed(s, r)
  {
    m.(slots := m.slots[i := slot])
  }

  function MergedSlot(ty: FieldType, a: Slot, b: Slot): (r: Slot)
    requires SlotTyped(ty, a) && SlotTyped(ty, b)
    ensures SlotTyped(ty, r)
  {
    MergeSlotTyped(ty, a, b);
    MergeSlot(a, b)
  }

  function MergedRest(s: Schema, m: Message, x: Message, i: nat): (r: Message)
    requires Typed(s, m) && Typed(s, x) && i <= |x.slots|
    ensures Typed(s, r)
  {
    MergeRestTyped(s, m, x, i);
    MergeRest(m, x, i)
  }

  /** A known field in the bytes, from what `ParseSlot` makes of its body. */
  lemma EncodedKnown(s: Schema, m: Message, i: nat, body: Bytes, tail: Bytes, ok: bool, slot: Slot, depth: nat)
    requires Legal(s) && Typed(s, m) && i < |m.slots| && SlotTyped(s.entries[i].ty, slot)
    requires ParseSlot(s.entries[i].ty, m.slots[i], body + tail, depth) == if ok then Got(slot, tail) else Fail
    ensures Parse(s, m, EncodeVarint(EntryTag(s.entries[i])) + body + tail, depth)
      == if ok then Parse(s, Put(s, m, i, slot), tail, depth) else Failed
  {
    var bs := EncodeVarint(EntryTag(s.entries[i])) + body + tail;
    assert bs == EncodeVarint(EntryTag(s.entries[i])) + (body + tail);
    ReadEntryTag(s, i, body + tail);
    ParseKnown(s, m, i, bs, body + tail, depth);
  }

  /** One field written, whatever follows: it is merged into the slot. */
  lemma {:induction false} EncodedSlot(s: Schema, m: Message, i: nat, slot: Slot, tail: Bytes, depth: nat)
    requires Legal(s) && Typed(s, m) && i < |m.slots|
    requires SlotTyped(s.entries[i].ty, slot) && SlotWritable(s.entries[i].ty, slot)
    ensures Parse(s, m, EncodeSlot(s.entries[i], slot) + tail, depth)
      == if SlotDepth(slot) <= depth
         then Parse(s, Put(s, m, i, MergedSlot(s.entries[i].ty, m.slots[i], slot)), tail, depth)
         else Failed
    decreases slot, 1
  {
    var e := s.entries[i];
    match slot
    case Absent =>
      assert EncodeSlot(e, slot) + tail == tail && m.slots[i := m.slots[i]] == m.slots;
    case Num(v) =>
      EncodedNum(e.ty, m.slots[i], v, tail, depth);
      EncodedKnown(s, m, i, EncodeVarint(ToUnsigned(v)), tail, true, slot, depth);
    case Str(b) =>
      EncodedStr(e.ty, m.slots[i], b, tail, depth);
      EncodedKnown(s, m, i, EncodeBytes(b), tail, true, slot, depth);
    case Sub(y) =>
      EncodedOne(s, m, i, y, tail, depth);
    case List(ms) =>
      EncodedList(s, m, i, ms, tail, depth);
      assert m.slots[i].ms + ms == MergedSlot(e.ty, m.slots[i], slot).ms;
  }

  lemma {:induction false} EncodedOne(s: Schema, m: Message, i: nat, y: Message, tail: Bytes, depth: nat)
    requires Legal(s) && Typed(s, m) && i < |m.slots|
    requires SlotTyped(s.entries[i].ty, Sub(y)) && SlotWritable(s.entries[i].ty, Sub(y))
    ensures Parse(s, m, EncodeSlot(s.entries[i], Sub(y)) + tail, depth)
      == if 1 + MessageDepth(y) <= depth
         then Parse(s, Put(s, m, i, MergedSlot(s.entries[i].ty, m.slots[i], Sub(y))), tail, depth)
         else Failed
    decreases y, |y.slots| + 2
  {
    var sub := s.entries[i].ty.schema;
    var cur := Current(sub, m.slots[i]);
    if depth > 0 {
      EncodedMessage(sub, cur, y, depth - 1);
    }
    EncodedNested(sub, cur, y, tail, depth);
    MergeIntoBlank(sub, y);
    EncodedKnown(s, m, i, EncodeBytes(Encode(sub, y)), tail, 1 + MessageDepth(y) <= depth,
                 MergedSlot(s.entries[i].ty, m.slots[i], Sub(y)), depth);
  }

  lemma {:induction false} EncodedItem(s: Schema, m: Message, i: nat, y: Message, tail: Bytes, depth: nat)
    requires Legal(s) && Typed(s, m) && i < |m.slots| && s.entries[i].ty.Many?
    requires Typed(s.entries[i].ty.schema, y) && Writable(s.entries[i].ty.schema, y)
    requires |Encode(s.entries[i].ty.schema, y)| < TWO31
    ensures
      Parse(s, m, EncodeVarint(EntryTag(s.entries[i])) + EncodeBytes(Encode(s.entries[i].ty.schema, y)) + tail, depth)
      == if 1 + MessageDepth(y) <= depth
         then Parse(s, Put(s, m, i, Added(s.entries[i].ty.schema, m.slots[i], [y])), tail, depth)
         else Failed
    decreases y, |y.slots| + 2
  {
    hide Parse, EncodeVarint, Merge, Encode;
    var sub := s.entries[i].ty.schema;
    if depth > 0 {
      EncodedMessage(sub, Blank(sub), y, depth - 1);
    }
    EncodedNested(sub, Blank(sub), y, tail, depth);
    MergeIntoBlank(sub, y);
    EncodedKnown(s, m, i, EncodeBytes(Encode(sub, y)), tail, 1 + MessageDepth(y) <= depth,
                 Added(sub, m.slots[i], [y]), depth);
  }

  function Added(sub: Schema, slot: Slot, ms: seq<Message>): (r: Slot)
    requires SlotTyped(Many(sub), slot) && SlotTyped(Many(sub), List(ms))
    ensures SlotTyped(Many(sub), r)
  {
    List(slot.ms + ms)
  }

  lemma {:induction false} EncodedList(s: Schema, m: Message, i: nat, ms: seq<Message>, tail: Bytes, depth: nat)
    requires Legal(s) && Typed(s, m) && i < |m.slots| && s.entries[i].ty.Many?
    requires SlotTyped(s.entries[i].ty, List(ms)) && SlotWritable(s.entries[i].ty, List(ms))
    ensures Parse(s, m, EncodeList(s.entries[i], ms) + tail, depth)
      == if ListDepth(ms) <= depth
         then Parse(s, Put(s, m, i, Added(s.entries[i].ty.schema, m.slots[i], ms)), tail, depth)
         else Failed
    decreases ms, 0
  {
    var e, sub := s.entries[i], s.entries[i].ty.schema;
    if ms == [] {
      assert EncodeList(e, ms) + tail == tail;
      assert m.slots[i].ms + ms == m.slots[i].ms && m.slots[i := m.slots[i]] == m.slots;
    } else {
      var more := EncodeList(e, ms[1..]) + tail;
      var first := Added(sub, m.slots[i], [ms[0]]);
      EncodedItem(s, m, i, ms[0], more, depth);
      EncodedList(s, Put(s, m, i, first), i, ms[1..], tail, depth);
      ListBytes(e, ms, tail);
      AddedTwice(s, m, i, sub, ms);
    }
  }

  lemma ListBytes(e: Entry, ms: seq<Message>, tail: Bytes)
    requires SlotTyped(e.ty, List(ms)) && ms != []
    ensures EncodeList(e, ms) + tail
      == EncodeVarint(EntryTag(e)) + EncodeBytes(Encode(e.ty.schema, ms[0])) + (EncodeList(e, ms[1..]) + tail)
  {
  }

  lemma AddedTwice(s: Schema, m: Message, i: nat, sub: Schema, ms: seq<Message>)
    requires Typed(s, m) && i < |m.slots| && s.entries[i].ty == Many(sub) && SlotTyped(Many(sub), List(ms)) && ms != []
    ensures var m' := Put(s, m, i, Added(sub, m.slots[i], [ms[0]]));
      Put(s, m', i, Added(sub, m'.slots[i], ms[1..])) == Put(s, m, i, Added(sub, m.slots[i], ms))
  {
    assert m.slots[i].ms + [ms[0]] + ms[1..] == m.slots[i].ms + ms;
  }

  /** Entries from `i` on, and the unknown fields. */
  lemma {:induction false} EncodedRest(s: Schema, m: Message, x: Message, i: nat, rest: Bytes, depth: nat)
    requires Legal(s) && Typed(s, m) && Typed(s, x) && Writable(s, x) && i <= |x.slots|
    ensures Parse(s, m, EncodeFrom(s, x, i) + rest, depth)
      == if DepthFrom(x, i) <= depth then Parse(s, MergedRest(s, m, x, i), rest, depth) else Failed
    decreases x, |x.slots| - i
  {
    hide Parse, EncodeSlot, SlotTyped, SlotWritable, Legal, MergeSlot;
    if i == |x.slots| {
      assert m.(unknown := m.unknown + x.unknown) == MergedRest(s, m, x, i);
      EncodedUnknown(s, m, x.unknown, rest, depth);
    } else {
      var tail := EncodeFrom(s, x, i + 1) + rest;
      var m' := Put(s, m, i, MergedSlot(s.entries[i].ty, m.slots[i], x.slots[i]));
      assert EncodeFrom(s, x, i) + rest == EncodeSlot(s.entries[i], x.slots[i]) + tail;
      EncodedSlot(s, m, i, x.slots[i], tail, depth);
      EncodedRest(s, m', x, i + 1, rest, depth);
      MergeRestStep(m, x, i);
    }
  }

  lemma {:induction false} EncodedMessage(s: Schema, m: Message, x: Message, depth: nat)
    requires Legal(s) && Typed(s, m) && Typed(s, x) && Writable(s, x)
    ensures ReadsInto(s, m, x, depth)
    decreases x, |x.slots| + 1
  {
    EncodedRest(s, m, x, 0, [], depth);
    assert EncodeFrom(s, x, 0) + [] == EncodeFrom(s, x, 0);
    assert MergeRest(m, x, 0) == Merge(m, x);
  }
}
