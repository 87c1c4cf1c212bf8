/** The laws of parsing and merging, for every message type. */
module ProtoLaws {
  import opened Wire
  import opened UnknownFields
  import opened ProtoMessage
  import opened ProtoRoundTrip

  /**
    Reading what was written gives the message back; it is refused exactly when its
    messages and groups are nested deeper than the reader allows.
   */
  lemma RoundTrip(s: Schema, x: Message, depth: nat)
    requires Legal(s) && Typed(s, x) && Writable(s, x)
    ensures Parse(s, Blank(s), Encode(s, x), depth) == if MessageDepth(x) <= depth then Ended(x, true) else Failed
  {
    EncodedMessage(s, Blank(s), x, depth);
    MergeIntoBlank(s, x);
  }

  function Merged(s: Schema, a: Message, b: Message): (m: Message)
    requires Typed(s, a) && Typed(s, b)
    ensures Typed(s, m)
  {
    MergeTyped(s, a, b);
    Merge(a, b)
  }

  /** Bytes after an encoded message go on from that message. */
  lemma EncodedThenBytes(s: Schema, m: Message, x: Message, rest: Bytes, depth: nat)
    requires Legal(s) && Typed(s, m) && Typed(s, x) && Writable(s, x) && MessageDepth(x) <= depth
    ensures Parse(s, m, Encode(s, x) + rest, depth) == Parse(s, Merged(s, m, x), rest, depth)
  {
    EncodedRest(s, m, x, 0, rest, depth);
    assert MergeRest(m, x, 0) == Merge(m, x);
  }

  /** Two encodings one after the other read as the messages merged. */
  lemma ConcatenationMerges(s: Schema, a: Message, b: Message, depth: nat)
    requires Legal(s) && Typed(s, a) && Typed(s, b) && Writable(s, a) && Writable(s, b)
    requires MessageDepth(a) <= depth && MessageDepth(b) <= depth
    ensures Parse(s, Blank(s), Encode(s, a) + Encode(s, b), depth) == Ended(Merge(a, b), true)
  {
    EncodedThenBytes(s, Blank(s), a, Encode(s, b), depth);
    MergeIntoBlank(s, a);
    EncodedMessage(s, a, b, depth);
  }

  /** The outcome of a parse, merged into `a`. */
  function Onto(s: Schema, a: Message, o: Outcome): Outcome
    requires Typed(s, a) && (o.Ended? ==> Typed(s, o.m))
  {
    if o.Failed? then Failed else Ended(Merged(s, a, o.m), o.legit)
  }

  lemma PutMerged(s: Schema, a: Message, b: Message, i: nat, slot: Slot)
    requires Typed(s, a) && Typed(s, b) && i < |b.slots| && SlotTyped(s.entries[i].ty, slot)
    ensures Put(s, Merged(s, a, b), i, MergedSlot(s.entries[i].ty, a.slots[i], slot))
      == Merged(s, a, Put(s, b, i, slot))
  {
  }

  function SlotOnto(ty: FieldType, a: Slot, r: Scan<Slot>): Scan<Slot>
    requires SlotTyped(ty, a) && (r.Got? ==> SlotTyped(ty, r.value))
  {
    if r.Fail? then Fail else Got(MergedSlot(ty, a, r.value), r.rest)
  }

  /**
    Reading bytes into a message is merging what they read as: for all bytes, accepted or
    not, and all messages.
   */
  lemma {:induction false} ParseIntoMerges(s: Schema, a: Message, b: Message, bs: Bytes, depth: nat)
    requires Typed(s, a) && Typed(s, b)
    ensures Parse(s, Merged(s, a, b), bs, depth) == Onto(s, a, Parse(s, b, bs, depth))
    decreases |bs|, 2
  {
    var head := ReadVarint32(bs);
    if bs != [] && head.Got? {
      var i := Find(s.entries, head.value, 0);
      if i < |s.entries| {
        SlotIntoMerges(s.entries[i].ty, a.slots[i], b.slots[i], head.rest, depth);
        var r := ParseSlot(s.entries[i].ty, b.slots[i], head.rest, depth);
        if r.Got? {
          PutMerged(s, a, b, i, r.value);
          ParseIntoMerges(s, a, Put(s, b, i, r.value), r.rest, depth);
        }
      } else if head.value != 0 && head.value % 8 != END_GROUP {
        var r := SkipField(head.value, head.rest, depth);
        if r.Got? {
          UnknownMerged(s, a, b, r.value);
          ParseIntoMerges(s, a, b.(unknown := b.unknown + [r.value]), r.rest, depth);
        }
      }
    }
  }

  lemma UnknownMerged(s: Schema, a: Message, b: Message, f: Field)
    requires Typed(s, a) && Typed(s, b)
    ensures var m := Merged(s, a, b); m.(unknown := m.unknown + [f]) == Merged(s, a, b.(unknown := b.unknown + [f]))
  {
    assert a.unknown + b.unknown + [f] == a.unknown + (b.unknown + [f]);
  }

  lemma {:induction false} SlotIntoMerges(ty: FieldType, a: Slot, b: Slot, bs: Bytes, depth: nat)
    requires SlotTyped(ty, a) && SlotTyped(ty, b)
    ensures ParseSlot(ty, MergedSlot(ty, a, b), bs, depth) == SlotOnto(ty, a, ParseSlot(ty, b, bs, depth))
    decreases |bs|, 1
  {
    match ty
    case One(sub) =>
      if a.Sub? {
        MergeBlank(sub, a.m);
        NestedIntoMerges(sub, a.m, Current(sub, b), bs, depth);
      }
    case Many(sub) =>
      var r := Nested(sub, Blank(sub), bs, depth);
      if r.Got? {
        assert a.ms + b.ms + [r.value] == a.ms + (b.ms + [r.value]);
      }
    case _ =>
  }

  lemma {:induction false} NestedIntoMerges(sub: Schema, a: Message, b: Message, bs: Bytes, depth: nat)
    requires Typed(sub, a) && Typed(sub, b)
    ensures var r := Nested(sub, b, bs, depth);
      Nested(sub, Merged(sub, a, b), bs, depth) == if r.Fail? then Fail else Got(Merged(sub, a, r.value), r.rest)
    decreases |bs|, 0
  {
    var head := ReadVarint32(bs);
    if head.Got? && depth > 0 {
      ParseIntoMerges(sub, a, b, head.rest[..Limit(head.value, |head.rest|)], depth - 1);
    }
  }

  lemma ParseIntoIsMerge(s: Schema, m: Message, bs: Bytes, depth: nat)
    requires Typed(s, m)
    ensures Parse(s, m, bs, depth) == Onto(s, m, Parse(s, Blank(s), bs, depth))
  {
    MergeBlank(s, m);
    ParseIntoMerges(s, m, Blank(s), bs, depth);
  }

  /** A nested length that reaches beyond the end is read as if the message ended there: cut bytes are not noticed. */
  lemma OverlongLengthIsAccepted(s: Schema, m: Message, i: nat, n: nat, body: Bytes, depth: nat)
    requires Legal(s) && Typed(s, m) && i < |m.slots| && (s.entries[i].ty.One? || s.entries[i].ty.Many?)
    requires |body| <= n < TWO32
    ensures Parse(s, m, EncodeVarint(EntryTag(s.entries[i])) + (EncodeVarint(n) + body), depth)
      == Parse(s, m, EncodeVarint(EntryTag(s.entries[i])) + (EncodeVarint(|body|) + body), depth)
  {
    var tag, long, exact := EncodeVarint(EntryTag(s.entries[i])), EncodeVarint(n) + body, EncodeVarint(|body|) + body;
    ReadEntryTag(s, i, long);
    ReadEntryTag(s, i, exact);
    ParseKnown(s, m, i, tag + long, long, depth);
    ParseKnown(s, m, i, tag + exact, exact, depth);
    VarintRoundTrip(n, body);
    VarintRoundTrip(|body|, body);
  }

  /**
    What a reader that may enter `depth` levels can have built: unknown fields are sound
    and not known ones, at every level.
   */
  predicate Readable(s: Schema, m: Message, depth: nat)
    requires Typed(s, m)
    decreases m
  {
    && (forall i :: 0 <= i < |m.slots| ==> SlotReadable(s.entries[i].ty, m.slots[i], depth))
    && AllSound(m.unknown) && DepthOfAll(m.unknown) <= depth
    && forall k :: 0 <= k < |m.unknown| ==> Find(s.entries, Tag(m.unknown[k]), 0) == |s.entries|
  }

  predicate SlotReadable(ty: FieldType, slot: Slot, depth: nat)
    requires SlotTyped(ty, slot)
    decreases slot
  {
    match slot
    case Str(b) => |b| < TWO31
    case Sub(m) => depth > 0 && Readable(ty.schema, m, depth - 1)
    case List(ms) => forall j :: 0 <= j < |ms| ==> depth > 0 && Readable(ty.schema, ms[j], depth - 1)
    case _ => true
  }

  /** Every nested message is shorter than 2^31 bytes when written. */
  predicate LengthsFit(s: Schema, m: Message)
    requires Typed(s, m)
    decreases m
  {
    forall i :: 0 <= i < |m.slots| ==> SlotFits(s.entries[i].ty, m.slots[i])
  }

  predicate SlotFits(ty: FieldType, slot: Slot)
    requires SlotTyped(ty, slot)
    decreases slot
  {
    match slot
    case Sub(m) => LengthsFit(ty.schema, m) && |Encode(ty.schema, m)| < TWO31
    case List(ms) => forall j :: 0 <= j < |ms| ==> LengthsFit(ty.schema, ms[j]) && |Encode(ty.schema, ms[j])| < TWO31
    case _ => true
  }

  lemma {:induction false} DepthWithin(m: Message, i: nat, depth: nat)
    requires i <= |m.slots|
    ensures DepthFrom(m, i) <= depth <==>
      DepthOfAll(m.unknown) <= depth && forall j :: i <= j < |m.slots| ==> SlotDepth(m.slots[j]) <= depth
    decreases |m.slots| - i
  {
    if i < |m.slots| { DepthWithin(m, i + 1, depth); }
  }

  lemma {:induction false} ListDepthWithin(ms: seq<Message>, depth: nat)
    ensures ListDepth(ms) <= depth <==> forall j :: 0 <= j < |ms| ==> 1 + MessageDepth(ms[j]) <= depth
  {
    if ms != [] {
      ListDepthWithin(ms[1..], depth);
      forall j | 1 <= j < |ms| ensures ms[j] == ms[1..][j - 1] {}
    }
  }

  /** The hypotheses of `RoundTrip`, apart. */
  lemma {:induction false} ReadableAndFits(s: Schema, m: Message, depth: nat)
    requires Typed(s, m)
    ensures Readable(s, m, depth) && LengthsFit(s, m) <==> Writable(s, m) && MessageDepth(m) <= depth
    decreases m
  {
    DepthWithin(m, 0, depth);
    forall i | 0 <= i < |m.slots|
      ensures SlotReadable(s.entries[i].ty, m.slots[i], depth) && SlotFits(s.entries[i].ty, m.slots[i])
        <==> SlotWritable(s.entries[i].ty, m.slots[i]) && SlotDepth(m.slots[i]) <= depth
    {
      assert SlotTyped(s.entries[i].ty, m.slots[i]);
      SlotReadableAndFits(s.entries[i].ty, m.slots[i], depth);
    }
  }

  lemma {:induction false} SlotReadableAndFits(ty: FieldType, slot: Slot, depth: nat)
    requires SlotTyped(ty, slot)
    ensures SlotReadable(ty, slot, depth) && SlotFits(ty, slot) <==> SlotWritable(ty, slot) && SlotDepth(slot) <= depth
    decreases slot
  {
    match slot
    case Sub(m) => if depth > 0 { ReadableAndFits(ty.schema, m, depth - 1); }
    case List(ms) =>
      ListDepthWithin(ms, depth);
      if depth > 0 {
        forall j | 0 <= j < |ms|
          ensures Readable(ty.schema, ms[j], depth - 1) && LengthsFit(ty.schema, ms[j])
            <==> Writable(ty.schema, ms[j]) && 1 + MessageDepth(ms[j]) <= depth
        {
          ReadableAndFits(ty.schema, ms[j], depth - 1);
        }
      }
    case _ =>
  }

  lemma {:induction false} DepthOfAppended(fs: seq<Field>, f: Field)
    ensures DepthOfAll(fs + [f]) == Max(DepthOfAll(fs), Depth(f)) && (AllSound(fs + [f]) <==> AllSound(fs) && Sound(f))
  {
    if fs == [] {
      assert [] + [f] == [f];
    } else {
      assert (fs + [f])[1..] == fs[1..] + [f];
      DepthOfAppended(fs[1..], f);
    }
  }

  /** Every parse that ends builds a readable message. */
  lemma {:induction false} ParseIsReadable(s: Schema, m: Message, bs: Bytes, depth: nat)
    requires Legal(s) && Typed(s, m) && Readable(s, m, depth) && Parse(s, m, bs, depth).Ended?
    ensures Readable(s, Parse(s, m, bs, depth).m, depth)
    decreases |bs|, 2
  {
    var head := ReadVarint32(bs);
    if bs != [] && head.Got? {
      var i := Find(s.entries, head.value, 0);
      if i < |s.entries| {
        var r := ParseSlot(s.entries[i].ty, m.slots[i], head.rest, depth);
        SlotIsReadable(s.entries[i].ty, m.slots[i], head.rest, depth);
        ParseIsReadable(s, Put(s, m, i, r.value), r.rest, depth);
      } else if head.value != 0 && head.value % 8 != END_GROUP {
        var r := SkipField(head.value, head.rest, depth);
        ReadIsSound(head.value, head.rest, depth);
        DepthOfAppended(m.unknown, r.value);
        ParseIsReadable(s, m.(unknown := m.unknown + [r.value]), r.rest, depth);
      }
    }
  }

  lemma {:induction false} SlotIsReadable(ty: FieldType, slot: Slot, bs: Bytes, depth: nat)
    requires TypeLegal(ty) && SlotTyped(ty, slot) && SlotReadable(ty, slot, depth)
    requires ParseSlot(ty, slot, bs, depth).Got?
    ensures SlotReadable(ty, ParseSlot(ty, slot, bs, depth).value, depth)
    decreases |bs|, 1
  {
    match ty
    case One(sub) => NestedIsReadable(sub, Current(sub, slot), bs, depth);
    case Many(sub) => NestedIsReadable(sub, Blank(sub), bs, depth);
    case _ =>
  }

  lemma {:induction false} NestedIsReadable(sub: Schema, m: Message, bs: Bytes, depth: nat)
    requires Legal(sub) && Typed(sub, m) && Nested(sub, m, bs, depth).Got?
    requires depth > 0 ==> Readable(sub, m, depth - 1)
    ensures depth > 0 && Readable(sub, Nested(sub, m, bs, depth).value, depth - 1)
    decreases |bs|, 0
  {
    var head := ReadVarint32(bs);
    ParseIsReadable(sub, m, head.rest[..Limit(head.value, |head.rest|)], depth - 1);
  }

  /** Any accepted bytes, written again and read again, give the same message. */
  lemma RewritingKeepsTheMessage(s: Schema, bs: Bytes, depth: nat)
    requires Legal(s)
    ensures var o := Parse(s, Blank(s), bs, depth);
      o.Ended? && LengthsFit(s, o.m) ==> Parse(s, Blank(s), Encode(s, o.m), depth) == Ended(o.m, true)
  {
    var o := Parse(s, Blank(s), bs, depth);
    if o.Ended? && LengthsFit(s, o.m) {
      ParseIsReadable(s, Blank(s), bs, depth);
      ReadableAndFits(s, o.m, depth);
      RoundTrip(s, o.m, depth);
    }
  }

  /** When the lengths fit, the message comes back exactly if a reader of that depth could have built it. */
  lemma RoundTripExactly(s: Schema, x: Message, depth: nat)
    requires Legal(s) && Typed(s, x) && LengthsFit(s, x)
    ensures Parse(s, Blank(s), Encode(s, x), depth) == Ended(x, true) <==> Readable(s, x, depth)
  {
    if Parse(s, Blank(s), Encode(s, x), depth) == Ended(x, true) {
      ParseIsReadable(s, Blank(s), Encode(s, x), depth);
    } else if Readable(s, x, depth) {
      ReadableAndFits(s, x, depth);
      RoundTrip(s, x, depth);
    }
  }
}
