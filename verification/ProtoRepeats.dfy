/**
  The same field more than once in a message: the last of several scalars wins, several
  single messages are one message with the bytes of all, repeated messages are added.
 */
module ProtoRepeats {
  import opened Wire
  import opened UnknownFields
  import opened ProtoMessage
  import opened ProtoRoundTrip
  import opened ProtoLaws
  import opened ProtoConcatenation

  function TagOf(s: Schema, i: nat): Bytes
    requires i < |s.entries|
  {
    EncodeVarint(EntryTag(s.entries[i]))
  }

  lemma ParseAtTag(s: Schema, m: Message, i: nat, body: Bytes, depth: nat)
    requires Legal(s) && Typed(s, m) && i < |s.entries|
    ensures Parse(s, m, TagOf(s, i) + body, depth) ==
      match ParseSlot(s.entries[i].ty, m.slots[i], body, depth)
      case Fail => Failed
      case Got(slot, rest) => Parse(s, m.(slots := m.slots[i := slot]), rest, depth)
  {
    ReadEntryTag(s, i, body);
    ParseKnown(s, m, i, TagOf(s, i) + body, body, depth);
  }

  /** The bytes are one scalar value, and nothing more. */
  predicate OneScalar(ty: FieldType, bs: Bytes)
  {
    match ty
    case Int32 => ReadVarint32(bs).Got? && ReadVarint32(bs).rest == []
    case Int64 => ReadVarint64(bs).Got? && ReadVarint64(bs).rest == []
    case Text => ReadBytes(bs).Got? && ReadBytes(bs).rest == []
    case _ => false
  }

  /** That value, as the slot it makes. */
  function ScalarOf(ty: FieldType, bs: Bytes): (slot: Slot)
    requires OneScalar(ty, bs)
    ensures SlotTyped(ty, slot)
  {
    match ty
    case Int32 => Num(ToInt32(ReadVarint32(bs).value))
    case Int64 => Num(ToInt64(ReadVarint64(bs).value))
    case Text => Str(ReadBytes(bs).value)
  }

  lemma ScalarSlot(ty: FieldType, slot: Slot, value: Bytes, rest: Bytes, depth: nat)
    requires SlotTyped(ty, slot) && OneScalar(ty, value)
    ensures ParseSlot(ty, slot, value + rest, depth) == Got(ScalarOf(ty, value), rest)
  {
    SlotBefore(ty, slot, value, depth, rest);
    assert [] + rest == rest;
  }

  /** A scalar is set, whatever was there before. */
  lemma ScalarIsSet(s: Schema, m: Message, i: nat, value: Bytes, rest: Bytes, depth: nat)
    requires Legal(s) && Typed(s, m) && i < |s.entries| && OneScalar(s.entries[i].ty, value)
    ensures Parse(s, m, TagOf(s, i) + (value + rest), depth)
      == Parse(s, Put(s, m, i, ScalarOf(s.entries[i].ty, value)), rest, depth)
  {
    ParseAtTag(s, m, i, value + rest, depth);
    ScalarSlot(s.entries[i].ty, m.slots[i], value, rest, depth);
  }

  /** The last scalar wins: an earlier occurrence has no effect at all. */
  lemma LastScalarWins(s: Schema, m: Message, i: nat, first: Bytes, second: Bytes, rest: Bytes, depth: nat)
    requires Legal(s) && Typed(s, m) && i < |s.entries|
    requires OneScalar(s.entries[i].ty, first) && OneScalar(s.entries[i].ty, second)
    ensures Parse(s, m, TagOf(s, i) + (first + (TagOf(s, i) + (second + rest))), depth)
      == Parse(s, m, TagOf(s, i) + (second + rest), depth)
  {
    hide Parse, ParseSlot, Legal, OneScalar, SlotTyped, TagOf, ScalarOf;
    var a, b := ScalarOf(s.entries[i].ty, first), ScalarOf(s.entries[i].ty, second);
    ScalarIsSet(s, m, i, first, TagOf(s, i) + (second + rest), depth);
    ScalarIsSet(s, Put(s, m, i, a), i, second, rest, depth);
    ScalarIsSet(s, m, i, second, rest, depth);
    assert m.slots[i := a][i := b] == m.slots[i := b];
  }

  /** Where the nested lengths lie does not depend on the message read into. */
  lemma {:induction false} LengthsInsideAnyMessage(s: Schema, a: Message, b: Message, bs: Bytes, depth: nat)
    requires Typed(s, a) && Typed(s, b)
    ensures LengthsInside(s, Merged(s, a, b), bs, depth) == LengthsInside(s, b, bs, depth)
    decreases |bs|
  {
    var head := ReadVarint32(bs);
    if head.Got? {
      var i := Find(s.entries, head.value, 0);
      if i < |s.entries| {
        SlotIntoMerges(s.entries[i].ty, a.slots[i], b.slots[i], head.rest, depth);
        var r := ParseSlot(s.entries[i].ty, b.slots[i], head.rest, depth);
        if r.Got? {
          PutMerged(s, a, b, i, r.value);
          LengthsInsideAnyMessage(s, a, Put(s, b, i, r.value), r.rest, depth);
        }
      } else {
        var r := SkipField(head.value, head.rest, depth);
        if head.value != 0 && r.Got? {
          UnknownMerged(s, a, b, r.value);
          LengthsInsideAnyMessage(s, a, b.(unknown := b.unknown + [r.value]), r.rest, depth);
        }
      }
    }
  }

  /** An accepted message whose own nested messages end within it. */
  predicate Complete(s: Schema, bs: Bytes, depth: nat)
  {
    LengthsInside(s, Blank(s), bs, depth) && Parse(s, Blank(s), bs, depth).Ended? && Parse(s, Blank(s), bs, depth).legit
  }

  /** Bytes behind a complete message, read into any message. */
  lemma CompleteThenBytes(s: Schema, m: Message, first: Bytes, second: Bytes, depth: nat)
    requires Typed(s, m) && Complete(s, first, depth)
    ensures var o := Parse(s, m, first, depth);
      o.Ended? && o.legit && Parse(s, m, first + second, depth) == Parse(s, o.m, second, depth)
  {
    MergeBlank(s, m);
    ParseIntoMerges(s, m, Blank(s), first, depth);
    LengthsInsideAnyMessage(s, m, Blank(s), first, depth);
    MessageThenBytes(s, m, first, second, depth);
  }

  lemma NestedBytes(sub: Schema, m: Message, body: Bytes, rest: Bytes, depth: nat)
    requires Typed(sub, m) && |body| < TWO31
    ensures Nested(sub, m, EncodeBytes(body) + rest, depth) ==
      if depth == 0 then Fail
      else
        var o := Parse(sub, m, body, depth - 1);
        if o.Ended? && o.legit then Got(o.m, rest) else Fail
  {
    LengthRoundTrip(body, rest);
  }

  lemma OneAtTag(s: Schema, m: Message, i: nat, sub: Schema, cur: Message, body: Bytes, rest: Bytes, depth: nat)
    requires Legal(s) && Typed(s, m) && i < |s.entries| && s.entries[i].ty == One(sub)
    requires depth > 0 && |body| < TWO31 && SlotTyped(One(sub), m.slots[i]) && cur == Current(sub, m.slots[i])
    ensures var o := Parse(sub, cur, body, depth - 1);
      Parse(s, m, TagOf(s, i) + (EncodeBytes(body) + rest), depth)
        == if o.Ended? && o.legit then Parse(s, Put(s, m, i, Sub(o.m)), rest, depth) else Failed
  {
    ParseAtTag(s, m, i, EncodeBytes(body) + rest, depth);
    NestedBytes(sub, cur, body, rest, depth);
  }

  lemma PutTwice(s: Schema, m: Message, i: nat, a: Slot, b: Slot)
    requires Typed(s, m) && i < |m.slots| && SlotTyped(s.entries[i].ty, a) && SlotTyped(s.entries[i].ty, b)
    ensures Put(s, Put(s, m, i, a), i, b) == Put(s, m, i, b)
  {
    assert m.slots[i := a][i := b] == m.slots[i := b];
  }

  lemma CurrentOfPut(s: Schema, m: Message, i: nat, sub: Schema, x: Message)
    requires Typed(s, m) && i < |m.slots| && s.entries[i].ty == One(sub) && Typed(sub, x)
    ensures SlotTyped(s.entries[i].ty, Sub(x)) && |Put(s, m, i, Sub(x)).slots| == |m.slots|
    ensures SlotTyped(One(sub), Put(s, m, i, Sub(x)).slots[i]) && Current(sub, Put(s, m, i, Sub(x)).slots[i]) == x
  {
  }

  lemma TwoOccurrencesFrom(s: Schema, m: Message, i: nat, sub: Schema, cur: Message, x: Message, first: Bytes,
                           second: Bytes, rest: Bytes, depth: nat)
    requires Legal(s) && Typed(s, m) && i < |s.entries| && s.entries[i].ty == One(sub) && Typed(sub, x)
    requires depth > 0 && |first| < TWO31 && |second| < TWO31 && |first + second| < TWO31
    requires SlotTyped(One(sub), m.slots[i]) && cur == Current(sub, m.slots[i])
    requires Parse(sub, cur, first, depth - 1) == Ended(x, true)
    requires Parse(sub, cur, first + second, depth - 1) == Parse(sub, x, second, depth - 1)
    ensures Parse(s, m, TagOf(s, i) + (EncodeBytes(first) + (TagOf(s, i) + (EncodeBytes(second) + rest))), depth)
      == Parse(s, m, TagOf(s, i) + (EncodeBytes(first + second) + rest), depth)
  {
    hide Parse, Legal, TagOf, EncodeBytes, Current, Put;
    OneAtTag(s, m, i, sub, cur, first, TagOf(s, i) + (EncodeBytes(second) + rest), depth);
    OneAtTag(s, m, i, sub, cur, first + second, rest, depth);
    CurrentOfPut(s, m, i, sub, x);
    OneAtTag(s, Put(s, m, i, Sub(x)), i, sub, x, second, rest, depth);
    var o := Parse(sub, x, second, depth - 1);
    if o.Ended? && o.legit { PutTwice(s, m, i, Sub(x), Sub(o.m)); }
  }

  /** A single message that occurs twice is read as one with the bytes of both. */
  lemma TwoOccurrencesAreOne(s: Schema, m: Message, i: nat, sub: Schema, first: Bytes, second: Bytes, rest: Bytes,
                             depth: nat)
    requires Legal(s) && Typed(s, m) && i < |s.entries| && s.entries[i].ty == One(sub)
    requires depth > 0 && Complete(sub, first, depth - 1) && |first + second| < TWO31
    ensures Parse(s, m, TagOf(s, i) + (EncodeBytes(first) + (TagOf(s, i) + (EncodeBytes(second) + rest))), depth)
      == Parse(s, m, TagOf(s, i) + (EncodeBytes(first + second) + rest), depth)
  {
    assert SlotTyped(s.entries[i].ty, m.slots[i]);
    var cur := Current(sub, m.slots[i]);
    hide Parse, TagOf, EncodeBytes, Current, Complete;
    CompleteThenBytes(sub, cur, first, second, depth - 1);
    TwoOccurrencesFrom(s, m, i, sub, cur, Parse(sub, cur, first, depth - 1).m, first, second, rest, depth);
  }

  /** A single message that is not there yet is what its bytes say. */
  lemma FirstOccurrence(s: Schema, m: Message, i: nat, sub: Schema, body: Bytes, rest: Bytes, depth: nat)
    requires Legal(s) && Typed(s, m) && i < |s.entries| && s.entries[i].ty == One(sub) && m.slots[i].Absent?
    requires depth > 0 && |body| < TWO31
    ensures var o := Parse(sub, Blank(sub), body, depth - 1);
      Parse(s, m, TagOf(s, i) + (EncodeBytes(body) + rest), depth)
        == if o.Ended? && o.legit then Parse(s, Put(s, m, i, Sub(o.m)), rest, depth) else Failed
  {
    OneAtTag(s, m, i, sub, Blank(sub), body, rest, depth);
  }

  /** Every occurrence of a repeated message is one more, read on its own and put behind the others. */
  lemma RepeatedIsAdded(s: Schema, m: Message, i: nat, sub: Schema, body: Bytes, rest: Bytes, depth: nat)
    requires Legal(s) && Typed(s, m) && i < |s.entries| && s.entries[i].ty == Many(sub)
    requires depth > 0 && |body| < TWO31
    ensures SlotTyped(Many(sub), m.slots[i])
    ensures var o := Parse(sub, Blank(sub), body, depth - 1);
      Parse(s, m, TagOf(s, i) + (EncodeBytes(body) + rest), depth)
        == if o.Ended? && o.legit then Parse(s, Put(s, m, i, List(m.slots[i].ms + [o.m])), rest, depth) else Failed
  {
    ParseAtTag(s, m, i, EncodeBytes(body) + rest, depth);
    NestedBytes(sub, Blank(sub), body, rest, depth);
  }
}
