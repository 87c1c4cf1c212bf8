/** Concatenated bytes, from any writer: what the Encoding guide promises under "Last One Wins". */
module ProtoConcatenation {
  import opened Wire
  import opened UnknownFields
  import opened ProtoMessage
  import opened ProtoRoundTrip
  import opened ProtoLaws

  /** The same value read, with `more` behind what is left. */
  function Behind<T>(r: Scan<T>, more: Bytes): Scan<T> { if r.Fail? then r else Got(r.value, r.rest + more) }

  lemma {:induction false} GroupsBefore(bs: Bytes, k: nat, more: Bytes)
    requires ReadGroups(bs, k).Got?
    ensures ReadGroups(bs + more, k) == Behind(ReadGroups(bs, k), more)
    decreases k
  {
    assert (bs + more)[1..] == bs[1..] + more;
    if bs[0] >= 128 { GroupsBefore(bs[1..], k - 1, more); }
  }

  lemma {:induction false} FixedBefore(bs: Bytes, n: nat, more: Bytes)
    requires ReadFixed(bs, n).Got?
    ensures ReadFixed(bs + more, n) == Behind(ReadFixed(bs, n), more)
  {
    if n > 0 {
      assert (bs + more)[1..] == bs[1..] + more;
      FixedBefore(bs[1..], n - 1, more);
    }
  }

  lemma VarintBefore(bs: Bytes, more: Bytes)
    requires ReadVarint32(bs).Got?
    ensures ReadVarint32(bs + more) == Behind(ReadVarint32(bs), more)
  {
    GroupsBefore(bs, 10, more);
  }

  lemma SplitBefore(bs: Bytes, n: nat, more: Bytes)
    requires n <= |bs|
    ensures (bs + more)[..n] == bs[..n] && (bs + more)[n..] == bs[n..] + more
  {
  }

  lemma BytesBefore(bs: Bytes, more: Bytes)
    requires ReadBytes(bs).Got?
    ensures ReadBytes(bs + more) == Behind(ReadBytes(bs), more)
  {
    VarintBefore(bs, more);
    hide ReadVarint32;
    SplitBefore(ReadVarint32(bs).rest, ReadVarint32(bs).value, more);
  }

  lemma {:induction false} FieldBefore(tag: nat, bs: Bytes, depth: nat, more: Bytes)
    requires SkipField(tag, bs, depth).Got?
    ensures SkipField(tag, bs + more, depth) == Behind(SkipField(tag, bs, depth), more)
    decreases |bs|, 1
  {
    var wireType := tag % 8;
    if wireType == 0 {
      GroupsBefore(bs, 10, more);
    } else if wireType == 1 {
      FixedBefore(bs, 8, more);
    } else if wireType == 2 {
      BytesBefore(bs, more);
    } else if wireType == 3 {
      GroupBefore(tag / 8, bs, depth - 1, more);
    } else {
      FixedBefore(bs, 4, more);
    }
  }

  lemma {:induction false} GroupBefore(number: nat, bs: Bytes, depth: nat, more: Bytes)
    requires SkipGroup(number, bs, depth).Got?
    ensures SkipGroup(number, bs + more, depth) == Behind(SkipGroup(number, bs, depth), more)
    decreases |bs|, 0
  {
    GroupsBefore(bs, 10, more);
    var head := ReadVarint32(bs);
    if head.value % 8 != END_GROUP {
      FieldBefore(head.value, head.rest, depth, more);
      GroupBefore(number, SkipField(head.value, head.rest, depth).rest, depth, more);
    }
  }

  /** The length of a nested message stays within the bytes. */
  predicate LengthInside(ty: FieldType, bs: Bytes)
  {
    ty.One? || ty.Many? ==> var r := ReadVarint32(bs); r.Got? ==> r.value < TWO31 && r.value <= |r.rest|
  }

  lemma NestedBefore(sub: Schema, m: Message, bs: Bytes, depth: nat, more: Bytes)
    requires Typed(sub, m) && Nested(sub, m, bs, depth).Got? && LengthInside(One(sub), bs)
    ensures Nested(sub, m, bs + more, depth) == Behind(Nested(sub, m, bs, depth), more)
  {
    VarintBefore(bs, more);
    hide ReadVarint32, Parse, Typed;
    SplitBefore(ReadVarint32(bs).rest, ReadVarint32(bs).value, more);
  }

  lemma SlotBefore(ty: FieldType, slot: Slot, bs: Bytes, depth: nat, more: Bytes)
    requires SlotTyped(ty, slot) && ParseSlot(ty, slot, bs, depth).Got? && LengthInside(ty, bs)
    ensures ParseSlot(ty, slot, bs + more, depth) == Behind(ParseSlot(ty, slot, bs, depth), more)
  {
    match ty
    case Int32 => GroupsBefore(bs, 10, more);
    case Int64 => GroupsBefore(bs, 10, more);
    case Text => BytesBefore(bs, more);
    case One(sub) => NestedBefore(sub, Current(sub, slot), bs, depth, more);
    case Many(sub) => NestedBefore(sub, Blank(sub), bs, depth, more);
  }

  /** No message nested directly in these bytes has a length that reaches beyond them. */
  predicate LengthsInside(s: Schema, m: Message, bs: Bytes, depth: nat)
    requires Typed(s, m)
    decreases |bs|
  {
    var head := ReadVarint32(bs);
    head.Got? ==>
      var i := Find(s.entries, head.value, 0);
      if i < |s.entries| then
        var r := ParseSlot(s.entries[i].ty, m.slots[i], head.rest, depth);
        LengthInside(s.entries[i].ty, head.rest) && (r.Got? ==> LengthsInside(s, Put(s, m, i, r.value), r.rest, depth))
      else
        var r := SkipField(head.value, head.rest, depth);
        head.value != 0 && r.Got? ==> LengthsInside(s, m.(unknown := m.unknown + [r.value]), r.rest, depth)
  }

  /** Bytes after a message that ended legitimately go on from that message. */
  lemma {:induction false} MessageThenBytes(s: Schema, m: Message, bs: Bytes, more: Bytes, depth: nat)
    requires Typed(s, m) && LengthsInside(s, m, bs, depth)
    requires var o := Parse(s, m, bs, depth); o.Ended? && o.legit
    ensures Parse(s, m, bs + more, depth) == Parse(s, Parse(s, m, bs, depth).m, more, depth)
    decreases |bs|
  {
    if bs == [] {
      assert bs + more == more;
    } else {
      GroupsBefore(bs, 10, more);
      var head := ReadVarint32(bs);
      var i := Find(s.entries, head.value, 0);
      if i < |s.entries| {
        SlotBefore(s.entries[i].ty, m.slots[i], head.rest, depth, more);
        var r := ParseSlot(s.entries[i].ty, m.slots[i], head.rest, depth);
        MessageThenBytes(s, Put(s, m, i, r.value), r.rest, more, depth);
      } else {
        FieldBefore(head.value, head.rest, depth, more);
        var r := SkipField(head.value, head.rest, depth);
        MessageThenBytes(s, m.(unknown := m.unknown + [r.value]), r.rest, more, depth);
      }
    }
  }

  /**
    Any accepted bytes, in any field order and from any writer, followed by any bytes at
    all parse as the two parses merged, if the first end their nested messages.
   */
  lemma ConcatenatedBytesMerge(s: Schema, first: Bytes, second: Bytes, depth: nat)
    requires LengthsInside(s, Blank(s), first, depth)
    requires var o := Parse(s, Blank(s), first, depth); o.Ended? && o.legit
    ensures Parse(s, Blank(s), first + second, depth)
      == Onto(s, Parse(s, Blank(s), first, depth).m, Parse(s, Blank(s), second, depth))
  {
    MessageThenBytes(s, Blank(s), first, second, depth);
    ParseIntoIsMerge(s, Parse(s, Blank(s), first, depth).m, second, depth);
  }

  /** What follows a nested message that was cut short is read as part of it. */
  lemma CutMessageSwallowsWhatFollows(s: Schema, m: Message, i: nat, n: nat, body: Bytes, second: Bytes, depth: nat)
    requires Legal(s) && Typed(s, m) && i < |m.slots| && (s.entries[i].ty.One? || s.entries[i].ty.Many?)
    requires |body| + |second| <= n < TWO32
    ensures Parse(s, m, EncodeVarint(EntryTag(s.entries[i])) + (EncodeVarint(n) + body) + second, depth)
      == Parse(s, m, EncodeVarint(EntryTag(s.entries[i])) + EncodeBytes(body + second), depth)
  {
    var tag := EncodeVarint(EntryTag(s.entries[i]));
    assert tag + (EncodeVarint(n) + body) + second == tag + (EncodeVarint(n) + (body + second));
    OverlongLengthIsAccepted(s, m, i, n, body + second, depth);
  }

  /**
    A message ends at once at the end of its bytes, and then legitimately, at a malformed
    tag, at tag 0 and at the end tag of a group, and then not; an unknown tag of no wire
    type is a failure.
   */
  lemma EndsAtOnce(s: Schema, m: Message, bs: Bytes, depth: nat)
    requires Legal(s) && Typed(s, m)
    ensures var head := ReadVarint32(bs);
      && (bs == [] || head.Fail? || head.value == 0 ==> Parse(s, m, bs, depth) == Ended(m, bs == []))
      && (head.Got? && head.value % 8 == 4 ==> Parse(s, m, bs, depth) == Ended(m, false))
      && (head.Got? && head.value % 8 >= 6 ==> Parse(s, m, bs, depth) == Failed)
  {
    forall k | 0 <= k < |s.entries| ensures EntryTag(s.entries[k]) != 0 && EntryTag(s.entries[k]) % 8 in {0, 2} {
      assert s.entries[k].number >= 1;
    }
  }

  const ZERO: Bytes := [0]

  /** A zero byte is a tag that ends a message, but not legitimately. */
  lemma ZeroEndsMessage(s: Schema, m: Message, depth: nat)
    requires Legal(s) && Typed(s, m)
    ensures Parse(s, m, ZERO, depth) == Ended(m, false)
  {
    assert ReadVarint32(ZERO) == Got(0, []);
    forall k | 0 <= k < |s.entries| ensures EntryTag(s.entries[k]) != 0 {
      assert s.entries[k].number >= 1;
    }
  }

  lemma LimitTakesAll(n: nat, rest: Bytes)
    requires n >= TWO31 || n > |rest|
    ensures rest[..Limit(n, |rest|)] == rest
    ensures (rest + ZERO)[..Limit(n, |rest + ZERO|)] == rest + ZERO
  {
  }

  /** A nested message that was cut short and swallows a zero byte is refused. */
  lemma {:induction false} CutNestedFails(sub: Schema, m: Message, bs: Bytes, depth: nat)
    requires Legal(sub) && Typed(sub, m) && Nested(sub, m, bs, depth).Got? && !LengthInside(One(sub), bs)
    ensures Nested(sub, m, bs + ZERO, depth).Fail?
    decreases |bs|, 0
  {
    GroupsBefore(bs, 10, ZERO);
    var head := ReadVarint32(bs);
    LimitTakesAll(head.value, head.rest);
    hide Parse, ReadVarint32, Typed, Legal;
    ZeroSpoils(sub, m, head.rest, depth - 1);
  }

  /** A zero byte behind a message that ended legitimately keeps it from doing so. */
  lemma {:induction false} ZeroSpoils(s: Schema, m: Message, bs: Bytes, depth: nat)
    requires Legal(s) && Typed(s, m)
    requires var o := Parse(s, m, bs, depth); o.Ended? && o.legit
    ensures var o := Parse(s, m, bs + ZERO, depth); o.Ended? ==> !o.legit
    decreases |bs|, 2
  {
    if LengthsInside(s, m, bs, depth) {
      MessageThenBytes(s, m, bs, ZERO, depth);
      ZeroEndsMessage(s, Parse(s, m, bs, depth).m, depth);
    } else {
      CutMessageFails(s, m, bs, depth);
    }
  }

  lemma CutSlotFails(ty: FieldType, slot: Slot, bs: Bytes, depth: nat)
    requires TypeLegal(ty) && SlotTyped(ty, slot) && ParseSlot(ty, slot, bs, depth).Got? && !LengthInside(ty, bs)
    ensures ParseSlot(ty, slot, bs + ZERO, depth).Fail?
    decreases |bs|, 1
  {
    match ty
    case One(sub) => CutNestedFails(sub, Current(sub, slot), bs, depth);
    case Many(sub) => CutNestedFails(sub, Blank(sub), bs, depth);
  }

  /** With a message cut short anywhere among those nested directly, a zero byte behind makes the parse fail. */
  lemma {:induction false} CutMessageFails(s: Schema, m: Message, bs: Bytes, depth: nat)
    requires Legal(s) && Typed(s, m) && !LengthsInside(s, m, bs, depth)
    requires var o := Parse(s, m, bs, depth); o.Ended? && o.legit
    ensures Parse(s, m, bs + ZERO, depth) == Failed
    decreases |bs|, 1
  {
    GroupsBefore(bs, 10, ZERO);
    var head := ReadVarint32(bs);
    var i := Find(s.entries, head.value, 0);
    if i < |s.entries| {
      var ty := s.entries[i].ty;
      if LengthInside(ty, head.rest) {
        SlotBefore(ty, m.slots[i], head.rest, depth, ZERO);
        var r := ParseSlot(ty, m.slots[i], head.rest, depth);
        CutMessageFails(s, Put(s, m, i, r.value), r.rest, depth);
      } else {
        CutSlotFails(ty, m.slots[i], head.rest, depth);
      }
    } else {
      FieldBefore(head.value, head.rest, depth, ZERO);
      var r := SkipField(head.value, head.rest, depth);
      CutMessageFails(s, m.(unknown := m.unknown + [r.value]), r.rest, depth);
    }
  }

  /** The law of merging concatenated bytes, for one pair. */
  predicate MergesWith(s: Schema, first: Bytes, second: Bytes, depth: nat)
    requires Parse(s, Blank(s), first, depth).Ended?
  {
    Parse(s, Blank(s), first + second, depth)
      == Onto(s, Parse(s, Blank(s), first, depth).m, Parse(s, Blank(s), second, depth))
  }

  /** The law fails for bytes whose last nested message was cut short and a single zero byte behind them. */
  lemma CutMessageDoesNotMerge(s: Schema, first: Bytes, depth: nat)
    requires Legal(s) && !LengthsInside(s, Blank(s), first, depth)
    requires var o := Parse(s, Blank(s), first, depth); o.Ended? && o.legit
    ensures !MergesWith(s, first, ZERO, depth)
  {
    CutMessageFails(s, Blank(s), first, depth);
    ZeroEndsMessage(s, Blank(s), depth);
  }

  /** The tag of any message field and the length 1, with nothing behind it: accepted, but it does not merge. */
  lemma ShortestCut(s: Schema, i: nat, depth: nat)
    requires Legal(s) && i < |s.entries| && (s.entries[i].ty.One? || s.entries[i].ty.Many?) && depth > 0
    ensures var first := EncodeVarint(EntryTag(s.entries[i])) + [1];
      var o := Parse(s, Blank(s), first, depth);
      o.Ended? && o.legit && !LengthsInside(s, Blank(s), first, depth) && !MergesWith(s, first, ZERO, depth)
  {
    ShortestCutIsAccepted(s, i, depth);
    CutMessageDoesNotMerge(s, EncodeVarint(EntryTag(s.entries[i])) + [1], depth);
    hide Parse, LengthsInside, MergesWith, Legal, EncodeVarint;
  }

  lemma ShortestCutIsAccepted(s: Schema, i: nat, depth: nat)
    requires Legal(s) && i < |s.entries| && (s.entries[i].ty.One? || s.entries[i].ty.Many?) && depth > 0
    ensures var first := EncodeVarint(EntryTag(s.entries[i])) + [1];
      var o := Parse(s, Blank(s), first, depth);
      o.Ended? && o.legit && !LengthsInside(s, Blank(s), first, depth)
  {
    var first := EncodeVarint(EntryTag(s.entries[i])) + [1];
    ReadEntryTag(s, i, [1]);
    assert ReadVarint32([1]) == Got(1, []);
    ParseKnown(s, Blank(s), i, first, [1], depth);
    FindIs(s, i);
  }

  /** Exactly: accepted bytes merge with all bytes behind them if and only if they end their nested messages. */
  lemma ConcatenationMergesExactlyWhen(s: Schema, first: Bytes, depth: nat)
    requires Legal(s)
    requires var o := Parse(s, Blank(s), first, depth); o.Ended? && o.legit
    ensures LengthsInside(s, Blank(s), first, depth) <==> forall second :: MergesWith(s, first, second, depth)
  {
    if LengthsInside(s, Blank(s), first, depth) {
      forall second ensures MergesWith(s, first, second, depth) {
        ConcatenatedBytesMerge(s, first, second, depth);
      }
    } else {
      CutMessageDoesNotMerge(s, first, depth);
    }
  }
}
