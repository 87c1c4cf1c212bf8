/** The generated class of `PartitionProgress`. */
module PartitionProgressCodec {
  import opened Basics
  import opened Wire
  import opened UnknownFields
  import opened ProtoMessage
  import opened ProtoRoundTrip
  import opened ProtoSizes
  import opened CodedStream

  const PROGRESS := Schema([Entry(1, Int64), Entry(2, Int64), Entry(3, Int64)])

  lemma ProgressTags(tag: nat)
    ensures Legal(PROGRESS) && forall i :: 0 <= i < 3 ==> EntryTag(PROGRESS.entries[i]) == [8, 16, 24][i]
    ensures tag !in {8, 16, 24} ==> Find(PROGRESS.entries, tag, 0) == 3
    ensures forall i :: 0 <= i < 3 ==> TagSize(PROGRESS.entries[i]) == 1
  {
  }

  class PartitionProgress {
    var partitionId: Option<int>
    var lastSendedMaxRecordId: Option<int>
    var curSendedMaxRecordId: Option<int>
    var unknown: seq<Field>
    var cachedSize: int

    ghost predicate Valid()
      reads this
    {
      InInt64(partitionId) && InInt64(lastSendedMaxRecordId) && InInt64(curSendedMaxRecordId)
    }

    ghost function View(): (m: Message)
      requires Valid()
      reads this
      ensures Typed(PROGRESS, m)
    {
      Message([NumSlot(partitionId), NumSlot(lastSendedMaxRecordId), NumSlot(curSendedMaxRecordId)], unknown)
    }

    constructor ()
      ensures Valid() && View() == Blank(PROGRESS)
    {
      partitionId, lastSendedMaxRecordId, curSendedMaxRecordId := None, None, None;
      unknown, cachedSize := [], 0;
    }

    method SetPartitionId(v: int)
      requires Valid() && -TWO63 <= v < TWO63
      modifies this`partitionId
      ensures Valid() && View() == Put(PROGRESS, old(View()), 0, Num(v)) && partitionId == Some(v)
    {
      partitionId := Some(v);
    }

    method SetLastSendedMaxRecordId(v: int)
      requires Valid() && -TWO63 <= v < TWO63
      modifies this`lastSendedMaxRecordId
      ensures Valid() && View() == Put(PROGRESS, old(View()), 1, Num(v)) && lastSendedMaxRecordId == Some(v)
    {
      lastSendedMaxRecordId := Some(v);
    }

    method SetCurSendedMaxRecordId(v: int)
      requires Valid() && -TWO63 <= v < TWO63
      modifies this`curSendedMaxRecordId
      ensures Valid() && View() == Put(PROGRESS, old(View()), 2, Num(v)) && curSendedMaxRecordId == Some(v)
    {
      curSendedMaxRecordId := Some(v);
    }

    method AddUnknown(f: Field)
      requires Valid()
      modifies this`unknown
      ensures Valid() && View() == WithUnknown(PROGRESS, old(View()), f)
    {
      unknown := unknown + [f];
    }

    /** The case of a known tag, up to the jump to the next label or to success. */
    method Known(tag: nat, input: CodedInput) returns (t: Turn)
      requires Valid() && input.Valid() && !input.legitEnd && tag in {8, 16, 24}
      modifies this`partitionId, this`lastSendedMaxRecordId, this`curSendedMaxRecordId, input`pos, input`legitEnd
      ensures Valid() && input.Valid() && (t.Success? ==> input.legitEnd && input.Rest() == [])
      ensures t.Goto? ==> !input.legitEnd && |input.Rest()| < |old(input.Rest())| && t.at in {0, 16, 24}
      ensures Dispatch(PROGRESS, old(View()), tag, old(input.Rest()), input.Depth())
        == After(t, PROGRESS, View(), input.Rest(), input.Depth(), input.legitEnd)
    {
      hide Typed, SlotTyped, Parse, Dispatch, ParseSlot, Legal, TypeLegal, EntryTag, Find, Put;
      ProgressTags(tag);
      var ok, v := input.ReadInt64(PROGRESS, View(), tag / 8 - 1);
      var at := 0;
      if !ok {
        return Failure;
      }
      if tag == 8 {
        SetPartitionId(v);
        at := input.Jump(16, PROGRESS, View());
      } else if tag == 16 {
        SetLastSendedMaxRecordId(v);
        at := input.Jump(24, PROGRESS, View());
      } else {
        SetCurSendedMaxRecordId(v);
        var atEnd := input.ExpectAtEnd(PROGRESS, View());
        if atEnd {
          return Success;
        }
      }
      return Goto(at);
    }

    /** `handle_unusual`. */
    method Unusual(tag: nat, input: CodedInput) returns (t: Turn)
      requires Valid() && input.Valid() && tag !in {8, 16, 24}
      modifies this`unknown, input`pos
      ensures Valid() && input.Valid()
      ensures (tag == 0 ==> t.Success? && View() == old(View()) && input.Rest() == old(input.Rest()))
      ensures t.Goto? ==> |input.Rest()| < |old(input.Rest())| && t.at == 0
      ensures Dispatch(PROGRESS, old(View()), tag, old(input.Rest()), input.Depth())
        == After(t, PROGRESS, View(), input.Rest(), input.Depth(), false)
    {
      ProgressTags(tag);
      if tag == 0 || tag % 8 == END_GROUP {
        return Success;
      }
      var ok, f := input.SkipUnknown(tag, PROGRESS, View());
      if !ok {
        return Failure;
      }
      AddUnknown(f);
      return Goto(0);
    }

    /** One turn of the loop. */
    method TakeTurn(at: nat, input: CodedInput) returns (t: Turn)
      requires Valid() && input.Valid() && !input.legitEnd && at in {0, 16, 24}
      modifies this`partitionId, this`lastSendedMaxRecordId, this`curSendedMaxRecordId, this`unknown
      modifies input`pos, input`legitEnd
      ensures Valid() && input.Valid() && (t.Success? && input.legitEnd ==> input.Rest() == [])
      ensures t.Goto? ==> !input.legitEnd && |input.Rest()| < |old(input.Rest())| && t.at in {0, 16, 24}
      ensures Pending(PROGRESS, old(View()), at, old(input.Rest()), input.Depth())
        == After(t, PROGRESS, View(), input.Rest(), input.Depth(), input.legitEnd)
    {
      hide Typed, SlotTyped, Parse, Dispatch, ParseSlot, Legal, TypeLegal, EntryTag, Find, Put;
      ProgressTags(0);
      var tag, known := input.Next(at, 127, PROGRESS, View());
      if known && tag in {8, 16, 24} {
        t := Known(tag, input);
      } else {
        t := Unusual(tag, input);
      }
    }

    /** Tells what `Parse` tells, whatever the answers of `ExpectTag` and `ExpectAtEnd`. */
    method MergePartialFromCodedStream(input: CodedInput) returns (ok: bool)
      requires Valid() && input.Valid() && !input.legitEnd
      modifies this`partitionId, this`lastSendedMaxRecordId, this`curSendedMaxRecordId, this`unknown
      modifies input`pos, input`legitEnd
      ensures Valid() && input.Valid() && (ok && input.legitEnd ==> input.Rest() == [])
      ensures Parse(PROGRESS, old(View()), old(input.Rest()), input.Depth())
        == if ok then Ended(View(), input.legitEnd) else Failed
    {
      var t := Goto(0);
      while t.Goto?
        invariant Valid() && input.Valid() && (t.Success? && input.legitEnd ==> input.Rest() == [])
        invariant t.Goto? ==> !input.legitEnd && t.at in {0, 16, 24}
        invariant Parse(PROGRESS, old(View()), old(input.Rest()), input.Depth())
          == After(t, PROGRESS, View(), input.Rest(), input.Depth(), input.legitEnd)
        decreases t.Goto?, |input.Rest()|
      {
        t := TakeTurn(t.at, input);
      }
      return t.Success?;
    }

    /** `ReadMessageNoVirtual`: a length, and the message within it. */
    method ReadMessage(input: CodedInput) returns (ok: bool)
      requires Valid() && input.Valid() && !input.legitEnd
      modifies this`partitionId, this`lastSendedMaxRecordId, this`curSendedMaxRecordId, this`unknown
      modifies input`pos, input`limit, input`recursionDepth, input`legitEnd
      ensures Valid() && (ok ==> input.Valid() && !input.legitEnd && input.Depth() == old(input.Depth()))
      ensures Nested(PROGRESS, old(View()), old(input.Rest()), old(input.Depth()))
        == if ok then Got(View(), input.Rest()) else Fail
    {
      hide Typed, SlotTyped, Parse, Blank;
      var outer;
      ok, outer := input.Enter();
      if !ok {
        return;
      }
      ok := MergePartialFromCodedStream(input);
      if !ok || !input.legitEnd {
        return false;
      }
      input.Leave(outer);
    }

    /** The number of bytes `SerializeWithCachedSizes` writes, which is also kept. */
    method ByteSize() returns (total: int)
      requires Valid()
      modifies this`cachedSize
      ensures Valid() && View() == old(View()) && total == Size(PROGRESS, View()) && cachedSize == total
    {
      ProgressTags(0);
      ghost var m := View();
      total := 0;
      assert SizeFrom(PROGRESS, m, 0) == SlotSize(PROGRESS.entries[0], m.slots[0]) + SizeFrom(PROGRESS, m, 1);
      if partitionId.Some? {
        total := total + 1 + IntSize(partitionId.value);
      }
      assert SizeFrom(PROGRESS, m, 1) == SlotSize(PROGRESS.entries[1], m.slots[1]) + SizeFrom(PROGRESS, m, 2);
      if lastSendedMaxRecordId.Some? {
        total := total + 1 + IntSize(lastSendedMaxRecordId.value);
      }
      assert SizeFrom(PROGRESS, m, 2) == SlotSize(PROGRESS.entries[2], m.slots[2]) + SizeFrom(PROGRESS, m, 3);
      if curSendedMaxRecordId.Some? {
        total := total + 1 + IntSize(curSendedMaxRecordId.value);
      }
      total := total + FieldsSize(unknown);
      cachedSize := total;
    }

    method SerializeWithCachedSizes(output: CodedOutput)
      requires Valid()
      modifies output
      ensures output.written == old(output.written) + Encode(PROGRESS, View())
    {
      ghost var m := View();
      ghost var whole := output.written + Encode(PROGRESS, m);
      output.WriteInt(1, partitionId, PROGRESS, m, 0, whole);
      output.WriteInt(2, lastSendedMaxRecordId, PROGRESS, m, 1, whole);
      output.WriteInt(3, curSendedMaxRecordId, PROGRESS, m, 2, whole);
      output.WriteUnknown(unknown);
    }

    /** `WriteMessageMaybeToArray`: the tag, the size kept by `ByteSize`, the message. */
    method WriteMessage(number: nat, output: CodedOutput)
      requires Valid() && cachedSize == Size(PROGRESS, View())
      modifies output
      ensures output.written
        == old(output.written) + EncodeVarint(MakeTag(number, 2)) + EncodeBytes(Encode(PROGRESS, View()))
    {
      SizeIsLength(PROGRESS, View());
      output.WriteTag(number, 2);
      output.WriteVarint(cachedSize);
      SerializeWithCachedSizes(output);
    }

    /** The bytes of the message, field by field. */
    lemma FieldBytes()
      requires Valid()
      ensures Encode(PROGRESS, View()) == IntField([8], partitionId) + (IntField([16], lastSendedMaxRecordId)
        + (IntField([24], curSendedMaxRecordId) + EncodeFields(unknown)))
    {
      ProgressTags(0);
      FieldThen(PROGRESS, View(), 0, [8]);
      FieldThen(PROGRESS, View(), 1, [16]);
      FieldThen(PROGRESS, View(), 2, [24]);
    }

    method MergeFrom(from: PartitionProgress)
      requires Valid() && from.Valid() && from != this
      modifies this`partitionId, this`lastSendedMaxRecordId, this`curSendedMaxRecordId, this`unknown
      ensures Valid() && View() == Merge(old(View()), from.View())
      ensures partitionId == if from.partitionId.Some? then from.partitionId else old(partitionId)
      ensures lastSendedMaxRecordId
        == if from.lastSendedMaxRecordId.Some? then from.lastSendedMaxRecordId else old(lastSendedMaxRecordId)
      ensures curSendedMaxRecordId
        == if from.curSendedMaxRecordId.Some? then from.curSendedMaxRecordId else old(curSendedMaxRecordId)
      ensures unknown == old(unknown) + from.unknown
    {
      hide Typed, SlotTyped;
      if from.partitionId.Some? {
        SetPartitionId(from.partitionId.value);
      }
      if from.lastSendedMaxRecordId.Some? {
        SetLastSendedMaxRecordId(from.lastSendedMaxRecordId.value);
      }
      if from.curSendedMaxRecordId.Some? {
        SetCurSendedMaxRecordId(from.curSendedMaxRecordId.value);
      }
      unknown := unknown + from.unknown;
    }
  }
}
