/** The generated class of `PbRecordHeader`, whose last two fields have tags of two bytes. */
module RecordHeaderCodec {
  import opened Basics
  import opened Wire
  import opened UnknownFields
  import opened ProtoMessage
  import opened ProtoRoundTrip
  import opened ProtoSizes
  import opened CodedStream

  const HEADER := Schema([Entry(5, Int64), Entry(6, Int64), Entry(10, Int64), Entry(11, Int64), Entry(12, Int64),
                          Entry(19, Int32), Entry(22, Text)])

  const TAGS: seq<nat> := [40, 48, 80, 88, 96, 152, 178]

  lemma HeaderIsLegal()
    ensures Legal(HEADER) && |HEADER.entries| == 7
  {
  }

  lemma HeaderTag(i: nat)
    requires i < 7
    ensures EntryTag(HEADER.entries[i]) == TAGS[i] && TagSize(HEADER.entries[i]) == if i < 5 then 1 else 2
    ensures HEADER.entries[i].ty == if i < 5 then Int64 else if i == 5 then Int32 else Text
  {
  }

  lemma HeaderTagBytes()
    ensures |HEADER.entries| == 7 && forall i :: 0 <= i < 7 ==>
      EncodeVarint(EntryTag(HEADER.entries[i])) == [[40], [48], [80], [88], [96], [152, 1], [178, 1]][i]
  {
    assert EncodeVarint(1) == [1];
    assert EncodeVarint(152) == [152] + EncodeVarint(1) && EncodeVarint(178) == [178] + EncodeVarint(1);
    forall i | 0 <= i < 7 ensures EntryTag(HEADER.entries[i]) == TAGS[i] { HeaderTag(i); }
  }

  lemma NoHeaderTag(tag: nat)
    requires tag !in TAGS
    ensures Find(HEADER.entries, tag, 0) == 7
  {
    var k := Find(HEADER.entries, tag, 0);
    if k < 7 {
      HeaderTag(k);
    }
  }

  function HeaderMessage(a: Option<int>, b: Option<int>, c: Option<int>, d: Option<int>, e: Option<int>, f: Option<int>,
                         t: Option<Bytes>, unknown: seq<Field>): Message
  {
    Message([NumSlot(a), NumSlot(b), NumSlot(c), NumSlot(d), NumSlot(e), NumSlot(f), StrSlot(t)], unknown)
  }

  /** `Merge`, field by field. */
  lemma MergedFields(a: Option<int>, b: Option<int>, c: Option<int>, d: Option<int>, e: Option<int>, f: Option<int>,
                     t: Option<Bytes>, unknown: seq<Field>,
                     a': Option<int>, b': Option<int>, c': Option<int>, d': Option<int>,
                     e': Option<int>, f': Option<int>, t': Option<Bytes>, unknown': seq<Field>)
    ensures Merge(HeaderMessage(a, b, c, d, e, f, t, unknown), HeaderMessage(a', b', c', d', e', f', t', unknown'))
      == HeaderMessage(Later(a, a'), Later(b, b'), Later(c, c'), Later(d, d'), Later(e, e'), Later(f, f'), Later(t, t'),
                       unknown + unknown')
  {
    NumLater(a, a');
    NumLater(b, b');
    NumLater(c, c');
    NumLater(d, d');
    NumLater(e, e');
    NumLater(f, f');
    StrLater(t, t');
    hide MergeSlot, Later, NumSlot, StrSlot;
  }

  class PbRecordHeader {
    var bodyLength: Option<int>
    var recordId: Option<int>
    var timestampInLog: Option<int>
    var timestampInFilename: Option<int>
    var timestampWhenSend: Option<int>
    var partitionId: Option<int>
    var externalCheckpoint: Option<Bytes>
    var unknown: seq<Field>
    var cachedSize: int

    ghost predicate Valid()
      reads this
    {
      && InInt64(bodyLength) && InInt64(recordId) && InInt64(timestampInLog) && InInt64(timestampInFilename)
      && InInt64(timestampWhenSend) && InInt32(partitionId)
    }

    ghost function View(): (m: Message)
      requires Valid()
      reads this
      ensures Typed(HEADER, m)
    {
      HeaderMessage(bodyLength, recordId, timestampInLog, timestampInFilename, timestampWhenSend, partitionId,
                    externalCheckpoint, unknown)
    }

    constructor ()
      ensures Valid() && View() == Blank(HEADER)
    {
      bodyLength, recordId, timestampInLog, timestampInFilename := None, None, None, None;
      timestampWhenSend, partitionId, externalCheckpoint := None, None, None;
      unknown, cachedSize := [], 0;
    }

    /** The setter of the `i`-th field, one of the five of type `int64`. */
    method SetInt64(i: nat, v: int)
      requires Valid() && i < 5 && -TWO63 <= v < TWO63
      modifies this`bodyLength, this`recordId, this`timestampInLog, this`timestampInFilename, this`timestampWhenSend
      ensures Valid() && View() == Put(HEADER, old(View()), i, Num(v))
    {
      match i
      case 0 => bodyLength := Some(v);
      case 1 => recordId := Some(v);
      case 2 => timestampInLog := Some(v);
      case 3 => timestampInFilename := Some(v);
      case 4 => timestampWhenSend := Some(v);
    }

    method SetPartitionId(v: int)
      requires Valid() && -TWO31 <= v < TWO31
      modifies this`partitionId
      ensures Valid() && View() == Put(HEADER, old(View()), 5, Num(v))
    {
      partitionId := Some(v);
    }

    method SetExternalCheckpoint(v: Bytes)
      requires Valid()
      modifies this`externalCheckpoint
      ensures Valid() && View() == Put(HEADER, old(View()), 6, Str(v))
    {
      externalCheckpoint := Some(v);
    }

    method AddUnknown(f: Field)
      requires Valid()
      modifies this`unknown
      ensures Valid() && View() == WithUnknown(HEADER, old(View()), f)
    {
      unknown := unknown + [f];
    }

    /** The cases of the `int64` fields; the label jumped to is that of the next field. */
    method KnownInt64(i: nat, input: CodedInput) returns (t: Turn)
      requires Valid() && input.Valid() && !input.legitEnd && i < 5
      modifies this`bodyLength, this`recordId, this`timestampInLog, this`timestampInFilename, this`timestampWhenSend
      modifies input`pos
      ensures Valid() && input.Valid() && !t.Success?
      ensures t.Goto? ==> |input.Rest()| < |old(input.Rest())| && (t.at == 0 || t.at == TAGS[i + 1])
      ensures Dispatch(HEADER, old(View()), TAGS[i], old(input.Rest()), input.Depth())
        == After(t, HEADER, View(), input.Rest(), input.Depth(), false)
    {
      hide Typed, SlotTyped, Parse, Dispatch, ParseSlot, Legal, TypeLegal, EntryTag, Find, Put;
      HeaderIsLegal();
      HeaderTag(i);
      var ok, v := input.ReadInt64(HEADER, View(), i);
      if !ok {
        return Failure;
      }
      SetInt64(i, v);
      var at := input.Jump(TAGS[i + 1], HEADER, View());
      return Goto(at);
    }

    method KnownPartitionId(input: CodedInput) returns (t: Turn)
      requires Valid() && input.Valid() && !input.legitEnd
      modifies this`partitionId, input`pos
      ensures Valid() && input.Valid() && !t.Success?
      ensures t.Goto? ==> |input.Rest()| < |old(input.Rest())| && (t.at == 0 || t.at == 178)
      ensures Dispatch(HEADER, old(View()), 152, old(input.Rest()), input.Depth())
        == After(t, HEADER, View(), input.Rest(), input.Depth(), false)
    {
      hide Typed, SlotTyped, Parse, Dispatch, ParseSlot, Legal, TypeLegal, EntryTag, Find, Put;
      HeaderIsLegal();
      HeaderTag(5);
      var ok, v := input.ReadInt32(HEADER, View(), 5);
      if !ok {
        return Failure;
      }
      SetPartitionId(v);
      var at := input.Jump(178, HEADER, View());
      return Goto(at);
    }

    method KnownExternalCheckpoint(input: CodedInput) returns (t: Turn)
      requires Valid() && input.Valid() && !input.legitEnd
      modifies this`externalCheckpoint, input`pos, input`legitEnd
      ensures Valid() && input.Valid() && (t.Success? ==> input.legitEnd && input.Rest() == [])
      ensures t.Goto? ==> !input.legitEnd && |input.Rest()| < |old(input.Rest())| && t.at == 0
      ensures Dispatch(HEADER, old(View()), 178, old(input.Rest()), input.Depth())
        == After(t, HEADER, View(), input.Rest(), input.Depth(), input.legitEnd)
    {
      hide Typed, SlotTyped, Parse, Dispatch, ParseSlot, Legal, TypeLegal, EntryTag, Find, Put;
      HeaderIsLegal();
      HeaderTag(6);
      var ok, v := input.ReadString(HEADER, View(), 6);
      if !ok {
        return Failure;
      }
      SetExternalCheckpoint(v);
      var atEnd := input.ExpectAtEnd(HEADER, View());
      return if atEnd then Success else Goto(0);
    }

    /** The case of a known tag. */
    method Known(tag: nat, input: CodedInput) returns (t: Turn)
      requires Valid() && input.Valid() && !input.legitEnd && tag in TAGS
      modifies this`bodyLength, this`recordId, this`timestampInLog, this`timestampInFilename, this`timestampWhenSend
      modifies this`partitionId, this`externalCheckpoint, input`pos, input`legitEnd
      ensures Valid() && input.Valid() && (t.Success? ==> input.legitEnd && input.Rest() == [])
      ensures t.Goto? ==> !input.legitEnd && |input.Rest()| < |old(input.Rest())| && (t.at == 0 || t.at in TAGS)
      ensures Dispatch(HEADER, old(View()), tag, old(input.Rest()), input.Depth())
        == After(t, HEADER, View(), input.Rest(), input.Depth(), input.legitEnd)
    {
      hide Typed, SlotTyped, Parse, Dispatch, ParseSlot, Legal, TypeLegal, EntryTag, Find, Put;
      if tag == 152 {
        t := KnownPartitionId(input);
      } else if tag == 178 {
        t := KnownExternalCheckpoint(input);
      } else {
        var i := if tag == 40 then 0 else if tag == 48 then 1 else if tag == 80 then 2 else if tag == 88 then 3 else 4;
        t := KnownInt64(i, input);
      }
    }

    /** `handle_unusual`. */
    method Unusual(tag: nat, input: CodedInput) returns (t: Turn)
      requires Valid() && input.Valid() && tag !in TAGS
      modifies this`unknown, input`pos
      ensures Valid() && input.Valid()
      ensures (tag == 0 ==> t.Success? && View() == old(View()) && input.Rest() == old(input.Rest()))
      ensures t.Goto? ==> |input.Rest()| < |old(input.Rest())| && t.at == 0
      ensures Dispatch(HEADER, old(View()), tag, old(input.Rest()), input.Depth())
        == After(t, HEADER, View(), input.Rest(), input.Depth(), false)
    {
      HeaderIsLegal();
      NoHeaderTag(tag);
      if tag == 0 || tag % 8 == END_GROUP {
        return Success;
      }
      var ok, f := input.SkipUnknown(tag, HEADER, View());
      if !ok {
        return Failure;
      }
      AddUnknown(f);
      return Goto(0);
    }

    /** One turn of the loop. */
    method TakeTurn(at: nat, input: CodedInput) returns (t: Turn)
      requires Valid() && input.Valid() && !input.legitEnd && (at == 0 || at in TAGS)
      modifies this`bodyLength, this`recordId, this`timestampInLog, this`timestampInFilename, this`timestampWhenSend
      modifies this`partitionId, this`externalCheckpoint, this`unknown, input`pos, input`legitEnd
      ensures Valid() && input.Valid() && (t.Success? && input.legitEnd ==> input.Rest() == [])
      ensures t.Goto? ==> !input.legitEnd && |input.Rest()| < |old(input.Rest())| && (t.at == 0 || t.at in TAGS)
      ensures Pending(HEADER, old(View()), at, old(input.Rest()), input.Depth())
        == After(t, HEADER, View(), input.Rest(), input.Depth(), input.legitEnd)
    {
      hide Typed, SlotTyped, Parse, Dispatch, ParseSlot, Legal, TypeLegal, EntryTag, Find, Put;
      HeaderIsLegal();
      var tag, known := input.Next(at, 16383, HEADER, View());
      if known && tag in TAGS {
        t := Known(tag, input);
      } else {
        t := Unusual(tag, input);
      }
    }

    /** Tells what `Parse` tells, whatever the answers of `ExpectTag` and `ExpectAtEnd`. */
    method MergePartialFromCodedStream(input: CodedInput) returns (ok: bool)
      requires Valid() && input.Valid() && !input.legitEnd
      modifies this`bodyLength, this`recordId, this`timestampInLog, this`timestampInFilename, this`timestampWhenSend
      modifies this`partitionId, this`externalCheckpoint, this`unknown, input`pos, input`legitEnd
      ensures Valid() && input.Valid() && (ok && input.legitEnd ==> input.Rest() == [])
      ensures Parse(HEADER, old(View()), old(input.Rest()), input.Depth())
        == if ok then Ended(View(), input.legitEnd) else Failed
    {
      var t := Goto(0);
      while t.Goto?
        invariant Valid() && input.Valid() && (t.Success? && input.legitEnd ==> input.Rest() == [])
        invariant t.Goto? ==> !input.legitEnd && (t.at == 0 || t.at in TAGS)
        invariant Parse(HEADER, old(View()), old(input.Rest()), input.Depth())
          == After(t, HEADER, View(), input.Rest(), input.Depth(), input.legitEnd)
        decreases t.Goto?, |input.Rest()|
      {
        t := TakeTurn(t.at, input);
      }
      return t.Success?;
    }

    /** One step of `ByteSize`: `whole` is the size in all. */
    method AddIntSize(total: int, tagSize: int, o: Option<int>, ghost i: nat, ghost whole: int) returns (total': int)
      requires Valid() && i < 6 && View().slots[i] == NumSlot(o) && InInt64(o) && tagSize == if i < 5 then 1 else 2
      requires total + SizeFrom(HEADER, View(), i) == whole
      ensures total' + SizeFrom(HEADER, View(), i + 1) == whole
    {
      HeaderTag(i);
      total' := total;
      if o.Some? {
        total' := total + tagSize + IntSize(o.value);
      }
    }

    /** The numbers in `ByteSize`. */
    method IntSizes() returns (total: int)
      requires Valid()
      ensures total + SizeFrom(HEADER, View(), 6) == Size(HEADER, View())
    {
      hide Typed, SlotTyped, SizeFrom;
      ghost var whole := Size(HEADER, View());
      total := 0;
      assert total + SizeFrom(HEADER, View(), 0) == whole;
      total := AddIntSize(total, 1, bodyLength, 0, whole);
      total := AddIntSize(total, 1, recordId, 1, whole);
      total := AddIntSize(total, 1, timestampInLog, 2, whole);
      total := AddIntSize(total, 1, timestampInFilename, 3, whole);
      total := AddIntSize(total, 1, timestampWhenSend, 4, whole);
      total := AddIntSize(total, 2, partitionId, 5, whole);
    }

    method ByteSize() returns (total: int)
      requires Valid()
      modifies this`cachedSize
      ensures Valid() && View() == old(View()) && total == Size(HEADER, View()) && cachedSize == total
    {
      total := IntSizes();
      HeaderTag(6);
      if externalCheckpoint.Some? {
        total := total + 2 + LengthAnd(|externalCheckpoint.value|);
      }
      total := total + FieldsSize(unknown);
      cachedSize := total;
    }

    /** The known fields, in the order of their numbers. */
    method WriteKnown(output: CodedOutput)
      requires Valid()
      modifies output
      ensures output.written + EncodeFrom(HEADER, View(), 7) == old(output.written) + Encode(HEADER, View())
    {
      hide Typed, SlotTyped, EncodeFrom, EncodeSlot;
      ghost var m := View();
      ghost var whole := output.written + Encode(HEADER, m);
      output.WriteInt(5, bodyLength, HEADER, m, 0, whole);
      output.WriteInt(6, recordId, HEADER, m, 1, whole);
      output.WriteInt(10, timestampInLog, HEADER, m, 2, whole);
      output.WriteInt(11, timestampInFilename, HEADER, m, 3, whole);
      output.WriteInt(12, timestampWhenSend, HEADER, m, 4, whole);
      output.WriteInt(19, partitionId, HEADER, m, 5, whole);
      output.WriteString(22, externalCheckpoint, HEADER, m, 6, whole);
    }

    method SerializeWithCachedSizes(output: CodedOutput)
      requires Valid()
      modifies output
      ensures output.written == old(output.written) + Encode(HEADER, View())
    {
      WriteKnown(output);
      output.WriteUnknown(unknown);
    }

    method MergeInt64s(from: PbRecordHeader)
      requires from != this
      modifies this`bodyLength, this`recordId, this`timestampInLog, this`timestampInFilename, this`timestampWhenSend
      ensures bodyLength == Later(old(bodyLength), from.bodyLength) && recordId == Later(old(recordId), from.recordId)
      ensures timestampInLog == Later(old(timestampInLog), from.timestampInLog)
      ensures timestampInFilename == Later(old(timestampInFilename), from.timestampInFilename)
      ensures timestampWhenSend == Later(old(timestampWhenSend), from.timestampWhenSend)
    {
      if from.bodyLength.Some? {
        bodyLength := from.bodyLength;
      }
      if from.recordId.Some? {
        recordId := from.recordId;
      }
      if from.timestampInLog.Some? {
        timestampInLog := from.timestampInLog;
      }
      if from.timestampInFilename.Some? {
        timestampInFilename := from.timestampInFilename;
      }
      if from.timestampWhenSend.Some? {
        timestampWhenSend := from.timestampWhenSend;
      }
    }

    /** The bytes of the message, field by field; the tags of the last two take two bytes. */
    lemma FieldBytes()
      requires Valid()
      ensures Encode(HEADER, View()) == IntField([40], bodyLength) + (IntField([48], recordId)
        + (IntField([80], timestampInLog) + (IntField([88], timestampInFilename)
        + (IntField([96], timestampWhenSend) + (IntField([152, 1], partitionId)
        + (BytesField([178, 1], externalCheckpoint) + EncodeFields(unknown)))))))
    {
      hide Typed, SlotTyped, EncodeFrom, EncodeVarint, EntryTag, IntField, BytesField;
      HeaderTagBytes();
      FieldThen(HEADER, View(), 0, [40]);
      FieldThen(HEADER, View(), 1, [48]);
      FieldThen(HEADER, View(), 2, [80]);
      FieldThen(HEADER, View(), 3, [88]);
      FieldThen(HEADER, View(), 4, [96]);
      FieldThen(HEADER, View(), 5, [152, 1]);
      FieldThen(HEADER, View(), 6, [178, 1]);
      EncodedEnd(HEADER, View());
    }

    method MergeFrom(from: PbRecordHeader)
      requires Valid() && from.Valid() && from != this
      modifies this`bodyLength, this`recordId, this`timestampInLog, this`timestampInFilename, this`timestampWhenSend
      modifies this`partitionId, this`externalCheckpoint, this`unknown
      ensures Valid() && View() == Merge(old(View()), from.View())
      ensures bodyLength == if from.bodyLength.Some? then from.bodyLength else old(bodyLength)
      ensures recordId == if from.recordId.Some? then from.recordId else old(recordId)
      ensures timestampInLog == if from.timestampInLog.Some? then from.timestampInLog else old(timestampInLog)
      ensures timestampInFilename
        == if from.timestampInFilename.Some? then from.timestampInFilename else old(timestampInFilename)
      ensures timestampWhenSend
        == if from.timestampWhenSend.Some? then from.timestampWhenSend else old(timestampWhenSend)
      ensures partitionId == if from.partitionId.Some? then from.partitionId else old(partitionId)
      ensures externalCheckpoint
        == if from.externalCheckpoint.Some? then from.externalCheckpoint else old(externalCheckpoint)
      ensures unknown == old(unknown) + from.unknown
    {
      MergedFields(bodyLength, recordId, timestampInLog, timestampInFilename, timestampWhenSend, partitionId,
                   externalCheckpoint, unknown,
                   from.bodyLength, from.recordId, from.timestampInLog, from.timestampInFilename,
                   from.timestampWhenSend, from.partitionId, from.externalCheckpoint, from.unknown);
      MergeInt64s(from);
      if from.partitionId.Some? {
        partitionId := from.partitionId;
      }
      if from.externalCheckpoint.Some? {
        externalCheckpoint := from.externalCheckpoint;
      }
      unknown := unknown + from.unknown;
    }
  }
}
