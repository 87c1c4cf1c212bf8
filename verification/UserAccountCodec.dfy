/** The generated class of `UserAccountMessage`. */
module UserAccountCodec {
  import opened Basics
  import opened Wire
  import opened UnknownFields
  import opened ProtoMessage
  import opened ProtoRoundTrip
  import opened ProtoSizes
  import opened CodedStream

  const ACCOUNT := Schema([Entry(1, Text)])

  lemma AccountTags(tag: nat)
    ensures Legal(ACCOUNT) && EntryTag(ACCOUNT.entries[0]) == 10 && TagSize(ACCOUNT.entries[0]) == 1
    ensures tag != 10 ==> Find(ACCOUNT.entries, tag, 0) == 1
  {
  }

  class UserAccountMessage {
    var token: Option<Bytes>
    var unknown: seq<Field>
    var cachedSize: int

    ghost function View(): (m: Message)
      reads this
      ensures Typed(ACCOUNT, m)
    {
      Message([StrSlot(token)], unknown)
    }

    constructor ()
      ensures View() == Blank(ACCOUNT)
    {
      token, unknown, cachedSize := None, [], 0;
    }

    method SetToken(v: Bytes)
      modifies this`token
      ensures View() == Put(ACCOUNT, old(View()), 0, Str(v)) && token == Some(v)
    {
      token := Some(v);
    }

    method AddUnknown(f: Field)
      modifies this`unknown
      ensures View() == WithUnknown(ACCOUNT, old(View()), f)
    {
      unknown := unknown + [f];
    }

    /** The case of tag 10, up to the end of the loop's body or to success. */
    method Known(input: CodedInput) returns (t: Turn)
      requires input.Valid() && !input.legitEnd
      modifies this`token, input`pos, input`legitEnd
      ensures input.Valid() && (t.Success? ==> input.legitEnd && input.Rest() == [])
      ensures t.Goto? ==> !input.legitEnd && |input.Rest()| < |old(input.Rest())| && t.at == 0
      ensures Dispatch(ACCOUNT, old(View()), 10, old(input.Rest()), input.Depth())
        == After(t, ACCOUNT, View(), input.Rest(), input.Depth(), input.legitEnd)
    {
      AccountTags(10);
      var ok, v := input.ReadString(ACCOUNT, View(), 0);
      if !ok {
        return Failure;
      }
      SetToken(v);
      var atEnd := input.ExpectAtEnd(ACCOUNT, View());
      return if atEnd then Success else Goto(0);
    }

    /** `handle_unusual`. */
    method Unusual(tag: nat, input: CodedInput) returns (t: Turn)
      requires input.Valid() && tag != 10
      modifies this`unknown, input`pos
      ensures input.Valid() && (tag == 0 ==> t.Success? && View() == old(View()) && input.Rest() == old(input.Rest()))
      ensures t.Goto? ==> |input.Rest()| < |old(input.Rest())| && t.at == 0
      ensures Dispatch(ACCOUNT, old(View()), tag, old(input.Rest()), input.Depth())
        == After(t, ACCOUNT, View(), input.Rest(), input.Depth(), false)
    {
      AccountTags(tag);
      if tag == 0 || tag % 8 == END_GROUP {
        return Success;
      }
      var ok, f := input.SkipUnknown(tag, ACCOUNT, View());
      if !ok {
        return Failure;
      }
      AddUnknown(f);
      return Goto(0);
    }

    /** One turn of the loop. */
    method TakeTurn(input: CodedInput) returns (t: Turn)
      requires input.Valid() && !input.legitEnd
      modifies this`token, this`unknown, input`pos, input`legitEnd
      ensures input.Valid() && (t.Success? && input.legitEnd ==> input.Rest() == [])
      ensures t.Goto? ==> !input.legitEnd && |input.Rest()| < |old(input.Rest())| && t.at == 0
      ensures Parse(ACCOUNT, old(View()), old(input.Rest()), input.Depth())
        == After(t, ACCOUNT, View(), input.Rest(), input.Depth(), input.legitEnd)
    {
      AccountTags(0);
      var tag, known := input.Next(0, 127, ACCOUNT, View());
      if known && tag == 10 {
        t := Known(input);
      } else {
        t := Unusual(tag, input);
      }
    }

    /** Tells what `Parse` tells, whatever the answers of `ExpectAtEnd`. */
    method MergePartialFromCodedStream(input: CodedInput) returns (ok: bool)
      requires input.Valid() && !input.legitEnd
      modifies this`token, this`unknown, input`pos, input`legitEnd
      ensures input.Valid() && (ok && input.legitEnd ==> input.Rest() == [])
      ensures Parse(ACCOUNT, old(View()), old(input.Rest()), input.Depth())
        == if ok then Ended(View(), input.legitEnd) else Failed
    {
      var t := Goto(0);
      while t.Goto?
        invariant input.Valid() && (t.Success? && input.legitEnd ==> input.Rest() == [])
        invariant t.Goto? ==> !input.legitEnd && t.at == 0
        invariant Parse(ACCOUNT, old(View()), old(input.Rest()), input.Depth())
          == After(t, ACCOUNT, View(), input.Rest(), input.Depth(), input.legitEnd)
        decreases t.Goto?, |input.Rest()|
      {
        t := TakeTurn(input);
      }
      return t.Success?;
    }

    /** `ReadMessageNoVirtual`: a length, and the message within it. */
    method ReadMessage(input: CodedInput) returns (ok: bool)
      requires input.Valid() && !input.legitEnd
      modifies this`token, this`unknown, input`pos, input`limit, input`recursionDepth, input`legitEnd
      ensures ok ==> input.Valid() && !input.legitEnd && input.Depth() == old(input.Depth())
      ensures Nested(ACCOUNT, old(View()), old(input.Rest()), old(input.Depth()))
        == if ok then Got(View(), input.Rest()) else Fail
    {
      hide Typed, SlotTyped, Parse, Blank;
      var outer;
      ok, outer := input.Enter();
      if !ok {
        return;
      }
      ok := MergePartialFromCodedStream(input);
      if !ok || !input.legitEnd {
        return false;
      }
      input.Leave(outer);
    }

    method ByteSize() returns (total: int)
      modifies this`cachedSize
      ensures View() == old(View()) && total == Size(ACCOUNT, View()) && cachedSize == total
    {
      AccountTags(0);
      ghost var m := View();
      total := 0;
      assert SizeFrom(ACCOUNT, m, 0) == SlotSize(ACCOUNT.entries[0], m.slots[0]) + SizeFrom(ACCOUNT, m, 1);
      if token.Some? {
        total := total + 1 + LengthAnd(|token.value|);
      }
      total := total + FieldsSize(unknown);
      cachedSize := total;
    }

    method SerializeWithCachedSizes(output: CodedOutput)
      modifies output
      ensures output.written == old(output.written) + Encode(ACCOUNT, View())
    {
      ghost var m := View();
      ghost var whole := output.written + Encode(ACCOUNT, m);
      output.WriteString(1, token, ACCOUNT, m, 0, whole);
      output.WriteUnknown(unknown);
    }

    /** `WriteMessageMaybeToArray`: the tag, the size kept by `ByteSize`, the message. */
    method WriteMessage(number: nat, output: CodedOutput)
      requires cachedSize == Size(ACCOUNT, View())
      modifies output
      ensures output.written
        == old(output.written) + EncodeVarint(MakeTag(number, 2)) + EncodeBytes(Encode(ACCOUNT, View()))
    {
      SizeIsLength(ACCOUNT, View());
      output.WriteTag(number, 2);
      output.WriteVarint(cachedSize);
      SerializeWithCachedSizes(output);
    }

    /** The bytes of the message, field by field. */
    lemma FieldBytes()
      ensures Encode(ACCOUNT, View()) == BytesField([10], token) + EncodeFields(unknown)
    {
      AccountTags(0);
      FieldThen(ACCOUNT, View(), 0, [10]);
    }

    method MergeFrom(from: UserAccountMessage)
      requires from != this
      modifies this`token, this`unknown
      ensures View() == Merge(old(View()), from.View())
      ensures token == if from.token.Some? then from.token else old(token)
      ensures unknown == old(unknown) + from.unknown
    {
      if from.token.Some? {
        SetToken(from.token.value);
      }
      unknown := unknown + from.unknown;
    }
  }
}
