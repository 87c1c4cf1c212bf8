/** The generated class of `PartitionGroupProgress`, with messages nested in it. */
module PartitionGroupCodec {
  import opened Basics
  import opened Wire
  import opened UnknownFields
  import opened ProtoMessage
  import opened ProtoRoundTrip
  import opened ProtoLaws
  import opened ProtoSizes
  import opened CodedStream
  import opened PartitionProgressCodec
  import opened UserAccountCodec

  const GROUP := Schema([Entry(1, Int32), Entry(2, Int32), Entry(3, Int64), Entry(4, Int64),
                         Entry(5, Many(PROGRESS)), Entry(6, One(ACCOUNT))])

  const TAGS: seq<nat> := [8, 16, 24, 32, 42, 50]

  lemma GroupIsLegal()
    ensures Legal(GROUP) && |GROUP.entries| == 6
  {
    ProgressTags(0);
    AccountTags(0);
    assert TypeLegal(Many(PROGRESS)) && TypeLegal(One(ACCOUNT));
  }

  lemma GroupTag(i: nat)
    requires i < 6
    ensures EntryTag(GROUP.entries[i]) == TAGS[i] && TagSize(GROUP.entries[i]) == 1
    ensures GROUP.entries[i].ty == [Int32, Int32, Int64, Int64, Many(PROGRESS), One(ACCOUNT)][i]
  {
  }

  lemma GroupTagBytes()
    ensures |GROUP.entries| == 6 && forall i :: 0 <= i < 6 ==>
      EncodeVarint(EntryTag(GROUP.entries[i])) == [[8], [16], [24], [32], [42], [50]][i]
  {
    forall i | 0 <= i < 6 ensures EntryTag(GROUP.entries[i]) == TAGS[i] { GroupTag(i); }
  }

  lemma AccountBytes(slot: Slot)
    requires SlotTyped(One(ACCOUNT), slot)
    ensures EncodeSlot(GROUP.entries[5], slot)
      == if slot.Sub? then [50] + EncodeBytes(Encode(ACCOUNT, slot.m)) else []
  {
    GroupTagBytes();
  }

  function Encodings(ms: seq<Message>): (bodies: seq<Bytes>)
    requires forall j :: 0 <= j < |ms| ==> Typed(PROGRESS, ms[j])
    ensures |bodies| == |ms| && forall j :: 0 <= j < |ms| ==> bodies[j] == Encode(PROGRESS, ms[j])
  {
    seq(|ms|, j requires 0 <= j < |ms| => Encode(PROGRESS, ms[j]))
  }

  lemma {:induction false} ProgressListBytes(ms: seq<Message>)
    requires forall j :: 0 <= j < |ms| ==> Typed(PROGRESS, ms[j])
    ensures EncodeList(GROUP.entries[4], ms) == Framed([42], Encodings(ms))
  {
    GroupTagBytes();
    if ms != [] {
      ProgressListBytes(ms[1..]);
      assert Encodings(ms)[1..] == Encodings(ms[1..]);
    }
  }

  lemma NoGroupTag(tag: nat)
    requires tag !in TAGS
    ensures Find(GROUP.entries, tag, 0) == 6
  {
    var k := Find(GROUP.entries, tag, 0);
    if k < 6 {
      GroupTag(k);
    }
  }

  ghost predicate AllValid(ps: seq<PartitionProgress>)
    reads ps
  {
    forall i :: 0 <= i < |ps| ==> ps[i].Valid()
  }

  ghost function Views(ps: seq<PartitionProgress>): (ms: seq<Message>)
    requires AllValid(ps)
    reads ps
    ensures |ms| == |ps| && forall i :: 0 <= i < |ms| ==> ms[i] == ps[i].View() && Typed(PROGRESS, ms[i])
  {
    seq(|ps|, i requires 0 <= i < |ps| && AllValid(ps) reads ps => ps[i].View())
  }

  ghost function AccountSlot(a: UserAccountMessage?): (slot: Slot)
    reads a
    ensures SlotTyped(One(ACCOUNT), slot)
  {
    if a == null then Absent else Sub(a.View())
  }

  lemma NestedSizes(m: Message, ms: seq<Message>, account: Slot)
    requires Typed(GROUP, m) && m.slots[4] == List(ms) && forall j :: 0 <= j < |ms| ==> Typed(PROGRESS, ms[j])
    requires m.slots[5] == account && SlotTyped(One(ACCOUNT), account)
    ensures SizeFrom(GROUP, m, 4)
      == ListSize(GROUP.entries[4], ms) + SlotSize(GROUP.entries[5], account) + FieldsSize(m.unknown)
  {
    assert SizeFrom(GROUP, m, 4) == SlotSize(GROUP.entries[4], m.slots[4]) + SizeFrom(GROUP, m, 5);
    assert SizeFrom(GROUP, m, 5) == SlotSize(GROUP.entries[5], m.slots[5]) + SizeFrom(GROUP, m, 6);
  }

  lemma AccountSize(account: Slot)
    requires SlotTyped(One(ACCOUNT), account)
    ensures SlotSize(GROUP.entries[5], account) == if account.Sub? then 1 + LengthAnd(Size(ACCOUNT, account.m)) else 0
  {
    GroupTag(5);
  }

  lemma WrittenFrom4(m: Message, ms: seq<Message>, account: Slot, before: Bytes)
    requires Typed(GROUP, m) && m.slots[4] == List(ms) && forall j :: 0 <= j < |ms| ==> Typed(PROGRESS, ms[j])
    requires m.slots[5] == account && SlotTyped(One(ACCOUNT), account)
    ensures before + EncodeFrom(GROUP, m, 4)
      == before + EncodeList(GROUP.entries[4], ms) + EncodeSlot(GROUP.entries[5], account) + EncodeFields(m.unknown)
  {
    var whole := before + EncodeFrom(GROUP, m, 4);
    EncodeStep(GROUP, m, 4, before, whole);
    EncodeStep(GROUP, m, 5, before + EncodeList(GROUP.entries[4], ms), whole);
  }

  function GroupMessage(a: Option<int>, b: Option<int>, c: Option<int>, d: Option<int>,
                        ms: seq<Message>, account: Slot, unknown: seq<Field>): Message
  {
    Message([NumSlot(a), NumSlot(b), NumSlot(c), NumSlot(d), List(ms), account], unknown)
  }

  lemma ElementAdded(a: Option<int>, b: Option<int>, c: Option<int>, d: Option<int>, ms: seq<Message>,
                     account: Slot, unknown: seq<Field>, x: Message)
    requires Typed(GROUP, GroupMessage(a, b, c, d, ms, account, unknown)) && Typed(PROGRESS, x)
    ensures var m := GroupMessage(a, b, c, d, ms, account, unknown);
      && |m.slots| == 6 && SlotTyped(Many(PROGRESS), m.slots[4]) && SlotTyped(Many(PROGRESS), List([x]))
      && GroupMessage(a, b, c, d, ms + [x], account, unknown) == Put(GROUP, m, 4, Added(PROGRESS, m.slots[4], [x]))
  {
  }

  lemma GroupBytes(a: Option<int>, b: Option<int>, c: Option<int>, d: Option<int>, ms: seq<Message>, account: Slot,
                   unknown: seq<Field>)
    requires var m := GroupMessage(a, b, c, d, ms, account, unknown);
      Typed(GROUP, m) && InInt64(a) && InInt64(b) && InInt64(c) && InInt64(d)
    requires SlotTyped(One(ACCOUNT), account) && forall j :: 0 <= j < |ms| ==> Typed(PROGRESS, ms[j])
    ensures Encode(GROUP, GroupMessage(a, b, c, d, ms, account, unknown)) == IntField([8], a) + (IntField([16], b)
      + (IntField([24], c) + (IntField([32], d) + (Framed([42], Encodings(ms))
      + ((if account.Sub? then [50] + EncodeBytes(Encode(ACCOUNT, account.m)) else []) + EncodeFields(unknown))))))
  {
    var m := GroupMessage(a, b, c, d, ms, account, unknown);
    hide EncodeVarint, EntryTag, IntField, Encode, EncodeFrom, EncodeList, EncodeSlot, Framed, EncodeBytes,
      EncodeFields, Encodings, Typed, SlotTyped;
    GroupTagBytes();
    FieldThen(GROUP, m, 0, [8]);
    FieldThen(GROUP, m, 1, [16]);
    FieldThen(GROUP, m, 2, [24]);
    FieldThen(GROUP, m, 3, [32]);
    WrittenFrom4(m, ms, account, []);
    AccountBytes(account);
    ProgressListBytes(ms);
    EncodedEnd(GROUP, m);
    assert [] + EncodeFrom(GROUP, m, 4) == EncodeFrom(GROUP, m, 4);
    var list, last := Framed([42], Encodings(ms)), EncodeSlot(GROUP.entries[5], account);
    assert [] + list + last + EncodeFields(unknown) == list + (last + EncodeFields(unknown));
  }

  /** `Merge`, field by field. */
  lemma MergedFields(a: Option<int>, b: Option<int>, c: Option<int>, d: Option<int>, ms: seq<Message>,
                     account: Slot, unknown: seq<Field>,
                     a': Option<int>, b': Option<int>, c': Option<int>, d': Option<int>,
                     ms': seq<Message>, account': Slot, unknown': seq<Field>)
    ensures Merge(GroupMessage(a, b, c, d, ms, account, unknown), GroupMessage(a', b', c', d', ms', account', unknown'))
      == GroupMessage(Later(a, a'), Later(b, b'), Later(c, c'), Later(d, d'), ms + ms', MergeSlot(account, account'),
                      unknown + unknown')
  {
  }

  lemma ListSizeStep(ms: seq<Message>, i: nat)
    requires i < |ms| && forall j :: 0 <= j < |ms| ==> Typed(PROGRESS, ms[j])
    ensures ListSize(GROUP.entries[4], ms[i..])
      == 1 + LengthAnd(Size(PROGRESS, ms[i])) + ListSize(GROUP.entries[4], ms[i + 1..])
  {
    GroupTag(4);
    assert ms[i..][1..] == ms[i + 1..];
  }

  class PartitionGroupProgress {
    var topicId: Option<int>
    var partitionGroupId: Option<int>
    var curDataPackageId: Option<int>
    var curPartitionId: Option<int>
    var progress: seq<PartitionProgress>
    var account: UserAccountMessage?
    var unknown: seq<Field>
    var cachedSize: int

    ghost predicate Valid()
      reads this, progress
    {
      && InInt32(topicId) && InInt32(partitionGroupId) && InInt64(curDataPackageId) && InInt64(curPartitionId)
      && AllValid(progress)
    }

    ghost function View(): (m: Message)
      requires Valid()
      reads this, progress, account
      ensures Typed(GROUP, m)
    {
      GroupMessage(topicId, partitionGroupId, curDataPackageId, curPartitionId, Views(progress), AccountSlot(account),
                   unknown)
    }

    /** Elements and account are those of before, or new. */
    twostate predicate OwnsOnly(ps: seq<PartitionProgress>, a: UserAccountMessage?)
      reads this
    {
      (forall p :: p in progress ==> p in ps || fresh(p)) && (account == a || fresh(account))
    }

    constructor ()
      ensures Valid() && View() == Blank(GROUP)
    {
      topicId, partitionGroupId, curDataPackageId, curPartitionId := None, None, None, None;
      progress, account, unknown, cachedSize := [], null, [], 0;
    }

    /** The setter of the `i`-th field, one of the four numbers. */
    method SetInt(i: nat, v: int)
      requires Valid() && i < 4 && -TWO63 <= v < TWO63 && (i < 2 ==> -TWO31 <= v < TWO31)
      modifies this`topicId, this`partitionGroupId, this`curDataPackageId, this`curPartitionId
      ensures Valid() && View() == Put(GROUP, old(View()), i, Num(v))
    {
      hide Typed, SlotTyped, Views, AccountSlot;
      match i
      case 0 => topicId := Some(v);
      case 1 => partitionGroupId := Some(v);
      case 2 => curDataPackageId := Some(v);
      case 3 => curPartitionId := Some(v);
    }

    method AddUnknown(f: Field)
      requires Valid()
      modifies this`unknown
      ensures Valid() && View() == WithUnknown(GROUP, old(View()), f)
    {
      unknown := unknown + [f];
    }

    /** The cases of the `int32` fields; the label jumped to is that of the next field. */
    method KnownInt32(i: nat, input: CodedInput) returns (t: Turn)
      requires Valid() && input.Valid() && !input.legitEnd && i < 2
      modifies this`topicId, this`partitionGroupId, this`curDataPackageId, this`curPartitionId, input`pos
      ensures Valid() && input.Valid() && !t.Success?
      ensures t.Goto? ==> |input.Rest()| < |old(input.Rest())| && (t.at == 0 || t.at == TAGS[i + 1])
      ensures Dispatch(GROUP, old(View()), TAGS[i], old(input.Rest()), input.Depth())
        == After(t, GROUP, View(), input.Rest(), input.Depth(), false)
    {
      hide Typed, SlotTyped, Parse, Dispatch, ParseSlot, Legal, TypeLegal, EntryTag, Find, GroupMessage, Put;
      GroupIsLegal();
      GroupTag(i);
      var ok, v := input.ReadInt32(GROUP, View(), i);
      if !ok {
        return Failure;
      }
      SetInt(i, v);
      var at := input.Jump(TAGS[i + 1], GROUP, View());
      return Goto(at);
    }

    /** The cases of the `int64` fields; the label jumped to is that of the next field. */
    method KnownInt64(i: nat, input: CodedInput) returns (t: Turn)
      requires Valid() && input.Valid() && !input.legitEnd && 2 <= i < 4
      modifies this`topicId, this`partitionGroupId, this`curDataPackageId, this`curPartitionId, input`pos
      ensures Valid() && input.Valid() && !t.Success?
      ensures t.Goto? ==> |input.Rest()| < |old(input.Rest())| && (t.at == 0 || t.at == TAGS[i + 1])
      ensures Dispatch(GROUP, old(View()), TAGS[i], old(input.Rest()), input.Depth())
        == After(t, GROUP, View(), input.Rest(), input.Depth(), false)
    {
      hide Typed, SlotTyped, Parse, Dispatch, ParseSlot, Legal, TypeLegal, EntryTag, Find, GroupMessage, Put;
      GroupIsLegal();
      GroupTag(i);
      var ok, v := input.ReadInt64(GROUP, View(), i);
      if !ok {
        return Failure;
      }
      SetInt(i, v);
      var at := input.Jump(TAGS[i + 1], GROUP, View());
      return Goto(at);
    }

    /** A new element is added, and filled; the others stay as they are. */
    method FillNewElement(input: CodedInput) returns (ok: bool)
      requires Valid() && input.Valid() && !input.legitEnd
      modifies this`progress, input`pos, input`limit, input`recursionDepth, input`legitEnd
      ensures Valid() && |progress| == |old(progress)| + 1
      ensures (forall p :: p in progress ==> p in old(progress) || fresh(p))
      ensures ok ==> input.Valid() && !input.legitEnd && input.Depth() == old(input.Depth())
      ensures Nested(PROGRESS, Blank(PROGRESS), old(input.Rest()), old(input.Depth()))
        == if ok then Got(progress[|old(progress)|].View(), input.Rest()) else Fail
      ensures Views(progress) == old(Views(progress)) + [progress[|old(progress)|].View()]
    {
      hide Typed, SlotTyped, Nested, Parse, Blank, AccountSlot, GroupMessage;
      var p := new PartitionProgress();
      progress := progress + [p];
      ok := p.ReadMessage(input);
      assert Views(progress) == old(Views(progress)) + [p.View()];
    }

    /** The same, told of the whole message. */
    method ReadProgress(input: CodedInput) returns (ok: bool)
      requires Valid() && input.Valid() && !input.legitEnd
      modifies this`progress, input`pos, input`limit, input`recursionDepth, input`legitEnd
      ensures Valid() && |progress| == |old(progress)| + 1
      ensures (forall p :: p in progress ==> p in old(progress) || fresh(p))
      ensures ok ==> input.Valid() && !input.legitEnd && input.Depth() == old(input.Depth())
      ensures Nested(PROGRESS, Blank(PROGRESS), old(input.Rest()), old(input.Depth()))
        == if ok then Got(progress[|old(progress)|].View(), input.Rest()) else Fail
      ensures var added := [progress[|old(progress)|].View()];
        View() == Put(GROUP, old(View()), 4, Added(PROGRESS, old(View()).slots[4], added))
    {
      ghost var ms := Views(progress);
      assert Typed(GROUP, View());
      hide SlotTyped, Nested, Parse, Blank, AccountSlot, GroupMessage, Put, Added, Views;
      ok := FillNewElement(input);
      ElementAdded(topicId, partitionGroupId, curDataPackageId, curPartitionId, ms, AccountSlot(account), unknown,
                   progress[|old(progress)|].View());
    }

    /** The labels that may follow an element: another element, or the account. */
    method JumpAfterProgress(input: CodedInput) returns (at: nat)
      requires Valid() && input.Valid()
      modifies input`pos
      ensures input.Valid() && |input.Rest()| <= |old(input.Rest())| && at in {0, 42, 50}
      ensures Parse(GROUP, View(), old(input.Rest()), input.Depth())
        == Pending(GROUP, View(), at, input.Rest(), input.Depth())
    {
      at := input.Jump(42, GROUP, View());
      if at == 0 {
        at := input.Jump(50, GROUP, View());
      }
    }

    /** The case of the repeated field. */
    method KnownProgress(input: CodedInput) returns (t: Turn)
      requires Valid() && input.Valid() && !input.legitEnd
      modifies this`progress, input`pos, input`limit, input`recursionDepth, input`legitEnd
      ensures Valid() && !t.Success?
      ensures (t.Failure? ==> Failed == Dispatch(GROUP, old(View()), 42, old(input.Rest()), old(input.Depth())))
      ensures forall p :: p in progress ==> p in old(progress) || fresh(p)
      ensures t.Goto? ==>
        && input.Valid() && !input.legitEnd && input.Depth() == old(input.Depth())
        && |input.Rest()| < |old(input.Rest())| && t.at in {0, 42, 50}
        && Dispatch(GROUP, old(View()), 42, old(input.Rest()), old(input.Depth()))
          == After(t, GROUP, View(), input.Rest(), input.Depth(), false)
    {
      hide Typed, SlotTyped, Parse, Dispatch, ParseSlot, Legal, TypeLegal, EntryTag, Find, Put;
      GroupIsLegal();
      GroupTag(4);
      ManyTurn(GROUP, View(), 4, PROGRESS, input.Rest(), input.Depth());
      var ok := ReadProgress(input);
      if !ok {
        return Failure;
      }
      var at := JumpAfterProgress(input);
      return Goto(at);
    }

    /** The single message goes on from the one there is, or is made. */
    method ReadAccount(input: CodedInput) returns (ok: bool)
      requires Valid() && input.Valid() && !input.legitEnd
      modifies this`account, account, input`pos, input`limit, input`recursionDepth, input`legitEnd
      ensures Valid() && account != null && (account == old(account) || fresh(account))
      ensures ok ==> input.Valid() && !input.legitEnd && input.Depth() == old(input.Depth())
      ensures Nested(ACCOUNT, Current(ACCOUNT, old(AccountSlot(account))), old(input.Rest()), old(input.Depth()))
        == if ok then Got(account.View(), input.Rest()) else Fail
      ensures View() == Put(GROUP, old(View()), 5, Sub(account.View()))
    {
      if account == null {
        account := new UserAccountMessage();
      }
      ok := account.ReadMessage(input);
    }

    /** The case of the single message. */
    method KnownAccount(input: CodedInput) returns (t: Turn)
      requires Valid() && input.Valid() && !input.legitEnd
      modifies this`account, account, input`pos, input`limit, input`recursionDepth, input`legitEnd
      ensures Valid()
      ensures (t.Failure? ==> Failed == Dispatch(GROUP, old(View()), 50, old(input.Rest()), old(input.Depth())))
      ensures account == old(account) || fresh(account)
      ensures !t.Failure? ==>
        && input.Valid() && input.Depth() == old(input.Depth())
        && Dispatch(GROUP, old(View()), 50, old(input.Rest()), old(input.Depth()))
          == After(t, GROUP, View(), input.Rest(), input.Depth(), input.legitEnd)
        && if t.Success? then input.legitEnd && input.Rest() == []
           else !input.legitEnd && |input.Rest()| < |old(input.Rest())| && t.at == 0
    {
      hide Typed, SlotTyped, Parse, Dispatch, ParseSlot, Legal, TypeLegal, EntryTag, Find, Put;
      GroupIsLegal();
      GroupTag(5);
      OneTurn(GROUP, View(), 5, ACCOUNT, input.Rest(), input.Depth());
      var ok := ReadAccount(input);
      if !ok {
        return Failure;
      }
      var atEnd := input.ExpectAtEnd(GROUP, View());
      return if atEnd then Success else Goto(0);
    }

    /** The case of a known tag. */
    method Known(tag: nat, input: CodedInput) returns (t: Turn)
      requires Valid() && input.Valid() && !input.legitEnd && tag in TAGS
      modifies this, account, input`pos, input`limit, input`recursionDepth, input`legitEnd
      ensures Valid() && OwnsOnly(old(progress), old(account))
      ensures t.Failure? ==> Failed == Dispatch(GROUP, old(View()), tag, old(input.Rest()), old(input.Depth()))
      ensures !t.Failure? ==>
        && input.Valid() && input.Depth() == old(input.Depth())
        && Dispatch(GROUP, old(View()), tag, old(input.Rest()), old(input.Depth()))
          == After(t, GROUP, View(), input.Rest(), input.Depth(), input.legitEnd)
      ensures t.Success? ==> input.legitEnd && input.Rest() == []
      ensures t.Goto? ==> !input.legitEnd && |input.Rest()| < |old(input.Rest())| && (t.at == 0 || t.at in TAGS)
    {
      hide Typed, SlotTyped, Parse, Dispatch, ParseSlot, Legal, TypeLegal, EntryTag, Find, GroupMessage, Put, Views,
        AccountSlot;
      if tag == 42 {
        t := KnownProgress(input);
      } else if tag == 50 {
        t := KnownAccount(input);
      } else if tag == 8 || tag == 16 {
        t := KnownInt32(if tag == 8 then 0 else 1, input);
      } else {
        t := KnownInt64(if tag == 24 then 2 else 3, input);
      }
    }

    /** `handle_unusual`. */
    method Unusual(tag: nat, input: CodedInput) returns (t: Turn)
      requires Valid() && input.Valid() && tag !in TAGS
      modifies this`unknown, input`pos
      ensures Valid() && input.Valid()
      ensures (tag == 0 ==> t.Success? && View() == old(View()) && input.Rest() == old(input.Rest()))
      ensures t.Goto? ==> |input.Rest()| < |old(input.Rest())| && t.at == 0
      ensures Dispatch(GROUP, old(View()), tag, old(input.Rest()), input.Depth())
        == After(t, GROUP, View(), input.Rest(), input.Depth(), false)
    {
      GroupIsLegal();
      NoGroupTag(tag);
      if tag == 0 || tag % 8 == END_GROUP {
        return Success;
      }
      var ok, f := input.SkipUnknown(tag, GROUP, View());
      if !ok {
        return Failure;
      }
      AddUnknown(f);
      return Goto(0);
    }

    /** One turn of the loop. */
    method TakeTurn(at: nat, input: CodedInput) returns (t: Turn)
      requires Valid() && input.Valid() && !input.legitEnd && (at == 0 || at in TAGS)
      modifies this, account, input`pos, input`limit, input`recursionDepth, input`legitEnd
      ensures Valid() && OwnsOnly(old(progress), old(account))
      ensures t.Failure? ==> Failed == Pending(GROUP, old(View()), at, old(input.Rest()), old(input.Depth()))
      ensures !t.Failure? ==>
        && input.Valid() && input.Depth() == old(input.Depth())
        && Pending(GROUP, old(View()), at, old(input.Rest()), old(input.Depth()))
          == After(t, GROUP, View(), input.Rest(), input.Depth(), input.legitEnd)
      ensures t.Success? && input.legitEnd ==> input.Rest() == []
      ensures t.Goto? ==> !input.legitEnd && |input.Rest()| < |old(input.Rest())| && (t.at == 0 || t.at in TAGS)
    {
      hide Typed, SlotTyped, Parse, Dispatch, ParseSlot, Legal, TypeLegal, EntryTag, Find, Put;
      GroupIsLegal();
      var tag, known := input.Next(at, 127, GROUP, View());
      if known && tag in TAGS {
        t := Known(tag, input);
      } else {
        t := Unusual(tag, input);
      }
    }

    /** Tells what `Parse` tells, whatever the answers of `ExpectTag` and `ExpectAtEnd`. */
    method MergePartialFromCodedStream(input: CodedInput) returns (ok: bool)
      requires Valid() && input.Valid() && !input.legitEnd
      modifies this, account, input`pos, input`limit, input`recursionDepth, input`legitEnd
      ensures Valid() && (ok ==> input.Valid() && (input.legitEnd ==> input.Rest() == []))
      ensures Parse(GROUP, old(View()), old(input.Rest()), old(input.Depth()))
        == if ok then Ended(View(), input.legitEnd) else Failed
      ensures OwnsOnly(old(progress), old(account))
    {
      var t := Goto(0);
      while t.Goto?
        invariant Valid() && OwnsOnly(old(progress), old(account))
        invariant t.Failure? ==> Failed == Parse(GROUP, old(View()), old(input.Rest()), old(input.Depth()))
        invariant !t.Failure? ==>
          && input.Valid() && input.Depth() == old(input.Depth())
          && Parse(GROUP, old(View()), old(input.Rest()), old(input.Depth()))
            == After(t, GROUP, View(), input.Rest(), input.Depth(), input.legitEnd)
        invariant t.Success? && input.legitEnd ==> input.Rest() == []
        invariant t.Goto? ==> !input.legitEnd && (t.at == 0 || t.at in TAGS)
        decreases t.Goto?, if t.Goto? then |input.Rest()| else 0
      {
        t := TakeTurn(t.at, input);
      }
      return t.Success?;
    }

    /** `ByteSize` was called and nothing changed since: what the nested messages keep is their size. */
    ghost predicate Cached()
      requires Valid()
      reads this, progress, account
    {
      && (forall i :: 0 <= i < |progress| ==> progress[i].cachedSize == Size(PROGRESS, progress[i].View()))
      && (account != null ==> account.cachedSize == Size(ACCOUNT, account.View()))
    }

    /** One step of `ByteSize` for the numbers: `whole` is the size in all. */
    method AddIntSize(total: int, o: Option<int>, ghost i: nat, ghost m: Message, ghost whole: int)
      returns (total': int)
      requires Typed(GROUP, m) && i < 4 && m.slots[i] == NumSlot(o) && InInt64(o)
      requires total + SizeFrom(GROUP, m, i) == whole
      ensures total' + SizeFrom(GROUP, m, i + 1) == whole
    {
      GroupTag(i);
      total' := total;
      if o.Some? {
        total' := total + 1 + IntSize(o.value);
      }
    }

    /** One element's size, kept by it. */
    method CacheOne(i: nat) returns (size: int)
      requires Valid() && i < |progress|
      modifies progress[i]
      ensures Valid() && Views(progress) == old(Views(progress))
      ensures size == progress[i].cachedSize == Size(PROGRESS, Views(progress)[i])
    {
      hide Typed, SlotTyped, Size, AccountSlot;
      ghost var ms := Views(progress);
      size := progress[i].ByteSize();
      assert forall k :: 0 <= k < |progress| ==> progress[k].Valid() && progress[k].View() == ms[k];
    }

    /** The loop of `ByteSize` over the elements; their tags are counted before it. */
    method AddProgressSizes(total: int) returns (total': int)
      requires Valid()
      modifies progress
      ensures Valid() && Views(progress) == old(Views(progress)) && (account != null ==> unchanged(account))
      ensures total' == total + ListSize(GROUP.entries[4], Views(progress))
      ensures forall i :: 0 <= i < |progress| ==> progress[i].cachedSize == Size(PROGRESS, progress[i].View())
    {
      hide Typed, SlotTyped, Size, VarintSize, LengthAnd, AccountSlot, Legal, EntryTag, TagSize;
      ghost var ms := Views(progress);
      total' := total + |progress|;
      var i := 0;
      assert ms[0..] == ms;
      while i < |progress|
        invariant 0 <= i <= |progress| && Valid() && Views(progress) == ms
        invariant total' + ListSize(GROUP.entries[4], ms[i..])
          == total + |progress| - i + ListSize(GROUP.entries[4], ms)
        invariant forall j :: 0 <= j < i ==> progress[j].cachedSize == Size(PROGRESS, ms[j])
      {
        ListSizeStep(ms, i);
        var size := CacheOne(i);
        total' := total' + LengthAnd(size);
        i := i + 1;
      }
    }

    /** The numbers in `ByteSize`. */
    method IntSizes() returns (total: int)
      requires Valid()
      ensures total + SizeFrom(GROUP, View(), 4) == Size(GROUP, View())
    {
      hide Typed, SlotTyped, SizeFrom, Views, AccountSlot;
      ghost var m := View();
      ghost var whole := Size(GROUP, m);
      total := 0;
      total := AddIntSize(total, topicId, 0, m, whole);
      total := AddIntSize(total, partitionGroupId, 1, m, whole);
      total := AddIntSize(total, curDataPackageId, 2, m, whole);
      total := AddIntSize(total, curPartitionId, 3, m, whole);
    }

    /** The nested messages in `ByteSize`: the account, then the elements. */
    method AddNestedSizes(total: int) returns (total': int)
      requires Valid()
      modifies progress, account
      ensures Valid() && View() == old(View()) && Cached()
      ensures total' == total + SizeFrom(GROUP, View(), 4) - FieldsSize(unknown)
    {
      NestedSizes(View(), Views(progress), AccountSlot(account));
      AccountSize(AccountSlot(account));
      total' := total;
      if account != null {
        var size := account.ByteSize();
        total' := total' + 1 + LengthAnd(size);
      }
      total' := AddProgressSizes(total');
    }

    /** The number of bytes `SerializeWithCachedSizes` writes; here and in the nested messages it is also kept. */
    method ByteSize() returns (total: int)
      requires Valid()
      modifies this`cachedSize, progress, account
      ensures Valid() && View() == old(View()) && Cached()
      ensures total == Size(GROUP, View()) && cachedSize == total
    {
      total := IntSizes();
      total := AddNestedSizes(total);
      total := total + FieldsSize(unknown);
      cachedSize := total;
    }

    /** The loop of `SerializeWithCachedSizes` over the elements. */
    method WriteProgress(output: CodedOutput)
      requires Valid() && Cached()
      modifies output
      ensures output.written == old(output.written) + EncodeList(GROUP.entries[4], Views(progress))
    {
      hide Typed, SlotTyped, Encode, EncodeBytes, EncodeVarint, AccountSlot;
      GroupTag(4);
      ghost var ms := Views(progress);
      var i := 0;
      assert ms[0..] == ms;
      while i < |progress|
        invariant 0 <= i <= |progress|
        invariant output.written + EncodeList(GROUP.entries[4], ms[i..])
          == old(output.written) + EncodeList(GROUP.entries[4], ms)
      {
        ListBytes(GROUP.entries[4], ms[i..], []);
        progress[i].WriteMessage(5, output);
        i := i + 1;
      }
    }

    method WriteAccount(output: CodedOutput)
      requires Valid() && Cached()
      modifies output
      ensures output.written == old(output.written) + EncodeSlot(GROUP.entries[5], AccountSlot(account))
    {
      if account != null {
        account.WriteMessage(6, output);
      }
    }

    method WriteInts(output: CodedOutput)
      requires Valid()
      modifies output
      ensures output.written + EncodeFrom(GROUP, View(), 4) == old(output.written) + Encode(GROUP, View())
    {
      hide Typed, SlotTyped, EncodeFrom, Views, AccountSlot;
      ghost var m := View();
      ghost var whole := output.written + Encode(GROUP, m);
      output.WriteInt(1, topicId, GROUP, m, 0, whole);
      output.WriteInt(2, partitionGroupId, GROUP, m, 1, whole);
      output.WriteInt(3, curDataPackageId, GROUP, m, 2, whole);
      output.WriteInt(4, curPartitionId, GROUP, m, 3, whole);
    }

    /** The nested messages and the unknown fields. */
    method WriteOthers(output: CodedOutput)
      requires Valid() && Cached()
      modifies output
      ensures output.written == old(output.written) + EncodeFrom(GROUP, View(), 4)
    {
      hide Typed, SlotTyped, EncodeFrom, EncodeList, EncodeSlot, EncodeFields, Size, Views, AccountSlot;
      WrittenFrom4(View(), Views(progress), AccountSlot(account), output.written);
      WriteProgress(output);
      WriteAccount(output);
      output.WriteUnknown(unknown);
    }

    method SerializeWithCachedSizes(output: CodedOutput)
      requires Valid() && Cached()
      modifies output
      ensures output.written == old(output.written) + Encode(GROUP, View())
    {
      WriteInts(output);
      WriteOthers(output);
    }

    /** A copy of `q` is added. */
    method AddCopy(q: PartitionProgress)
      requires Valid() && q.Valid()
      modifies this`progress
      ensures Valid() && |progress| == |old(progress)| + 1
      ensures (forall p :: p in progress ==> p in old(progress) || fresh(p))
      ensures Views(progress) == old(Views(progress)) + [q.View()]
    {
      hide Typed, SlotTyped, Merge, Blank, AccountSlot;
      var p := new PartitionProgress();
      p.MergeFrom(q);
      MergeIntoBlank(PROGRESS, q.View());
      progress := progress + [p];
      assert Views(progress) == old(Views(progress)) + [q.View()];
    }

    /** `RepeatedPtrField::MergeFrom`. */
    method MergeProgress(from: PartitionGroupProgress)
      requires Valid() && from.Valid() && from != this
      modifies this`progress
      ensures Valid() && (forall p :: p in progress ==> p in old(progress) || fresh(p))
      ensures Views(progress) == old(Views(progress)) + Views(from.progress)
    {
      ghost var ms := Views(from.progress);
      var i := 0;
      while i < |from.progress|
        invariant 0 <= i <= |from.progress| && Valid()
        invariant Views(progress) == old(Views(progress)) + ms[..i]
        invariant forall p :: p in progress ==> p in old(progress) || fresh(p)
      {
        AddCopy(from.progress[i]);
        i := i + 1;
      }
      assert ms[..i] == ms;
    }

    method MergeInts(from: PartitionGroupProgress)
      requires Valid() && from.Valid() && from != this
      modifies this`topicId, this`partitionGroupId, this`curDataPackageId, this`curPartitionId
      ensures Valid()
      ensures topicId == Later(old(topicId), from.topicId)
      ensures partitionGroupId == Later(old(partitionGroupId), from.partitionGroupId)
      ensures curDataPackageId == Later(old(curDataPackageId), from.curDataPackageId)
      ensures curPartitionId == Later(old(curPartitionId), from.curPartitionId)
    {
      if from.topicId.Some? {
        topicId := from.topicId;
      }
      if from.partitionGroupId.Some? {
        partitionGroupId := from.partitionGroupId;
      }
      if from.curDataPackageId.Some? {
        curDataPackageId := from.curDataPackageId;
      }
      if from.curPartitionId.Some? {
        curPartitionId := from.curPartitionId;
      }
    }

    /** `mutable_account()->MergeFrom(..)`. */
    method MergeAccount(from: PartitionGroupProgress)
      requires Valid() && from.Valid() && from != this && (account != null ==> account != from.account)
      modifies this`account, account
      ensures Valid() && (account == old(account) || fresh(account))
      ensures AccountSlot(account) == MergeSlot(old(AccountSlot(account)), AccountSlot(from.account))
      ensures AccountMerged(from)
    {
      if from.account != null {
        if account == null {
          account := new UserAccountMessage();
        }
        account.MergeFrom(from.account);
        MergeIntoBlank(ACCOUNT, from.account.View());
      }
    }

    method MergeProgressAndInts(from: PartitionGroupProgress)
      requires Valid() && from.Valid() && from != this
      modifies this`progress, this`topicId, this`partitionGroupId, this`curDataPackageId, this`curPartitionId
      ensures Valid() && (forall p :: p in progress ==> p in old(progress) || fresh(p))
      ensures Views(progress) == old(Views(progress)) + Views(from.progress)
      ensures topicId == Later(old(topicId), from.topicId)
      ensures partitionGroupId == Later(old(partitionGroupId), from.partitionGroupId)
      ensures curDataPackageId == Later(old(curDataPackageId), from.curDataPackageId)
      ensures curPartitionId == Later(old(curPartitionId), from.curPartitionId)
    {
      hide Typed, SlotTyped, Later, Views;
      MergeProgress(from);
      MergeInts(from);
    }

    /** `MergeFrom`, field by field. */
    method MergeParts(from: PartitionGroupProgress)
      requires Valid() && from.Valid() && from != this && (account != null ==> account != from.account)
      modifies this, account
      ensures Valid() && OwnsOnly(old(progress), old(account))
      ensures topicId == Later(old(topicId), from.topicId)
      ensures partitionGroupId == Later(old(partitionGroupId), from.partitionGroupId)
      ensures curDataPackageId == Later(old(curDataPackageId), from.curDataPackageId)
      ensures curPartitionId == Later(old(curPartitionId), from.curPartitionId)
      ensures Views(progress) == old(Views(progress)) + Views(from.progress)
      ensures AccountSlot(account) == MergeSlot(old(AccountSlot(account)), AccountSlot(from.account))
      ensures AccountMerged(from) && unknown == old(unknown) + from.unknown
    {
      hide Typed, SlotTyped, Later, Views, AccountSlot, MergeSlot, AllValid, InInt32, InInt64, Merge, GroupMessage;
      ghost var ms := Views(progress) + Views(from.progress);
      MergeProgressAndInts(from);
      MergeAccount(from);
      assert Views(progress) == ms;
      unknown := unknown + from.unknown;
    }

    /** The bytes of the message, field by field. */
    lemma FieldBytes()
      requires Valid()
      ensures Encode(GROUP, View()) == IntField([8], topicId) + (IntField([16], partitionGroupId)
        + (IntField([24], curDataPackageId) + (IntField([32], curPartitionId)
        + (Framed([42], Encodings(Views(progress)))
        + ((if account == null then [] else [50] + EncodeBytes(Encode(ACCOUNT, account.View())))
        + EncodeFields(unknown))))))
    {
      GroupBytes(topicId, partitionGroupId, curDataPackageId, curPartitionId, Views(progress), AccountSlot(account),
                 unknown);
    }

    /** What `mutable_account()->MergeFrom(..)` makes of the account, field by field. */
    twostate predicate AccountMerged(from: PartitionGroupProgress)
      reads this, account, from, from.account
    {
      var token := if old(account) == null then None else old(account.token);
      var rest := if old(account) == null then [] else old(account.unknown);
      if old(from.account) == null then account == old(account) && (account != null ==> unchanged(account))
      else
        && account != null
        && account.token == (if old(from.account.token).Some? then old(from.account.token) else token)
        && account.unknown == rest + old(from.account.unknown)
    }

    /** The other message's account is its own. */
    method MergeFrom(from: PartitionGroupProgress)
      requires Valid() && from.Valid() && from != this && (account != null ==> account != from.account)
      modifies this, account
      ensures Valid() && View() == Merge(old(View()), from.View())
      ensures OwnsOnly(old(progress), old(account))
      ensures topicId == if from.topicId.Some? then from.topicId else old(topicId)
      ensures partitionGroupId == if from.partitionGroupId.Some? then from.partitionGroupId else old(partitionGroupId)
      ensures curDataPackageId == if from.curDataPackageId.Some? then from.curDataPackageId else old(curDataPackageId)
      ensures curPartitionId == if from.curPartitionId.Some? then from.curPartitionId else old(curPartitionId)
      ensures Views(progress) == old(Views(progress)) + Views(from.progress)
      ensures AccountMerged(from) && unknown == old(unknown) + from.unknown
    {
      MergedFields(topicId, partitionGroupId, curDataPackageId, curPartitionId, Views(progress), AccountSlot(account),
                   unknown,
                   from.topicId, from.partitionGroupId, from.curDataPackageId, from.curPartitionId,
                   Views(from.progress), AccountSlot(from.account), from.unknown);
      MergeParts(from);
    }
  }

  /** Sizes first, then the bytes. */
  method Write(g: PartitionGroupProgress) returns (bytes: Bytes)
    requires g.Valid()
    modifies g`cachedSize, g.progress, g.account
    ensures g.Valid() && g.View() == old(g.View()) && bytes == Encode(GROUP, g.View())
  {
    hide Typed, SlotTyped, Encode, EncodeFrom, GroupMessage, Views, AccountSlot;
    var size := g.ByteSize();
    var output := new CodedOutput();
    g.SerializeWithCachedSizes(output);
    bytes := output.written;
  }

  /** Accepted are the bytes that end where they should. */
  method Read(h: PartitionGroupProgress, bytes: Bytes, recursionLimit: nat) returns (ok: bool)
    requires h.Valid()
    modifies h, h.account
    ensures h.Valid()
    ensures var o := Parse(GROUP, old(h.View()), bytes, recursionLimit);
      if ok then o == Ended(h.View(), true) else o.Failed? || !o.legit
  {
    hide Typed, SlotTyped, Parse, GroupMessage, Views, AccountSlot;
    var input := new CodedInput(bytes, recursionLimit);
    ok := h.MergePartialFromCodedStream(input);
    ok := ok && input.legitEnd;
  }

  /**
    One object written and another reading it: the reader ends up merged with the writer,
    whatever the fast paths answered, if the writer's message can be read at that depth.
   */
  method Transfer(g: PartitionGroupProgress, h: PartitionGroupProgress, recursionLimit: nat) returns (ok: bool)
    requires g.Valid() && h.Valid() && g != h && (forall p :: p in g.progress ==> p !in h.progress)
    requires g.account != null ==> g.account != h.account
    requires LengthsFit(GROUP, g.View()) && Readable(GROUP, g.View(), recursionLimit)
    modifies g`cachedSize, g.progress, g.account, h, h.account
    ensures ok && h.Valid() && h.View() == Merge(old(h.View()), old(g.View()))
  {
    hide Typed, SlotTyped, Parse, Encode, LengthsFit, Readable, Writable, Merge;
    ghost var x, y := g.View(), h.View();
    ReadableAndFits(GROUP, x, recursionLimit);
    GroupIsLegal();
    EncodedMessage(GROUP, y, x, recursionLimit);
    var bytes := Write(g);
    assert Views(h.progress) == old(Views(h.progress)) && AccountSlot(h.account) == old(AccountSlot(h.account));
    ok := Read(h, bytes, recursionLimit);
  }
}
