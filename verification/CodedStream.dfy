/** The streams the generated code reads from and writes to. */
module CodedStream {
  import opened Basics
  import opened Wire
  import opened UnknownFields
  import opened ProtoMessage
  import opened ProtoRoundTrip
  import opened ProtoSizes

  /** `rest` is what is left of `bs` after reading from its front. */
  predicate IsTail(rest: Bytes, bs: Bytes) { |rest| <= |bs| && bs[|bs| - |rest|..] == rest }

  lemma TailOfTail(a: Bytes, b: Bytes, c: Bytes)
    requires IsTail(a, b) && IsTail(b, c)
    ensures IsTail(a, c)
  {
    assert c[|c| - |b|..][|b| - |a|..] == c[|c| - |a|..];
  }

  lemma {:induction false} GroupsTail(bs: Bytes, k: nat)
    requires ReadGroups(bs, k).Got?
    ensures IsTail(ReadGroups(bs, k).rest, bs)
    decreases k
  {
    if bs[0] >= 128 {
      GroupsTail(bs[1..], k - 1);
      TailOfTail(ReadGroups(bs[1..], k - 1).rest, bs[1..], bs);
    }
  }

  lemma {:induction false} FixedTail(bs: Bytes, n: nat)
    requires ReadFixed(bs, n).Got?
    ensures IsTail(ReadFixed(bs, n).rest, bs)
  {
    if n > 0 {
      FixedTail(bs[1..], n - 1);
      TailOfTail(ReadFixed(bs[1..], n - 1).rest, bs[1..], bs);
    }
  }

  lemma BytesTail(bs: Bytes)
    requires ReadBytes(bs).Got?
    ensures IsTail(ReadBytes(bs).rest, bs)
  {
    GroupsTail(bs, 10);
    var head := ReadVarint32(bs);
    TailOfTail(head.rest[head.value..], head.rest, bs);
  }

  lemma {:induction false} FieldTail(tag: nat, bs: Bytes, depth: nat)
    requires SkipField(tag, bs, depth).Got?
    ensures IsTail(SkipField(tag, bs, depth).rest, bs)
    decreases |bs|, 1
  {
    var wireType := tag % 8;
    if wireType == 0 {
      GroupsTail(bs, 10);
    } else if wireType == 1 {
      FixedTail(bs, 8);
    } else if wireType == 2 {
      BytesTail(bs);
    } else if wireType == 3 {
      GroupTail(tag / 8, bs, depth - 1);
    } else {
      FixedTail(bs, 4);
    }
  }

  lemma {:induction false} GroupTail(number: nat, bs: Bytes, depth: nat)
    requires SkipGroup(number, bs, depth).Got?
    ensures IsTail(SkipGroup(number, bs, depth).rest, bs)
    decreases |bs|, 0
  {
    GroupsTail(bs, 10);
    var head := ReadVarint32(bs);
    if head.value % 8 != END_GROUP {
      var f := SkipField(head.value, head.rest, depth);
      var fs := SkipGroup(number, f.rest, depth);
      FieldTail(head.value, head.rest, depth);
      GroupTail(number, f.rest, depth);
      TailOfTail(fs.rest, f.rest, head.rest);
      TailOfTail(fs.rest, head.rest, bs);
    }
  }

  /** A group that is read ends with its own end tag: one of the same number. */
  lemma {:induction false} GroupEndsAtItsTag(number: nat, bs: Bytes, depth: nat) returns (end: Bytes)
    requires SkipGroup(number, bs, depth).Got?
    ensures IsTail(end, bs) && ReadVarint32(end) == Got(number * 8 + 4, SkipGroup(number, bs, depth).rest)
    decreases |bs|
  {
    var head := ReadVarint32(bs);
    if head.value % 8 == END_GROUP {
      end := bs;
    } else {
      var f := SkipField(head.value, head.rest, depth);
      end := GroupEndsAtItsTag(number, f.rest, depth);
      GroupsTail(bs, 10);
      FieldTail(head.value, head.rest, depth);
      TailOfTail(end, f.rest, head.rest);
      TailOfTail(end, head.rest, bs);
    }
  }

  predicate InInt32(o: Option<int>) { o.Some? ==> -TWO31 <= o.value < TWO31 }

  predicate InInt64(o: Option<int>) { o.Some? ==> -TWO63 <= o.value < TWO63 }

  function NumSlot(o: Option<int>): Slot { if o.Some? then Num(o.value) else Absent }

  function StrSlot(o: Option<Bytes>): Slot { if o.Some? then Str(o.value) else Absent }

  /** An optional number under a tag of these bytes. */
  function IntField(tag: Bytes, o: Option<int>): Bytes
    requires InInt64(o)
  {
    if o.Some? then tag + EncodeVarint(ToUnsigned(o.value)) else []
  }

  function BytesField(tag: Bytes, o: Option<Bytes>): Bytes { if o.Some? then tag + EncodeBytes(o.value) else [] }

  /** These bodies one after the other, each under the tag and with its length. */
  function Framed(tag: Bytes, bodies: seq<Bytes>): Bytes
  {
    if bodies == [] then [] else tag + EncodeBytes(bodies[0]) + Framed(tag, bodies[1..])
  }

  lemma EncodedEnd(s: Schema, m: Message)
    requires Typed(s, m)
    ensures EncodeFrom(s, m, |m.slots|) == EncodeFields(m.unknown) && Encode(s, m) == EncodeFrom(s, m, 0)
  {
  }

  /** One more field of an encoding. */
  lemma FieldThen(s: Schema, m: Message, i: nat, tag: Bytes)
    requires Typed(s, m) && i < |m.slots| && EncodeVarint(EntryTag(s.entries[i])) == tag
    ensures forall o :: InInt64(o) && m.slots[i] == NumSlot(o) ==>
      EncodeFrom(s, m, i) == IntField(tag, o) + EncodeFrom(s, m, i + 1)
    ensures forall o :: m.slots[i] == StrSlot(o) ==>
      EncodeFrom(s, m, i) == BytesField(tag, o) + EncodeFrom(s, m, i + 1)
  {
  }

  /** An optional field after `if (from.has_..()) set_..(from...)`. */
  function Later<T>(a: Option<T>, b: Option<T>): Option<T> { if b.Some? then b else a }

  lemma NumLater(a: Option<int>, b: Option<int>)
    ensures MergeSlot(NumSlot(a), NumSlot(b)) == NumSlot(Later(a, b))
  {
  }

  lemma StrLater(a: Option<Bytes>, b: Option<Bytes>)
    ensures MergeSlot(StrSlot(a), StrSlot(b)) == StrSlot(Later(a, b))
  {
  }

  /** What is still to come: from the tag jumped to, or from the next tag read if `at` is 0. */
  function Pending(s: Schema, m: Message, at: nat, bs: Bytes, depth: nat): (o: Outcome)
    requires Typed(s, m)
    ensures o.Ended? ==> Typed(s, o.m)
  {
    if at == 0 then Parse(s, m, bs, depth) else Dispatch(s, m, at, bs, depth)
  }

  function WithUnknown(s: Schema, m: Message, f: Field): (r: Message)
    requires Typed(s, m)
    ensures Typed(s, r)
  {
    m.(unknown := m.unknown + [f])
  }

  /** A turn of a parser's loop fails, ends the message, or goes on. */
  datatype Turn = Failure | Success | Goto(at: nat)

  /** What the whole parse tells after a turn. */
  function After(t: Turn, s: Schema, m: Message, bs: Bytes, depth: nat, legit: bool): (o: Outcome)
    requires Typed(s, m)
    ensures o.Ended? ==> Typed(s, o.m)
  {
    match t
    case Failure => Failed
    case Success => Ended(m, legit)
    case Goto(at) => Pending(s, m, at, bs, depth)
  }

  lemma TagZeroIsUnknown(s: Schema, m: Message, bs: Bytes, depth: nat)
    requires Legal(s) && Typed(s, m)
    ensures Dispatch(s, m, 0, bs, depth) == Ended(m, false)
  {
    forall k | 0 <= k < |s.entries| ensures EntryTag(s.entries[k]) != 0 {
      assert s.entries[k].number >= 1;
    }
  }

  lemma KnownTurn(s: Schema, m: Message, i: nat, bs: Bytes, depth: nat)
    requires Legal(s) && Typed(s, m) && i < |s.entries|
    ensures Dispatch(s, m, EntryTag(s.entries[i]), bs, depth) ==
      var r := ParseSlot(s.entries[i].ty, m.slots[i], bs, depth);
      if r.Fail? then Failed else Parse(s, Put(s, m, i, r.value), r.rest, depth)
  {
    FindIs(s, i);
  }

  lemma ManyTurn(s: Schema, m: Message, i: nat, sub: Schema, bs: Bytes, depth: nat)
    requires Legal(s) && Typed(s, m) && i < |s.entries| && s.entries[i].ty == Many(sub)
    ensures Dispatch(s, m, EntryTag(s.entries[i]), bs, depth) ==
      var r := Nested(sub, Blank(sub), bs, depth);
      if r.Fail? then Failed else Parse(s, Put(s, m, i, Added(sub, m.slots[i], [r.value])), r.rest, depth)
  {
    KnownTurn(s, m, i, bs, depth);
  }

  lemma OneTurn(s: Schema, m: Message, i: nat, sub: Schema, bs: Bytes, depth: nat)
    requires Legal(s) && Typed(s, m) && i < |s.entries| && s.entries[i].ty == One(sub)
    ensures Dispatch(s, m, EntryTag(s.entries[i]), bs, depth) ==
      var r := Nested(sub, Current(sub, m.slots[i]), bs, depth);
      if r.Fail? then Failed else Parse(s, Put(s, m, i, Sub(r.value)), r.rest, depth)
  {
    KnownTurn(s, m, i, bs, depth);
  }

  class CodedInput {
    const data: Bytes
    var pos: nat
    var limit: nat
    var recursionDepth: nat
    const recursionLimit: nat
    var legitEnd: bool

    ghost predicate Valid()
      reads this
    {
      pos <= limit <= |data| && recursionDepth <= recursionLimit
    }

    ghost function Rest(): Bytes
      requires Valid()
      reads this
    {
      data[pos..limit]
    }

    /** How many more levels may be entered. */
    ghost function Depth(): nat
      requires Valid()
      reads this
    {
      recursionLimit - recursionDepth
    }

    constructor (data: Bytes, recursionLimit: nat)
      ensures Valid() && Rest() == data && Depth() == recursionLimit && !legitEnd
    {
      this.data := data;
      this.recursionLimit := recursionLimit;
      pos, limit, recursionDepth, legitEnd := 0, |data|, 0, false;
    }

    method Seek(ghost rest: Bytes, left: nat)
      requires Valid() && IsTail(rest, Rest()) && left == |rest|
      modifies `pos
      ensures Valid() && Rest() == rest
    {
      pos := limit - left;
    }

    method ReadVarint() returns (ok: bool, u: nat)
      requires Valid()
      modifies `pos
      ensures Valid()
      ensures var r := ReadGroups(old(Rest()), 10); if r.Fail? then !ok else ok && u == r.value && Rest() == r.rest
    {
      match ReadGroups(data[pos..limit], 10)
      case Fail => ok, u := false, 0;
      case Got(v, rest) =>
        GroupsTail(Rest(), 10);
        Seek(rest, |rest|);
        ok, u := true, v;
    }

    /** `ReadPrimitive` of an `int32` for entry `i` of the message. */
    method ReadInt32(ghost s: Schema, ghost m: Message, ghost i: nat) returns (ok: bool, v: int)
      requires Valid() && Legal(s) && Typed(s, m) && i < |s.entries| && s.entries[i].ty.Int32?
      modifies `pos
      ensures Valid() && -TWO31 <= v < TWO31 && (ok ==> |Rest()| < |old(Rest())|)
      ensures Dispatch(s, m, EntryTag(s.entries[i]), old(Rest()), Depth())
        == if ok then Parse(s, Put(s, m, i, Num(v)), Rest(), Depth()) else Failed
    {
      KnownTurn(s, m, i, Rest(), Depth());
      var u;
      ok, u := ReadVarint();
      v := ToInt32(u % TWO32);
    }

    method ReadInt64(ghost s: Schema, ghost m: Message, ghost i: nat) returns (ok: bool, v: int)
      requires Valid() && Legal(s) && Typed(s, m) && i < |s.entries| && s.entries[i].ty.Int64?
      modifies `pos
      ensures Valid() && -TWO63 <= v < TWO63 && (ok ==> |Rest()| < |old(Rest())|)
      ensures Dispatch(s, m, EntryTag(s.entries[i]), old(Rest()), Depth())
        == if ok then Parse(s, Put(s, m, i, Num(v)), Rest(), Depth()) else Failed
    {
      KnownTurn(s, m, i, Rest(), Depth());
      var u;
      ok, u := ReadVarint();
      v := ToInt64(u % TWO64);
    }

    method ReadString(ghost s: Schema, ghost m: Message, ghost i: nat) returns (ok: bool, b: Bytes)
      requires Valid() && Legal(s) && Typed(s, m) && i < |s.entries| && s.entries[i].ty.Text?
      modifies `pos
      ensures Valid() && (ok ==> |Rest()| < |old(Rest())|)
      ensures Dispatch(s, m, EntryTag(s.entries[i]), old(Rest()), Depth())
        == if ok then Parse(s, Put(s, m, i, Str(b)), Rest(), Depth()) else Failed
    {
      KnownTurn(s, m, i, Rest(), Depth());
      match ReadBytes(data[pos..limit])
      case Fail => ok, b := false, [];
      case Got(v, rest) =>
        BytesTail(Rest());
        Seek(rest, |rest|);
        ok, b := true, v;
    }

    /** `SkipField` at a tag that is not known and ends nothing. */
    method SkipUnknown(tag: nat, ghost s: Schema, ghost m: Message) returns (ok: bool, f: Field)
      requires Valid() && Typed(s, m) && tag != 0 && tag % 8 != END_GROUP && Find(s.entries, tag, 0) == |s.entries|
      modifies `pos
      ensures Valid() && (ok ==> |Rest()| < |old(Rest())|)
      ensures Dispatch(s, m, tag, old(Rest()), Depth())
        == if ok then Parse(s, WithUnknown(s, m, f), Rest(), Depth()) else Failed
    {
      match SkipField(tag, data[pos..limit], recursionLimit - recursionDepth)
      case Fail => ok, f := false, Field(0, Varint(0));
      case Got(v, rest) =>
        FieldTail(tag, Rest(), Depth());
        Seek(rest, |rest|);
        ok, f := true, v;
    }

    /** `ReadTagWithCutoff`: of tag 0 nothing is said about `known`. */
    method ReadTag(cutoff: nat) returns (tag: nat, known: bool)
      requires Valid() && !legitEnd
      modifies `pos, `legitEnd
      ensures Valid() && tag < TWO32
      ensures if old(Rest()) == [] then tag == 0 && legitEnd && Rest() == []
        else
          var r := ReadVarint32(old(Rest()));
          !legitEnd && if r.Fail? then tag == 0 else tag == r.value && Rest() == r.rest
      ensures tag != 0 ==> (known <==> tag <= cutoff)
    {
      var any: bool := *;
      if pos == limit {
        legitEnd := true;
        return 0, any;
      }
      var ok, u := ReadVarint();
      tag := if ok then u % TWO32 else 0;
      known := if tag == 0 then any else tag <= cutoff;
    }

    /** Where the loop goes on: at a label (its tag), or at the next tag. */
    method Next(at: nat, cutoff: nat, ghost s: Schema, ghost m: Message) returns (tag: nat, known: bool)
      requires Valid() && !legitEnd && Legal(s) && Typed(s, m)
      modifies `pos, `legitEnd
      ensures Valid() && (tag != 0 ==> |Rest()| <= |old(Rest())|)
      ensures legitEnd ==> tag == 0 && Rest() == [] && Pending(s, m, at, old(Rest()), Depth()) == Ended(m, true)
      ensures !legitEnd ==> Pending(s, m, at, old(Rest()), Depth()) == Dispatch(s, m, tag, Rest(), Depth())
      ensures if at != 0 then tag == at && known else tag != 0 ==> (known <==> tag <= cutoff)
    {
      if at != 0 {
        return at, true;
      }
      ghost var bs := Rest();
      tag, known := ReadTag(cutoff);
      if tag == 0 {
        TagZeroIsUnknown(s, m, Rest(), Depth());
        if ReadVarint32(bs).Got? {
          TagZeroIsUnknown(s, m, ReadVarint32(bs).rest, Depth());
        }
      }
    }

    /** May answer no at any time; yes only if the tag stands next in its shortest form, and then moves past it. */
    method ExpectTag(expected: nat) returns (hit: bool)
      requires Valid() && expected < TWO32
      modifies `pos
      ensures Valid() && if hit then old(Rest()) == EncodeVarint(expected) + Rest() else Rest() == old(Rest())
    {
      var lucky: bool := *;
      var n := |EncodeVarint(expected)|;
      hit := lucky && n <= limit - pos && data[pos..pos + n] == EncodeVarint(expected);
      if hit {
        pos := pos + n;
      }
    }

    /** `if (ExpectTag(..)) goto ..`: the label jumped to, or 0. */
    method Jump(expected: nat, ghost s: Schema, ghost m: Message) returns (at: nat)
      requires Valid() && 0 < expected < TWO32 && Typed(s, m)
      modifies `pos
      ensures Valid() && |Rest()| <= |old(Rest())| && (at == 0 || at == expected)
      ensures Parse(s, m, old(Rest()), Depth()) == Pending(s, m, at, Rest(), Depth())
    {
      var hit := ExpectTag(expected);
      at := 0;
      if hit {
        VarintRoundTrip(expected, Rest());
        at := expected;
      }
    }

    /** May answer no at any time; yes only at the limit. */
    method ExpectAtEnd(ghost s: Schema, ghost m: Message) returns (yes: bool)
      requires Valid() && Typed(s, m)
      modifies `legitEnd
      ensures Valid() && if yes then Rest() == [] && legitEnd else legitEnd == old(legitEnd)
      ensures yes ==> Parse(s, m, Rest(), Depth()) == Ended(m, true)
    {
      var lucky: bool := *;
      yes := lucky && pos == limit;
      if yes {
        legitEnd := true;
      }
    }

    method PushLimit(n: nat) returns (outer: nat)
      requires Valid()
      modifies `limit
      ensures Valid() && outer == old(limit) && limit == pos + Limit(n, outer - pos)
    {
      outer := limit;
      limit := pos + Limit(n, limit - pos);
    }

    method PopLimit(outer: nat)
      requires Valid() && limit <= outer <= |data|
      modifies `limit, `legitEnd
      ensures Valid() && limit == outer && !legitEnd
    {
      limit := outer;
      legitEnd := false;
    }

    method IncrementRecursionDepth() returns (ok: bool)
      modifies `recursionDepth
      ensures recursionDepth == old(recursionDepth) + 1 && (ok <==> recursionDepth <= recursionLimit)
    {
      recursionDepth := recursionDepth + 1;
      return recursionDepth <= recursionLimit;
    }

    method DecrementRecursionDepth()
      requires recursionDepth > 0
      modifies `recursionDepth
      ensures recursionDepth == old(recursionDepth) - 1
    {
      recursionDepth := recursionDepth - 1;
    }

    /** The bytes between the limit in force and the one around it. */
    ghost function Beyond(outer: nat): Bytes
      requires limit <= outer <= |data|
      reads this
    {
      data[limit..outer]
    }

    /** The first half of `ReadMessageNoVirtual`: down to the nested message's bytes. */
    method Enter() returns (ok: bool, outer: nat)
      requires Valid() && !legitEnd
      modifies `pos, `limit, `recursionDepth
      ensures var r := ReadVarint32(old(Rest())); ok <==> r.Got? && old(Depth()) > 0
      ensures ok ==> Valid() && limit <= outer == old(limit) && Depth() == old(Depth()) - 1
      ensures ok ==> var r := ReadVarint32(old(Rest()));
        var k := Limit(r.value, |r.rest|); Rest() == r.rest[..k] && Beyond(outer) == r.rest[k..]
    {
      hide ReadGroups, Limit;
      var length;
      outer := limit;
      ok, length := ReadVarint();
      if !ok {
        return;
      }
      ghost var rest := Rest();
      ok := IncrementRecursionDepth();
      if !ok {
        return;
      }
      outer := PushLimit(length % TWO32);
      ghost var k := Limit(length % TWO32, |rest|);
      assert Rest() == rest[..k] && Beyond(outer) == rest[k..];
    }

    /** The second half: back to the bytes after it. */
    method Leave(outer: nat)
      requires Valid() && limit <= outer <= |data| && Rest() == [] && recursionDepth > 0
      modifies `limit, `recursionDepth, `legitEnd
      ensures Valid() && limit == outer && !legitEnd && Rest() == old(Beyond(outer)) && Depth() == old(Depth()) + 1
    {
      PopLimit(outer);
      DecrementRecursionDepth();
    }
  }

  lemma Regroup(a: Bytes, b: Bytes, c: Bytes)
    ensures a + b + c == a + (b + c) && a + [] == a
  {
  }

  /** An optional field written next: what is left to write. */
  lemma IntFieldStep(s: Schema, m: Message, i: nat, o: Option<int>, before: Bytes, whole: Bytes)
    requires Typed(s, m) && i < |m.slots| && m.slots[i] == NumSlot(o)
    requires (s.entries[i].ty.Int32? || s.entries[i].ty.Int64?) && InInt64(o)
    requires before + EncodeFrom(s, m, i) == whole
    ensures before + IntField(EncodeVarint(MakeTag(s.entries[i].number, 0)), o) + EncodeFrom(s, m, i + 1) == whole
  {
    hide EncodeFrom, SlotTyped, EncodeVarint, MakeTag, IntField, InInt64;
    FieldThen(s, m, i, EncodeVarint(MakeTag(s.entries[i].number, 0)));
    var field, rest := IntField(EncodeVarint(MakeTag(s.entries[i].number, 0)), o), EncodeFrom(s, m, i + 1);
    assert before + (field + rest) == before + field + rest;
  }

  lemma BytesFieldStep(s: Schema, m: Message, i: nat, o: Option<Bytes>, before: Bytes, whole: Bytes)
    requires Typed(s, m) && i < |m.slots| && s.entries[i].ty.Text? && m.slots[i] == StrSlot(o)
    requires before + EncodeFrom(s, m, i) == whole
    ensures before + BytesField(EncodeVarint(MakeTag(s.entries[i].number, 2)), o) + EncodeFrom(s, m, i + 1) == whole
  {
    hide EncodeFrom, SlotTyped, EncodeVarint, MakeTag, BytesField;
    FieldThen(s, m, i, EncodeVarint(MakeTag(s.entries[i].number, 2)));
    var field, rest := BytesField(EncodeVarint(MakeTag(s.entries[i].number, 2)), o), EncodeFrom(s, m, i + 1);
    assert before + (field + rest) == before + field + rest;
  }

  class CodedOutput {
    var written: Bytes

    constructor ()
      ensures written == []
    {
      written := [];
    }

    method WriteTag(number: nat, wireType: nat)
      modifies this
      ensures written == old(written) + EncodeVarint(MakeTag(number, wireType))
    {
      written := written + EncodeVarint(MakeTag(number, wireType));
    }

    method WriteVarint(u: nat)
      modifies this
      ensures written == old(written) + EncodeVarint(u)
    {
      written := written + EncodeVarint(u);
    }

    method WriteRaw(bs: Bytes)
      modifies this
      ensures written == old(written) + bs
    {
      written := written + bs;
    }

    /** `if (has_..()) WriteInt32(..)` or `WriteInt64(..)` for entry `i`, with `whole` to be written in all. */
    method WriteInt(number: nat, o: Option<int>, ghost s: Schema, ghost m: Message, ghost i: nat, ghost whole: Bytes)
      requires Typed(s, m) && i < |m.slots| && s.entries[i].number == number && m.slots[i] == NumSlot(o)
      requires (s.entries[i].ty.Int32? || s.entries[i].ty.Int64?) && InInt64(o)
      requires written + EncodeFrom(s, m, i) == whole
      modifies this
      ensures written + EncodeFrom(s, m, i + 1) == whole
    {
      IntFieldStep(s, m, i, o, written, whole);
      hide Typed, SlotTyped, EncodeFrom, EncodeVarint, MakeTag, ToUnsigned;
      Regroup(written, EncodeVarint(MakeTag(number, 0)), if o.Some? then EncodeVarint(ToUnsigned(o.value)) else []);
      if o.Some? {
        WriteTag(number, 0);
        WriteVarint(ToUnsigned(o.value));
      }
      assert written == old(written) + IntField(EncodeVarint(MakeTag(number, 0)), o);
    }

    method WriteString(number: nat, o: Option<Bytes>, ghost s: Schema, ghost m: Message, ghost i: nat,
                       ghost whole: Bytes)
      requires Typed(s, m) && i < |m.slots| && s.entries[i] == Entry(number, Text) && m.slots[i] == StrSlot(o)
      requires written + EncodeFrom(s, m, i) == whole
      modifies this
      ensures written + EncodeFrom(s, m, i + 1) == whole
    {
      BytesFieldStep(s, m, i, o, written, whole);
      hide Typed, SlotTyped, EncodeFrom, EncodeVarint, MakeTag;
      if o.Some? {
        WriteTag(number, 2);
        WriteVarint(|o.value|);
        WriteRaw(o.value);
      }
      assert written == old(written) + BytesField(EncodeVarint(MakeTag(number, 2)), o);
    }

    method WriteUnknown(fs: seq<Field>)
      modifies this
      ensures written == old(written) + EncodeFields(fs)
    {
      WriteRaw(EncodeFields(fs));
    }
  }
}
