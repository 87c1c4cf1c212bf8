/** Fields the reader has no name for: they are kept, and written back after the known ones. */
module UnknownFields {
  import opened Wire

  const MAX_NUMBER := 0x1FFF_FFFF

  datatype Payload =
    | Varint(u: nat)
    | Fixed64(u: nat)
    | Delimited(bytes: Bytes)
    | Group(fields: seq<Field>)
    | Fixed32(u: nat)

  datatype Field = Field(number: nat, payload: Payload)

  const END_GROUP := 4

  function WireType(p: Payload): nat
  {
    match p
    case Varint(_) => 0
    case Fixed64(_) => 1
    case Delimited(_) => 2
    case Group(_) => 3
    case Fixed32(_) => 5
  }

  function MakeTag(number: nat, wireType: nat): nat { number * 8 + wireType }

  function Tag(f: Field): nat { MakeTag(f.number, WireType(f.payload)) }

  function EncodePayload(f: Field): Bytes
    decreases f, 1
  {
    match f.payload
    case Varint(u) => EncodeVarint(u)
    case Fixed64(u) => EncodeFixed(u, 8)
    case Delimited(b) => EncodeBytes(b)
    case Group(fs) => EncodeFields(fs) + EncodeVarint(MakeTag(f.number, END_GROUP))
    case Fixed32(u) => EncodeFixed(u, 4)
  }

  function EncodeFields(fs: seq<Field>): Bytes
    decreases fs, 0
  {
    if fs == [] then [] else EncodeVarint(Tag(fs[0])) + EncodePayload(fs[0]) + EncodeFields(fs[1..])
  }

  /** One field whose tag has been read; `depth` more groups may be entered. */
  function SkipField(tag: nat, bs: Bytes, depth: nat): (s: Scan<Field>)
    ensures s.Got? ==> |s.rest| < |bs|
    decreases |bs|, 1
  {
    var number, wireType := tag / 8, tag % 8;
    if wireType == 0 then
      match ReadVarint64(bs)
      case Fail => Fail
      case Got(u, rest) => Got(Field(number, Varint(u)), rest)
    else if wireType == 1 then
      match ReadFixed(bs, 8)
      case Fail => Fail
      case Got(u, rest) => Got(Field(number, Fixed64(u)), rest)
    else if wireType == 2 then
      match ReadBytes(bs)
      case Fail => Fail
      case Got(b, rest) => Got(Field(number, Delimited(b)), rest)
    else if wireType == 3 then
      if depth == 0 then Fail
      else
        match SkipGroup(number, bs, depth - 1)
        case Fail => Fail
        case Got(fs, rest) => Got(Field(number, Group(fs)), rest)
    else if wireType == 5 then
      match ReadFixed(bs, 4)
      case Fail => Fail
      case Got(u, rest) => Got(Field(number, Fixed32(u)), rest)
    else Fail
  }

  /** The fields of a group, up to the end tag, which must have the group's number. */
  function SkipGroup(number: nat, bs: Bytes, depth: nat): (s: Scan<seq<Field>>)
    ensures s.Got? ==> |s.rest| < |bs|
    decreases |bs|, 0
  {
    match ReadVarint32(bs)
    case Fail => Fail
    case Got(tag, rest) =>
      if tag == 0 then Fail
      else if tag % 8 == END_GROUP then if tag == MakeTag(number, END_GROUP) then Got([], rest) else Fail
      else
        match SkipField(tag, rest, depth)
        case Fail => Fail
        case Got(f, rest') =>
          match SkipGroup(number, rest', depth)
          case Fail => Fail
          case Got(fs, rest'') => Got([f] + fs, rest'')
  }

  /** The fields a reader can have met. */
  predicate Sound(f: Field)
    decreases f, 1
  {
    && f.number <= MAX_NUMBER
    && match f.payload
      case Varint(u) => u < TWO64 && f.number > 0
      case Fixed64(u) => u < TWO64
      case Delimited(b) => |b| < TWO31
      case Group(fs) => AllSound(fs)
      case Fixed32(u) => u < TWO32
  }

  predicate AllSound(fs: seq<Field>)
    decreases fs, 0
  {
    fs == [] || (Sound(fs[0]) && AllSound(fs[1..]))
  }

  /** How deep groups are nested. */
  function Depth(f: Field): nat
    decreases f, 1
  {
    match f.payload
    case Group(fs) => 1 + DepthOfAll(fs)
    case _ => 0
  }

  function Max(a: nat, b: nat): nat { if a < b then b else a }

  function DepthOfAll(fs: seq<Field>): nat
    decreases fs, 0
  {
    if fs == [] then 0 else Max(Depth(fs[0]), DepthOfAll(fs[1..]))
  }

  lemma TagParts(number: nat, wireType: nat)
    requires wireType < 8
    ensures MakeTag(number, wireType) / 8 == number && MakeTag(number, wireType) % 8 == wireType
  {
  }

  /** What stands behind a field's tag, and what the tag's three lowest bits say of it. */
  lemma PayloadBytes(f: Field)
    requires Sound(f)
    ensures Tag(f) / 8 == f.number
    ensures var low, bs := Tag(f) % 8, EncodePayload(f);
      match f.payload
      case Varint(u) => low == 0 && GroupSum(bs) == u && bs == EncodeVarint(u)
      case Fixed64(u) => low == 1 && |bs| == 8 && OctetSum(bs) == u
      case Delimited(b) => low == 2 && bs == EncodeVarint(|b|) + b
      case Group(fs) => low == 3 && bs == EncodeFields(fs) + EncodeVarint(f.number * 8 + 4)
      case Fixed32(u) => low == 5 && |bs| == 4 && OctetSum(bs) == u
  {
    match f.payload
    case Varint(u) => VarintSum(u);
    case Fixed64(u) =>
      assert Pow256(8) == TWO64;
      FixedSum(u, 8);
    case Fixed32(u) =>
      assert Pow256(4) == TWO32;
      FixedSum(u, 4);
    case _ =>
  }

  /** A field written is read back, whatever follows, when its groups may be entered; otherwise it is refused. */
  lemma {:induction false} FieldRoundTrip(f: Field, rest: Bytes, depth: nat)
    requires Sound(f)
    ensures SkipField(Tag(f), EncodePayload(f) + rest, depth) == if Depth(f) <= depth then Got(f, rest) else Fail
    decreases f, 1
  {
    TagParts(f.number, WireType(f.payload));
    match f.payload
    case Varint(u) => VarintRoundTrip(u, rest);
    case Fixed64(u) =>
      assert Pow256(8) == TWO64;
      FixedRoundTrip(u, 8, rest);
    case Delimited(b) => BytesRoundTrip(b, rest);
    case Group(fs) =>
      var end := EncodeVarint(MakeTag(f.number, END_GROUP));
      assert EncodePayload(f) + rest == EncodeFields(fs) + (end + rest);
      if depth > 0 {
        GroupRoundTrip(f.number, fs, rest, depth - 1);
      }
    case Fixed32(u) =>
      assert Pow256(4) == TWO32;
      FixedRoundTrip(u, 4, rest);
  }

  lemma FirstField(fs: seq<Field>, tail: Bytes)
    requires fs != []
    ensures EncodeFields(fs) + tail
      == EncodeVarint(Tag(fs[0])) + (EncodePayload(fs[0]) + (EncodeFields(fs[1..]) + tail))
  {
  }

  lemma ReadTagOf(f: Field, tail: Bytes)
    requires Sound(f)
    ensures ReadVarint32(EncodeVarint(Tag(f)) + tail) == Got(Tag(f), tail) && Tag(f) > 0 && Tag(f) % 8 != END_GROUP
  {
    TagParts(f.number, WireType(f.payload));
    VarintRoundTrip(Tag(f), tail);
  }

  lemma ReadEndTag(number: nat, tail: Bytes)
    requires number <= MAX_NUMBER
    ensures var end := MakeTag(number, END_GROUP);
      ReadVarint32(EncodeVarint(end) + tail) == Got(end, tail) && end % 8 == END_GROUP
  {
    TagParts(number, END_GROUP);
    VarintRoundTrip(MakeTag(number, END_GROUP), tail);
  }

  /** One turn of `SkipGroup`. */
  lemma {:induction false} GroupStep(number: nat, fs: seq<Field>, bs: Bytes, payload: Bytes, more: Bytes,
                                     rest: Bytes, depth: nat)
    requires fs != [] && ReadVarint32(bs) == Got(Tag(fs[0]), payload) && Tag(fs[0]) > 0 && Tag(fs[0]) % 8 != END_GROUP
    requires SkipField(Tag(fs[0]), payload, depth) == if Depth(fs[0]) <= depth then Got(fs[0], more) else Fail
    requires SkipGroup(number, more, depth) == if DepthOfAll(fs[1..]) <= depth then Got(fs[1..], rest) else Fail
    ensures SkipGroup(number, bs, depth) == if DepthOfAll(fs) <= depth then Got(fs, rest) else Fail
  {
    assert [fs[0]] + fs[1..] == fs;
  }

  /** The first field of several, as it is read. */
  lemma {:induction false} HeadRoundTrip(fs: seq<Field>, more: Bytes, tail: Bytes, depth: nat)
    requires fs != [] && Sound(fs[0]) && more == EncodeFields(fs[1..]) + tail
    ensures ReadVarint32(EncodeFields(fs) + tail) == Got(Tag(fs[0]), EncodePayload(fs[0]) + more)
    ensures Tag(fs[0]) > 0 && Tag(fs[0]) % 8 != END_GROUP
    ensures SkipField(Tag(fs[0]), EncodePayload(fs[0]) + more, depth)
      == if Depth(fs[0]) <= depth then Got(fs[0], more) else Fail
    decreases fs, 0
  {
    FirstField(fs, tail);
    ReadTagOf(fs[0], EncodePayload(fs[0]) + more);
    FieldRoundTrip(fs[0], more, depth);
  }

  lemma {:induction false} GroupRoundTrip(number: nat, fs: seq<Field>, rest: Bytes, depth: nat)
    requires AllSound(fs) && number <= MAX_NUMBER
    ensures SkipGroup(number, EncodeFields(fs) + (EncodeVarint(MakeTag(number, END_GROUP)) + rest), depth)
      == if DepthOfAll(fs) <= depth then Got(fs, rest) else Fail
    decreases fs, 1
  {
    var tail := EncodeVarint(MakeTag(number, END_GROUP)) + rest;
    if fs == [] {
      assert EncodeFields(fs) + tail == tail;
      ReadEndTag(number, rest);
    } else {
      var more := EncodeFields(fs[1..]) + tail;
      HeadRoundTrip(fs, more, tail, depth);
      GroupRoundTrip(number, fs[1..], rest, depth);
      GroupStep(number, fs, EncodeFields(fs) + tail, EncodePayload(fs[0]) + more, more, rest, depth);
    }
  }

  /** Whatever is read is sound, stands under its tag and is nested no deeper than was allowed. */
  lemma {:induction false} ReadIsSound(tag: nat, bs: Bytes, depth: nat)
    requires 0 < tag < TWO32 && SkipField(tag, bs, depth).Got?
    ensures var f := SkipField(tag, bs, depth).value; Sound(f) && Tag(f) == tag && Depth(f) <= depth
    decreases |bs|, 1
  {
    if tag % 8 == 1 {
      ReadFixedBound(bs, 8);
      assert Pow256(8) == TWO64;
    } else if tag % 8 == 3 {
      GroupIsSound(tag / 8, bs, depth - 1);
    } else if tag % 8 == 5 {
      ReadFixedBound(bs, 4);
      assert Pow256(4) == TWO32;
    }
  }

  lemma {:induction false} GroupIsSound(number: nat, bs: Bytes, depth: nat)
    requires SkipGroup(number, bs, depth).Got?
    ensures var fs := SkipGroup(number, bs, depth).value; AllSound(fs) && DepthOfAll(fs) <= depth
    decreases |bs|, 0
  {
    var head := ReadVarint32(bs);
    if head.value % 8 != END_GROUP {
      var first := SkipField(head.value, head.rest, depth);
      var others := SkipGroup(number, first.rest, depth);
      ReadIsSound(head.value, head.rest, depth);
      GroupIsSound(number, first.rest, depth);
      assert ([first.value] + others.value)[1..] == others.value;
    }
  }

  lemma {:induction false} ReadFixedBound(bs: Bytes, n: nat)
    requires ReadFixed(bs, n).Got?
    ensures ReadFixed(bs, n).value < Pow256(n)
  {
    if n > 0 { ReadFixedBound(bs[1..], n - 1); }
  }

  /** `ComputeUnknownFieldsSize`. */
  function FieldSize(f: Field): nat
    decreases f, 1
  {
    match f.payload
    case Varint(u) => VarintSize(Tag(f)) + VarintSize(u)
    case Fixed64(_) => VarintSize(Tag(f)) + 8
    case Delimited(b) => VarintSize(Tag(f)) + VarintSize(|b|) + |b|
    case Group(fs) => VarintSize(Tag(f)) + FieldsSize(fs) + VarintSize(MakeTag(f.number, END_GROUP))
    case Fixed32(_) => VarintSize(Tag(f)) + 4
  }

  function FieldsSize(fs: seq<Field>): nat
    decreases fs, 0
  {
    if fs == [] then 0 else FieldSize(fs[0]) + FieldsSize(fs[1..])
  }

  lemma {:induction false} FieldLength(f: Field)
    ensures |EncodeVarint(Tag(f)) + EncodePayload(f)| == FieldSize(f)
    decreases f, 1
  {
    VarintLength(Tag(f));
    match f.payload
    case Varint(u) => VarintLength(u);
    case Delimited(b) => VarintLength(|b|);
    case Group(fs) =>
      FieldsLength(fs);
      VarintLength(MakeTag(f.number, END_GROUP));
    case _ =>
  }

  lemma {:induction false} FieldsLength(fs: seq<Field>)
    ensures |EncodeFields(fs)| == FieldsSize(fs)
    decreases fs, 0
  {
    if fs != [] {
      FieldLength(fs[0]);
      FieldsLength(fs[1..]);
    }
  }
}
