/**
 The bytes of every message, tag by tag, told from its own fields: what `encode` writes,
 what `decode` makes of it, and which required field it misses when one is absent. None
 of this speaks of the tables that `Structs` is driven by.
 */
module StructsBytes {
  import opened Wrappers
  import opened Wire
  import opened Structs

  // ---------- fields as bytes and as parts of a message ----------

  function IntAt(tag: byte, v: Option<int>): seq<byte>
    requires InRange(v)
  {
    if v.Some? then [tag] + Int32Bytes(v.value) else []
  }

  function FlagAt(tag: byte, v: Option<bool>): seq<byte> {
    if v.Some? then [tag] + BoolBytes(v.value) else []
  }

  function ListAt(tag: byte, vs: seq<int>): seq<byte>
    requires AllInt32(vs)
  {
    if vs != [] then [tag] + Delimited(Int32sBytes(vs)) else []
  }

  /** Nested messages, each behind its tag and its length. */
  ghost function SubsAt(tag: byte, u: MsgType, ms: seq<Msg>): seq<byte>
    requires forall i | 0 <= i < |ms| :: Valid(u, ms[i])
  {
    if ms == [] then [] else [tag] + Delimited(Encode(u, ms[0])) + SubsAt(tag, u, ms[1..])
  }

  function One<V>(num: nat, v: Option<V>): map<nat, V> {
    if v.Some? then map[num := v.value] else map[]
  }

  function Many<V>(num: nat, vs: seq<V>): map<nat, seq<V>> {
    if vs != [] then map[num := vs] else map[]
  }

  predicate InRange(v: Option<int>) {
    v.Some? ==> IsInt32(v.value)
  }

  /** What one field of a message holds, under its number. */
  datatype Part =
    | IntPart(num: nat, v: Option<int>)
    | FlagPart(num: nat, flag: Option<bool>)
    | ListPart(num: nat, vs: seq<int>)
    | SubsPart(num: nat, sub: MsgType, ms: seq<Msg>)

  function With(m: Msg, p: Part): Msg {
    match p
    case IntPart(num, v) => m.(ints := m.ints + One(num, v))
    case FlagPart(num, v) => m.(flags := m.flags + One(num, v))
    case ListPart(num, vs) => m.(lists := m.lists + Many(num, vs))
    case SubsPart(num, _, ms) => m.(subs := m.subs + Many(num, ms))
  }

  /** The message with these fields. */
  function MsgOf(parts: seq<Part>): Msg {
    if parts == [] then NEW else With(MsgOf(parts[..|parts| - 1]), parts[|parts| - 1])
  }

  ghost predicate PartOk(p: Part) {
    && p.num < 15
    && match p
       case IntPart(_, v) => InRange(v)
       case FlagPart(_, _) => true
       case ListPart(_, vs) => AllInt32(vs)
       case SubsPart(_, u, ms) => forall i | 0 <= i < |ms| :: Valid(u, ms[i])
  }

  ghost function BytesOf(p: Part): seq<byte>
    requires PartOk(p)
  {
    match p
    case IntPart(num, v) => IntAt(num * 8, v)
    case FlagPart(num, v) => FlagAt(num * 8, v)
    case ListPart(num, vs) => ListAt(num * 8 + 2, vs)
    case SubsPart(num, u, ms) => SubsAt(num * 8 + 2, u, ms)
  }

  ghost function AllBytes(parts: seq<Part>): seq<byte>
    requires forall p | p in parts :: PartOk(p)
  {
    if parts == [] then [] else AllBytes(parts[..|parts| - 1]) + BytesOf(parts[|parts| - 1])
  }

  // ---------- pieces of a stream ----------

  /** The fields `fs` are the bytes `bytes`, and put on `acc` they give `after`. */
  ghost predicate Piece(t: MsgType, acc: Msg, fs: seq<Field>, bytes: seq<byte>, after: Msg) {
    AllSized(fs) && AllFit(t, fs) && FieldsBytes(fs) == bytes && PutAll(t, acc, fs) == after
  }

  lemma NoPiece(t: MsgType, acc: Msg)
    ensures Piece(t, acc, [], [], acc)
  {
  }

  lemma JoinPieces(t: MsgType, acc: Msg, fs: seq<Field>, bytes: seq<byte>, mid: Msg,
                   gs: seq<Field>, more: seq<byte>, end: Msg)
    requires Piece(t, acc, fs, bytes, mid) && Piece(t, mid, gs, more, end)
    ensures Piece(t, acc, fs + gs, bytes + more, end)
  {
    hide AllSized, AllFit, FieldsBytes, PutAll;
    PutInTwo(t, acc, fs, mid, gs, end);
    FieldsBytesConcat(fs, gs);
  }

  lemma OneField(t: MsgType, acc: Msg, f: Field)
    requires Sized(f) && Fits(t, f)
    ensures Piece(t, acc, [f], FieldBytes(f), Put(t, acc, f))
  {
    PutOne(t, acc, f);
    assert [f][1..] == [] && FieldBytes(f) + [] == FieldBytes(f);
  }

  lemma TagByte(tag: nat)
    requires tag < 128
    ensures Uint32Bytes(tag) == [tag]
  {
  }

  /** The next field of the layout behind the first `k`. */
  lemma Next(t: MsgType, m: Msg, k: nat, num: nat, bytes: seq<byte>, mid: Msg, more: seq<byte>, end: Msg)
    requires k < |Layout(t)| && Layout(t)[k] == num
    requires Piece(t, NEW, FieldsUpTo(t, m, k), bytes, mid) && Piece(t, mid, FieldsAt(t, m, num), more, end)
    ensures Piece(t, NEW, FieldsUpTo(t, m, k + 1), bytes + more, end)
  {
    hide Layout, FieldsAt, Piece;
    JoinPieces(t, NEW, FieldsUpTo(t, m, k), bytes, mid, FieldsAt(t, m, num), more, end);
  }

  lemma IntPiece(t: MsgType, m: Msg, mid: Msg, num: nat, v: Option<int>)
    requires KindOf(t, num).Int? && num < 16 && InRange(v)
    requires v == if num in m.ints then Some(m.ints[num]) else None
    ensures Piece(t, mid, FieldsAt(t, m, num), IntAt(num * 8, v), mid.(ints := mid.ints + One(num, v)))
  {
    hide KindOf, Int32Bytes, Uint32Bytes;
    NoPiece(t, mid);
    TagByte(num * 8);
    if v.Some? {
      OneField(t, mid, IntField(num, v.value));
      assert mid.ints + One(num, v) == mid.ints[num := v.value];
    } else {
      assert mid.ints + One(num, v) == mid.ints;
    }
  }

  lemma FlagPiece(t: MsgType, m: Msg, mid: Msg, num: nat, v: Option<bool>)
    requires KindOf(t, num).Flag? && num < 16
    requires v == if num in m.flags then Some(m.flags[num]) else None
    ensures Piece(t, mid, FieldsAt(t, m, num), FlagAt(num * 8, v), mid.(flags := mid.flags + One(num, v)))
  {
    hide KindOf, BoolBytes, Uint32Bytes;
    NoPiece(t, mid);
    TagByte(num * 8);
    if v.Some? {
      OneField(t, mid, FlagField(num, v.value));
      assert mid.flags + One(num, v) == mid.flags[num := v.value];
    } else {
      assert mid.flags + One(num, v) == mid.flags;
    }
  }

  lemma ListPiece(t: MsgType, m: Msg, mid: Msg, num: nat, vs: seq<int>)
    requires KindOf(t, num).Ints? && num < 15 && AllInt32(vs) && Items(m.lists, num) == vs && num !in mid.lists
    ensures Piece(t, mid, FieldsAt(t, m, num), ListAt(num * 8 + 2, vs), mid.(lists := mid.lists + Many(num, vs)))
  {
    hide KindOf, Delimited, Int32sBytes, Uint32Bytes, AllInt32;
    NoPiece(t, mid);
    TagByte(num * 8 + 2);
    if vs != [] {
      OneField(t, mid, PackedField(num, vs));
      assert [] + vs == vs;
      assert mid.lists + Many(num, vs) == mid.lists[num := vs];
    } else {
      assert mid.lists + Many(num, vs) == mid.lists;
    }
  }

  lemma SubFieldBytes(u: MsgType, num: nat, m: Msg)
    requires num < 15 && Valid(u, m)
    ensures var f := SubField(num, FieldsOf(u, m));
      AllSized([f]) && FieldsBytes([f]) == [num * 8 + 2] + Delimited(Encode(u, m))
  {
    hide Valid, FieldsOf, Uint32Bytes, Delimited;
    MessagePuts(u, NEW, m);
    TagByte(num * 8 + 2);
    var f := SubField(num, FieldsOf(u, m));
    assert [f][1..] == [] && FieldBytes(f) + [] == FieldBytes(f);
  }

  lemma {:induction false} SubsBytes(u: MsgType, num: nat, ms: seq<Msg>)
    requires num < 15 && forall i | 0 <= i < |ms| :: Valid(u, ms[i])
    ensures AllSized(SubFields(u, num, ms)) && FieldsBytes(SubFields(u, num, ms)) == SubsAt(num * 8 + 2, u, ms)
    decreases |ms|
  {
    hide Valid, FieldsOf, FieldsBytes, AllSized, Delimited, Encode;
    if ms == [] {
      NoPiece(u, NEW);
    } else {
      SubFieldBytes(u, num, ms[0]);
      SubsBytes(u, num, ms[1..]);
      FieldsBytesConcat([SubField(num, FieldsOf(u, ms[0]))], SubFields(u, num, ms[1..]));
    }
  }

  lemma AddedSubs(mid: Msg, num: nat, ms: seq<Msg>)
    requires num !in mid.subs
    ensures AddSubs(mid, num, ms) == mid.(subs := mid.subs + Many(num, ms))
  {
    assert [] + ms == ms;
    if ms != [] {
      assert mid.subs + Many(num, ms) == mid.subs[num := ms];
    } else {
      assert mid.subs + Many(num, ms) == mid.subs;
    }
  }

  lemma SubPiece(t: MsgType, u: MsgType, m: Msg, mid: Msg, num: nat, ms: seq<Msg>)
    requires KindOf(t, num) == Sub(u) && num < 15 && Items(m.subs, num) == ms && num !in mid.subs
    requires forall i | 0 <= i < |ms| :: Valid(u, ms[i])
    ensures Piece(t, mid, FieldsAt(t, m, num), SubsAt(num * 8 + 2, u, ms), mid.(subs := mid.subs + Many(num, ms)))
  {
    hide KindOf, Valid, SubFields, SubsAt, AllSized, AllFit, FieldsBytes, PutAll, AddSubs, Many;
    PutSubs(t, mid, num, u, ms);
    SubsBytes(u, num, ms);
    AddedSubs(mid, num, ms);
  }

  // ---------- messages from their parts ----------

  /** The parts are of the kinds and in the order of the message type. */
  ghost predicate Shapes(t: MsgType, parts: seq<Part>) {
    && |parts| == |Layout(t)|
    && (forall i | 0 <= i < |parts| :: PartOk(parts[i]) && parts[i].num == Layout(t)[i])
    && (forall i | 0 <= i < |parts| :: IsKind(t, parts[i]))
    && (forall i, j | 0 <= i < j < |parts| :: parts[i].num != parts[j].num)
  }

  predicate IsKind(t: MsgType, p: Part) {
    match p
    case IntPart(num, _) => KindOf(t, num).Int?
    case FlagPart(num, _) => KindOf(t, num).Flag?
    case ListPart(num, _) => KindOf(t, num).Ints?
    case SubsPart(num, u, _) => KindOf(t, num) == Sub(u)
  }

  predicate Absent(m: Msg, num: nat) {
    num !in m.ints && num !in m.flags && num !in m.lists && num !in m.subs
  }

  /** The message has at this number what the part holds, and nothing else. */
  predicate HasPart(m: Msg, p: Part) {
    match p
    case IntPart(num, v) =>
      (v == if num in m.ints then Some(m.ints[num]) else None) && Absent(m.(ints := map[]), num)
    case FlagPart(num, v) =>
      (v == if num in m.flags then Some(m.flags[num]) else None) && Absent(m.(flags := map[]), num)
    case ListPart(num, vs) =>
      (num in m.lists <==> vs != []) && Items(m.lists, num) == vs && Absent(m.(lists := map[]), num)
    case SubsPart(num, _, ms) =>
      (num in m.subs <==> ms != []) && Items(m.subs, num) == ms && Absent(m.(subs := map[]), num)
  }

  lemma WithOne(m: Msg, p: Part, num: nat)
    ensures Absent(m, p.num) ==> HasPart(With(m, p), p)
    ensures num != p.num && Absent(m, num) ==> Absent(With(m, p), num)
  {
  }

  lemma WithOther(m: Msg, p: Part, q: Part)
    requires p.num != q.num && HasPart(m, q)
    ensures HasPart(With(m, p), q)
  {
  }

  lemma {:induction false} AbsentFrom(parts: seq<Part>, num: nat)
    requires forall p | p in parts :: p.num != num
    ensures Absent(MsgOf(parts), num)
  {
    if parts != [] {
      hide With, Absent;
      var n := |parts| - 1;
      AbsentFrom(parts[..n], num);
      WithOne(MsgOf(parts[..n]), parts[n], num);
    } else {
      assert Absent(NEW, num);
    }
  }

  lemma {:induction false} PartsAreThere(parts: seq<Part>, k: nat)
    requires k < |parts| && forall i, j | 0 <= i < j < |parts| :: parts[i].num != parts[j].num
    ensures HasPart(MsgOf(parts), parts[k])
    decreases |parts|
  {
    hide With, HasPart, Absent;
    var n := |parts| - 1;
    if k < n {
      PartsAreThere(parts[..n], k);
      WithOther(MsgOf(parts[..n]), parts[n], parts[k]);
    } else {
      AbsentFrom(parts[..n], parts[n].num);
      WithOne(MsgOf(parts[..n]), parts[n], parts[n].num);
    }
  }

  /** The field of one part, put on a message that does not have its number yet. */
  lemma PartPiece(t: MsgType, m: Msg, mid: Msg, p: Part)
    requires IsKind(t, p) && PartOk(p) && HasPart(m, p) && Absent(mid, p.num)
    ensures Piece(t, mid, FieldsAt(t, m, p.num), BytesOf(p), With(mid, p))
  {
    hide KindOf, Piece, FieldsAt, IntAt, FlagAt, ListAt, SubsAt, One, Many, Valid, AllInt32;
    match p
    case IntPart(num, v) => IntPiece(t, m, mid, num, v);
    case FlagPart(num, v) => FlagPiece(t, m, mid, num, v);
    case ListPart(num, vs) => ListPiece(t, m, mid, num, vs);
    case SubsPart(num, u, ms) => SubPiece(t, u, m, mid, num, ms);
  }

  lemma {:induction false} PiecesUpTo(t: MsgType, parts: seq<Part>, k: nat)
    requires Shapes(t, parts) && k <= |parts|
    ensures forall p | p in parts[..k] :: PartOk(p)
    ensures Piece(t, NEW, FieldsUpTo(t, MsgOf(parts), k), AllBytes(parts[..k]), MsgOf(parts[..k]))
  {
    hide Piece, PartOk, IsKind, HasPart, Absent, With, BytesOf, FieldsAt, Layout;
    if k == 0 {
      NoPiece(t, NEW);
    } else {
      var m, p := MsgOf(parts), parts[k - 1];
      PiecesUpTo(t, parts, k - 1);
      PartsAreThere(parts, k - 1);
      AbsentFrom(parts[..k - 1], p.num);
      assert parts[..k][..k - 1] == parts[..k - 1];
      PartPiece(t, m, MsgOf(parts[..k - 1]), p);
      Next(t, m, k - 1, p.num, AllBytes(parts[..k - 1]), MsgOf(parts[..k - 1]), BytesOf(p), MsgOf(parts[..k]));
    }
  }

  lemma {:induction false} OnlyParts(parts: seq<Part>, num: nat)
    requires !Absent(MsgOf(parts), num)
    ensures exists i | 0 <= i < |parts| :: parts[i].num == num
  {
    if forall i | 0 <= i < |parts| :: parts[i].num != num {
      AbsentFrom(parts, num);
    }
  }

  lemma PartsAreValid(t: MsgType, parts: seq<Part>)
    requires Shapes(t, parts) && Complete(t, MsgOf(parts))
    ensures Valid(t, MsgOf(parts))
  {
    var m := MsgOf(parts);
    hide MsgOf, Layout, Complete, KindOf;
    forall num | !Absent(m, num)
      ensures exists i | 0 <= i < |parts| :: parts[i].num == num && HasPart(m, parts[i])
    {
      OnlyParts(parts, num);
      var i :| 0 <= i < |parts| && parts[i].num == num;
      PartsAreThere(parts, i);
    }
    forall num
      ensures NumberOk(t, m, num)
    {
      if !Absent(m, num) {
        var i :| 0 <= i < |parts| && parts[i].num == num && HasPart(m, parts[i]);
        PartNumberOk(t, m, parts[i]);
      }
    }
    NumbersOk(t, m);
  }

  /** What validity says of one field number. */
  ghost predicate NumberOk(t: MsgType, m: Msg, num: nat) {
    && (num in m.ints ==> KindOf(t, num).Int? && IsInt32(m.ints[num]))
    && (num in m.flags ==> KindOf(t, num).Flag?)
    && (num in m.lists ==> KindOf(t, num).Ints? && m.lists[num] != [] && AllInt32(m.lists[num]))
    && (num in m.subs ==>
          && KindOf(t, num).Sub? && m.subs[num] != []
          && forall i | 0 <= i < |m.subs[num]| :: Valid(KindOf(t, num).sub, m.subs[num][i]))
  }

  lemma PartNumberOk(t: MsgType, m: Msg, p: Part)
    requires PartOk(p) && IsKind(t, p) && HasPart(m, p)
    ensures NumberOk(t, m, p.num)
  {
    hide KindOf, Valid, AllInt32;
  }

  lemma NumbersOk(t: MsgType, m: Msg)
    requires Complete(t, m) && forall num :: NumberOk(t, m, num)
    ensures Valid(t, m)
  {
    hide Complete, KindOf, AllInt32;
    forall num | num in m.subs
      ensures KindOf(t, num).Sub? && Depth(KindOf(t, num).sub) < Depth(t)
    {
      assert NumberOk(t, m, num);
      TableIsClosed(t, num);
    }
    assert forall num | num in m.ints || num in m.flags || num in m.lists || num in m.subs :: NumberOk(t, m, num);
  }

  lemma AllOk(t: MsgType, parts: seq<Part>)
    requires Shapes(t, parts)
    ensures forall p | p in parts :: PartOk(p)
    ensures |parts| == |Layout(t)|
  {
  }

  lemma WholePiece(t: MsgType, parts: seq<Part>)
    requires Shapes(t, parts) && (forall p | p in parts :: PartOk(p))
    ensures Piece(t, NEW, FieldsOf(t, MsgOf(parts)), AllBytes(parts), MsgOf(parts))
  {
    PiecesUpTo(t, parts, |parts|);
    AllOk(t, parts);
    assert parts[..|parts|] == parts;
  }

  lemma PieceDecodes(t: MsgType, fs: seq<Field>, bytes: seq<byte>, m: Msg)
    requires Piece(t, NEW, fs, bytes, m) && |bytes| < TWO_32
    ensures Decode(t, bytes, 0, |bytes|) ==
      match FirstMissing(m, Required(t))
      case None => Ok((m, |bytes|))
      case Some(num) => Err(MissingRequired(num))
  {
    hide AllSized, AllFit, FieldsBytes, PutAll, Decode, FirstMissing;
    StreamDecodes(t, bytes, 0, fs);
  }

  lemma PieceEncodes(t: MsgType, bytes: seq<byte>, m: Msg)
    requires Piece(t, NEW, FieldsOf(t, m), bytes, m) && Valid(t, m)
    ensures Encode(t, m) == bytes
  {
    hide AllSized, AllFit, FieldsBytes, PutAll, FieldsOf;
  }

  /** A message from its parts: its decoding, and its encoding if no required field is absent. */
  lemma Whole(t: MsgType, parts: seq<Part>)
    requires Shapes(t, parts) && (forall p | p in parts :: PartOk(p))
    ensures var m, bytes := MsgOf(parts), AllBytes(parts);
      && (|bytes| < TWO_32 ==>
            Decode(t, bytes, 0, |bytes|) ==
              match FirstMissing(m, Required(t))
              case None => Ok((m, |bytes|))
              case Some(num) => Err(MissingRequired(num)))
      && (FirstMissing(m, Required(t)) == None ==> Valid(t, m) && Encode(t, m) == bytes)
  {
    hide Shapes, Valid, Decode, Encode, FirstMissing, MsgOf, AllBytes, PartOk, Piece, FieldsOf;
    var m, bytes := MsgOf(parts), AllBytes(parts);
    WholePiece(t, parts);
    if |bytes| < TWO_32 {
      PieceDecodes(t, FieldsOf(t, m), bytes, m);
    }
    if FirstMissing(m, Required(t)) == None {
      PartsAreValid(t, parts);
      PieceEncodes(t, bytes, m);
    }
  }

  // ---------- what is not a field of the message ----------

  /** A value on the wire of one of the four types that can be skipped. */
  datatype Value = Number(n: nat) | Eight(bytes: seq<byte>) | Counted(bytes: seq<byte>) | Four(bytes: seq<byte>)

  function WireType(v: Value): nat {
    match v
    case Number(_) => 0
    case Eight(_) => 1
    case Counted(_) => 2
    case Four(_) => 5
  }

  function ValueBytes(v: Value): seq<byte> {
    match v
    case Number(n) => Varint(n)
    case Counted(bytes) => Delimited(bytes)
    case _ => v.bytes
  }

  predicate ValueOk(v: Value) {
    match v
    case Number(n) => n < TWO_64
    case Eight(bytes) => |bytes| == 8
    case Counted(bytes) => |bytes| < TWO_32
    case Four(bytes) => |bytes| == 4
  }

  lemma ValueIsSkipped(buf: seq<byte>, pos: nat, v: Value)
    requires ValueOk(v) && At(buf, pos, ValueBytes(v))
    ensures Skip(buf, pos, WireType(v)) == Some(pos + |ValueBytes(v)|)
  {
    match v
    case Number(n) =>
      TenBytesHold64Bits();
      hide Power128;
      VarintReads(buf, pos, n, 10);
    case Counted(bytes) =>
      LengthReads(buf, pos, bytes);
    case _ =>
  }

  /** The numbers a message's fields have. */
  predicate HasField(t: MsgType, num: nat) {
    match t
    case TreeNode => num <= 4
    case NodeChildren => num <= 3
    case TreeHead => 1 <= num <= 2
    case CountersMessageRef => num <= 3
    case DirectCounterRefs => num == 0
    case DirectCounterRef => num <= 3
    case ConversationCountersState => num == 0
    case UserCounterState => 1 <= num <= 5
    case UserSubscriptionState => 1 <= num <= 3
    case UserCounterAsyncSubscriptions => num == 1
  }

  lemma NoFieldIsUnknown(t: MsgType, num: nat)
    ensures HasField(t, num) <==> KindOf(t, num) != Unknown
  {
  }

  /** A field that the message does not have is passed over wherever it comes, and changes nothing. */
  lemma UnknownIsSkipped(t: MsgType, buf: seq<byte>, pos: nat, end: nat, m: Msg, num: nat, v: Value)
    requires !HasField(t, num) && num * 8 + 7 < TWO_32 && ValueOk(v)
    requires At(buf, pos, Uint32Bytes(num * 8 + WireType(v)) + ValueBytes(v)) && pos < end
    ensures DecodeLoop(t, buf, pos, end, m) ==
      DecodeLoop(t, buf, pos + |Uint32Bytes(num * 8 + WireType(v)) + ValueBytes(v)|, end, m)
  {
    hide KindOf, HasField, At, Uint32Bytes, ValueBytes, ReadUint32, Skip, ValueOk;
    NoFieldIsUnknown(t, num);
    var tag := Uint32Bytes(num * 8 + WireType(v));
    AtConcat(buf, pos, tag, ValueBytes(v));
    Uint32Reads(buf, pos, num * 8 + WireType(v));
    ValueIsSkipped(buf, pos + |tag|, v);
  }

  /** If a nested message does not decode, neither does the message around it, for the same reason. */
  lemma NestedFailureFails(t: MsgType, u: MsgType, buf: seq<byte>, pos: nat, end: nat, m: Msg, num: nat,
                           payload: seq<byte>)
    requires KindOf(t, num) == Sub(u) && |payload| < TWO_32 && pos < end
    requires At(buf, pos, Uint32Bytes(num * 8 + 2) + Delimited(payload))
    ensures var from := pos + |Uint32Bytes(num * 8 + 2)| + |Uint32Bytes(|payload|)|;
      var nested := Decode(u, buf, from, from + |payload|);
      nested.Err? ==> DecodeLoop(t, buf, pos, end, m) == Err(nested.error)
  {
    hide KindOf, At, Uint32Bytes, ReadUint32, Decode;
    AtConcat(buf, pos, Uint32Bytes(num * 8 + 2), Delimited(payload));
    TagReads(t, buf, pos, num, 2);
    LengthReads(buf, pos + |Uint32Bytes(num * 8 + 2)|, payload);
  }

  // ---------- which required field is missing ----------

  lemma MissingAmong(m: Msg, num: nat, rest: seq<nat>)
    ensures FirstMissing(m, [num] + rest) ==
      if num in m.ints || num in m.flags then FirstMissing(m, rest) else Some(num)
  {
    assert ([num] + rest)[1..] == rest;
  }

  /** Of up to four required fields it is the first absent one that is missed. */
  lemma MissingOf(m: Msg, a: nat, b: nat, c: nat, d: nat)
    ensures var has := num => num in m.ints || num in m.flags;
      var fourth := if has(d) then None else Some(d);
      var third := if has(c) then None else Some(c);
      var second := if has(b) then None else Some(b);
      && FirstMissing(m, []) == None
      && FirstMissing(m, [a]) == (if has(a) then None else Some(a))
      && FirstMissing(m, [a, b]) == (if has(a) then second else Some(a))
      && FirstMissing(m, [a, b, c]) == (if has(a) then if has(b) then third else second else Some(a))
      && FirstMissing(m, [a, b, c, d]) ==
           (if has(a) then if has(b) then if has(c) then fourth else third else second else Some(a))
  {
    hide FirstMissing;
    NoneMissing(m);
    assert [a] + [] == [a] && [b] + [] == [b] && [c] + [] == [c] && [d] + [] == [d];
    MissingAmong(m, a, []);
    MissingAmong(m, b, []);
    MissingAmong(m, c, []);
    MissingAmong(m, d, []);
    assert [a, b] == [a] + [b] && [b, c] == [b] + [c] && [c, d] == [c] + [d];
    MissingAmong(m, a, [b]);
    MissingAmong(m, b, [c]);
    MissingAmong(m, c, [d]);
    assert [a, b, c] == [a] + [b, c] && [b, c, d] == [b] + [c, d];
    MissingAmong(m, a, [b, c]);
    MissingAmong(m, b, [c, d]);
    assert [a, b, c, d] == [a] + [b, c, d];
    MissingAmong(m, a, [b, c, d]);
  }

  lemma NoneMissing(m: Msg)
    ensures FirstMissing(m, []) == None
  {
  }

  // ---------- up to five parts written out ----------

  lemma OneMorePart(parts: seq<Part>, p: Part)
    requires PartOk(p) && forall q | q in parts :: PartOk(q)
    ensures AllBytes(parts + [p]) == AllBytes(parts) + BytesOf(p)
  {
    assert (parts + [p])[..|parts|] == parts;
  }

  lemma Bytes1(a: Part)
    requires PartOk(a)
    ensures AllBytes([a]) == BytesOf(a)
  {
    OneMorePart([], a);
    assert [] + [a] == [a];
  }

  lemma Bytes2(a: Part, b: Part)
    requires PartOk(a) && PartOk(b)
    ensures AllBytes([a, b]) == BytesOf(a) + BytesOf(b)
  {
    hide PartOk, BytesOf, AllBytes;
    Bytes1(a);
    OneMorePart([a], b);
    assert [a] + [b] == [a, b];
  }

  lemma Bytes3(a: Part, b: Part, c: Part)
    requires PartOk(a) && PartOk(b) && PartOk(c)
    ensures AllBytes([a, b, c]) == BytesOf(a) + BytesOf(b) + BytesOf(c)
  {
    hide PartOk, BytesOf, AllBytes;
    Bytes2(a, b);
    OneMorePart([a, b], c);
    assert [a, b] + [c] == [a, b, c];
  }

  lemma Bytes4(a: Part, b: Part, c: Part, d: Part)
    requires PartOk(a) && PartOk(b) && PartOk(c) && PartOk(d)
    ensures AllBytes([a, b, c, d]) == BytesOf(a) + BytesOf(b) + BytesOf(c) + BytesOf(d)
  {
    hide PartOk, BytesOf, AllBytes;
    Bytes3(a, b, c);
    OneMorePart([a, b, c], d);
    assert [a, b, c] + [d] == [a, b, c, d];
  }

  lemma Bytes5(a: Part, b: Part, c: Part, d: Part, e: Part)
    requires PartOk(a) && PartOk(b) && PartOk(c) && PartOk(d) && PartOk(e)
    ensures AllBytes([a, b, c, d, e]) == BytesOf(a) + BytesOf(b) + BytesOf(c) + BytesOf(d) + BytesOf(e)
  {
    hide PartOk, BytesOf, AllBytes;
    Bytes4(a, b, c, d);
    OneMorePart([a, b, c, d], e);
    assert [a, b, c, d] + [e] == [a, b, c, d, e];
  }

  // ---------- the messages ----------

  lemma TreeNodeMisses(id: Option<int>, parent: Option<int>, nodeType: Option<int>,
                       values: seq<int>, children: seq<Msg>)
    ensures var m := MsgOf([IntPart(0, id), IntPart(1, parent), IntPart(2, nodeType),
                            ListPart(3, values), SubsPart(4, NodeChildren, children)]);
      FirstMissing(m, Required(TreeNode)) ==
        if id == None then Some(0)
        else if nodeType == None then Some(2)
        else None
  {
    var parts := [IntPart(0, id), IntPart(1, parent), IntPart(2, nodeType),
                  ListPart(3, values), SubsPart(4, NodeChildren, children)];
    hide MsgOf, FirstMissing;
    PartsAreThere(parts, 0);
    PartsAreThere(parts, 2);
    MissingOf(MsgOf(parts), 0, 2, 0, 0);
  }

  lemma TreeNodeBytes(id: Option<int>, parent: Option<int>, nodeType: Option<int>,
                      values: seq<int>, children: seq<Msg>)
    requires InRange(id) && InRange(parent) && InRange(nodeType) && AllInt32(values)
    requires forall i | 0 <= i < |children| :: Valid(NodeChildren, children[i])
    ensures var bytes := IntAt(0, id) + IntAt(8, parent) + IntAt(16, nodeType) +
                         ListAt(26, values) + SubsAt(34, NodeChildren, children);
      var m := MsgOf([IntPart(0, id), IntPart(1, parent), IntPart(2, nodeType),
                      ListPart(3, values), SubsPart(4, NodeChildren, children)]);
      && (|bytes| < TWO_32 ==>
            Decode(TreeNode, bytes, 0, |bytes|) ==
              if id == None then Err(MissingRequired(0))
              else if nodeType == None then Err(MissingRequired(2))
              else Ok((m, |bytes|)))
      && (id != None && nodeType != None ==>
            Valid(TreeNode, m) && Encode(TreeNode, m) == bytes)
  {
    var a, b, c, d, e := IntPart(0, id), IntPart(1, parent), IntPart(2, nodeType),
                         ListPart(3, values), SubsPart(4, NodeChildren, children);
    var parts, m := [a, b, c, d, e], MsgOf([a, b, c, d, e]);
    hide MsgOf, AllBytes, Decode, Encode, Valid, FirstMissing, IntAt, FlagAt, ListAt, SubsAt, InRange, AllInt32;
    assert Shapes(TreeNode, parts);
    Whole(TreeNode, parts);
    TreeNodeMisses(id, parent, nodeType, values, children);
    Bytes5(a, b, c, d, e);
  }

  lemma NodeChildrenMisses(id: Option<int>, max: Option<int>, min: Option<int>, count: Option<int>)
    ensures var m := MsgOf([IntPart(0, id), IntPart(1, max), IntPart(2, min), IntPart(3, count)]);
      FirstMissing(m, Required(NodeChildren)) ==
        if id == None then Some(0)
        else if max == None then Some(1)
        else if min == None then Some(2)
        else if count == None then Some(3)
        else None
  {
    var parts := [IntPart(0, id), IntPart(1, max), IntPart(2, min), IntPart(3, count)];
    hide MsgOf, FirstMissing;
    PartsAreThere(parts, 0);
    PartsAreThere(parts, 1);
    PartsAreThere(parts, 2);
    PartsAreThere(parts, 3);
    MissingOf(MsgOf(parts), 0, 1, 2, 3);
  }

  lemma NodeChildrenBytes(id: Option<int>, max: Option<int>, min: Option<int>, count: Option<int>)
    requires InRange(id) && InRange(max) && InRange(min) && InRange(count)
    ensures var bytes := IntAt(0, id) + IntAt(8, max) + IntAt(16, min) + IntAt(24, count);
      var m := MsgOf([IntPart(0, id), IntPart(1, max), IntPart(2, min), IntPart(3, count)]);
      && (|bytes| < TWO_32 ==>
            Decode(NodeChildren, bytes, 0, |bytes|) ==
              if id == None then Err(MissingRequired(0))
              else if max == None then Err(MissingRequired(1))
              else if min == None then Err(MissingRequired(2))
              else if count == None then Err(MissingRequired(3))
              else Ok((m, |bytes|)))
      && (id != None && max != None && min != None && count != None ==>
            Valid(NodeChildren, m) && Encode(NodeChildren, m) == bytes)
  {
    var a, b, c, d := IntPart(0, id), IntPart(1, max), IntPart(2, min), IntPart(3, count);
    var parts, m := [a, b, c, d], MsgOf([a, b, c, d]);
    hide MsgOf, AllBytes, Decode, Encode, Valid, FirstMissing, IntAt, FlagAt, ListAt, SubsAt, InRange, AllInt32;
    assert Shapes(NodeChildren, parts);
    Whole(NodeChildren, parts);
    NodeChildrenMisses(id, max, min, count);
    Bytes4(a, b, c, d);
  }

  lemma TreeHeadBytes(counter: Option<int>, root: Option<int>)
    requires InRange(counter) && InRange(root)
    ensures var bytes := IntAt(8, counter) + IntAt(16, root);
      var m := MsgOf([IntPart(1, counter), IntPart(2, root)]);
      && (|bytes| < TWO_32 ==>
            Decode(TreeHead, bytes, 0, |bytes|) ==
              if counter == None then Err(MissingRequired(1))
              else Ok((m, |bytes|)))
      && (counter != None ==>
            Valid(TreeHead, m) && Encode(TreeHead, m) == bytes)
  {
    var a, b := IntPart(1, counter), IntPart(2, root);
    var parts, m := [a, b], MsgOf([a, b]);
    hide MsgOf, AllBytes, Decode, Encode, Valid, FirstMissing, IntAt, FlagAt, ListAt, SubsAt, InRange, AllInt32;
    assert Shapes(TreeHead, parts);
    Whole(TreeHead, parts);
    PartsAreThere(parts, 0);
    MissingOf(m, 1, 0, 0, 0);
    Bytes2(a, b);
  }

  lemma CountersMessageRefBytes(sender: Option<int>, mentions: seq<int>,
                                allMention: Option<bool>, visibleOnlyTo: seq<int>)
    requires InRange(sender) && AllInt32(mentions) && AllInt32(visibleOnlyTo)
    ensures var bytes := IntAt(0, sender) + ListAt(10, mentions) +
                         FlagAt(16, allMention) + ListAt(26, visibleOnlyTo);
      var m := MsgOf([IntPart(0, sender), ListPart(1, mentions),
                      FlagPart(2, allMention), ListPart(3, visibleOnlyTo)]);
      && (|bytes| < TWO_32 ==>
            Decode(CountersMessageRef, bytes, 0, |bytes|) ==
              if sender == None then Err(MissingRequired(0))
              else if allMention == None then Err(MissingRequired(2))
              else Ok((m, |bytes|)))
      && (sender != None && allMention != None ==>
            Valid(CountersMessageRef, m) && Encode(CountersMessageRef, m) == bytes)
  {
    var a, b, c, d := IntPart(0, sender), ListPart(1, mentions),
                      FlagPart(2, allMention), ListPart(3, visibleOnlyTo);
    var parts, m := [a, b, c, d], MsgOf([a, b, c, d]);
    hide MsgOf, AllBytes, Decode, Encode, Valid, FirstMissing, IntAt, FlagAt, ListAt, SubsAt, InRange, AllInt32;
    assert Shapes(CountersMessageRef, parts);
    Whole(CountersMessageRef, parts);
    PartsAreThere(parts, 0);
    PartsAreThere(parts, 2);
    MissingOf(m, 0, 2, 0, 0);
    Bytes4(a, b, c, d);
  }

  lemma DirectCounterRefsBytes(refs: seq<Msg>)
    requires forall i | 0 <= i < |refs| :: Valid(DirectCounterRef, refs[i])
    ensures var bytes := SubsAt(2, DirectCounterRef, refs);
      var m := MsgOf([SubsPart(0, DirectCounterRef, refs)]);
      && (|bytes| < TWO_32 ==> Decode(DirectCounterRefs, bytes, 0, |bytes|) == Ok((m, |bytes|)))
      && Valid(DirectCounterRefs, m) && Encode(DirectCounterRefs, m) == bytes
  {
    var a := SubsPart(0, DirectCounterRef, refs);
    var parts, m := [a], MsgOf([a]);
    hide MsgOf, AllBytes, Decode, Encode, Valid, FirstMissing, IntAt, FlagAt, ListAt, SubsAt, InRange, AllInt32;
    assert Shapes(DirectCounterRefs, parts);
    Whole(DirectCounterRefs, parts);
    MissingOf(m, 0, 0, 0, 0);
    Bytes1(a);
  }

  lemma DirectCounterRefMisses(uid: Option<int>, seqNo: Option<int>,
                               counter: Option<int>, mentions: Option<int>)
    ensures var m := MsgOf([IntPart(0, uid), IntPart(1, seqNo), IntPart(2, counter), IntPart(3, mentions)]);
      FirstMissing(m, Required(DirectCounterRef)) ==
        if uid == None then Some(0)
        else if seqNo == None then Some(1)
        else if counter == None then Some(2)
        else if mentions == None then Some(3)
        else None
  {
    var parts := [IntPart(0, uid), IntPart(1, seqNo), IntPart(2, counter), IntPart(3, mentions)];
    hide MsgOf, FirstMissing;
    PartsAreThere(parts, 0);
    PartsAreThere(parts, 1);
    PartsAreThere(parts, 2);
    PartsAreThere(parts, 3);
    MissingOf(MsgOf(parts), 0, 1, 2, 3);
  }

  lemma DirectCounterRefBytes(uid: Option<int>, seqNo: Option<int>, counter: Option<int>, mentions: Option<int>)
    requires InRange(uid) && InRange(seqNo) && InRange(counter) && InRange(mentions)
    ensures var bytes := IntAt(0, uid) + IntAt(8, seqNo) + IntAt(16, counter) + IntAt(24, mentions);
      var m := MsgOf([IntPart(0, uid), IntPart(1, seqNo), IntPart(2, counter), IntPart(3, mentions)]);
      && (|bytes| < TWO_32 ==>
            Decode(DirectCounterRef, bytes, 0, |bytes|) ==
              if uid == None then Err(MissingRequired(0))
              else if seqNo == None then Err(MissingRequired(1))
              else if counter == None then Err(MissingRequired(2))
              else if mentions == None then Err(MissingRequired(3))
              else Ok((m, |bytes|)))
      && (uid != None && seqNo != None && counter != None && mentions != None ==>
            Valid(DirectCounterRef, m) && Encode(DirectCounterRef, m) == bytes)
  {
    var a, b, c, d := IntPart(0, uid), IntPart(1, seqNo), IntPart(2, counter), IntPart(3, mentions);
    var parts, m := [a, b, c, d], MsgOf([a, b, c, d]);
    hide MsgOf, AllBytes, Decode, Encode, Valid, FirstMissing, IntAt, FlagAt, ListAt, SubsAt, InRange, AllInt32;
    assert Shapes(DirectCounterRef, parts);
    Whole(DirectCounterRef, parts);
    DirectCounterRefMisses(uid, seqNo, counter, mentions);
    Bytes4(a, b, c, d);
  }

  lemma ConversationCountersStateBytes(direct: seq<int>)
    requires AllInt32(direct)
    ensures var bytes := ListAt(2, direct);
      var m := MsgOf([ListPart(0, direct)]);
      && (|bytes| < TWO_32 ==> Decode(ConversationCountersState, bytes, 0, |bytes|) == Ok((m, |bytes|)))
      && Valid(ConversationCountersState, m) && Encode(ConversationCountersState, m) == bytes
  {
    var a := ListPart(0, direct);
    var parts, m := [a], MsgOf([a]);
    hide MsgOf, AllBytes, Decode, Encode, Valid, FirstMissing, IntAt, FlagAt, ListAt, SubsAt, InRange, AllInt32;
    assert Shapes(ConversationCountersState, parts);
    Whole(ConversationCountersState, parts);
    MissingOf(m, 0, 0, 0, 0);
    Bytes1(a);
  }

  lemma UserCounterStateMisses(seqNo: Option<int>, muted: Option<bool>, isAsync: Option<bool>,
                               counter: Option<int>, mentions: Option<int>)
    ensures var m := MsgOf([IntPart(1, seqNo), FlagPart(2, muted), FlagPart(3, isAsync),
                            IntPart(4, counter), IntPart(5, mentions)]);
      FirstMissing(m, Required(UserCounterState)) ==
        if seqNo == None then Some(1)
        else if muted == None then Some(2)
        else if isAsync == None then Some(3)
        else None
  {
    var parts := [IntPart(1, seqNo), FlagPart(2, muted), FlagPart(3, isAsync),
                  IntPart(4, counter), IntPart(5, mentions)];
    hide MsgOf, FirstMissing;
    PartsAreThere(parts, 0);
    PartsAreThere(parts, 1);
    PartsAreThere(parts, 2);
    MissingOf(MsgOf(parts), 1, 2, 3, 0);
  }

  lemma UserCounterStateBytes(seqNo: Option<int>, muted: Option<bool>, isAsync: Option<bool>,
                              counter: Option<int>, mentions: Option<int>)
    requires InRange(seqNo) && InRange(counter) && InRange(mentions)
    ensures var bytes := IntAt(8, seqNo) + FlagAt(16, muted) + FlagAt(24, isAsync) +
                         IntAt(32, counter) + IntAt(40, mentions);
      var m := MsgOf([IntPart(1, seqNo), FlagPart(2, muted), FlagPart(3, isAsync),
                      IntPart(4, counter), IntPart(5, mentions)]);
      && (|bytes| < TWO_32 ==>
            Decode(UserCounterState, bytes, 0, |bytes|) ==
              if seqNo == None then Err(MissingRequired(1))
              else if muted == None then Err(MissingRequired(2))
              else if isAsync == None then Err(MissingRequired(3))
              else Ok((m, |bytes|)))
      && (seqNo != None && muted != None && isAsync != None ==>
            Valid(UserCounterState, m) && Encode(UserCounterState, m) == bytes)
  {
    var a, b, c, d, e := IntPart(1, seqNo), FlagPart(2, muted), FlagPart(3, isAsync),
                         IntPart(4, counter), IntPart(5, mentions);
    var parts, m := [a, b, c, d, e], MsgOf([a, b, c, d, e]);
    hide MsgOf, AllBytes, Decode, Encode, Valid, FirstMissing, IntAt, FlagAt, ListAt, SubsAt, InRange, AllInt32;
    assert Shapes(UserCounterState, parts);
    Whole(UserCounterState, parts);
    UserCounterStateMisses(seqNo, muted, isAsync, counter, mentions);
    Bytes5(a, b, c, d, e);
  }

  lemma UserSubscriptionStateBytes(cid: Option<int>, muted: Option<bool>, seqNo: Option<int>)
    requires InRange(cid) && InRange(seqNo)
    ensures var bytes := IntAt(8, cid) + FlagAt(16, muted) + IntAt(24, seqNo);
      var m := MsgOf([IntPart(1, cid), FlagPart(2, muted), IntPart(3, seqNo)]);
      && (|bytes| < TWO_32 ==>
            Decode(UserSubscriptionState, bytes, 0, |bytes|) ==
              if cid == None then Err(MissingRequired(1))
              else if muted == None then Err(MissingRequired(2))
              else if seqNo == None then Err(MissingRequired(3))
              else Ok((m, |bytes|)))
      && (cid != None && muted != None && seqNo != None ==>
            Valid(UserSubscriptionState, m) && Encode(UserSubscriptionState, m) == bytes)
  {
    var a, b, c := IntPart(1, cid), FlagPart(2, muted), IntPart(3, seqNo);
    var parts, m := [a, b, c], MsgOf([a, b, c]);
    hide MsgOf, AllBytes, Decode, Encode, Valid, FirstMissing, IntAt, FlagAt, ListAt, SubsAt, InRange, AllInt32;
    assert Shapes(UserSubscriptionState, parts);
    Whole(UserSubscriptionState, parts);
    PartsAreThere(parts, 0);
    PartsAreThere(parts, 1);
    PartsAreThere(parts, 2);
    MissingOf(m, 1, 2, 3, 0);
    Bytes3(a, b, c);
  }

  lemma UserCounterAsyncSubscriptionsBytes(subscriptions: seq<Msg>)
    requires forall i | 0 <= i < |subscriptions| :: Valid(UserSubscriptionState, subscriptions[i])
    ensures var bytes := SubsAt(10, UserSubscriptionState, subscriptions);
      var m := MsgOf([SubsPart(1, UserSubscriptionState, subscriptions)]);
      && (|bytes| < TWO_32 ==> Decode(UserCounterAsyncSubscriptions, bytes, 0, |bytes|) == Ok((m, |bytes|)))
      && Valid(UserCounterAsyncSubscriptions, m) && Encode(UserCounterAsyncSubscriptions, m) == bytes
  {
    var a := SubsPart(1, UserSubscriptionState, subscriptions);
    var parts, m := [a], MsgOf([a]);
    hide MsgOf, AllBytes, Decode, Encode, Valid, FirstMissing, IntAt, FlagAt, ListAt, SubsAt, InRange, AllInt32;
    assert Shapes(UserCounterAsyncSubscriptions, parts);
    Whole(UserCounterAsyncSubscriptions, parts);
    MissingOf(m, 0, 0, 0, 0);
    Bytes1(a);
  }
}
