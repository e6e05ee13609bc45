/**
 The messages of `structs.js` and what their generated `encode` and `decode` do,
 driven by one table of field kinds. A message is kept as the JavaScript object it
 is: a single field is set exactly when its number is a key, and a repeated field
 is the array at its number, empty when there is none.
 */
module Structs {
  import opened Wrappers
  import opened Wire

  datatype MsgType =
    | TreeNode | NodeChildren | TreeHead | CountersMessageRef | DirectCounterRefs | DirectCounterRef
    | ConversationCountersState | UserCounterState | UserSubscriptionState | UserCounterAsyncSubscriptions

  datatype Kind = Ints | Int | Flag | Sub(sub: MsgType) | Unknown

  datatype Msg = Msg(
    ints: map<nat, int>, flags: map<nat, bool>, lists: map<nat, seq<int>>, subs: map<nat, seq<Msg>>)

  datatype Error = OutOfRange | UnsupportedWireType | MissingRequired(num: nat)

  /** The arm of the decoder's `switch` for field `num`. */
  function KindOf(t: MsgType, num: nat): Kind {
    match t
    case TreeNode =>
      if num in {0, 1, 2} then Int else if num == 3 then Ints else if num == 4 then Sub(NodeChildren) else Unknown
    case NodeChildren => if num in {0, 1, 2, 3} then Int else Unknown
    case TreeHead => if num in {1, 2} then Int else Unknown
    case CountersMessageRef =>
      if num == 0 then Int else if num in {1, 3} then Ints else if num == 2 then Flag else Unknown
    case DirectCounterRefs => if num == 0 then Sub(DirectCounterRef) else Unknown
    case DirectCounterRef => if num in {0, 1, 2, 3} then Int else Unknown
    case ConversationCountersState => if num == 0 then Ints else Unknown
    case UserCounterState =>
      if num in {1, 4, 5} then Int else if num in {2, 3} then Flag else Unknown
    case UserSubscriptionState => if num in {1, 3} then Int else if num == 2 then Flag else Unknown
    case UserCounterAsyncSubscriptions => if num == 1 then Sub(UserSubscriptionState) else Unknown
  }

  /** The field numbers in the order `encode` writes them. */
  function Layout(t: MsgType): seq<nat> {
    match t
    case TreeNode => [0, 1, 2, 3, 4]
    case NodeChildren => [0, 1, 2, 3]
    case TreeHead => [1, 2]
    case CountersMessageRef => [0, 1, 2, 3]
    case DirectCounterRefs => [0]
    case DirectCounterRef => [0, 1, 2, 3]
    case ConversationCountersState => [0]
    case UserCounterState => [1, 2, 3, 4, 5]
    case UserSubscriptionState => [1, 2, 3]
    case UserCounterAsyncSubscriptions => [1]
  }

  /** The required fields in the order `decode` checks them. */
  function Required(t: MsgType): seq<nat> {
    match t
    case TreeNode => [0, 2]
    case NodeChildren => [0, 1, 2, 3]
    case TreeHead => [1]
    case CountersMessageRef => [0, 2]
    case DirectCounterRefs => []
    case DirectCounterRef => [0, 1, 2, 3]
    case ConversationCountersState => []
    case UserCounterState => [1, 2, 3]
    case UserSubscriptionState => [1, 2, 3]
    case UserCounterAsyncSubscriptions => []
  }

  /** How deep messages nest. */
  function Depth(t: MsgType): nat {
    if t in {TreeNode, DirectCounterRefs, UserCounterAsyncSubscriptions} then 1 else 0
  }

  lemma TableIsClosed(t: MsgType, num: nat)
    ensures num in Layout(t) <==> KindOf(t, num) != Unknown
    ensures KindOf(t, num).Sub? ==> Depth(KindOf(t, num).sub) < Depth(t)
    ensures KindOf(t, num) != Unknown ==> num < 16
    ensures forall i, j | 0 <= i < j < |Layout(t)| :: Layout(t)[i] != Layout(t)[j]
    ensures forall r | r in Required(t) :: KindOf(t, r).Int? || KindOf(t, r).Flag?
  {
  }

  /** A message as its constructor leaves it: nothing is set, repeated fields are empty. */
  const NEW := Msg(map[], map[], map[], map[])

  /** The array of field `num`; a field without elements has no key. */
  function Items<V>(m: map<nat, seq<V>>, num: nat): seq<V> {
    if num in m then m[num] else []
  }

  function Pushed<V>(m: map<nat, seq<V>>, num: nat, vs: seq<V>): map<nat, seq<V>> {
    if vs == [] then m else m[num := Items(m, num) + vs]
  }

  function SetInt(m: Msg, num: nat, v: int): Msg {
    m.(ints := m.ints[num := v])
  }

  function SetFlag(m: Msg, num: nat, flag: bool): Msg {
    m.(flags := m.flags[num := flag])
  }

  function AddInts(m: Msg, num: nat, vs: seq<int>): Msg {
    m.(lists := Pushed(m.lists, num, vs))
  }

  function AddSubs(m: Msg, num: nat, ms: seq<Msg>): Msg {
    m.(subs := Pushed(m.subs, num, ms))
  }

  predicate Has(m: Msg, num: nat) {
    num in m.ints || num in m.flags
  }

  function FirstMissing(m: Msg, required: seq<nat>): Option<nat> {
    if required == [] then None
    else if !Has(m, required[0]) then Some(required[0])
    else FirstMissing(m, required[1..])
  }

  // ---------- decoding ----------

  type Decoded = Result<(Msg, nat), Error>

  /** One turn of the decoder's loop, for the field at `pos`. */
  function DecodeField(t: MsgType, buf: seq<byte>, pos: nat, m: Msg): (r: Decoded)
    ensures r.Ok? ==> pos < r.value.1 <= |buf|
    decreases |buf| - pos, 0
  {
    match ReadUint32(buf, pos)
    case None => Err(OutOfRange)
    case Some((tag, p)) =>
      var num, wireType := tag / 8, tag % 8;
      match KindOf(t, num)
      case Int =>
        (match ReadInt32(buf, p)
         case None => Err(OutOfRange)
         case Some((v, p')) => Ok((SetInt(m, num, v), p')))
      case Flag =>
        (match ReadBool(buf, p)
         case None => Err(OutOfRange)
         case Some((v, p')) => Ok((SetFlag(m, num, v), p')))
      case Ints =>
        if wireType == 2 then
          match ReadUint32(buf, p)
          case None => Err(OutOfRange)
          case Some((len, p')) =>
            match ReadInt32s(buf, p', p' + len, [])
            case None => Err(OutOfRange)
            case Some((vs, p'')) => Ok((AddInts(m, num, vs), p''))
        else
          (match ReadInt32(buf, p)
           case None => Err(OutOfRange)
           case Some((v, p')) => Ok((AddInts(m, num, [v]), p')))
      case Sub(u) =>
        (match ReadUint32(buf, p)
         case None => Err(OutOfRange)
         case Some((len, p')) =>
           match Decode(u, buf, p', p' + len)
           case Err(e) => Err(e)
           case Ok((s, p'')) => Ok((AddSubs(m, num, [s]), p'')))
      case Unknown =>
        match Skip(buf, p, wireType)
        case None => Err(if wireType in {0, 1, 2, 5} then OutOfRange else UnsupportedWireType)
        case Some(p') => Ok((m, p'))
  }

  function DecodeLoop(t: MsgType, buf: seq<byte>, pos: nat, end: nat, m: Msg): (r: Decoded)
    ensures r.Ok? && pos <= |buf| ==> pos <= r.value.1 <= |buf|
    decreases |buf| - pos, 1
  {
    if pos >= end then Ok((m, pos))
    else
      match DecodeField(t, buf, pos, m)
      case Err(e) => Err(e)
      case Ok((m', p)) => DecodeLoop(t, buf, p, end, m')
  }

  function Decode(t: MsgType, buf: seq<byte>, pos: nat, end: nat): (r: Decoded)
    ensures r.Ok? && pos <= |buf| ==> pos <= r.value.1 <= |buf|
    decreases |buf| - pos, 2
  {
    match DecodeLoop(t, buf, pos, end, NEW)
    case Err(e) => Err(e)
    case Ok((m, p)) =>
      match FirstMissing(m, Required(t))
      case Some(num) => Err(MissingRequired(num))
      case None => Ok((m, p))
  }

  // ---------- fields on the wire ----------

  datatype Field =
    | IntField(num: nat, v: int)
    | FlagField(num: nat, flag: bool)
    | PackedField(num: nat, vs: seq<int>)
    | SubField(num: nat, fields: seq<Field>)

  predicate Sized(f: Field) {
    match f
    case IntField(_, v) => IsInt32(v)
    case FlagField(_, _) => true
    case PackedField(_, vs) => AllInt32(vs)
    case SubField(_, fields) => forall i | 0 <= i < |fields| :: Sized(fields[i])
  }

  predicate AllSized(fs: seq<Field>) {
    forall i | 0 <= i < |fs| :: Sized(fs[i])
  }

  /** A payload with its length in front, as `fork` and `ldelim` write it. */
  function Delimited(payload: seq<byte>): seq<byte> {
    Uint32Bytes(|payload|) + payload
  }

  function FieldBytes(f: Field): seq<byte>
    requires Sized(f)
    decreases f, 0
  {
    match f
    case IntField(num, v) => Uint32Bytes(num * 8) + Int32Bytes(v)
    case FlagField(num, flag) => Uint32Bytes(num * 8) + BoolBytes(flag)
    case PackedField(num, vs) => Uint32Bytes(num * 8 + 2) + Delimited(Int32sBytes(vs))
    case SubField(num, fields) => Uint32Bytes(num * 8 + 2) + Delimited(FieldsBytes(fields))
  }

  function FieldsBytes(fs: seq<Field>): seq<byte>
    requires AllSized(fs)
    decreases fs, 1
  {
    if fs == [] then [] else FieldBytes(fs[0]) + FieldsBytes(fs[1..])
  }

  lemma {:induction false} FieldsBytesConcat(a: seq<Field>, b: seq<Field>)
    requires AllSized(a) && AllSized(b)
    ensures AllSized(a + b) && FieldsBytes(a + b) == FieldsBytes(a) + FieldsBytes(b)
  {
    if a == [] {
      assert a + b == b;
    } else {
      assert (a + b)[1..] == a[1..] + b;
      FieldsBytesConcat(a[1..], b);
    }
  }

  // ---------- what a stream of fields means ----------

  /** Last one wins for single fields, repeated fields accumulate, packed or not. */
  function Put(t: MsgType, m: Msg, f: Field): Msg
    decreases f, 0
  {
    match f
    case IntField(num, v) =>
      if KindOf(t, num).Ints? then AddInts(m, num, [v]) else SetInt(m, num, v)
    case FlagField(num, flag) => SetFlag(m, num, flag)
    case PackedField(num, vs) => AddInts(m, num, vs)
    case SubField(num, fields) =>
      if KindOf(t, num).Sub? then AddSubs(m, num, [PutAll(KindOf(t, num).sub, NEW, fields)]) else m
  }

  function PutAll(t: MsgType, m: Msg, fs: seq<Field>): Msg
    decreases fs, 1
  {
    if fs == [] then m else PutAll(t, Put(t, m, fs[0]), fs[1..])
  }

  lemma {:induction false} PutAllConcat(t: MsgType, m: Msg, a: seq<Field>, b: seq<Field>)
    ensures PutAll(t, m, a + b) == PutAll(t, PutAll(t, m, a), b)
    decreases |a|
  {
    if a == [] {
      assert a + b == b;
    } else {
      assert (a + b)[1..] == a[1..] + b;
      PutAllConcat(t, Put(t, m, a[0]), a[1..], b);
    }
  }

  predicate Complete(t: MsgType, m: Msg) {
    FirstMissing(m, Required(t)).None?
  }

  /** The stream fits the message type: right kinds, and every nested message complete. */
  predicate Fits(t: MsgType, f: Field)
    decreases f, 0
  {
    match f
    case IntField(num, _) => KindOf(t, num).Int? || KindOf(t, num).Ints?
    case FlagField(num, _) => KindOf(t, num).Flag?
    case PackedField(num, _) => KindOf(t, num).Ints?
    case SubField(num, fields) =>
      && KindOf(t, num).Sub?
      && AllFit(KindOf(t, num).sub, fields)
      && Complete(KindOf(t, num).sub, PutAll(KindOf(t, num).sub, NEW, fields))
  }

  predicate AllFit(t: MsgType, fs: seq<Field>)
    decreases fs, 1
  {
    fs != [] ==> Fits(t, fs[0]) && AllFit(t, fs[1..])
  }

  lemma TagReads(t: MsgType, buf: seq<byte>, pos: nat, num: nat, wireType: nat)
    requires KindOf(t, num) != Unknown && wireType < 8
    requires At(buf, pos, Uint32Bytes(num * 8 + wireType))
    ensures ReadUint32(buf, pos) == Some((num * 8 + wireType, pos + |Uint32Bytes(num * 8 + wireType)|))
    ensures (num * 8 + wireType) / 8 == num && (num * 8 + wireType) % 8 == wireType
  {
    TableIsClosed(t, num);
    Uint32Reads(buf, pos, num * 8 + wireType);
  }

  lemma LengthReads(buf: seq<byte>, pos: nat, payload: seq<byte>)
    requires At(buf, pos, Delimited(payload)) && |payload| < TWO_32
    ensures var p := pos + |Uint32Bytes(|payload|)|;
      ReadUint32(buf, pos) == Some((|payload|, p)) && At(buf, p, payload)
      && p + |payload| == pos + |Delimited(payload)|
  {
    AtConcat(buf, pos, Uint32Bytes(|payload|), payload);
    Uint32Reads(buf, pos, |payload|);
  }

  lemma IntDecodes(t: MsgType, buf: seq<byte>, pos: nat, m: Msg, f: Field)
    requires f.IntField? && Sized(f) && Fits(t, f) && At(buf, pos, FieldBytes(f))
    ensures DecodeField(t, buf, pos, m) == Ok((Put(t, m, f), pos + |FieldBytes(f)|))
  {
    hide ReadUint32, ReadInt32, Uint32Bytes, Int32Bytes, At, KindOf;
    AtConcat(buf, pos, Uint32Bytes(f.num * 8), Int32Bytes(f.v));
    TagReads(t, buf, pos, f.num, 0);
    Int32Reads(buf, pos + |Uint32Bytes(f.num * 8)|, f.v);
  }

  lemma FlagDecodes(t: MsgType, buf: seq<byte>, pos: nat, m: Msg, f: Field)
    requires f.FlagField? && Fits(t, f) && At(buf, pos, FieldBytes(f))
    ensures DecodeField(t, buf, pos, m) == Ok((Put(t, m, f), pos + |FieldBytes(f)|))
  {
    hide ReadUint32, ReadBool, Uint32Bytes, At, KindOf;
    AtConcat(buf, pos, Uint32Bytes(f.num * 8), BoolBytes(f.flag));
    TagReads(t, buf, pos, f.num, 0);
    BoolReads(buf, pos + |Uint32Bytes(f.num * 8)|, f.flag);
  }

  /** Tag and length of a delimited field are read, and the payload lies right behind them. */
  lemma DelimitedReads(t: MsgType, buf: seq<byte>, pos: nat, num: nat, payload: seq<byte>) returns (p: nat, q: nat)
    requires KindOf(t, num) != Unknown && |payload| < TWO_32
    requires At(buf, pos, Uint32Bytes(num * 8 + 2) + Delimited(payload))
    ensures ReadUint32(buf, pos) == Some((num * 8 + 2, p)) && (num * 8 + 2) / 8 == num && (num * 8 + 2) % 8 == 2
    ensures ReadUint32(buf, p) == Some((|payload|, q)) && At(buf, q, payload)
    ensures q + |payload| == pos + |Uint32Bytes(num * 8 + 2) + Delimited(payload)|
  {
    hide ReadUint32, Uint32Bytes, At, KindOf;
    AtConcat(buf, pos, Uint32Bytes(num * 8 + 2), Delimited(payload));
    TagReads(t, buf, pos, num, 2);
    p := pos + |Uint32Bytes(num * 8 + 2)|;
    LengthReads(buf, p, payload);
    q := p + |Uint32Bytes(|payload|)|;
  }

  lemma PackedDecodes(t: MsgType, buf: seq<byte>, pos: nat, m: Msg, f: Field)
    requires f.PackedField? && Sized(f) && Fits(t, f) && At(buf, pos, FieldBytes(f)) && |FieldBytes(f)| < TWO_32
    ensures DecodeField(t, buf, pos, m) == Ok((Put(t, m, f), pos + |FieldBytes(f)|))
  {
    hide ReadUint32, ReadInt32, ReadInt32s, Uint32Bytes, Int32sBytes, At, KindOf;
    var p, q := DelimitedReads(t, buf, pos, f.num, Int32sBytes(f.vs));
    Int32sRead(buf, q, f.vs, []);
    assert [] + f.vs == f.vs;
  }

  /** One turn of the loop on an encoded field puts that field and moves just past it. */
  lemma {:induction false} FieldDecodes(t: MsgType, buf: seq<byte>, pos: nat, m: Msg, f: Field)
    requires Sized(f) && Fits(t, f) && At(buf, pos, FieldBytes(f)) && |FieldBytes(f)| < TWO_32
    ensures DecodeField(t, buf, pos, m) == Ok((Put(t, m, f), pos + |FieldBytes(f)|))
    decreases f, 0
  {
    hide FieldBytes, At, KindOf, DecodeField, Put, Fits;
    match f
    case IntField(_, _) => IntDecodes(t, buf, pos, m, f);
    case FlagField(_, _) => FlagDecodes(t, buf, pos, m, f);
    case PackedField(_, _) => PackedDecodes(t, buf, pos, m, f);
    case SubField(_, _) => SubFieldDecodes(t, buf, pos, m, f);
  }

  lemma SubFieldDecodes(t: MsgType, buf: seq<byte>, pos: nat, m: Msg, f: Field)
    requires f.SubField? && Sized(f) && Fits(t, f) && At(buf, pos, FieldBytes(f)) && |FieldBytes(f)| < TWO_32
    ensures DecodeField(t, buf, pos, m) == Ok((Put(t, m, f), pos + |FieldBytes(f)|))
    decreases f.fields, 2
  {
    hide ReadUint32, At, KindOf, DecodeField, Put, Uint32Bytes, Complete;
    var p, q := DelimitedReads(t, buf, pos, f.num, FieldsBytes(f.fields));
    FieldsDecode(KindOf(t, f.num).sub, buf, q, NEW, f.fields);
    SubDecodes(t, buf, pos, m, f, p, q);
  }

  lemma SubDecodes(t: MsgType, buf: seq<byte>, pos: nat, m: Msg, f: Field, p: nat, q: nat)
    requires f.SubField? && Sized(f) && Fits(t, f)
    requires ReadUint32(buf, pos) == Some((f.num * 8 + 2, p)) && (f.num * 8 + 2) / 8 == f.num
    requires ReadUint32(buf, p) == Some((|FieldsBytes(f.fields)|, q))
    requires var end := q + |FieldsBytes(f.fields)|;
      DecodeLoop(KindOf(t, f.num).sub, buf, q, end, NEW) == Ok((PutAll(KindOf(t, f.num).sub, NEW, f.fields), end))
    ensures DecodeField(t, buf, pos, m) == Ok((Put(t, m, f), q + |FieldsBytes(f.fields)|))
  {
    hide ReadUint32, KindOf, FieldsBytes;
    var u, end := KindOf(t, f.num).sub, q + |FieldsBytes(f.fields)|;
    assert Decode(u, buf, q, end) == Ok((PutAll(u, NEW, f.fields), end));
  }

  /** The loop on an encoded stream of fields puts them all and stops exactly at its end. */
  lemma {:induction false} FieldsDecode(t: MsgType, buf: seq<byte>, pos: nat, m: Msg, fs: seq<Field>)
    requires AllSized(fs) && AllFit(t, fs) && At(buf, pos, FieldsBytes(fs)) && |FieldsBytes(fs)| < TWO_32
    ensures DecodeLoop(t, buf, pos, pos + |FieldsBytes(fs)|, m) ==
      Ok((PutAll(t, m, fs), pos + |FieldsBytes(fs)|))
    decreases fs, 1
  {
    hide DecodeField, Put, Fits, FieldBytes, At;
    if fs != [] {
      AtConcat(buf, pos, FieldBytes(fs[0]), FieldsBytes(fs[1..]));
      FieldDecodes(t, buf, pos, m, fs[0]);
      assert pos + |FieldBytes(fs[0])| > pos;
      FieldsDecode(t, buf, pos + |FieldBytes(fs[0])|, Put(t, m, fs[0]), fs[1..]);
    }
  }

  // ---------- encoding ----------

  ghost predicate Valid(t: MsgType, m: Msg)
    decreases Depth(t)
  {
    && Complete(t, m)
    && (forall n | n in m.ints :: KindOf(t, n).Int? && IsInt32(m.ints[n]))
    && (forall n | n in m.flags :: KindOf(t, n).Flag?)
    && (forall n | n in m.lists :: KindOf(t, n).Ints? && m.lists[n] != [] && AllInt32(m.lists[n]))
    && (forall n | n in m.subs ::
          var k := KindOf(t, n);
          && k.Sub? && Depth(k.sub) < Depth(t) && m.subs[n] != []
          && forall i | 0 <= i < |m.subs[n]| :: Valid(k.sub, m.subs[n][i]))
  }

  function FieldsAt(t: MsgType, m: Msg, num: nat): seq<Field>
    decreases Depth(t), 1
  {
    match KindOf(t, num)
    case Int => if num in m.ints then [IntField(num, m.ints[num])] else []
    case Flag => if num in m.flags then [FlagField(num, m.flags[num])] else []
    case Ints => if Items(m.lists, num) != [] then [PackedField(num, Items(m.lists, num))] else []
    case Sub(u) => TableIsClosed(t, num); SubFields(u, num, Items(m.subs, num))
    case Unknown => []
  }

  function SubFields(u: MsgType, num: nat, ms: seq<Msg>): seq<Field>
    decreases Depth(u), 4, |ms|
  {
    if ms == [] then [] else [SubField(num, FieldsOf(u, ms[0]))] + SubFields(u, num, ms[1..])
  }

  function FieldsUpTo(t: MsgType, m: Msg, k: nat): seq<Field>
    requires k <= |Layout(t)|
    decreases Depth(t), 2, k
  {
    if k == 0 then [] else FieldsUpTo(t, m, k - 1) + FieldsAt(t, m, Layout(t)[k - 1])
  }

  /** The fields `encode` writes, in order. */
  function FieldsOf(t: MsgType, m: Msg): seq<Field>
    decreases Depth(t), 3
  {
    FieldsUpTo(t, m, |Layout(t)|)
  }

  // ---------- merging ----------

  /** Both maps, arrays under the same number one after the other. */
  function Joined<V>(a: map<nat, seq<V>>, b: map<nat, seq<V>>): map<nat, seq<V>> {
    map n | n in a.Keys + b.Keys :: Items(a, n) + Items(b, n)
  }

  /** Scalars of `b` win, and its repeated fields follow those of `a`. */
  function Merge(a: Msg, b: Msg): Msg {
    Msg(a.ints + b.ints, a.flags + b.flags, Joined(a.lists, b.lists), Joined(a.subs, b.subs))
  }

  function Cut<V>(m: map<nat, V>, nums: seq<nat>): map<nat, V> {
    map n | n in m && n in nums :: m[n]
  }

  /** `m` cut down to the field numbers in `nums`. */
  function Part(m: Msg, nums: seq<nat>): Msg {
    Msg(Cut(m.ints, nums), Cut(m.flags, nums), Cut(m.lists, nums), Cut(m.subs, nums))
  }

  lemma JoinedWithNothing<V>(m: map<nat, seq<V>>)
    ensures Joined(m, map[]) == m && Joined(map[], m) == m
  {
    forall n | n in m
      ensures m[n] + [] == m[n] && [] + m[n] == m[n]
    {
    }
    assert Joined(m, map[]) == m;
    assert Joined(map[], m) == m;
  }

  lemma MergeWithNew(m: Msg)
    ensures Merge(NEW, m) == m && Merge(m, NEW) == m
  {
    JoinedWithNothing(m.lists);
    JoinedWithNothing(m.subs);
    assert NEW.ints + m.ints == m.ints && NEW.flags + m.flags == m.flags;
  }

  lemma PartOfNothing(m: Msg)
    ensures Part(m, []) == NEW
  {
  }

  lemma CutOneMore<V>(m: map<nat, V>, nums: seq<nat>, num: nat)
    ensures num !in m ==> Cut(m, nums + [num]) == Cut(m, nums)
    ensures num in m ==> Cut(m, nums + [num]) == Cut(m, nums)[num := m[num]]
  {
    if num !in m {
      assert Cut(m, nums + [num]) == Cut(m, nums);
    } else {
      assert Cut(m, nums + [num]) == Cut(m, nums)[num := m[num]];
    }
  }

  lemma JoinedOneMore<V>(a: map<nat, seq<V>>, b: map<nat, seq<V>>, num: nat, vs: seq<V>)
    requires num !in b && vs != []
    ensures Joined(a, b[num := vs]) == Pushed(Joined(a, b), num, vs)
  {
    assert Items(Joined(a, b), num) == Items(a, num);
    assert Joined(a, b[num := vs]) == Joined(a, b)[num := Items(a, num) + vs];
  }

  lemma AddedOneMore<V>(a: map<nat, V>, b: map<nat, V>, num: nat, v: V)
    ensures a + b[num := v] == (a + b)[num := v]
  {
  }

  /** Widening the part of `m` by one field number changes the merge as that field does. */
  lemma PartOneMore(acc: Msg, m: Msg, nums: seq<nat>, num: nat)
    requires num !in nums
    requires num in m.ints ==> num !in m.flags && num !in m.lists && num !in m.subs
    requires num in m.flags ==> num !in m.lists && num !in m.subs
    requires num in m.lists ==> num !in m.subs && m.lists[num] != []
    requires num in m.subs ==> m.subs[num] != []
    ensures Merge(acc, Part(m, nums + [num])) ==
      var before := Merge(acc, Part(m, nums));
      if num in m.ints then SetInt(before, num, m.ints[num])
      else if num in m.flags then SetFlag(before, num, m.flags[num])
      else if num in m.lists then AddInts(before, num, m.lists[num])
      else if num in m.subs then AddSubs(before, num, m.subs[num])
      else before
  {
    hide Joined, Pushed;
    CutOneMore(m.ints, nums, num);
    CutOneMore(m.flags, nums, num);
    CutOneMore(m.lists, nums, num);
    CutOneMore(m.subs, nums, num);
    var p := Part(m, nums);
    if num in m.ints {
      AddedOneMore(acc.ints, p.ints, num, m.ints[num]);
    } else if num in m.flags {
      AddedOneMore(acc.flags, p.flags, num, m.flags[num]);
    } else if num in m.lists {
      JoinedOneMore(acc.lists, p.lists, num, m.lists[num]);
    } else if num in m.subs {
      JoinedOneMore(acc.subs, p.subs, num, m.subs[num]);
    }
  }

  lemma PushedInTwo<V>(m: map<nat, seq<V>>, num: nat, a: seq<V>, b: seq<V>)
    ensures Pushed(Pushed(m, num, a), num, b) == Pushed(m, num, a + b)
  {
    if a == [] {
      assert a + b == b;
    } else if b == [] {
      assert a + b == a;
    } else {
      assert Items(m, num) + a + b == Items(m, num) + (a + b);
    }
  }

  lemma {:induction false} PutSubs(t: MsgType, acc: Msg, num: nat, u: MsgType, ms: seq<Msg>)
    requires KindOf(t, num) == Sub(u)
    requires forall i | 0 <= i < |ms| :: Valid(u, ms[i])
    ensures AllSized(SubFields(u, num, ms)) && AllFit(t, SubFields(u, num, ms))
    ensures PutAll(t, acc, SubFields(u, num, ms)) == AddSubs(acc, num, ms)
    decreases Depth(u), 4, |ms|
  {
    hide KindOf, FieldsOf, Valid, Sized, Fits, Put, Pushed;
    if ms == [] {
      assert acc.subs == Pushed(acc.subs, num, []) by { PushedNothing(acc.subs, num); }
    } else {
      var f := SubField(num, FieldsOf(u, ms[0]));
      assert Valid(u, ms[0]);
      PutSub(t, acc, num, u, ms[0]);
      assert ([f] + SubFields(u, num, ms[1..]))[1..] == SubFields(u, num, ms[1..]);
      PutSubs(t, AddSubs(acc, num, [ms[0]]), num, u, ms[1..]);
      PushedInTwo(acc.subs, num, [ms[0]], ms[1..]);
      assert [ms[0]] + ms[1..] == ms;
    }
  }

  lemma PushedNothing<V>(m: map<nat, seq<V>>, num: nat)
    ensures Pushed(m, num, []) == m
  {
  }

  lemma PutSub(t: MsgType, acc: Msg, num: nat, u: MsgType, m: Msg)
    requires KindOf(t, num) == Sub(u) && Valid(u, m)
    ensures var f := SubField(num, FieldsOf(u, m));
      Sized(f) && Fits(t, f) && Put(t, acc, f) == AddSubs(acc, num, [m])
    decreases Depth(u), 4, 0
  {
    hide KindOf, FieldsOf, Pushed, FirstMissing, Merge;
    MessagePuts(u, NEW, m);
    MergeWithNew(m);
  }

  lemma PutOne(t: MsgType, m: Msg, f: Field)
    ensures PutAll(t, m, [f]) == Put(t, m, f) && (AllFit(t, [f]) <==> Fits(t, f))
  {
    assert [f][1..] == [];
  }

  lemma NothingAt(t: MsgType, m: Msg, num: nat)
    requires num !in m.ints && num !in m.flags && num !in m.lists && num !in m.subs
    ensures FieldsAt(t, m, num) == []
  {
    hide KindOf;
  }

  /** A number that is set is of one kind, and written as one field of that kind or as its nested messages. */
  lemma FieldsAtKinds(t: MsgType, m: Msg, num: nat)
    requires Valid(t, m)
    ensures num in m.ints ==>
      KindOf(t, num).Int? && IsInt32(m.ints[num]) && FieldsAt(t, m, num) == [IntField(num, m.ints[num])]
    ensures num in m.flags ==>
      KindOf(t, num).Flag? && FieldsAt(t, m, num) == [FlagField(num, m.flags[num])]
    ensures num in m.lists ==>
      KindOf(t, num).Ints? && AllInt32(m.lists[num]) && m.lists[num] != [] &&
      FieldsAt(t, m, num) == [PackedField(num, m.lists[num])]
    ensures num in m.subs ==>
      KindOf(t, num).Sub? && Depth(KindOf(t, num).sub) < Depth(t) && m.subs[num] != [] &&
      (forall i | 0 <= i < |m.subs[num]| :: Valid(KindOf(t, num).sub, m.subs[num][i])) &&
      FieldsAt(t, m, num) == SubFields(KindOf(t, num).sub, num, m.subs[num])
  {
    hide KindOf, Complete, SubFields;
  }

  lemma FieldsAtPut(t: MsgType, acc: Msg, m: Msg, nums: seq<nat>, num: nat)
    requires Valid(t, m) && num !in nums
    ensures AllSized(FieldsAt(t, m, num)) && AllFit(t, FieldsAt(t, m, num))
    ensures PutAll(t, Merge(acc, Part(m, nums)), FieldsAt(t, m, num)) == Merge(acc, Part(m, nums + [num]))
    decreases Depth(t), 1
  {
    hide KindOf, Merge, Part, Complete, Pushed, SubFields, FieldsAt, Valid;
    FieldsAtKinds(t, m, num);
    PartOneMore(acc, m, nums, num);
    var before := Merge(acc, Part(m, nums));
    if num in m.ints {
      PutOne(t, before, IntField(num, m.ints[num]));
    } else if num in m.flags {
      PutOne(t, before, FlagField(num, m.flags[num]));
    } else if num in m.lists {
      PutOne(t, before, PackedField(num, m.lists[num]));
    } else if num in m.subs {
      PutSubs(t, before, num, KindOf(t, num).sub, m.subs[num]);
    } else {
      NothingAt(t, m, num);
      NothingPut(t, before);
    }
  }

  lemma {:induction false} AllFitConcat(t: MsgType, a: seq<Field>, b: seq<Field>)
    ensures AllFit(t, a + b) <==> AllFit(t, a) && AllFit(t, b)
  {
    hide Fits;
    if a == [] {
      assert a + b == b;
    } else {
      assert (a + b)[1..] == a[1..] + b;
      AllFitConcat(t, a[1..], b);
    }
  }

  lemma NothingPut(t: MsgType, acc: Msg)
    ensures AllSized([]) && AllFit(t, []) && PutAll(t, acc, []) == acc
  {
  }

  /** Two streams one after the other, the second put on what the first left. */
  lemma PutInTwo(t: MsgType, acc: Msg, a: seq<Field>, mid: Msg, b: seq<Field>, end: Msg)
    requires AllSized(a) && AllFit(t, a) && PutAll(t, acc, a) == mid
    requires AllSized(b) && AllFit(t, b) && PutAll(t, mid, b) == end
    ensures AllSized(a + b) && AllFit(t, a + b) && PutAll(t, acc, a + b) == end
  {
    hide AllFit, PutAll, Sized;
    PutAllConcat(t, acc, a, b);
    AllFitConcat(t, a, b);
  }

  lemma {:induction false} FieldsUpToPut(t: MsgType, acc: Msg, m: Msg, k: nat)
    requires Valid(t, m) && k <= |Layout(t)|
    ensures AllSized(FieldsUpTo(t, m, k)) && AllFit(t, FieldsUpTo(t, m, k))
    ensures PutAll(t, acc, FieldsUpTo(t, m, k)) == Merge(acc, Part(m, Layout(t)[..k]))
    decreases Depth(t), 2, k
  {
    hide Layout, Valid, Merge, Part, FieldsAt, AllFit, PutAll, AllSized, KindOf;
    if k == 0 {
      NothingPut(t, acc);
      PartOfNothing(m);
      MergeWithNew(acc);
    } else {
      var num, nums := Layout(t)[k - 1], Layout(t)[..k - 1];
      FieldsUpToPut(t, acc, m, k - 1);
      TableIsClosed(t, num);
      assert Layout(t)[..k] == nums + [num];
      FieldsAtPut(t, acc, m, nums, num);
      PutInTwo(t, acc, FieldsUpTo(t, m, k - 1), Merge(acc, Part(m, nums)),
               FieldsAt(t, m, num), Merge(acc, Part(m, nums + [num])));
    }
  }

  lemma PartOfAll(t: MsgType, m: Msg)
    requires Valid(t, m)
    ensures Part(m, Layout(t)) == m
  {
    hide KindOf, Layout;
    forall n: nat
      ensures n in Layout(t) <==> KindOf(t, n) != Unknown
    {
      TableIsClosed(t, n);
    }
    var r := Part(m, Layout(t));
    assert r.ints == m.ints && r.flags == m.flags && r.lists == m.lists && r.subs == m.subs;
  }

  /** Putting the fields of `m` on top of `acc` merges `m` into it. */
  lemma MessagePuts(t: MsgType, acc: Msg, m: Msg)
    requires Valid(t, m)
    ensures AllSized(FieldsOf(t, m)) && AllFit(t, FieldsOf(t, m))
    ensures PutAll(t, acc, FieldsOf(t, m)) == Merge(acc, m)
    decreases Depth(t), 3
  {
    hide Layout, Valid, Merge, Part, FieldsUpTo, PutAll, AllFit;
    FieldsUpToPut(t, acc, m, |Layout(t)|);
    assert Layout(t)[..|Layout(t)|] == Layout(t);
    PartOfAll(t, m);
  }

  // ---------- the theorems ----------

  /** The bytes `encode` appends for a valid message. */
  ghost function Encode(t: MsgType, m: Msg): seq<byte>
    requires Valid(t, m)
  {
    MessagePuts(t, m, m);
    FieldsBytes(FieldsOf(t, m))
  }

  /**
   Any stream of fitting fields decodes, wherever it lies in a buffer, to what the
   fields mean in order; it fails only for a required field that never came.
   */
  lemma StreamDecodes(t: MsgType, buf: seq<byte>, pos: nat, fs: seq<Field>)
    requires AllSized(fs) && AllFit(t, fs) && At(buf, pos, FieldsBytes(fs)) && |FieldsBytes(fs)| < TWO_32
    ensures var m, end := PutAll(t, NEW, fs), pos + |FieldsBytes(fs)|;
      Decode(t, buf, pos, end) ==
        match FirstMissing(m, Required(t))
        case None => Ok((m, end))
        case Some(num) => Err(MissingRequired(num))
  {
    FieldsDecode(t, buf, pos, NEW, fs);
  }

  /** Decoding the encoding of a message returns the message and stops exactly at its end. */
  lemma RoundTrip(t: MsgType, m: Msg, buf: seq<byte>, pos: nat)
    requires Valid(t, m) && At(buf, pos, Encode(t, m)) && |Encode(t, m)| < TWO_32
    ensures Decode(t, buf, pos, pos + |Encode(t, m)|) == Ok((m, pos + |Encode(t, m)|))
  {
    hide FieldsOf, FieldsBytes, At, Decode, PutAll, Merge, AllFit, Sized;
    MessagePuts(t, NEW, m);
    MergeWithNew(m);
    StreamDecodes(t, buf, pos, FieldsOf(t, m));
  }

  lemma {:induction false} FirstMissingGrows(a: Msg, b: Msg, required: seq<nat>)
    requires FirstMissing(a, required).None? && a.ints.Keys <= b.ints.Keys && a.flags.Keys <= b.flags.Keys
    ensures FirstMissing(b, required).None?
  {
    if required != [] {
      FirstMissingGrows(a, b, required[1..]);
    }
  }

  lemma MergedIsComplete(t: MsgType, a: Msg, b: Msg)
    requires Valid(t, a)
    ensures FirstMissing(Merge(a, b), Required(t)).None?
  {
    FirstMissingGrows(a, Merge(a, b), Required(t));
  }

  /** Decoding two encodings written one after the other merges the messages. */
  lemma ConcatenationMerges(t: MsgType, a: Msg, b: Msg)
    requires Valid(t, a) && Valid(t, b) && |Encode(t, a) + Encode(t, b)| < TWO_32
    ensures var buf := Encode(t, a) + Encode(t, b);
      Decode(t, buf, 0, |buf|) == Ok((Merge(a, b), |buf|))
  {
    hide Valid, FieldsOf, FieldsBytes, Decode, AllFit, PutAll, Merge;
    var fs, gs := FieldsOf(t, a), FieldsOf(t, b);
    MessagePuts(t, NEW, a);
    MergeWithNew(a);
    MessagePuts(t, a, b);
    PutAllConcat(t, NEW, fs, gs);
    AllFitConcat(t, fs, gs);
    FieldsBytesConcat(fs, gs);
    StreamDecodes(t, Encode(t, a) + Encode(t, b), 0, fs + gs);
    MergedIsComplete(t, a, b);
  }

  /** The numbers one field carries for the repeated field `num`. */
  function Carried(f: Field, num: nat): seq<int> {
    match f
    case IntField(n, v) => if n == num then [v] else []
    case PackedField(n, vs) => if n == num then vs else []
    case _ => []
  }

  /** The numbers a stream carries for the repeated field `num`, however they are grouped. */
  function Numbers(fs: seq<Field>, num: nat): seq<int> {
    if fs == [] then [] else Carried(fs[0], num) + Numbers(fs[1..], num)
  }

  lemma PutCarries(t: MsgType, m: Msg, f: Field, num: nat)
    requires Fits(t, f) && KindOf(t, num).Ints?
    ensures Items(Put(t, m, f).lists, num) == Items(m.lists, num) + Carried(f, num)
  {
    hide KindOf;
  }

  lemma {:induction false} PutAllCarries(t: MsgType, m: Msg, fs: seq<Field>, num: nat)
    requires AllFit(t, fs) && KindOf(t, num).Ints?
    ensures Items(PutAll(t, m, fs).lists, num) == Items(m.lists, num) + Numbers(fs, num)
    decreases |fs|
  {
    hide KindOf, Fits, Put, Items, Carried;
    if fs == [] {
      assert Items(m.lists, num) + [] == Items(m.lists, num);
    } else {
      PutCarries(t, m, fs[0], num);
      PutAllCarries(t, Put(t, m, fs[0]), fs[1..], num);
    }
  }

  /** A stream of fields as bytes in a buffer, short enough for its length to be written in 32 bits. */
  ghost predicate Stream(t: MsgType, fs: seq<Field>, buf: seq<byte>, pos: nat) {
    AllSized(fs) && AllFit(t, fs) && At(buf, pos, FieldsBytes(fs)) && |FieldsBytes(fs)| < TWO_32
  }

  /** What the decoder makes of a stream. */
  ghost function DecodedStream(t: MsgType, fs: seq<Field>, buf: seq<byte>, pos: nat): Decoded
    requires Stream(t, fs, buf, pos)
  {
    Decode(t, buf, pos, pos + |FieldsBytes(fs)|)
  }

  /** The decoder returns what the fields mean in order, or fails for a missing required field. */
  lemma DecodedStreamIs(t: MsgType, fs: seq<Field>, buf: seq<byte>, pos: nat)
    requires Stream(t, fs, buf, pos)
    ensures var r, m := DecodedStream(t, fs, buf, pos), PutAll(t, NEW, fs);
      && (r.Ok? <==> Complete(t, m))
      && (r.Ok? ==> r.value == (m, pos + |FieldsBytes(fs)|))
  {
    hide Decode, PutAll, FieldsBytes, AllFit, Sized;
    StreamDecodes(t, buf, pos, fs);
  }

  /**
   Packed, unpacked or mixed: decoded from any stream of fields, a repeated field is the
   list of its numbers in the order they come.
   */
  lemma GroupingDoesNotMatter(t: MsgType, fs: seq<Field>, buf: seq<byte>, pos: nat, num: nat)
    requires Stream(t, fs, buf, pos) && KindOf(t, num).Ints?
    ensures var r := DecodedStream(t, fs, buf, pos);
      r.Ok? ==> Items(r.value.0.lists, num) == Numbers(fs, num)
  {
    hide KindOf, DecodedStream, PutAll, Numbers, FieldsBytes, AllFit, Sized, Complete;
    DecodedStreamIs(t, fs, buf, pos);
    PutAllCarries(t, NEW, fs, num);
    assert [] + Numbers(fs, num) == Numbers(fs, num);
  }

  /** Whether a message has, for a scalar field, the value that `f` carries. */
  predicate Holds(m: Msg, f: Field) {
    match f
    case IntField(num, v) => num in m.ints && m.ints[num] == v
    case FlagField(num, flag) => num in m.flags && m.flags[num] == flag
    case _ => false
  }

  predicate IsScalar(t: MsgType, f: Field) {
    match f
    case IntField(num, _) => KindOf(t, num).Int?
    case FlagField(num, _) => KindOf(t, num).Flag?
    case _ => false
  }

  lemma {:induction false} OthersLeaveScalar(t: MsgType, m: Msg, fs: seq<Field>, f: Field)
    requires IsScalar(t, f) && Holds(m, f) && AllFit(t, fs)
    requires forall i | 0 <= i < |fs| :: fs[i].num != f.num
    ensures Holds(PutAll(t, m, fs), f)
    decreases |fs|
  {
    hide KindOf;
    if fs != [] {
      assert fs[0].num != f.num;
      assert Holds(Put(t, m, fs[0]), f);
      OthersLeaveScalar(t, Put(t, m, fs[0]), fs[1..], f);
    }
  }

  lemma PutAllKeepsLast(t: MsgType, m: Msg, before: seq<Field>, f: Field, after: seq<Field>)
    requires IsScalar(t, f) && AllFit(t, before + [f] + after)
    requires forall i | 0 <= i < |after| :: after[i].num != f.num
    ensures Holds(PutAll(t, m, before + [f] + after), f)
  {
    hide KindOf, Fits;
    PutAllConcat(t, m, before + [f], after);
    PutAllConcat(t, m, before, [f]);
    AllFitConcat(t, before + [f], after);
    var m1 := PutAll(t, m, before);
    PutOne(t, m1, f);
    OthersLeaveScalar(t, Put(t, m1, f), after, f);
  }

  /** A number or flag decodes to the last value that comes for it, whatever comes around it. */
  lemma LastOneWins(t: MsgType, before: seq<Field>, f: Field, after: seq<Field>, buf: seq<byte>, pos: nat)
    requires Stream(t, before + [f] + after, buf, pos) && IsScalar(t, f)
    requires forall i | 0 <= i < |after| :: after[i].num != f.num
    ensures var r := DecodedStream(t, before + [f] + after, buf, pos);
      r.Ok? ==> Holds(r.value.0, f)
  {
    hide DecodedStream, PutAll, FieldsBytes, AllFit, Sized, Complete, IsScalar;
    DecodedStreamIs(t, before + [f] + after, buf, pos);
    PutAllKeepsLast(t, NEW, before, f, after);
  }
}
