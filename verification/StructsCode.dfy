/**
 The generated `encode` and `decode` routines themselves, as loops over a reader
 that moves a cursor and a writer that nests length-delimited parts, each proved
 to do exactly what `Structs` says of its message type.
 */
module StructsCode {
  import opened Wrappers
  import opened Wire
  import opened Structs

  // ---------- the protobufjs reader and writer ----------

  class Reader {
    const buf: seq<byte>
    var pos: nat

    constructor (buf: seq<byte>)
      ensures this.buf == buf && pos == 0
    {
      this.buf, pos := buf, 0;
    }

    method Uint32() returns (r: Option<nat>)
      modifies this
      ensures match ReadUint32(buf, old(pos))
        case None => r == None
        case Some((v, p)) => r == Some(v) && pos == p
    {
      match ReadUint32(buf, pos)
      case None => r := None;
      case Some((v, p)) => r, pos := Some(v), p;
    }

    method Int32() returns (r: Option<int>)
      modifies this
      ensures match ReadInt32(buf, old(pos))
        case None => r == None
        case Some((v, p)) => r == Some(v) && pos == p
    {
      match ReadInt32(buf, pos)
      case None => r := None;
      case Some((v, p)) => r, pos := Some(v), p;
    }

    method Bool() returns (r: Option<bool>)
      modifies this
      ensures match ReadBool(buf, old(pos))
        case None => r == None
        case Some((v, p)) => r == Some(v) && pos == p
    {
      match ReadBool(buf, pos)
      case None => r := None;
      case Some((v, p)) => r, pos := Some(v), p;
    }

    method SkipType(wireType: nat) returns (ok: bool)
      modifies this
      ensures match Skip(buf, old(pos), wireType)
        case None => !ok
        case Some(p) => ok && pos == p
    {
      match Skip(buf, pos, wireType)
      case None => ok := false;
      case Some(p) => ok, pos := true, p;
    }
  }

  /** `fork` starts a nested part; `ldelim` ends it and puts its length in front. */
  class Writer {
    var bytes: seq<byte>
    var stack: seq<seq<byte>>

    constructor ()
      ensures bytes == [] && stack == []
    {
      bytes, stack := [], [];
    }

    method Uint32(n: nat)
      modifies this`bytes
      ensures bytes == old(bytes) + Uint32Bytes(n)
    {
      bytes := bytes + Uint32Bytes(n);
    }

    method Int32(v: int)
      requires IsInt32(v)
      modifies this`bytes
      ensures bytes == old(bytes) + Int32Bytes(v)
    {
      bytes := bytes + Int32Bytes(v);
    }

    method Bool(flag: bool)
      modifies this`bytes
      ensures bytes == old(bytes) + BoolBytes(flag)
    {
      bytes := bytes + BoolBytes(flag);
    }

    method Fork()
      modifies this
      ensures stack == old(stack) + [old(bytes)] && bytes == []
    {
      stack, bytes := stack + [bytes], [];
    }

    method Ldelim()
      requires stack != []
      modifies this
      ensures stack == old(stack)[..|old(stack)| - 1]
      ensures bytes == old(stack)[|old(stack)| - 1] + Delimited(old(bytes))
    {
      var payload := bytes;
      bytes := stack[|stack| - 1];
      stack := stack[..|stack| - 1];
      Uint32(|payload|);
      bytes := bytes + payload;
    }
  }

  // ---------- blocks that recur in the generated code ----------

  lemma Int32sBytesAppend(vs: seq<int>, v: int)
    requires AllInt32(vs) && IsInt32(v)
    ensures AllInt32(vs + [v]) && Int32sBytes(vs + [v]) == Int32sBytes(vs) + Int32Bytes(v)
    decreases |vs|
  {
    if vs == [] {
      assert [v][1..] == [];
      assert Int32sBytes([v]) == Int32Bytes(v) + [];
    } else {
      assert (vs + [v])[1..] == vs[1..] + [v];
      Int32sBytesAppend(vs[1..], v);
    }
  }

  /** A non-empty repeated number field: tag, then the packed numbers behind their length. */
  method WritePacked(w: Writer, num: nat, vs: seq<int>)
    requires AllInt32(vs)
    modifies w
    ensures w.bytes == old(w.bytes) + FieldBytes(PackedField(num, vs)) && w.stack == old(w.stack)
  {
    hide Uint32Bytes, Int32Bytes;
    w.Uint32(num * 8 + 2);
    w.Fork();
    for i := 0 to |vs|
      invariant w.bytes == Int32sBytes(vs[..i])
      invariant w.stack == old(w.stack) + [old(w.bytes) + Uint32Bytes(num * 8 + 2)]
    {
      assert vs[..i + 1] == vs[..i] + [vs[i]];
      Int32sBytesAppend(vs[..i], vs[i]);
      w.Int32(vs[i]);
    }
    assert vs[..|vs|] == vs;
    w.Ldelim();
  }

  /** The arm of a repeated number field: a packed run, or a single number. */
  method ReadRepeated(r: Reader, wireType: nat, num: nat, m: Msg) returns (res: Option<Msg>)
    modifies r
    ensures
      if wireType == 2 then
        match ReadUint32(r.buf, old(r.pos))
        case None => res == None
        case Some((len, p)) =>
          match ReadInt32s(r.buf, p, p + len, [])
          case None => res == None
          case Some((vs, q)) => res == Some(AddInts(m, num, vs)) && r.pos == q
      else
        match ReadInt32(r.buf, old(r.pos))
        case None => res == None
        case Some((v, p)) => res == Some(AddInts(m, num, [v])) && r.pos == p
  {
    hide ReadInt32, ReadUint32;
    if wireType == 2 {
      var len := r.Uint32();
      if len.None? {
        return None;
      }
      var end2 := len.value + r.pos;
      ghost var start := r.pos;
      var vs: seq<int> := [];
      res := Some(m);
      while r.pos < end2
        invariant r.pos <= |r.buf|
        invariant ReadInt32s(r.buf, start, end2, []) == ReadInt32s(r.buf, r.pos, end2, vs)
        invariant res == Some(AddInts(m, num, vs))
        decreases |r.buf| - r.pos
      {
        var v := r.Int32();
        if v.None? {
          return None;
        }
        PushedInTwo(m.lists, num, vs, [v.value]);
        res := Some(AddInts(res.value, num, [v.value]));
        vs := vs + [v.value];
      }
    } else {
      var v := r.Int32();
      if v.None? {
        return None;
      }
      res := Some(AddInts(m, num, [v.value]));
    }
  }

  // ---------- encoding, message by message ----------

  /** The bytes of the first `k` fields of the layout. */
  ghost function UpTo(t: MsgType, m: Msg, k: nat): seq<byte>
    requires Valid(t, m) && k <= |Layout(t)|
  {
    FieldsUpToPut(t, m, m, k);
    FieldsBytes(FieldsUpTo(t, m, k))
  }

  ghost function BytesAt(t: MsgType, m: Msg, num: nat): seq<byte>
    requires Valid(t, m)
  {
    FieldsAtPut(t, m, m, [], num);
    FieldsBytes(FieldsAt(t, m, num))
  }

  lemma NextField(t: MsgType, m: Msg, k: nat)
    requires Valid(t, m) && k < |Layout(t)|
    ensures UpTo(t, m, k + 1) == UpTo(t, m, k) + BytesAt(t, m, Layout(t)[k])
  {
    hide Layout, Valid, FieldsAt;
    FieldsUpToPut(t, m, m, k);
    FieldsAtPut(t, m, m, [], Layout(t)[k]);
    FieldsBytesConcat(FieldsUpTo(t, m, k), FieldsAt(t, m, Layout(t)[k]));
  }

  lemma OneFieldBytes(f: Field)
    requires Sized(f)
    ensures FieldsBytes([f]) == FieldBytes(f)
  {
    assert [f][1..] == [];
    assert FieldsBytes([f]) == FieldBytes(f) + [];
  }

  /** What the writer holds when the first `k` fields have been written after `base`. */
  ghost function Written(base: seq<byte>, t: MsgType, m: Msg, k: nat): seq<byte>
    requires Valid(t, m) && k <= |Layout(t)|
  {
    base + UpTo(t, m, k)
  }

  lemma AppendsInt(base: seq<byte>, t: MsgType, m: Msg, k: nat)
    requires Valid(t, m) && k < |Layout(t)| && KindOf(t, Layout(t)[k]).Int?
    ensures var num := Layout(t)[k];
      if num in m.ints then
        && IsInt32(m.ints[num])
        && Written(base, t, m, k + 1) == Written(base, t, m, k) + Uint32Bytes(num * 8) + Int32Bytes(m.ints[num])
      else Written(base, t, m, k + 1) == Written(base, t, m, k)
  {
    hide Layout, KindOf, Uint32Bytes, Int32Bytes, UpTo;
    NextField(t, m, k);
    var num := Layout(t)[k];
    if num in m.ints {
      OneFieldBytes(IntField(num, m.ints[num]));
    }
  }

  lemma AppendsFlag(base: seq<byte>, t: MsgType, m: Msg, k: nat)
    requires Valid(t, m) && k < |Layout(t)| && KindOf(t, Layout(t)[k]).Flag?
    ensures var num := Layout(t)[k];
      Written(base, t, m, k + 1) ==
        if num in m.flags then Written(base, t, m, k) + Uint32Bytes(num * 8) + BoolBytes(m.flags[num])
        else Written(base, t, m, k)
  {
    hide Layout, KindOf, Uint32Bytes, BoolBytes, UpTo;
    NextField(t, m, k);
    var num := Layout(t)[k];
    if num in m.flags {
      OneFieldBytes(FlagField(num, m.flags[num]));
    }
  }

  lemma AppendsPacked(base: seq<byte>, t: MsgType, m: Msg, k: nat)
    requires Valid(t, m) && k < |Layout(t)| && KindOf(t, Layout(t)[k]).Ints?
    ensures var num := Layout(t)[k];
      if num in m.lists then
        && AllInt32(m.lists[num])
        && Written(base, t, m, k + 1) == Written(base, t, m, k) + FieldBytes(PackedField(num, m.lists[num]))
      else Written(base, t, m, k + 1) == Written(base, t, m, k)
  {
    hide Layout, KindOf, UpTo;
    NextField(t, m, k);
    var num := Layout(t)[k];
    if num in m.lists {
      OneFieldBytes(PackedField(num, m.lists[num]));
    }
  }

  lemma AppendsSubs(base: seq<byte>, t: MsgType, m: Msg, k: nat)
    requires Valid(t, m) && k < |Layout(t)| && KindOf(t, Layout(t)[k]).Sub?
    ensures var num, u := Layout(t)[k], KindOf(t, Layout(t)[k]).sub;
      && (forall i | 0 <= i < |Items(m.subs, num)| :: Valid(u, Items(m.subs, num)[i]))
      && AllSized(SubFields(u, num, Items(m.subs, num)))
      && Written(base, t, m, k + 1) == Written(base, t, m, k) + FieldsBytes(SubFields(u, num, Items(m.subs, num)))
  {
    hide Layout, KindOf, UpTo, SubFields;
    NextField(t, m, k);
    var num, u := Layout(t)[k], KindOf(t, Layout(t)[k]).sub;
    PutSubs(t, m, num, u, Items(m.subs, num));
  }

  lemma {:induction false} NoneMissing(m: Msg, required: seq<nat>)
    requires FirstMissing(m, required).None?
    ensures forall r | r in required :: Has(m, r)
  {
    if required != [] {
      NoneMissing(m, required[1..]);
    }
  }

  lemma RequiredIsSet(t: MsgType, m: Msg)
    requires Valid(t, m)
    ensures forall r | r in Required(t) && KindOf(t, r).Int? :: r in m.ints
    ensures forall r | r in Required(t) && KindOf(t, r).Flag? :: r in m.flags
  {
    hide KindOf, Required;
    NoneMissing(m, Required(t));
  }

  lemma WrittenEnds(base: seq<byte>, t: MsgType, m: Msg)
    requires Valid(t, m)
    ensures Written(base, t, m, 0) == base && Written(base, t, m, |Layout(t)|) == base + Encode(t, m)
  {
    assert base + [] == base;
  }

  method EncodeNodeChildren(m: Msg, w: Writer)
    requires Valid(NodeChildren, m)
    modifies w`bytes
    ensures w.bytes == old(w.bytes) + Encode(NodeChildren, m)
  {
    hide Uint32Bytes, Int32Bytes, BoolBytes, FieldBytes, FieldsBytes, Encode, Written, Valid;
    ghost var base := w.bytes;
    WrittenEnds(base, NodeChildren, m);
    RequiredIsSet(NodeChildren, m);
    AppendsInt(base, NodeChildren, m, 0);
    w.Uint32(0);
    w.Int32(m.ints[0]);
    AppendsInt(base, NodeChildren, m, 1);
    w.Uint32(8);
    w.Int32(m.ints[1]);
    AppendsInt(base, NodeChildren, m, 2);
    w.Uint32(16);
    w.Int32(m.ints[2]);
    AppendsInt(base, NodeChildren, m, 3);
    w.Uint32(24);
    w.Int32(m.ints[3]);
  }

  method EncodeDirectCounterRef(m: Msg, w: Writer)
    requires Valid(DirectCounterRef, m)
    modifies w`bytes
    ensures w.bytes == old(w.bytes) + Encode(DirectCounterRef, m)
  {
    hide Uint32Bytes, Int32Bytes, BoolBytes, FieldBytes, FieldsBytes, Encode, Written, Valid;
    ghost var base := w.bytes;
    WrittenEnds(base, DirectCounterRef, m);
    RequiredIsSet(DirectCounterRef, m);
    AppendsInt(base, DirectCounterRef, m, 0);
    w.Uint32(0);
    w.Int32(m.ints[0]);
    AppendsInt(base, DirectCounterRef, m, 1);
    w.Uint32(8);
    w.Int32(m.ints[1]);
    AppendsInt(base, DirectCounterRef, m, 2);
    w.Uint32(16);
    w.Int32(m.ints[2]);
    AppendsInt(base, DirectCounterRef, m, 3);
    w.Uint32(24);
    w.Int32(m.ints[3]);
  }

  method EncodeCountersMessageRef(m: Msg, w: Writer)
    requires Valid(CountersMessageRef, m)
    modifies w
    ensures w.bytes == old(w.bytes) + Encode(CountersMessageRef, m) && w.stack == old(w.stack)
  {
    hide Uint32Bytes, Int32Bytes, BoolBytes, FieldBytes, FieldsBytes, Encode, Written, Valid;
    ghost var base := w.bytes;
    WrittenEnds(base, CountersMessageRef, m);
    RequiredIsSet(CountersMessageRef, m);
    AppendsInt(base, CountersMessageRef, m, 0);
    w.Uint32(0);
    w.Int32(m.ints[0]);
    AppendsPacked(base, CountersMessageRef, m, 1);
    if 1 in m.lists {
      WritePacked(w, 1, m.lists[1]);
    }
    AppendsFlag(base, CountersMessageRef, m, 2);
    w.Uint32(16);
    w.Bool(m.flags[2]);
    AppendsPacked(base, CountersMessageRef, m, 3);
    if 3 in m.lists {
      WritePacked(w, 3, m.lists[3]);
    }
  }

  method EncodeUserCounterState(m: Msg, w: Writer)
    requires Valid(UserCounterState, m)
    modifies w`bytes
    ensures w.bytes == old(w.bytes) + Encode(UserCounterState, m)
  {
    hide Uint32Bytes, Int32Bytes, BoolBytes, FieldBytes, FieldsBytes, Encode, Written, Valid;
    ghost var base := w.bytes;
    WrittenEnds(base, UserCounterState, m);
    RequiredIsSet(UserCounterState, m);
    AppendsInt(base, UserCounterState, m, 0);
    w.Uint32(8);
    w.Int32(m.ints[1]);
    AppendsFlag(base, UserCounterState, m, 1);
    w.Uint32(16);
    w.Bool(m.flags[2]);
    AppendsFlag(base, UserCounterState, m, 2);
    w.Uint32(24);
    w.Bool(m.flags[3]);
    AppendsInt(base, UserCounterState, m, 3);
    if 4 in m.ints {
      w.Uint32(32);
      w.Int32(m.ints[4]);
    }
    AppendsInt(base, UserCounterState, m, 4);
    if 5 in m.ints {
      w.Uint32(40);
      w.Int32(m.ints[5]);
    }
  }

  lemma {:induction false} SubFieldsAppend(u: MsgType, num: nat, ms: seq<Msg>, m: Msg)
    ensures SubFields(u, num, ms + [m]) == SubFields(u, num, ms) + [SubField(num, FieldsOf(u, m))]
    decreases |ms|
  {
    hide FieldsOf;
    if ms == [] {
      assert SubFields(u, num, [m]) == [SubField(num, FieldsOf(u, m))] + SubFields(u, num, []);
    } else {
      assert (ms + [m])[1..] == ms[1..] + [m];
      SubFieldsAppend(u, num, ms[1..], m);
    }
  }

  lemma OneSubBytes(u: MsgType, num: nat, m: Msg)
    requires Valid(u, m)
    ensures var f := SubField(num, FieldsOf(u, m));
      AllSized([f]) && FieldsBytes([f]) == Uint32Bytes(num * 8 + 2) + Delimited(Encode(u, m))
  {
    hide Valid, FieldsOf, Uint32Bytes, Delimited;
    MessagePuts(u, NEW, m);
    OneFieldBytes(SubField(num, FieldsOf(u, m)));
  }

  /** One nested message more: its tag, and its encoding behind its length. */
  lemma NextSub(t: MsgType, u: MsgType, num: nat, ms: seq<Msg>, i: nat)
    requires KindOf(t, num) == Sub(u) && i < |ms| && forall j | 0 <= j < |ms| :: Valid(u, ms[j])
    ensures AllSized(SubFields(u, num, ms[..i])) && AllSized(SubFields(u, num, ms[..i + 1]))
    ensures FieldsBytes(SubFields(u, num, ms[..i + 1])) ==
      FieldsBytes(SubFields(u, num, ms[..i])) + (Uint32Bytes(num * 8 + 2) + Delimited(Encode(u, ms[i])))
  {
    hide KindOf, Valid, FieldsOf, SubFields, Uint32Bytes, Delimited, Encode, FieldsBytes, AllSized, Fits, AllFit;
    PutSubs(t, NEW, num, u, ms[..i]);
    PutSubs(t, NEW, num, u, ms[..i + 1]);
    assert ms[..i + 1] == ms[..i] + [ms[i]];
    SubFieldsAppend(u, num, ms[..i], ms[i]);
    OneSubBytes(u, num, ms[i]);
    FieldsBytesConcat(SubFields(u, num, ms[..i]), [SubField(num, FieldsOf(u, ms[i]))]);
  }

  lemma NoSubs(u: MsgType, num: nat)
    ensures AllSized(SubFields(u, num, [])) && FieldsBytes(SubFields(u, num, [])) == []
  {
  }

  lemma RegroupField(base: seq<byte>, fields: seq<byte>, tag: seq<byte>, payload: seq<byte>)
    ensures base + fields + tag + payload == base + (fields + (tag + payload))
  {
  }

  method WriteChildren(w: Writer, ms: seq<Msg>)
    requires forall i | 0 <= i < |ms| :: Valid(NodeChildren, ms[i])
    modifies w
    ensures AllSized(SubFields(NodeChildren, 4, ms)) && w.stack == old(w.stack)
    ensures w.bytes == old(w.bytes) + FieldsBytes(SubFields(NodeChildren, 4, ms))
  {
    hide Uint32Bytes, Delimited, Encode, Valid, FieldsBytes, SubFields, AllSized;
    NoSubs(NodeChildren, 4);
    assert ms[..0] == [];
    for i := 0 to |ms|
      invariant AllSized(SubFields(NodeChildren, 4, ms[..i])) && w.stack == old(w.stack)
      invariant w.bytes == old(w.bytes) + FieldsBytes(SubFields(NodeChildren, 4, ms[..i]))
    {
      NextSub(TreeNode, NodeChildren, 4, ms, i);
      w.Uint32(34);
      w.Fork();
      EncodeNodeChildren(ms[i], w);
      assert w.bytes == Encode(NodeChildren, ms[i]);
      w.Ldelim();
      RegroupField(old(w.bytes), FieldsBytes(SubFields(NodeChildren, 4, ms[..i])), Uint32Bytes(34),
              Delimited(Encode(NodeChildren, ms[i])));
    }
    assert ms[..|ms|] == ms;
  }

  method WriteRefs(w: Writer, ms: seq<Msg>)
    requires forall i | 0 <= i < |ms| :: Valid(DirectCounterRef, ms[i])
    modifies w
    ensures AllSized(SubFields(DirectCounterRef, 0, ms)) && w.stack == old(w.stack)
    ensures w.bytes == old(w.bytes) + FieldsBytes(SubFields(DirectCounterRef, 0, ms))
  {
    hide Uint32Bytes, Delimited, Encode, Valid, FieldsBytes, SubFields, AllSized;
    NoSubs(DirectCounterRef, 0);
    assert ms[..0] == [];
    for i := 0 to |ms|
      invariant AllSized(SubFields(DirectCounterRef, 0, ms[..i])) && w.stack == old(w.stack)
      invariant w.bytes == old(w.bytes) + FieldsBytes(SubFields(DirectCounterRef, 0, ms[..i]))
    {
      NextSub(DirectCounterRefs, DirectCounterRef, 0, ms, i);
      w.Uint32(2);
      w.Fork();
      EncodeDirectCounterRef(ms[i], w);
      assert w.bytes == Encode(DirectCounterRef, ms[i]);
      w.Ldelim();
      RegroupField(old(w.bytes), FieldsBytes(SubFields(DirectCounterRef, 0, ms[..i])), Uint32Bytes(2),
              Delimited(Encode(DirectCounterRef, ms[i])));
    }
    assert ms[..|ms|] == ms;
  }

  method EncodeTreeNode(m: Msg, w: Writer)
    requires Valid(TreeNode, m)
    modifies w
    ensures w.bytes == old(w.bytes) + Encode(TreeNode, m) && w.stack == old(w.stack)
  {
    hide Uint32Bytes, Int32Bytes, BoolBytes, FieldBytes, FieldsBytes, Encode, Written, Valid;
    ghost var base := w.bytes;
    WrittenEnds(base, TreeNode, m);
    RequiredIsSet(TreeNode, m);
    AppendsInt(base, TreeNode, m, 0);
    w.Uint32(0);
    w.Int32(m.ints[0]);
    AppendsInt(base, TreeNode, m, 1);
    if 1 in m.ints {
      w.Uint32(8);
      w.Int32(m.ints[1]);
    }
    AppendsInt(base, TreeNode, m, 2);
    w.Uint32(16);
    w.Int32(m.ints[2]);
    AppendsPacked(base, TreeNode, m, 3);
    if 3 in m.lists {
      WritePacked(w, 3, m.lists[3]);
    }
    AppendsSubs(base, TreeNode, m, 4);
    WriteChildren(w, Items(m.subs, 4));
  }

  method EncodeDirectCounterRefs(m: Msg, w: Writer)
    requires Valid(DirectCounterRefs, m)
    modifies w
    ensures w.bytes == old(w.bytes) + Encode(DirectCounterRefs, m) && w.stack == old(w.stack)
  {
    hide Uint32Bytes, Int32Bytes, BoolBytes, FieldBytes, FieldsBytes, Encode, Written, Valid;
    ghost var base := w.bytes;
    WrittenEnds(base, DirectCounterRefs, m);
    RequiredIsSet(DirectCounterRefs, m);
    AppendsSubs(base, DirectCounterRefs, m, 0);
    WriteRefs(w, Items(m.subs, 0));
  }

  // ---------- decoding, message by message ----------

  lemma CheckedInOrder(m: Msg)
    ensures FirstMissing(m, []) == None
    ensures forall a :: FirstMissing(m, [a]) == if !Has(m, a) then Some(a) else None
    ensures forall a, b :: FirstMissing(m, [a, b]) == if !Has(m, a) then Some(a) else FirstMissing(m, [b])
    ensures forall a, b, c ::
      FirstMissing(m, [a, b, c]) == if !Has(m, a) then Some(a) else FirstMissing(m, [b, c])
    ensures forall a, b, c, d ::
      FirstMissing(m, [a, b, c, d]) == if !Has(m, a) then Some(a) else FirstMissing(m, [b, c, d])
  {
    assert forall a: nat, b: nat :: [a, b][1..] == [b];
    assert forall a: nat, b: nat, c: nat :: [a, b, c][1..] == [b, c];
    assert forall a: nat, b: nat, c: nat, d: nat :: [a, b, c, d][1..] == [b, c, d];
  }

  /** How a decoding method reports what `Decode` specifies. */
  ghost predicate Reports(spec: Decoded, r: Reader, res: Result<Msg, Error>)
    reads r
  {
    match spec
    case Err(e) => res == Err(e)
    case Ok((m, p)) => res == Ok(m) && r.pos == p
  }

  method DecodeNodeChildren(r: Reader, length: Option<nat>) returns (res: Result<Msg, Error>)
    requires r.pos <= |r.buf|
    modifies r
    ensures var end := if length.Some? then old(r.pos) + length.value else |r.buf|;
      Reports(Decode(NodeChildren, r.buf, old(r.pos), end), r, res)
  {
    hide ReadUint32, ReadInt32, ReadBool, ReadInt32s, Skip;
    var end := if length.Some? then r.pos + length.value else |r.buf|;
    ghost var start := r.pos;
    var m := NEW;
    while r.pos < end
      invariant r.pos <= |r.buf|
      invariant DecodeLoop(NodeChildren, r.buf, start, end, NEW) == DecodeLoop(NodeChildren, r.buf, r.pos, end, m)
      decreases |r.buf| - r.pos
    {
      var tag := r.Uint32();
      if tag.None? {
        return Err(OutOfRange);
      }
      var num, wireType := tag.value / 8, tag.value % 8;
      if num == 0 || num == 1 || num == 2 || num == 3 {
        var v := r.Int32();
        if v.None? {
          return Err(OutOfRange);
        }
        m := SetInt(m, num, v.value);
      } else {
        var ok := r.SkipType(wireType);
        if !ok {
          return Err(if wireType in {0, 1, 2, 5} then OutOfRange else UnsupportedWireType);
        }
      }
    }
    CheckedInOrder(m);
    if !Has(m, 0) {
      return Err(MissingRequired(0));
    }
    if !Has(m, 1) {
      return Err(MissingRequired(1));
    }
    if !Has(m, 2) {
      return Err(MissingRequired(2));
    }
    if !Has(m, 3) {
      return Err(MissingRequired(3));
    }
    return Ok(m);
  }

  method DecodeDirectCounterRef(r: Reader, length: Option<nat>) returns (res: Result<Msg, Error>)
    requires r.pos <= |r.buf|
    modifies r
    ensures var end := if length.Some? then old(r.pos) + length.value else |r.buf|;
      Reports(Decode(DirectCounterRef, r.buf, old(r.pos), end), r, res)
  {
    hide ReadUint32, ReadInt32, ReadBool, ReadInt32s, Skip;
    var end := if length.Some? then r.pos + length.value else |r.buf|;
    ghost var start := r.pos;
    var m := NEW;
    while r.pos < end
      invariant r.pos <= |r.buf|
      invariant
        DecodeLoop(DirectCounterRef, r.buf, start, end, NEW) ==
        DecodeLoop(DirectCounterRef, r.buf, r.pos, end, m)
      decreases |r.buf| - r.pos
    {
      var tag := r.Uint32();
      if tag.None? {
        return Err(OutOfRange);
      }
      var num, wireType := tag.value / 8, tag.value % 8;
      if num == 0 || num == 1 || num == 2 || num == 3 {
        var v := r.Int32();
        if v.None? {
          return Err(OutOfRange);
        }
        m := SetInt(m, num, v.value);
      } else {
        var ok := r.SkipType(wireType);
        if !ok {
          return Err(if wireType in {0, 1, 2, 5} then OutOfRange else UnsupportedWireType);
        }
      }
    }
    CheckedInOrder(m);
    if !Has(m, 0) {
      return Err(MissingRequired(0));
    }
    if !Has(m, 1) {
      return Err(MissingRequired(1));
    }
    if !Has(m, 2) {
      return Err(MissingRequired(2));
    }
    if !Has(m, 3) {
      return Err(MissingRequired(3));
    }
    return Ok(m);
  }

  method DecodeTreeNode(r: Reader, length: Option<nat>) returns (res: Result<Msg, Error>)
    requires r.pos <= |r.buf|
    modifies r
    ensures var end := if length.Some? then old(r.pos) + length.value else |r.buf|;
      Reports(Decode(TreeNode, r.buf, old(r.pos), end), r, res)
  {
    hide ReadUint32, ReadInt32, ReadBool, ReadInt32s, Skip;
    var end := if length.Some? then r.pos + length.value else |r.buf|;
    ghost var start := r.pos;
    var m := NEW;
    while r.pos < end
      invariant r.pos <= |r.buf|
      invariant DecodeLoop(TreeNode, r.buf, start, end, NEW) == DecodeLoop(TreeNode, r.buf, r.pos, end, m)
      decreases |r.buf| - r.pos
    {
      var tag := r.Uint32();
      if tag.None? {
        return Err(OutOfRange);
      }
      var num, wireType := tag.value / 8, tag.value % 8;
      if num == 0 || num == 1 || num == 2 {
        var v := r.Int32();
        if v.None? {
          return Err(OutOfRange);
        }
        m := SetInt(m, num, v.value);
      } else if num == 3 {
        var next := ReadRepeated(r, wireType, num, m);
        if next.None? {
          return Err(OutOfRange);
        }
        m := next.value;
      } else if num == 4 {
        var len := r.Uint32();
        if len.None? {
          return Err(OutOfRange);
        }
        var sub := DecodeNodeChildren(r, len);
        if sub.Err? {
          return Err(sub.error);
        }
        m := AddSubs(m, num, [sub.value]);
      } else {
        var ok := r.SkipType(wireType);
        if !ok {
          return Err(if wireType in {0, 1, 2, 5} then OutOfRange else UnsupportedWireType);
        }
      }
    }
    CheckedInOrder(m);
    if !Has(m, 0) {
      return Err(MissingRequired(0));
    }
    if !Has(m, 2) {
      return Err(MissingRequired(2));
    }
    return Ok(m);
  }

  method DecodeDirectCounterRefs(r: Reader, length: Option<nat>) returns (res: Result<Msg, Error>)
    requires r.pos <= |r.buf|
    modifies r
    ensures var end := if length.Some? then old(r.pos) + length.value else |r.buf|;
      Reports(Decode(DirectCounterRefs, r.buf, old(r.pos), end), r, res)
  {
    hide ReadUint32, ReadInt32, ReadBool, ReadInt32s, Skip;
    var end := if length.Some? then r.pos + length.value else |r.buf|;
    ghost var start := r.pos;
    var m := NEW;
    while r.pos < end
      invariant r.pos <= |r.buf|
      invariant
        DecodeLoop(DirectCounterRefs, r.buf, start, end, NEW) ==
        DecodeLoop(DirectCounterRefs, r.buf, r.pos, end, m)
      decreases |r.buf| - r.pos
    {
      var tag := r.Uint32();
      if tag.None? {
        return Err(OutOfRange);
      }
      var num, wireType := tag.value / 8, tag.value % 8;
      if num == 0 {
        var len := r.Uint32();
        if len.None? {
          return Err(OutOfRange);
        }
        var sub := DecodeDirectCounterRef(r, len);
        if sub.Err? {
          return Err(sub.error);
        }
        m := AddSubs(m, num, [sub.value]);
      } else {
        var ok := r.SkipType(wireType);
        if !ok {
          return Err(if wireType in {0, 1, 2, 5} then OutOfRange else UnsupportedWireType);
        }
      }
    }
    return Ok(m);
  }

  method DecodeCountersMessageRef(r: Reader, length: Option<nat>) returns (res: Result<Msg, Error>)
    requires r.pos <= |r.buf|
    modifies r
    ensures var end := if length.Some? then old(r.pos) + length.value else |r.buf|;
      Reports(Decode(CountersMessageRef, r.buf, old(r.pos), end), r, res)
  {
    hide ReadUint32, ReadInt32, ReadBool, ReadInt32s, Skip;
    var end := if length.Some? then r.pos + length.value else |r.buf|;
    ghost var start := r.pos;
    var m := NEW;
    while r.pos < end
      invariant r.pos <= |r.buf|
      invariant
        DecodeLoop(CountersMessageRef, r.buf, start, end, NEW) ==
        DecodeLoop(CountersMessageRef, r.buf, r.pos, end, m)
      decreases |r.buf| - r.pos
    {
      var tag := r.Uint32();
      if tag.None? {
        return Err(OutOfRange);
      }
      var num, wireType := tag.value / 8, tag.value % 8;
      if num == 0 {
        var v := r.Int32();
        if v.None? {
          return Err(OutOfRange);
        }
        m := SetInt(m, num, v.value);
      } else if num == 1 || num == 3 {
        var next := ReadRepeated(r, wireType, num, m);
        if next.None? {
          return Err(OutOfRange);
        }
        m := next.value;
      } else if num == 2 {
        var v := r.Bool();
        if v.None? {
          return Err(OutOfRange);
        }
        m := SetFlag(m, num, v.value);
      } else {
        var ok := r.SkipType(wireType);
        if !ok {
          return Err(if wireType in {0, 1, 2, 5} then OutOfRange else UnsupportedWireType);
        }
      }
    }
    CheckedInOrder(m);
    if !Has(m, 0) {
      return Err(MissingRequired(0));
    }
    if !Has(m, 2) {
      return Err(MissingRequired(2));
    }
    return Ok(m);
  }

  method DecodeUserCounterState(r: Reader, length: Option<nat>) returns (res: Result<Msg, Error>)
    requires r.pos <= |r.buf|
    modifies r
    ensures var end := if length.Some? then old(r.pos) + length.value else |r.buf|;
      Reports(Decode(UserCounterState, r.buf, old(r.pos), end), r, res)
  {
    hide ReadUint32, ReadInt32, ReadBool, ReadInt32s, Skip;
    var end := if length.Some? then r.pos + length.value else |r.buf|;
    ghost var start := r.pos;
    var m := NEW;
    while r.pos < end
      invariant r.pos <= |r.buf|
      invariant
        DecodeLoop(UserCounterState, r.buf, start, end, NEW) ==
        DecodeLoop(UserCounterState, r.buf, r.pos, end, m)
      decreases |r.buf| - r.pos
    {
      var tag := r.Uint32();
      if tag.None? {
        return Err(OutOfRange);
      }
      var num, wireType := tag.value / 8, tag.value % 8;
      if num == 1 || num == 4 || num == 5 {
        var v := r.Int32();
        if v.None? {
          return Err(OutOfRange);
        }
        m := SetInt(m, num, v.value);
      } else if num == 2 || num == 3 {
        var v := r.Bool();
        if v.None? {
          return Err(OutOfRange);
        }
        m := SetFlag(m, num, v.value);
      } else {
        var ok := r.SkipType(wireType);
        if !ok {
          return Err(if wireType in {0, 1, 2, 5} then OutOfRange else UnsupportedWireType);
        }
      }
    }
    CheckedInOrder(m);
    if !Has(m, 1) {
      return Err(MissingRequired(1));
    }
    if !Has(m, 2) {
      return Err(MissingRequired(2));
    }
    if !Has(m, 3) {
      return Err(MissingRequired(3));
    }
    return Ok(m);
  }

}
