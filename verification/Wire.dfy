/**
 The protobuf wire format as the generated code relies on it: base-128 varints,
 32-bit readings of them, and tagged fields with length-delimited payloads
 (Protocol Buffers "Encoding", sections "Base 128 Varints" and "Packed Repeated Fields").
 */
module Wire {
  import opened Wrappers

  type byte = b: int | 0 <= b < 256

  const TWO_31: int := 0x8000_0000
  const TWO_32: int := 0x1_0000_0000
  const TWO_64: int := 0x1_0000_0000_0000_0000

  predicate IsInt32(v: int) {
    -TWO_31 <= v < TWO_31
  }

  // ---------- varints ----------

  function Varint(n: nat): (bytes: seq<byte>)
    ensures bytes != []
  {
    if n < 128 then [n] else [128 + n % 128] + Varint(n / 128)
  }

  /** A value read, and the position after it; `None` where reading runs off the buffer. */
  type Read<T> = Option<(T, nat)>

  function ReadVarint(buf: seq<byte>, pos: nat, left: nat): (r: Read<nat>)
    ensures r.Some? ==> pos < r.value.1 <= |buf|
    decreases left
  {
    if left == 0 || pos >= |buf| then None
    else if buf[pos] < 128 then Some((buf[pos], pos + 1))
    else
      match ReadVarint(buf, pos + 1, left - 1)
      case None => None
      case Some((rest, p)) => Some((buf[pos] - 128 + 128 * rest, p))
  }

  /** `Reader.uint32`: a varint of at most ten bytes, cut to 32 bits. */
  function ReadUint32(buf: seq<byte>, pos: nat): (r: Read<nat>)
    ensures r.Some? ==> pos < r.value.1 <= |buf|
  {
    match ReadVarint(buf, pos, 10)
    case None => None
    case Some((n, p)) => Some((n % TWO_32, p))
  }

  function Signed(n: nat): int
    requires n < TWO_32
  {
    if n < TWO_31 then n else n - TWO_32
  }

  function ReadInt32(buf: seq<byte>, pos: nat): (r: Read<int>)
    ensures r.Some? ==> pos < r.value.1 <= |buf|
  {
    match ReadVarint(buf, pos, 10)
    case None => None
    case Some((n, p)) => Some((Signed(n % TWO_32), p))
  }

  function ReadBool(buf: seq<byte>, pos: nat): (r: Read<bool>)
    ensures r.Some? ==> pos < r.value.1 <= |buf|
  {
    match ReadUint32(buf, pos)
    case None => None
    case Some((n, p)) => Some((n != 0, p))
  }

  /** `Writer.int32`: a negative number goes out as its 64-bit two's complement. */
  function Int32Bytes(v: int): seq<byte>
    requires IsInt32(v)
  {
    Varint(if v < 0 then v + TWO_64 else v)
  }

  /** `Writer.uint32`. */
  function Uint32Bytes(n: nat): seq<byte> {
    Varint(n % TWO_32)
  }

  function BoolBytes(flag: bool): seq<byte> {
    [if flag then 1 else 0]
  }

  /** `chunk` lies in `buf` at `pos`. */
  ghost predicate At(buf: seq<byte>, pos: nat, chunk: seq<byte>) {
    pos + |chunk| <= |buf| && buf[pos..pos + |chunk|] == chunk
  }

  lemma AtConcat(buf: seq<byte>, pos: nat, a: seq<byte>, b: seq<byte>)
    requires At(buf, pos, a + b)
    ensures At(buf, pos, a) && At(buf, pos + |a|, b)
  {
    assert a == (a + b)[..|a|];
    assert b == (a + b)[|a|..];
  }

  function Power128(k: nat): nat {
    if k == 0 then 1 else 128 * Power128(k - 1)
  }

  lemma {:induction false} VarintReads(buf: seq<byte>, pos: nat, n: nat, left: nat)
    requires At(buf, pos, Varint(n)) && n < Power128(left) && left > 0
    ensures ReadVarint(buf, pos, left) == Some((n, pos + |Varint(n)|))
    decreases left
  {
    assert buf[pos] == Varint(n)[0];
    if n >= 128 {
      AtConcat(buf, pos, [128 + n % 128], Varint(n / 128));
      assert n / 128 < Power128(left - 1);
      VarintReads(buf, pos + 1, n / 128, left - 1);
    }
  }

  lemma TenBytesHold64Bits()
    ensures Power128(10) > TWO_64
  {
    assert Power128(5) == 128 * 128 * 128 * 128 * 128;
    assert Power128(10) == 128 * 128 * 128 * 128 * 128 * Power128(5);
  }

  lemma TwosComplementCut(v: int)
    requires IsInt32(v)
    ensures var n := if v < 0 then v + TWO_64 else v;
      0 <= n < TWO_64 && Signed(n % TWO_32) == v
  {
    if v < 0 {
      assert v + TWO_64 == (v + TWO_32) + (TWO_32 - 1) * TWO_32;
      assert (v + TWO_64) % TWO_32 == v + TWO_32;
    }
  }

  /** Any 32-bit number survives, negative ones through their ten-byte form. */
  lemma Int32Reads(buf: seq<byte>, pos: nat, v: int)
    requires IsInt32(v) && At(buf, pos, Int32Bytes(v))
    ensures ReadInt32(buf, pos) == Some((v, pos + |Int32Bytes(v)|))
  {
    hide ReadVarint, Varint, Signed, Power128, At;
    TenBytesHold64Bits();
    TwosComplementCut(v);
    VarintReads(buf, pos, if v < 0 then v + TWO_64 else v, 10);
  }

  lemma Uint32Reads(buf: seq<byte>, pos: nat, n: nat)
    requires At(buf, pos, Uint32Bytes(n))
    ensures ReadUint32(buf, pos) == Some((n % TWO_32, pos + |Uint32Bytes(n)|))
  {
    TenBytesHold64Bits();
    VarintReads(buf, pos, n % TWO_32, 10);
  }

  lemma BoolReads(buf: seq<byte>, pos: nat, flag: bool)
    requires At(buf, pos, BoolBytes(flag))
    ensures ReadBool(buf, pos) == Some((flag, pos + 1))
  {
    assert buf[pos] == BoolBytes(flag)[0];
  }

  // ---------- what the bytes are ----------

  /** The number that seven-bit groups spell, the lowest first. */
  function Spelled(bytes: seq<byte>): nat {
    if bytes == [] then 0 else bytes[0] % 128 + 128 * Spelled(bytes[1..])
  }

  /**
   A varint spells its number in seven-bit groups, marks all bytes but the last, and has
   no needless byte at its end.
   */
  lemma {:induction false} VarintIs(n: nat)
    ensures Spelled(Varint(n)) == n
    ensures forall i | 0 <= i < |Varint(n)| :: Varint(n)[i] >= 128 <==> i < |Varint(n)| - 1
    ensures |Varint(n)| > 1 ==> Varint(n)[|Varint(n)| - 1] != 0
  {
    if n < 128 {
      assert [n][1..] == [];
    } else {
      VarintIs(n / 128);
      var rest := Varint(n / 128);
      assert Varint(n) == [128 + n % 128] + rest && Varint(n)[1..] == rest;
      assert forall i | 0 < i < |Varint(n)| :: Varint(n)[i] == rest[i - 1];
    }
  }

  lemma {:induction false} VarintLength(n: nat, k: nat)
    requires k > 0 && (k > 1 ==> n >= Power128(k - 1)) && n < Power128(k)
    ensures |Varint(n)| == k
    decreases k
  {
    if k > 1 {
      assert n >= 128 * Power128(k - 2);
      assert n / 128 >= Power128(k - 2) && n / 128 < Power128(k - 1);
      assert Power128(k - 2) >= 1 by { PowerPositive(k - 2); }
      assert k == 2 ==> n / 128 >= 1;
      VarintLength(n / 128, k - 1);
    }
  }

  lemma {:induction false} PowerPositive(k: nat)
    ensures Power128(k) >= 1
  {
    if k > 0 {
      PowerPositive(k - 1);
    }
  }

  /** A number that is not negative is its own varint; a negative one takes the ten bytes of its 64-bit form. */
  lemma Int32BytesAre(v: int)
    requires IsInt32(v)
    ensures Spelled(Int32Bytes(v)) == if v < 0 then v + TWO_64 else v
    ensures v < 0 ==> |Int32Bytes(v)| == 10
  {
    VarintIs(if v < 0 then v + TWO_64 else v);
    hide Varint;
    if v < 0 {
      TenBytesHold64Bits();
      assert Power128(5) == 128 * 128 * 128 * 128 * 128;
      assert Power128(9) == 128 * 128 * 128 * 128 * Power128(5);
      VarintLength(v + TWO_64, 10);
    }
  }

  /** Any number but a multiple of 2^32 reads as true. */
  lemma BoolIsNotZero(buf: seq<byte>, pos: nat, n: nat)
    requires n < TWO_64 && At(buf, pos, Varint(n))
    ensures ReadBool(buf, pos) == Some((n % TWO_32 != 0, pos + |Varint(n)|))
  {
    TenBytesHold64Bits();
    VarintReads(buf, pos, n, 10);
  }

  // ---------- runs of numbers ----------

  predicate AllInt32(vs: seq<int>) {
    forall i | 0 <= i < |vs| :: IsInt32(vs[i])
  }

  function Int32sBytes(vs: seq<int>): seq<byte>
    requires AllInt32(vs)
  {
    if vs == [] then [] else Int32Bytes(vs[0]) + Int32sBytes(vs[1..])
  }

  /** The loop that reads numbers until the position reaches `end`. */
  function ReadInt32s(buf: seq<byte>, pos: nat, end: nat, vs: seq<int>): (r: Read<seq<int>>)
    ensures r.Some? && pos <= |buf| ==> pos <= r.value.1 <= |buf|
    decreases |buf| - pos
  {
    if pos >= end then Some((vs, pos))
    else
      match ReadInt32(buf, pos)
      case None => None
      case Some((v, p)) => ReadInt32s(buf, p, end, vs + [v])
  }

  lemma {:induction false} Int32sRead(buf: seq<byte>, pos: nat, vs: seq<int>, before: seq<int>)
    requires AllInt32(vs) && At(buf, pos, Int32sBytes(vs))
    ensures ReadInt32s(buf, pos, pos + |Int32sBytes(vs)|, before) ==
      Some((before + vs, pos + |Int32sBytes(vs)|))
    decreases |vs|
  {
    hide ReadInt32, Int32Bytes, At;
    if vs == [] {
      assert before + vs == before;
    } else {
      AtConcat(buf, pos, Int32Bytes(vs[0]), Int32sBytes(vs[1..]));
      Int32Reads(buf, pos, vs[0]);
      Int32sRead(buf, pos + |Int32Bytes(vs[0])|, vs[1..], before + [vs[0]]);
      assert before + [vs[0]] + vs[1..] == before + vs;
    }
  }

  // ---------- skipping ----------

  /** Skipping an unknown field by wire type; groups are not modelled. */
  function Skip(buf: seq<byte>, pos: nat, wireType: nat): (p: Option<nat>)
    ensures p.Some? ==> pos < p.value <= |buf|
  {
    match wireType
    case 0 =>
      (match ReadVarint(buf, pos, 10)
       case None => None
       case Some((_, p)) => Some(p))
    case 1 => if pos + 8 <= |buf| then Some(pos + 8) else None
    case 2 =>
      (match ReadUint32(buf, pos)
       case None => None
       case Some((n, p)) => if p + n <= |buf| then Some(p + n) else None)
    case 5 => if pos + 4 <= |buf| then Some(pos + 4) else None
    case _ => None
  }

}
