/**
 * The primitive readers of the game protocol that the forwarding decoder and the
 * LoginStart packet call: VarInt, length-prefixed string, boolean, long and UUID.
 *
 * Every reader is a function from the unread bytes of a stream to the value read and
 * the bytes left over, or to the error the stream raises (an EOFException when the
 * input ends early). The encoders beside them are the protocol's usual encodings and
 * serve as the readers' inverses in the round-trip lemmas.
 */
module DataTypeIO {
  import opened Wrappers

  newtype byte = x: int | 0 <= x < 256

  /** Why a read failed. */
  datatype DecodeError =
    | EndOfStream      // the input ended before the value was complete
    | VarIntTooBig     // a sixth VarInt byte was read
    | NegativeLength   // a string announced a negative byte length

  /** The result of a reader: the value and the unread rest of the input. */
  type Read<T> = Result<(T, seq<byte>), DecodeError>

  const TWO_31: int := 0x8000_0000
  const TWO_32: int := 0x1_0000_0000
  const TWO_64: int := 0x1_0000_0000_0000_0000

  /** The values of Java's 32-bit `int`. */
  predicate IsInt32(v: int) {
    -TWO_31 <= v < TWO_31
  }

  /** An unsigned 64-bit bit pattern, as held by one half of a Java UUID. */
  type u64 = x: int | 0 <= x < 0x1_0000_0000_0000_0000

  /** A Java UUID: its most and least significant 64 bits. */
  datatype Uuid = Uuid(mostSigBits: u64, leastSigBits: u64)

  /** `rest` is what is left of `s` after a read that consumed at least one byte. */
  predicate ConsumedSome(s: seq<byte>, rest: seq<byte>) {
    |rest| < |s| && rest == s[|s| - |rest|..]
  }

  /** The number of bytes a successful read took from `s`. */
  function Used<T>(s: seq<byte>, r: Read<T>): int
    requires r.Ok?
  {
    |s| - |r.value.1|
  }

  function Pow128(n: nat): (p: nat)
    ensures p >= 1
  {
    if n == 0 then 1 else 128 * Pow128(n - 1)
  }

  function Pow256(n: nat): (p: nat)
    ensures p >= 1
  {
    if n == 0 then 1 else 256 * Pow256(n - 1)
  }

  // ---------------------------------------------------------------------------
  // VarInt

  /**
   * Reads the 7-bit groups of a VarInt, least significant group first, when `k`
   * groups have already been read. The value is the unsigned sum of the groups read
   * here, weighted from this byte on. Reading a sixth byte fails.
   */
  function ReadGroups(s: seq<byte>, k: nat): (r: Read<nat>)
    requires k <= 5
    decreases 5 - k
  {
    if |s| == 0 then Err(EndOfStream)
    else if k == 5 then Err(VarIntTooBig)
    else if s[0] < 128 then Ok((s[0] as nat, s[1..]))
    else match ReadGroups(s[1..], k + 1)
      case Err(e) => Err(e)
      case Ok((u, rest)) => Ok(((s[0] as nat - 128) + 128 * u, rest))
  }

  /** The two's-complement reading of a 32-bit pattern. */
  function ToInt32(u: int): (v: int)
    requires 0 <= u < TWO_32
    ensures IsInt32(v) && v % TWO_32 == u
  {
    if u < TWO_31 then u else u - TWO_32
  }

  /**
   * Reads a VarInt: up to five 7-bit groups, the high bit of each byte marking that
   * another follows. Bits beyond the 32nd are dropped, as Java's `int` shifts drop them.
   */
  function ReadVarInt(s: seq<byte>): (r: Read<int>)
    ensures |s| == 0 ==> r == Err(EndOfStream)
    ensures r.Ok? ==> IsInt32(r.value.0) && ConsumedSome(s, r.value.1) && Used(s, r) <= 5
  {
    GroupsConsume(s, 0);
    match ReadGroups(s, 0)
    case Err(e) => Err(e)
    case Ok((u, rest)) => Ok((ToInt32(u % TWO_32), rest))
  }

  /** The groups of an unsigned value, least significant first. */
  function EncodeGroups(u: nat): (bs: seq<byte>)
    ensures |bs| >= 1
  {
    if u < 128 then [u as byte] else [(u % 128 + 128) as byte] + EncodeGroups(u / 128)
  }

  /** Writes a 32-bit value as a VarInt of its two's-complement bit pattern. */
  function EncodeVarInt(v: int): seq<byte>
    requires IsInt32(v)
  {
    EncodeGroups(v % TWO_32)
  }

  lemma {:induction false} GroupsConsume(s: seq<byte>, k: nat)
    requires k <= 5
    ensures ReadGroups(s, k).Ok? ==>
              ConsumedSome(s, ReadGroups(s, k).value.1) && Used(s, ReadGroups(s, k)) <= 5 - k
    decreases 5 - k
  {
    if |s| > 0 && k < 5 && s[0] >= 128 {
      GroupsConsume(s[1..], k + 1);
    }
  }

  lemma {:induction false} EncodeGroupsLength(u: nat, n: nat)
    requires n >= 1 && u < Pow128(n)
    ensures |EncodeGroups(u)| <= n
  {
    if u >= 128 {
      assert n >= 2;
      assert u / 128 < Pow128(n - 1);
      EncodeGroupsLength(u / 128, n - 1);
    }
  }

  lemma {:induction false} ReadEncodeGroups(u: nat, k: nat, rest: seq<byte>)
    requires k < 5 && u < Pow128(5 - k)
    ensures ReadGroups(EncodeGroups(u) + rest, k) == Ok((u, rest))
    decreases 5 - k
  {
    var s := EncodeGroups(u) + rest;
    if u >= 128 {
      assert 5 - k - 1 >= 1;
      assert s[1..] == EncodeGroups(u / 128) + rest;
      ReadEncodeGroups(u / 128, k + 1, rest);
    }
  }

  /** A VarInt read back from its encoding gives the value and leaves the rest unread. */
  lemma VarIntRoundTrip(v: int, rest: seq<byte>)
    requires IsInt32(v)
    ensures 1 <= |EncodeVarInt(v)| <= 5
    ensures ReadVarInt(EncodeVarInt(v) + rest) == Ok((v, rest))
  {
    var u := v % TWO_32;
    assert Pow128(5) == 0x8_0000_0000;
    EncodeGroupsLength(u, 5);
    ReadEncodeGroups(u, 0, rest);
  }

  /** Reading depends only on the bytes consumed: whatever follows them is left unread. */
  lemma {:induction false} GroupsFrame(s: seq<byte>, k: nat, t: seq<byte>)
    requires k <= 5 && ReadGroups(s, k).Ok?
    ensures 0 < Used(s, ReadGroups(s, k)) <= |s|
    ensures ReadGroups(s[..Used(s, ReadGroups(s, k))] + t, k) == Ok((ReadGroups(s, k).value.0, t))
    decreases 5 - k
  {
    GroupsConsume(s, k);
    var m := Used(s, ReadGroups(s, k));
    var c := s[..m] + t;
    if s[0] >= 128 {
      GroupsConsume(s[1..], k + 1);
      assert s[1..][..m - 1] == s[1..m];
      assert c[1..] == s[1..][..m - 1] + t;
      GroupsFrame(s[1..], k + 1, t);
    }
  }

  /** A VarInt cut short before its last byte fails with end of stream. */
  lemma {:induction false} GroupsTruncated(s: seq<byte>, k: nat, p: seq<byte>)
    requires k <= 5 && ReadGroups(s, k).Ok?
    requires |p| < Used(s, ReadGroups(s, k)) && p == s[..|p|]
    ensures ReadGroups(p, k) == Err(EndOfStream)
    decreases 5 - k
  {
    GroupsConsume(s, k);
    if |p| > 0 {
      assert s[0] >= 128;
      GroupsConsume(s[1..], k + 1);
      GroupsTruncated(s[1..], k + 1, p[1..]);
    }
  }

  lemma VarIntFrame(s: seq<byte>, t: seq<byte>)
    requires ReadVarInt(s).Ok?
    ensures ReadVarInt(s[..Used(s, ReadVarInt(s))] + t) == Ok((ReadVarInt(s).value.0, t))
  {
    GroupsFrame(s, 0, t);
  }

  lemma VarIntTruncated(s: seq<byte>, p: seq<byte>)
    requires ReadVarInt(s).Ok?
    requires |p| < Used(s, ReadVarInt(s)) && p == s[..|p|]
    ensures ReadVarInt(p) == Err(EndOfStream)
  {
    GroupsTruncated(s, 0, p);
  }

  // ---------------------------------------------------------------------------
  // Raw bytes, strings, booleans

  /** `readFully` of `n` bytes. */
  function ReadBytes(s: seq<byte>, n: nat): (r: Read<seq<byte>>)
    ensures r.Ok? <==> n <= |s|
    ensures r.Ok? ==> r.value.0 + r.value.1 == s && |r.value.0| == n
    ensures r.Err? ==> r.error == EndOfStream
  {
    if n > |s| then Err(EndOfStream) else Ok((s[..n], s[n..]))
  }

  /**
   * A string: a VarInt byte length, then that many bytes. The string is kept as its
   * UTF-8 bytes; no character decoding is modelled.
   */
  function ReadString(s: seq<byte>): (r: Read<seq<byte>>)
    ensures r.Ok? ==> ConsumedSome(s, r.value.1)
    ensures r.Ok? <==> ReadVarInt(s).Ok? && 0 <= ReadVarInt(s).value.0 <= |ReadVarInt(s).value.1|
    ensures r.Ok? ==> ReadVarInt(s).value == (|r.value.0|, r.value.0 + r.value.1)
  {
    match ReadVarInt(s)
    case Err(e) => Err(e)
    case Ok((len, rest)) =>
      if len < 0 then Err(NegativeLength) else ReadBytes(rest, len)
  }

  function EncodeString(bs: seq<byte>): seq<byte>
    requires |bs| < TWO_31
  {
    EncodeVarInt(|bs|) + bs
  }

  lemma StringRoundTrip(bs: seq<byte>, rest: seq<byte>)
    requires |bs| < TWO_31
    ensures ReadString(EncodeString(bs) + rest) == Ok((bs, rest))
  {
    VarIntRoundTrip(|bs|, bs + rest);
    assert EncodeString(bs) + rest == EncodeVarInt(|bs|) + (bs + rest);
  }

  lemma StringFrame(s: seq<byte>, t: seq<byte>)
    requires ReadString(s).Ok?
    ensures ReadString(s[..Used(s, ReadString(s))] + t) == Ok((ReadString(s).value.0, t))
  {
    var (v, rest) := ReadString(s).value;
    var n := Used(s, ReadVarInt(s));
    var m := Used(s, ReadString(s));
    assert s[n..] == v + rest;
    assert m == n + |v|;
    assert s[n..m] == v;
    VarIntFrame(s, s[n..m] + t);
    assert s[..m] + t == s[..n] + (s[n..m] + t);
    assert (v + t)[..|v|] == v && (v + t)[|v|..] == t;
  }

  lemma StringTruncated(s: seq<byte>, p: seq<byte>)
    requires ReadString(s).Ok?
    requires |p| < Used(s, ReadString(s)) && p == s[..|p|]
    ensures ReadString(p) == Err(EndOfStream)
  {
    var n := Used(s, ReadVarInt(s));
    if |p| < n {
      VarIntTruncated(s, p);
    } else {
      VarIntFrame(s, p[n..]);
      assert p == s[..n] + p[n..];
    }
  }

  /** `DataInputStream.readBoolean`: one byte, true unless it is zero. */
  function ReadBoolean(s: seq<byte>): (r: Read<bool>)
    ensures r.Ok? <==> |s| >= 1
    ensures r.Ok? ==> r.value == (s[0] != 0, s[1..])
  {
    if |s| == 0 then Err(EndOfStream) else Ok((s[0] != 0, s[1..]))
  }

  function EncodeBoolean(b: bool): seq<byte> {
    [if b then 1 else 0]
  }

  lemma BooleanRoundTrip(b: bool, rest: seq<byte>)
    ensures ReadBoolean(EncodeBoolean(b) + rest) == Ok((b, rest))
  {
    assert (EncodeBoolean(b) + rest)[1..] == rest;
  }

  // ---------------------------------------------------------------------------
  // Longs and UUIDs

  /** The unsigned big-endian value of a byte sequence. */
  function BeValue(bs: seq<byte>): (v: nat)
    ensures v < Pow256(|bs|)
  {
    if bs == [] then 0
    else
      var w := BeValue(bs[..|bs| - 1]);
      assert w * 256 + bs[|bs| - 1] as int < Pow256(|bs|) by {
        assert w <= Pow256(|bs| - 1) - 1;
        assert w * 256 <= Pow256(|bs| - 1) * 256 - 256;
      }
      w * 256 + bs[|bs| - 1] as int
  }

  /** The `n` big-endian bytes of `v`. */
  function BeBytes(v: nat, n: nat): (bs: seq<byte>)
    requires v < Pow256(n)
    ensures |bs| == n
  {
    if n == 0 then []
    else
      assert v / 256 < Pow256(n - 1);
      BeBytes(v / 256, n - 1) + [(v % 256) as byte]
  }

  lemma {:induction false} BeRoundTrip(v: nat, n: nat)
    requires v < Pow256(n)
    ensures BeValue(BeBytes(v, n)) == v
  {
    if n > 0 {
      var bs := BeBytes(v, n);
      assert bs[..n - 1] == BeBytes(v / 256, n - 1);
      BeRoundTrip(v / 256, n - 1);
    }
  }

  /** `DataInputStream.readLong`, kept as the unsigned bit pattern. */
  function ReadLong(s: seq<byte>): (r: Read<u64>)
    ensures r.Ok? <==> |s| >= 8
    ensures r.Ok? ==> r.value.1 == s[8..]
    ensures r.Err? ==> r.error == EndOfStream
  {
    if |s| < 8 then Err(EndOfStream)
    else
      assert Pow256(8) == TWO_64;
      Ok((BeValue(s[..8]), s[8..]))
  }

  /** `new UUID(readLong(), readLong())`. */
  function ReadUuid(s: seq<byte>): (r: Read<Uuid>)
    ensures r.Ok? <==> |s| >= 16
    ensures r.Ok? ==> r.value.1 == s[16..]
    ensures r.Ok? ==> r.value.0 == Uuid(BeValue(s[..8]), BeValue(s[8..16]))
    ensures r.Err? ==> r.error == EndOfStream
  {
    match ReadLong(s)
    case Err(e) => Err(e)
    case Ok((most, rest)) =>
      match ReadLong(rest)
      case Err(e) => Err(e)
      case Ok((least, rest')) =>
        assert rest[..8] == s[8..16];
        Ok((Uuid(most, least), rest'))
  }

  function EncodeUuid(u: Uuid): (bs: seq<byte>)
    ensures |bs| == 16
  {
    assert Pow256(8) == TWO_64;
    BeBytes(u.mostSigBits, 8) + BeBytes(u.leastSigBits, 8)
  }

  lemma UuidRoundTrip(u: Uuid, rest: seq<byte>)
    ensures ReadUuid(EncodeUuid(u) + rest) == Ok((u, rest))
  {
    assert Pow256(8) == TWO_64;
    var s := EncodeUuid(u) + rest;
    assert s[..8] == BeBytes(u.mostSigBits, 8);
    assert s[8..][..8] == BeBytes(u.leastSigBits, 8);
    assert s[8..][8..] == rest;
    BeRoundTrip(u.mostSigBits, 8);
    BeRoundTrip(u.leastSigBits, 8);
  }

  lemma UuidFrame(s: seq<byte>, t: seq<byte>)
    requires ReadUuid(s).Ok?
    ensures ReadUuid(s[..16] + t) == Ok((ReadUuid(s).value.0, t))
  {
    var c := s[..16] + t;
    assert c[..8] == s[..8] && c[8..16] == s[8..16] && c[16..] == t;
  }
}
