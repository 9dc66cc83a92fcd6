/**
 * The LoginStart packet a client sends to begin logging in: the player's name, then
 * the UUID the client claims. The packet is an immutable value: its two fields are
 * set once, by either constructor, and the getters return them.
 */
module PacketLoginInLoginStart {
  import opened Wrappers
  import opened DataTypeIO

  /**
   * The packet. `username` holds the UTF-8 bytes of the name; `getUsername` and
   * `getUniqueId` are the fields themselves, and the datatype's constructor is the
   * plain constructor.
   */
  datatype LoginStart = LoginStart(username: seq<byte>, uuid: Uuid)

  /**
   * The decoding constructor: a length-prefixed string, then a UUID, and nothing
   * else. Any reader's failure is the packet's failure.
   */
  function Decode(s: seq<byte>): (r: Read<LoginStart>)
    ensures r.Ok? ==> ConsumedSome(s, r.value.1) && Used(s, r) >= 17
    ensures |s| < 17 ==> r.Err?
    ensures r.Err? && ReadString(s).Ok? ==> r.error == EndOfStream
  {
    match ReadString(s)
    case Err(e) => Err(e)
    case Ok((username, s1)) =>
      match ReadUuid(s1)
      case Err(e) => Err(e)
      case Ok((uuid, s2)) => Ok((LoginStart(username, uuid), s2))
  }

  /** The client's side: the name as a string, then the UUID. */
  function Encode(p: LoginStart): seq<byte>
    requires |p.username| < TWO_31
  {
    EncodeString(p.username) + EncodeUuid(p.uuid)
  }

  /** Decoding an encoded packet gives it back, with whatever follows left unread. */
  lemma DecodeRoundTrip(p: LoginStart, rest: seq<byte>)
    requires |p.username| < TWO_31
    ensures Decode(Encode(p) + rest) == Ok((p, rest))
  {
    var s1 := EncodeUuid(p.uuid) + rest;
    assert Encode(p) + rest == EncodeString(p.username) + s1;
    StringRoundTrip(p.username, s1);
    UuidRoundTrip(p.uuid, rest);
  }

  /**
   * The fields are read in order: the name is the string at the start of the input and
   * the UUID is the sixteen bytes right after it.
   */
  lemma DecodeReadsInOrder(s: seq<byte>)
    requires Decode(s).Ok?
    ensures ReadString(s).Ok?
    ensures Decode(s).value.0.username == ReadString(s).value.0
    ensures Decode(s).value.0.uuid == ReadUuid(ReadString(s).value.1).value.0
    ensures Decode(s).value.1 == ReadString(s).value.1[16..]
  {
  }

  /** Decoding depends only on the bytes it consumes: whatever follows is left unread. */
  lemma DecodeFrame(s: seq<byte>, t: seq<byte>)
    requires Decode(s).Ok?
    ensures Decode(s[..Used(s, Decode(s))] + t) == Ok((Decode(s).value.0, t))
  {
    var n := Used(s, ReadString(s));
    var m := Used(s, Decode(s));
    var s1 := ReadString(s).value.1;
    var c := s[..m] + t;
    assert s1 == s[n..];
    assert c == s[..n] + (s1[..16] + t) by {
      assert s[..m] == s[..n] + s1[..16];
    }
    StringFrame(s, s1[..16] + t);
    UuidFrame(s1, t);
  }

  /** Input that ends before the name or the UUID is complete fails with end of stream. */
  lemma DecodeTruncated(s: seq<byte>, p: seq<byte>)
    requires Decode(s).Ok?
    requires |p| < Used(s, Decode(s)) && p == s[..|p|]
    ensures Decode(p) == Err(EndOfStream)
  {
    var n := Used(s, ReadString(s));
    if |p| < n {
      StringTruncated(s, p);
    } else {
      assert p == s[..n] + p[n..];
      StringFrame(s, p[n..]);
      assert ReadString(p) == Ok((ReadString(s).value.0, p[n..]));
    }
  }
}
