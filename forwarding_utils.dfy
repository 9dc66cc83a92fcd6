/**
 * Velocity modern forwarding: checking the proxy's HMAC signature over a forwarding
 * payload, and decoding the player identity the payload carries.
 *
 * A payload is a 32-byte signature followed by the signed data: a VarInt version
 * (which must be 1), the player's address, UUID and username, and a counted list of
 * profile properties of which only the first one named `textures` is kept.
 *
 * HMAC-SHA256 (RFC 2104 over SHA-256) is a parameter: `hmac(secret, bytes)` is the MAC
 * of `bytes` under the UTF-8 bytes of `secret`.
 */
module ForwardingUtils {
  import opened Wrappers
  import opened DataTypeIO

  /** The forwarding scheme a server is configured for (`NoForwarding` is the source's NONE). */
  datatype Type = VelocityModern | BungeeGuard | BungeeCord | NoForwarding

  /** A skin: the `textures` property's value and its signature. */
  datatype SkinResponse = SkinResponse(skin: seq<byte>, signature: seq<byte>)

  /** The identity a Velocity proxy forwards. Strings are held as their UTF-8 bytes. */
  datatype VelocityModernForwardingData = VelocityModernForwardingData(
    version: int,
    ipAddress: seq<byte>,
    uuid: Uuid,
    username: seq<byte>,
    skinResponse: Option<SkinResponse>)

  /** A profile property as it appears on the wire. */
  datatype Property = Property(name: seq<byte>, value: seq<byte>, signature: Option<seq<byte>>)

  /** Why decoding a forwarding payload failed. */
  datatype ForwardingError =
    | Io(cause: DecodeError)              // an IOException from a reader
    | UnknownVelocityPacket(version: int) // the AssertionError on a version other than 1

  type Hmac = (string, seq<byte>) -> seq<byte>

  const SIGNATURE_LENGTH: nat := 32
  const SUPPORTED_VERSION: int := 1

  /** "textures" in ASCII. */
  const TEXTURES: seq<byte> := [116, 101, 120, 116, 117, 114, 101, 115]

  // ---------------------------------------------------------------------------
  // Signature check

  /**
   * The position of the first secret, in list order, under which `signature` is the
   * MAC of `signed`; None when no secret matches.
   */
  function FirstValidSecret(secrets: seq<string>, hmac: Hmac, signed: seq<byte>, signature: seq<byte>): (r: Option<nat>)
    ensures r.Some? <==> exists i :: 0 <= i < |secrets| && hmac(secrets[i], signed) == signature
    ensures r.Some? ==> r.value < |secrets| && hmac(secrets[r.value], signed) == signature
    ensures r.Some? ==> forall j :: 0 <= j < r.value ==> hmac(secrets[j], signed) != signature
  {
    if secrets == [] then None
    else if hmac(secrets[0], signed) == signature then Some(0)
    else
      match FirstValidSecret(secrets[1..], hmac, signed, signature)
      case None => None
      case Some(i) => Some(i + 1)
  }

  /** Why `validateVelocityModernResponse` raised instead of answering. */
  datatype ValidationError =
    | ShortPayload(cause: DecodeError) // `readFully` of the 32-byte signature hit end of stream
    | EmptySecret                      // `SecretKeySpec` refuses an empty key (IllegalArgumentException)

  /**
   * Where the secret loop stops: the first position whose secret is empty (building the
   * key throws) or MACs `signed` to `signature` (the loop breaks), or the end of the list.
   */
  function SecretLoopStop(secrets: seq<string>, hmac: Hmac, signed: seq<byte>, signature: seq<byte>): (k: nat)
    ensures k <= |secrets|
    ensures forall j :: 0 <= j < k ==> secrets[j] != "" && hmac(secrets[j], signed) != signature
    ensures k < |secrets| ==> secrets[k] == "" || hmac(secrets[k], signed) == signature
  {
    if secrets == [] then 0
    else if secrets[0] == "" || hmac(secrets[0], signed) == signature then 0
    else 1 + SecretLoopStop(secrets[1..], hmac, signed, signature)
  }

  /**
   * `validateVelocityModernResponse`: the first 32 bytes are the signature; the secrets
   * are tried in list order, and the payload is accepted at the first one that MACs the
   * remaining bytes to exactly that signature. Fewer than 32 bytes raise end of stream,
   * and reaching an empty secret before any match raises from the key constructor. The
   * ghost result counts the MACs computed.
   */
  method ValidateVelocityModernResponse(data: seq<byte>, secrets: seq<string>, hmac: Hmac)
    returns (r: Result<bool, ValidationError>, ghost macsComputed: nat)
    ensures r == Err(ShortPayload(EndOfStream)) <==> |data| < SIGNATURE_LENGTH
    ensures |data| >= SIGNATURE_LENGTH ==>
      var k := SecretLoopStop(secrets, hmac, data[32..], data[..32]);
      && (r == Err(EmptySecret) <==> k < |secrets| && secrets[k] == "")
      && (r == Ok(true) <==> k < |secrets| && secrets[k] != "")
      && (r == Ok(false) <==> k == |secrets|)
    ensures macsComputed == if |data| < SIGNATURE_LENGTH then 0
      else var k := SecretLoopStop(secrets, hmac, data[32..], data[..32]);
           if k < |secrets| && secrets[k] != "" then k + 1 else k
  {
    if |data| < SIGNATURE_LENGTH {
      return Err(ShortPayload(EndOfStream)), 0;
    }
    var signature := data[..SIGNATURE_LENGTH];
    var signed := data[SIGNATURE_LENGTH..];
    var foundValid := false;
    var i := 0;
    while i < |secrets|
      invariant 0 <= i <= |secrets|
      invariant forall j :: 0 <= j < i ==> secrets[j] != "" && hmac(secrets[j], signed) != signature
    {
      if secrets[i] == "" {
        SecretLoopStopIsLeast(secrets, hmac, signed, signature, i);
        return Err(EmptySecret), i;
      }
      var sig := hmac(secrets[i], signed);
      if sig == signature {
        foundValid := true;
        break;
      }
      i := i + 1;
    }
    SecretLoopStopIsLeast(secrets, hmac, signed, signature, i);
    macsComputed := if foundValid then i + 1 else i;
    r := Ok(foundValid);
  }

  /** Any position before which the loop goes on, and at which it stops (or the end), is where it stops. */
  lemma {:induction false} SecretLoopStopIsLeast(secrets: seq<string>, hmac: Hmac, signed: seq<byte>, signature: seq<byte>, k: nat)
    requires k <= |secrets|
    requires forall j :: 0 <= j < k ==> secrets[j] != "" && hmac(secrets[j], signed) != signature
    requires k < |secrets| ==> secrets[k] == "" || hmac(secrets[k], signed) == signature
    ensures SecretLoopStop(secrets, hmac, signed, signature) == k
  {
    if k > 0 {
      SecretLoopStopIsLeast(secrets[1..], hmac, signed, signature, k - 1);
    }
  }

  /**
   * With no empty secret configured, the loop never raises: it accepts exactly when
   * some secret matches, and stops at the first such secret.
   */
  lemma NonEmptySecretsValidate(secrets: seq<string>, hmac: Hmac, signed: seq<byte>, signature: seq<byte>)
    requires forall j :: 0 <= j < |secrets| ==> secrets[j] != ""
    ensures var k := SecretLoopStop(secrets, hmac, signed, signature);
      && (k < |secrets| <==> FirstValidSecret(secrets, hmac, signed, signature).Some?)
      && (k < |secrets| ==> FirstValidSecret(secrets, hmac, signed, signature) == Some(k))
  {
    var k := SecretLoopStop(secrets, hmac, signed, signature);
    FirstValidSecretIsLeast(secrets, hmac, signed, signature, k);
  }

  /** An empty secret ahead of every matching one makes the check raise, whatever follows it. */
  lemma EmptySecretFirstRaises(secrets: seq<string>, hmac: Hmac, signed: seq<byte>, signature: seq<byte>, e: nat)
    requires e < |secrets| && secrets[e] == ""
    requires forall j :: 0 <= j < e ==> secrets[j] != "" && hmac(secrets[j], signed) != signature
    ensures SecretLoopStop(secrets, hmac, signed, signature) == e
  {
    SecretLoopStopIsLeast(secrets, hmac, signed, signature, e);
  }

  /** Any position before which no secret matches, and at which one does (or the end), is the search's answer. */
  lemma FirstValidSecretIsLeast(secrets: seq<string>, hmac: Hmac, signed: seq<byte>, signature: seq<byte>, k: nat)
    requires k <= |secrets|
    requires forall j :: 0 <= j < k ==> hmac(secrets[j], signed) != signature
    requires k < |secrets| ==> hmac(secrets[k], signed) == signature
    ensures FirstValidSecret(secrets, hmac, signed, signature) == if k < |secrets| then Some(k) else None
  {
  }

  /** With no secrets configured, no payload is ever accepted. */
  lemma NoSecretsRejectsAll(hmac: Hmac, signed: seq<byte>, signature: seq<byte>)
    ensures FirstValidSecret([], hmac, signed, signature) == None
  {
  }

  // ---------------------------------------------------------------------------
  // Payload decoding (specification)

  /** `skipBytes(32)`: skips the signature, or everything when the payload is shorter. */
  function SkipSignature(data: seq<byte>): (s: seq<byte>)
    ensures |data| >= SIGNATURE_LENGTH ==> s == data[SIGNATURE_LENGTH..]
    ensures |data| < SIGNATURE_LENGTH ==> s == []
  {
    if |data| < SIGNATURE_LENGTH then [] else data[SIGNATURE_LENGTH..]
  }

  /** One property: name, value, a has-signature boolean and, if set, the signature. */
  function ReadProperty(s: seq<byte>): Read<Property>
  {
    match ReadString(s)
    case Err(e) => Err(e)
    case Ok((name, s1)) =>
      match ReadString(s1)
      case Err(e) => Err(e)
      case Ok((value, s2)) =>
        match ReadBoolean(s2)
        case Err(e) => Err(e)
        case Ok((included, s3)) =>
          if !included then Ok((Property(name, value, None), s3))
          else
            match ReadString(s3)
            case Err(e) => Err(e)
            case Ok((signature, s4)) => Ok((Property(name, value, Some(signature)), s4))
  }

  /** The skin a property stands for; a missing signature is the empty string. */
  function SkinOf(p: Property): SkinResponse {
    SkinResponse(p.value, if p.signature.Some? then p.signature.value else [])
  }

  /** A reader of one property; the scan below is written for any of them. */
  type PropertyReader = seq<byte> -> Read<Property>

  /**
   * Reads up to `count` properties with `read` and stops after the first one named
   * `textures`, giving its skin (None when there is none) and the unread rest.
   */
  function ScanWith(read: PropertyReader, s: seq<byte>, count: int): Result<(Option<SkinResponse>, seq<byte>), DecodeError>
    decreases if count < 0 then 0 else count
  {
    if count <= 0 then Ok((None, s))
    else
      match read(s)
      case Err(e) => Err(e)
      case Ok((p, rest)) =>
        if p.name == TEXTURES then Ok((Some(SkinOf(p)), rest))
        else ScanWith(read, rest, count - 1)
  }

  /** The property scan of the payload decoder. */
  function ScanProperties(s: seq<byte>, count: int): Result<(Option<SkinResponse>, seq<byte>), DecodeError>
  {
    ScanWith(ReadProperty, s, count)
  }

  /** The fields before the properties: version, address, UUID, username and the property count. */
  datatype Header = Header(version: int, address: seq<byte>, uuid: Uuid, username: seq<byte>, count: int)

  function ReadHeader(s: seq<byte>): Result<(Header, seq<byte>), ForwardingError>
  {
    match ReadVarInt(s)
    case Err(e) => Err(Io(e))
    case Ok((version, s1)) =>
      if version != SUPPORTED_VERSION then Err(UnknownVelocityPacket(version))
      else
        match ReadString(s1)
        case Err(e) => Err(Io(e))
        case Ok((address, s2)) =>
          match ReadUuid(s2)
          case Err(e) => Err(Io(e))
          case Ok((uuid, s3)) =>
            match ReadString(s3)
            case Err(e) => Err(Io(e))
            case Ok((username, s4)) =>
              match ReadVarInt(s4)
              case Err(e) => Err(Io(e))
              case Ok((count, s5)) => Ok((Header(version, address, uuid, username, count), s5))
  }

  /** The identity a header and a property scan make up. */
  function Assemble(h: Header, scan: Result<(Option<SkinResponse>, seq<byte>), DecodeError>): Result<VelocityModernForwardingData, ForwardingError>
  {
    match scan
    case Err(e) => Err(Io(e))
    case Ok((skin, _)) => Ok(VelocityModernForwardingData(h.version, h.address, h.uuid, h.username, skin))
  }

  /** What `getVelocityDataFrom` yields for a payload. */
  function VelocityDataFrom(data: seq<byte>): Result<VelocityModernForwardingData, ForwardingError>
  {
    match ReadHeader(SkipSignature(data))
    case Err(e) => Err(e)
    case Ok((h, rest)) => Assemble(h, ScanProperties(rest, h.count))
  }

  // ---------------------------------------------------------------------------
  // Payload decoding (the source's loop)

  /**
   * `getVelocityDataFrom`: skips the signature (without checking it), reads the header
   * and then the properties one by one, breaking out at the first `textures`.
   */
  method GetVelocityDataFrom(data: seq<byte>) returns (r: Result<VelocityModernForwardingData, ForwardingError>)
    ensures r == VelocityDataFrom(data)
  {
    var input := SkipSignature(data);
    var header := ReadHeader(input);
    if header.Err? {
      return Err(header.error);
    }
    var h := header.value.0;
    input := header.value.1;
    ghost var scan := ScanProperties(input, h.count);

    var response: Option<SkinResponse> := None;
    var i := 0;
    while i < h.count
      invariant 0 <= i <= if h.count < 0 then 0 else h.count
      invariant scan == ScanProperties(input, h.count - i)
      invariant response.None?
    {
      var property := ReadProperty(input);
      if property.Err? {
        return Err(Io(property.error));
      }
      var (p, next) := property.value;
      input := next;
      if p.name == TEXTURES {
        response := Some(SkinOf(p));
        assert scan == Ok((response, input));
        break;
      }
      i := i + 1;
    }
    r := Ok(VelocityModernForwardingData(h.version, h.address, h.uuid, h.username, response));
  }

  // ---------------------------------------------------------------------------
  // Payload encoding, the proxy's side, and what decoding promises about it

  predicate WireString(bs: seq<byte>) {
    |bs| < TWO_31
  }

  predicate WellFormedProperty(p: Property) {
    WireString(p.name) && WireString(p.value) && (p.signature.Some? ==> WireString(p.signature.value))
  }

  predicate WellFormedProperties(ps: seq<Property>) {
    forall i :: 0 <= i < |ps| ==> WellFormedProperty(ps[i])
  }

  predicate WellFormedHeader(h: Header) {
    IsInt32(h.version) && IsInt32(h.count) && WireString(h.address) && WireString(h.username)
  }

  function EncodeProperty(p: Property): seq<byte>
    requires WellFormedProperty(p)
  {
    EncodeString(p.name) + EncodeString(p.value) + EncodeBoolean(p.signature.Some?)
      + (if p.signature.Some? then EncodeString(p.signature.value) else [])
  }

  function EncodeProperties(ps: seq<Property>): seq<byte>
    requires WellFormedProperties(ps)
  {
    if ps == [] then [] else EncodeProperty(ps[0]) + EncodeProperties(ps[1..])
  }

  function EncodeHeader(h: Header): seq<byte>
    requires WellFormedHeader(h)
  {
    EncodeVarInt(h.version) + EncodeString(h.address) + EncodeUuid(h.uuid)
      + EncodeString(h.username) + EncodeVarInt(h.count)
  }

  /** The position of the first property named `textures`. */
  function FirstTextures(ps: seq<Property>): (r: Option<nat>)
    ensures r.Some? ==> r.value < |ps| && ps[r.value].name == TEXTURES
    ensures r.Some? ==> forall j :: 0 <= j < r.value ==> ps[j].name != TEXTURES
    ensures r.None? ==> forall j :: 0 <= j < |ps| ==> ps[j].name != TEXTURES
  {
    if ps == [] then None
    else if ps[0].name == TEXTURES then Some(0)
    else match FirstTextures(ps[1..])
      case None => None
      case Some(k) => Some(k + 1)
  }

  /** The skin the decoder should report for a property list. */
  function ExpectedSkin(ps: seq<Property>): Option<SkinResponse> {
    match FirstTextures(ps)
    case None => None
    case Some(k) => Some(SkinOf(ps[k]))
  }

  lemma PropertyRoundTrip(p: Property, rest: seq<byte>)
    requires WellFormedProperty(p)
    ensures ReadProperty(EncodeProperty(p) + rest) == Ok((p, rest))
  {
    var s3 := (if p.signature.Some? then EncodeString(p.signature.value) else []) + rest;
    var s2 := EncodeBoolean(p.signature.Some?) + s3;
    var s1 := EncodeString(p.value) + s2;
    assert EncodeProperty(p) + rest == EncodeString(p.name) + s1;
    StringRoundTrip(p.name, s1);
    StringRoundTrip(p.value, s2);
    BooleanRoundTrip(p.signature.Some?, s3);
    if p.signature.Some? {
      StringRoundTrip(p.signature.value, rest);
    }
  }

  lemma HeaderRoundTrip(h: Header, rest: seq<byte>)
    requires WellFormedHeader(h) && h.version == SUPPORTED_VERSION
    ensures ReadHeader(EncodeHeader(h) + rest) == Ok((h, rest))
  {
    var s4 := EncodeVarInt(h.count) + rest;
    var s3 := EncodeString(h.username) + s4;
    var s2 := EncodeUuid(h.uuid) + s3;
    var s1 := EncodeString(h.address) + s2;
    assert EncodeHeader(h) + rest == EncodeVarInt(h.version) + s1;
    VarIntRoundTrip(h.version, s1);
    StringRoundTrip(h.address, s2);
    UuidRoundTrip(h.uuid, s3);
    StringRoundTrip(h.username, s4);
    VarIntRoundTrip(h.count, rest);
  }

  /** `s` is, property by property as `read` sees it, the list `ps` followed by `junk`. */
  ghost predicate ParsesAs(read: PropertyReader, s: seq<byte>, ps: seq<Property>, junk: seq<byte>)
    decreases |ps|
  {
    if ps == [] then s == junk
    else
      var r := read(s);
      r.Ok? && r.value.0 == ps[0] && ParsesAs(read, r.value.1, ps[1..], junk)
  }

  /** A scan reaching past the first `textures`, at `k`, gives its skin whatever lies beyond it. */
  lemma {:induction false} ScanFindsFirstTextures(read: PropertyReader, s: seq<byte>, ps: seq<Property>, k: nat, count: int, junk: seq<byte>)
    requires ParsesAs(read, s, ps, junk)
    requires k < |ps| && k < count
    requires ps[k].name == TEXTURES
    requires forall i :: 0 <= i < k ==> ps[i].name != TEXTURES
    ensures ScanWith(read, s, count).Ok?
    ensures ScanWith(read, s, count).value.0 == Some(SkinOf(ps[k]))
    decreases k
  {
    if k > 0 {
      assert ps[0].name != TEXTURES;
      ScanFindsFirstTextures(read, read(s).value.1, ps[1..], k - 1, count - 1, junk);
    }
  }

  lemma {:induction false} EncodedPropertiesParse(ps: seq<Property>, junk: seq<byte>)
    requires WellFormedProperties(ps)
    ensures ParsesAs(ReadProperty, EncodeProperties(ps) + junk, ps, junk)
  {
    if ps == [] {
      assert EncodeProperties(ps) + junk == junk;
    } else {
      var tail := EncodeProperties(ps[1..]) + junk;
      assert EncodeProperties(ps) + junk == EncodeProperty(ps[0]) + tail;
      PropertyRoundTrip(ps[0], tail);
      EncodedPropertiesParse(ps[1..], junk);
    }
  }

  /** A scan over properties none of which is named `textures` reads them all and reports no skin. */
  lemma {:induction false} ScanWithoutTextures(read: PropertyReader, s: seq<byte>, ps: seq<Property>, junk: seq<byte>)
    requires ParsesAs(read, s, ps, junk)
    requires forall i :: 0 <= i < |ps| ==> ps[i].name != TEXTURES
    ensures ScanWith(read, s, |ps|) == Ok((None, junk))
    decreases |ps|
  {
    if ps != [] {
      ScanWithoutTextures(read, read(s).value.1, ps[1..], junk);
    }
  }

  /**
   * A scan whose last property is the first one named `textures` stops right after it,
   * whatever follows and however large the announced count.
   */
  lemma {:induction false} ScanStopsAtTextures(read: PropertyReader, s: seq<byte>, ps: seq<Property>, count: int, junk: seq<byte>)
    requires |ps| >= 1 && count >= |ps|
    requires ParsesAs(read, s, ps, junk)
    requires ps[|ps| - 1].name == TEXTURES
    requires forall i :: 0 <= i < |ps| - 1 ==> ps[i].name != TEXTURES
    ensures ScanWith(read, s, count) == Ok((Some(SkinOf(ps[|ps| - 1])), junk))
    decreases |ps|
  {
    if |ps| > 1 {
      assert ps[0].name != TEXTURES;
      ScanStopsAtTextures(read, read(s).value.1, ps[1..], count - 1, junk);
    }
  }

  /** Past a signature and a header the proxy built, decoding is the property scan. */
  lemma DecodeAfterHeader(signature: seq<byte>, h: Header, props: seq<byte>, junk: seq<byte>)
    requires |signature| == SIGNATURE_LENGTH
    requires WellFormedHeader(h) && h.version == SUPPORTED_VERSION
    ensures VelocityDataFrom(signature + EncodeHeader(h) + props + junk) == Assemble(h, ScanProperties(props + junk, h.count))
  {
    var data := signature + EncodeHeader(h) + props + junk;
    assert SkipSignature(data) == EncodeHeader(h) + (props + junk);
    HeaderRoundTrip(h, props + junk);
  }

  /** Encoded properties none of which is named `textures` are all read and give no skin. */
  lemma EncodedScanWithoutTextures(ps: seq<Property>, junk: seq<byte>)
    requires WellFormedProperties(ps)
    requires forall i :: 0 <= i < |ps| ==> ps[i].name != TEXTURES
    ensures ScanProperties(EncodeProperties(ps) + junk, |ps|) == Ok((None, junk))
  {
    EncodedPropertiesParse(ps, junk);
    ScanWithoutTextures(ReadProperty, EncodeProperties(ps) + junk, ps, junk);
  }

  /** Encoded properties whose first `textures` is at `k` give its skin, once the count reaches past `k`. */
  lemma EncodedScanStopsAt(ps: seq<Property>, k: nat, count: int, junk: seq<byte>)
    requires WellFormedProperties(ps)
    requires k < |ps| && k < count
    requires ps[k].name == TEXTURES
    requires forall i :: 0 <= i < k ==> ps[i].name != TEXTURES
    ensures ScanProperties(EncodeProperties(ps) + junk, count).Ok?
    ensures ScanProperties(EncodeProperties(ps) + junk, count).value.0 == Some(SkinOf(ps[k]))
  {
    EncodedPropertiesParse(ps, junk);
    ScanFindsFirstTextures(ReadProperty, EncodeProperties(ps) + junk, ps, k, count, junk);
  }

  /** Encoded properties ending in the first `textures` are scanned exactly, whatever the count beyond them. */
  lemma EncodedScanStops(ps: seq<Property>, count: int, junk: seq<byte>)
    requires WellFormedProperties(ps)
    requires count >= |ps| >= 1
    requires ps[|ps| - 1].name == TEXTURES
    requires forall i :: 0 <= i < |ps| - 1 ==> ps[i].name != TEXTURES
    ensures ScanProperties(EncodeProperties(ps) + junk, count) == Ok((Some(SkinOf(ps[|ps| - 1])), junk))
  {
    EncodedPropertiesParse(ps, junk);
    ScanStopsAtTextures(ReadProperty, EncodeProperties(ps) + junk, ps, count, junk);
  }

  /**
   * Decoding a payload the proxy built yields version 1, the address, UUID and
   * username unchanged, and the skin of the first `textures` property (None when
   * there is none), whatever the signature bytes are.
   */
  lemma VelocityDataRoundTrip(signature: seq<byte>, h: Header, ps: seq<Property>, junk: seq<byte>)
    requires |signature| == SIGNATURE_LENGTH
    requires WellFormedHeader(h) && h.version == SUPPORTED_VERSION && h.count == |ps|
    requires WellFormedProperties(ps)
    ensures VelocityDataFrom(signature + EncodeHeader(h) + EncodeProperties(ps) + junk)
            == Ok(VelocityModernForwardingData(SUPPORTED_VERSION, h.address, h.uuid, h.username, ExpectedSkin(ps)))
  {
    DecodeAfterHeader(signature, h, EncodeProperties(ps), junk);
    match FirstTextures(ps)
    case None =>
      EncodedScanWithoutTextures(ps, junk);
    case Some(k) =>
      EncodedScanStopsAt(ps, k, |ps|, junk);
  }

  /**
   * Nothing after the first `textures` property is read: its bytes may be anything,
   * even when the count announces more properties than are there.
   */
  lemma NothingReadAfterTextures(signature: seq<byte>, h: Header, ps: seq<Property>, junk: seq<byte>)
    requires |signature| == SIGNATURE_LENGTH
    requires WellFormedHeader(h) && h.version == SUPPORTED_VERSION && h.count >= |ps| >= 1
    requires WellFormedProperties(ps)
    requires ps[|ps| - 1].name == TEXTURES
    requires forall i :: 0 <= i < |ps| - 1 ==> ps[i].name != TEXTURES
    ensures VelocityDataFrom(signature + EncodeHeader(h) + EncodeProperties(ps) + junk)
            == Ok(VelocityModernForwardingData(SUPPORTED_VERSION, h.address, h.uuid, h.username, Some(SkinOf(ps[|ps| - 1]))))
  {
    DecodeAfterHeader(signature, h, EncodeProperties(ps), junk);
    EncodedScanStops(ps, h.count, junk);
  }

  /** A property count of zero or less reads no property and reports no skin. */
  lemma NonPositiveCountReadsNoProperty(signature: seq<byte>, h: Header, junk: seq<byte>)
    requires |signature| == SIGNATURE_LENGTH
    requires WellFormedHeader(h) && h.version == SUPPORTED_VERSION && h.count <= 0
    ensures VelocityDataFrom(signature + EncodeHeader(h) + junk)
            == Ok(VelocityModernForwardingData(SUPPORTED_VERSION, h.address, h.uuid, h.username, None))
  {
    assert SkipSignature(signature + EncodeHeader(h) + junk) == EncodeHeader(h) + junk;
    HeaderRoundTrip(h, junk);
  }

  /** The decoder does not look at the signature: replacing it never changes the result. */
  lemma DecodingIgnoresSignature(sig1: seq<byte>, sig2: seq<byte>, signed: seq<byte>)
    requires |sig1| == |sig2| == SIGNATURE_LENGTH
    ensures VelocityDataFrom(sig1 + signed) == VelocityDataFrom(sig2 + signed)
  {
    assert SkipSignature(sig1 + signed) == signed == SkipSignature(sig2 + signed);
  }

  /** A payload shorter than the signature leaves nothing to read: decoding fails at the version. */
  lemma ShortPayloadFails(data: seq<byte>)
    requires |data| < SIGNATURE_LENGTH
    ensures VelocityDataFrom(data) == Err(Io(EndOfStream))
  {
  }

  /** A version other than 1 is rejected before anything else is read. */
  lemma UnsupportedVersionRejected(signature: seq<byte>, signed: seq<byte>)
    requires |signature| == SIGNATURE_LENGTH
    requires ReadVarInt(signed).Ok? && ReadVarInt(signed).value.0 != SUPPORTED_VERSION
    ensures VelocityDataFrom(signature + signed) == Err(UnknownVelocityPacket(ReadVarInt(signed).value.0))
  {
    assert SkipSignature(signature + signed) == signed;
  }
}
