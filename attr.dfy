/** The attribute registry of `src/attr.rs`: the closed set of attribute
    variants with their IANA type codes (RFC 5389, RFC 5766, RFC 8445 / RFC 5245),
    the payload shapes the flattened view consumes, the per-attribute context,
    and the attribute value codec, which the model keeps abstract. */
module Attribute {
  import opened Wire
  import opened Wrappers

  /** The known attribute kinds, one per variant of `StunAttr` except `Other`. */
  datatype Kind =
    // RFC 5389
    | Mapped | Username | Integrity | Error | UnknownAttributes | Realm | Nonce
    | XMapped | Software | AlternateServer | Fingerprint
    // RFC 5766
    | Channel | Lifetime | XPeer | Data | XRelayed | EvenPort | RequestedTransport
    | DontFragment | ReservationToken
    // RFC 8445 / RFC 5245
    | Priority | UseCandidate | IceControlled | IceControlling

  /** The IANA attribute type of each known kind. */
  function Code(k: Kind): u16
  {
    match k
    case Mapped => 0x0001
    case Username => 0x0006
    case Integrity => 0x0008
    case Error => 0x0009
    case UnknownAttributes => 0x000A
    case Realm => 0x0014
    case Nonce => 0x0015
    case XMapped => 0x0020
    case Software => 0x8022
    case AlternateServer => 0x8023
    case Fingerprint => 0x8028
    case Channel => 0x000C
    case Lifetime => 0x000D
    case XPeer => 0x0012
    case Data => 0x0013
    case XRelayed => 0x0016
    case EvenPort => 0x0018
    case RequestedTransport => 0x0019
    case DontFragment => 0x001A
    case ReservationToken => 0x0022
    case Priority => 0x0024
    case UseCandidate => 0x0025
    case IceControlled => 0x8029
    case IceControlling => 0x802A
  }

  /** The registry's dispatch on a 16-bit type: the known kind it names, or
      `None` for a type that is kept verbatim as `Other`. */
  function KindOfCode(c: u16): Option<Kind>
  {
    if c == 0x0001 then Some(Kind.Mapped)
    else if c == 0x0006 then Some(Kind.Username)
    else if c == 0x0008 then Some(Kind.Integrity)
    else if c == 0x0009 then Some(Kind.Error)
    else if c == 0x000A then Some(Kind.UnknownAttributes)
    else if c == 0x0014 then Some(Kind.Realm)
    else if c == 0x0015 then Some(Kind.Nonce)
    else if c == 0x0020 then Some(Kind.XMapped)
    else if c == 0x8022 then Some(Kind.Software)
    else if c == 0x8023 then Some(Kind.AlternateServer)
    else if c == 0x8028 then Some(Kind.Fingerprint)
    else if c == 0x000C then Some(Kind.Channel)
    else if c == 0x000D then Some(Kind.Lifetime)
    else if c == 0x0012 then Some(Kind.XPeer)
    else if c == 0x0013 then Some(Kind.Data)
    else if c == 0x0016 then Some(Kind.XRelayed)
    else if c == 0x0018 then Some(Kind.EvenPort)
    else if c == 0x0019 then Some(Kind.RequestedTransport)
    else if c == 0x001A then Some(Kind.DontFragment)
    else if c == 0x0022 then Some(Kind.ReservationToken)
    else if c == 0x0024 then Some(Kind.Priority)
    else if c == 0x0025 then Some(Kind.UseCandidate)
    else if c == 0x8029 then Some(Kind.IceControlled)
    else if c == 0x802A then Some(Kind.IceControlling)
    else None
  }

  /** The code table and the dispatch are inverse to each other. */
  lemma CodeTableInverse(k: Kind, c: u16)
    ensures KindOfCode(Code(k)) == Some(k)
    ensures KindOfCode(c) == Some(k) ==> Code(k) == c
  {
  }

  /** No two known kinds share a type code. */
  lemma CodesDistinct(k1: Kind, k2: Kind)
    ensures Code(k1) == Code(k2) ==> k1 == k2
  {
    CodeTableInverse(k1, Code(k1));
    CodeTableInverse(k2, Code(k2));
  }

  /** A socket address; its conversions are library code and stay opaque. */
  datatype SocketAddr = SocketAddr(ip: seq<byte>, port: u16)

  /** The 20-byte HMAC-SHA1 value of MESSAGE-INTEGRITY (section 15.4 of RFC 5389). */
  type Hmac = s: seq<byte> | |s| == 20 witness seq(20, _ => 0)

  /** The per-attribute view of the enclosing message handed to the codec: the
      20 header bytes, the exact attribute bytes before this attribute, this
      attribute's unpadded TLV length, and whether the XOR key is zeroed. */
  datatype AttrContext = AttrContext(
    header: seq<byte>,
    attrsPrefix: seq<byte>,
    attrLen: u16,
    zeroXorBytes: bool)

  /** MESSAGE-INTEGRITY: a received value whose verification is deferred, or
      key material to sign with when encoding. */
  datatype MessageIntegrity =
    | Check(mac: Hmac, ctx: AttrContext)
    | Set(key: seq<byte>)

  /** ERROR-CODE payload. */
  datatype ErrorCode = ErrorCode(code: u16, message: string)

  /** UNKNOWN-ATTRIBUTES payload: raw bytes as received, or a list of types. */
  datatype UnknownList = ParseCodes(raw: seq<byte>) | ListCodes(codes: seq<u16>)

  /** DATA payload: a slice borrowed from the input, or a value of the other
      representation, which the flattened view does not pick up. */
  datatype DataPayload = Slice(bytes: seq<byte>) | Owned(owned: seq<byte>)

  /** EVEN-PORT payload (the R bit). */
  datatype EvenPortFlag = EvenPortFlag(reserve: bool)

  /** REQUESTED-TRANSPORT payload (the protocol number). */
  datatype Transport = Transport(protocol: byte)

  /** `StunAttr`: one variant per known attribute, and `Other` for any type code
      the registry does not know, kept verbatim. */
  datatype Attr =
    | Mapped(addr: SocketAddr)
    | Username(name: string)
    | Integrity(integrity: MessageIntegrity)
    | Error(error: ErrorCode)
    | UnknownAttributes(unknown: UnknownList)
    | Realm(realm: string)
    | Nonce(nonce: string)
    | XMapped(addr: SocketAddr)
    | Software(software: string)
    | AlternateServer(addr: SocketAddr)
    | Fingerprint
    | Channel(channel: u16)
    | Lifetime(lifetime: u32)
    | XPeer(addr: SocketAddr)
    | Data(data: DataPayload)
    | XRelayed(addr: SocketAddr)
    | EvenPort(evenPort: EvenPortFlag)
    | RequestedTransport(transport: Transport)
    | DontFragment
    | ReservationToken(token: u32)
    | Priority(priority: u32)
    | UseCandidate
    | IceControlled(tiebreaker: u64)
    | IceControlling(tiebreaker: u64)
    | Other(code: u16, value: seq<byte>)

  /** The known kind of an attribute, `None` for `Other`. */
  function KindOf(a: Attr): Option<Kind>
  {
    match a
    case Mapped(_) => Some(Kind.Mapped)
    case Username(_) => Some(Kind.Username)
    case Integrity(_) => Some(Kind.Integrity)
    case Error(_) => Some(Kind.Error)
    case UnknownAttributes(_) => Some(Kind.UnknownAttributes)
    case Realm(_) => Some(Kind.Realm)
    case Nonce(_) => Some(Kind.Nonce)
    case XMapped(_) => Some(Kind.XMapped)
    case Software(_) => Some(Kind.Software)
    case AlternateServer(_) => Some(Kind.AlternateServer)
    case Fingerprint => Some(Kind.Fingerprint)
    case Channel(_) => Some(Kind.Channel)
    case Lifetime(_) => Some(Kind.Lifetime)
    case XPeer(_) => Some(Kind.XPeer)
    case Data(_) => Some(Kind.Data)
    case XRelayed(_) => Some(Kind.XRelayed)
    case EvenPort(_) => Some(Kind.EvenPort)
    case RequestedTransport(_) => Some(Kind.RequestedTransport)
    case DontFragment => Some(Kind.DontFragment)
    case ReservationToken(_) => Some(Kind.ReservationToken)
    case Priority(_) => Some(Kind.Priority)
    case UseCandidate => Some(Kind.UseCandidate)
    case IceControlled(_) => Some(Kind.IceControlled)
    case IceControlling(_) => Some(Kind.IceControlling)
    case Other(_, _) => None
  }

  /** The attribute type written on the wire: total over all variants; `Other`
      gives back the code it carries, a known variant the code of its kind. */
  function TypeCode(a: Attr): (c: u16)
    ensures a.Other? ==> c == a.code
    ensures !a.Other? ==> KindOf(a).Some? && KindOfCode(c) == KindOf(a)
  {
    match KindOf(a)
    case Some(k) => CodeTableInverse(k, Code(k)); Code(k)
    case None => a.code
  }

  /** Attribute-level decode errors (`StunAttrDecodeErr`). */
  datatype AttrErr =
    | AttrLengthExceedsPacketLength
    | ValueUnexpectedLength
    | BadUtf8
    | BadFingerprint

  /** `StunAttr::len`, `StunAttr::decode` and `StunAttr::encode`, whose bodies
      are not part of this model: `len` is the unpadded TLV length, `decode`
      gets the type, the value bytes and the context, and `encode` returns the
      bytes it writes into the slice it is handed. */
  datatype AttrCodec = AttrCodec(
    len: Attr -> u16,
    decode: (u16, seq<byte>, AttrContext) -> Result<Attr, AttrErr>,
    encode: (Attr, AttrContext) -> seq<byte>)

  /** What the callers rely on: a TLV is at least its 4-byte type/length
      header, and `encode` fills exactly `len` bytes. */
  ghost predicate ValidCodec(c: AttrCodec)
  {
    && (forall a :: 4 <= c.len(a))
    && (forall a, ctx :: |c.encode(a, ctx)| == c.len(a))
  }

  /** The codec contract can be met, so the operations that assume it are
      not vacuous. */
  lemma ValidCodecSatisfiable()
    ensures ValidCodec(AttrCodec((a: Attr) => 4, (t: u16, v: seq<byte>, ctx: AttrContext) => Ok(Other(t, v)),
                                 (a: Attr, ctx: AttrContext) => seq(4, _ => 0)))
  {
  }
}
