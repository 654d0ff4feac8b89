/** The message type field of `src/lib.rs`: the message-level decode errors and
    the 14-bit class/method interleaving of section 6 of RFC 5389 (Figure 3):
    method bits M0-M3 at wire bits 0-3, class bit C0 at bit 4, M4-M6 at bits
    5-7, class bit C1 at bit 8 and M7-M11 at bits 9-13. */
module StunType {
  import opened Wire
  import opened Wrappers
  import Attribute

  /** `StunDecodeErr`. */
  datatype DecodeErr =
    | PacketTooSmall
    | TypeOutOfRange
    | UnalignedLength
    | BadMagic
    | AttrErr(err: Attribute.AttrErr)

  /** `StunTyp`: the class, each carrying the method as a Rust `u16`. */
  datatype StunTyp = Req(m: bv16) | Ind(m: bv16) | Res(m: bv16) | Err(m: bv16)

  /** The type of class `cls` (wire bits 4 and 8) carrying method `m`. */
  function FromClass(cls: bv16, m: bv16): (t: StunTyp)
    requires cls & 0x0110 == cls
  {
    if cls == 0x0000 then Req(m)
    else if cls == 0x0010 then Ind(m)
    else if cls == 0x0100 then Res(m)
    else StunTyp.Err(m)
  }

  /** The class bits the encoder ORs into the wire value. */
  function ClassBits(t: StunTyp): (cls: bv16)
    ensures cls & 0x0110 == cls
    ensures t.Req? <==> cls == 0x0000
    ensures t.Ind? <==> cls == 0x0010
    ensures t.Res? <==> cls == 0x0100
    ensures t.Err? <==> cls == 0x0110
  {
    match t
    case Req(_) => 0x0000
    case Ind(_) => 0x0010
    case Res(_) => 0x0100
    case Err(_) => 0x0110
  }

  /** `StunTyp::method`: the method carried by whichever class variant, so a
      type is its class together with its method. */
  function Method(t: StunTyp): (m: bv16)
    ensures FromClass(ClassBits(t), m) == t
  {
    match t
    case Req(m) => m
    case Ind(m) => m
    case Res(m) => m
    case Err(m) => m
  }

  /** `TryFrom<[u8; 2]> for StunTyp` on the big-endian value: values with
      either of the top two bits set are rejected, otherwise the method is
      gathered from its three wire ranges and the class from bits 4 and 8. */
  function Unpack(value: bv16): Result<StunTyp, DecodeErr>
  {
    if value >= 0x4000 then Result.Err(TypeOutOfRange)
    else
      var meth := (value & 0x000F)
        | ((value & 0x00E0) >> 1)
        | ((value & 0x3E00) >> 2);
      var cls := value & 0x0110;
      if cls == 0x0000 then Ok(Req(meth))
      else if cls == 0x0010 then Ok(Ind(meth))
      else if cls == 0x0100 then Ok(Res(meth))
      else if cls == 0x0110 then Ok(StunTyp.Err(meth))
      else assert false; Result.Err(TypeOutOfRange)
  }

  /** `From<&StunTyp> for [u8; 2]` before the byte split, as written: the
      method is masked with the wire-side masks of the decoder (0x00E0 and
      0x3E00) rather than the method-side masks (0x0070 and 0x0F80). */
  function Pack(t: StunTyp): bv16
  {
    var m := Method(t);
    (m & 0x000F) | ((m & 0x00E0) << 1) | ((m & 0x3E00) << 2) | ClassBits(t)
  }

  /** Figure 3 of RFC 5389: the interleaving the decoder inverts. */
  function RfcWire(t: StunTyp): bv16
  {
    var m := Method(t);
    (m & 0x000F) | ((m & 0x0070) << 1) | ((m & 0x0F80) << 2) | ClassBits(t)
  }

  /** Decoding fails exactly on values with a top bit set, and then with
      `TypeOutOfRange`; a decoded method always fits in 12 bits and the class
      is fixed by wire bits 4 and 8 alone (00 Req, 01 Ind, 10 Res, 11 Err), so
      the fall-through arm of the class match is unreachable. */
  lemma UnpackRange(value: bv16)
    ensures Unpack(value).Err? <==> value >= 0x4000
    ensures Unpack(value).Err? ==> Unpack(value).error == TypeOutOfRange
    ensures Unpack(value).Ok? ==> Method(Unpack(value).value) < 0x1000
    ensures Unpack(value).Ok? ==> ClassBits(Unpack(value).value) == value & 0x0110
  {
  }

  /** The decoder is the exact inverse of the RFC interleaving: every valid
      wire value is the RFC encoding of what it decodes to, and every type
      with a 12-bit method decodes back from its RFC encoding. */
  lemma UnpackFollowsRfc(value: bv16, t: StunTyp)
    ensures value < 0x4000 ==> RfcWire(Unpack(value).value) == value
    ensures Method(t) < 0x1000 ==> Unpack(RfcWire(t)) == Ok(t)
  {
  }

  /** The source's encoder agrees with the RFC on a 12-bit method exactly when
      method bits 4, 7 and 8 are clear. */
  lemma PackAgreesWithRfc(t: StunTyp)
    requires Method(t) < 0x1000
    ensures Pack(t) == RfcWire(t) <==> Method(t) & 0x0190 == 0
  {
  }

  /** What the encoder does to a 12-bit method: bits 4 and 8 are dropped and
      bit 7 is ORed into class bit C1. */
  lemma PackLossy(t: StunTyp)
    requires Method(t) < 0x1000
    ensures Unpack(Pack(t)) ==
      Ok(FromClass(ClassBits(t) | ((Method(t) & 0x0080) << 1), Method(t) & 0x0E6F))
  {
  }

  /** Encode then decode gives the type back exactly when the method is below
      0x1000 with bits 4, 7 and 8 clear. */
  lemma PackRoundTrip(t: StunTyp)
    ensures Unpack(Pack(t)) == Ok(t) <==> Method(t) < 0x1000 && Method(t) & 0x0190 == 0
  {
    if Method(t) < 0x1000 {
      PackLossy(t);
    }
  }

  /** Two encodings that do not come back: `Req(0x080)` encodes as 0x0100,
      which decodes as `Res(0)`, and `Req(0x010)` comes back as `Req(0)`. */
  lemma PackCounterexamples()
    ensures Pack(Req(0x080)) == 0x0100 && Unpack(0x0100) == Ok(Res(0))
    ensures Unpack(Pack(Req(0x010))) == Ok(Req(0))
  {
  }

  /** `StunTyp::try_from` on the two wire bytes. */
  function FromBytes(b: seq<byte>): Result<StunTyp, DecodeErr>
    requires |b| == 2
  {
    Unpack(Be16(b[0], b[1]) as bv16)
  }

  /** `<[u8; 2]>::from(&StunTyp)`: the packed value in network byte order. */
  function ToBytes(t: StunTyp): (b: seq<byte>)
    ensures |b| == 2
  {
    Be16Bytes(Pack(t) as int)
  }

  /** The byte-level conversions compose to the word-level ones. */
  lemma BytesRoundTrip(t: StunTyp)
    ensures FromBytes(ToBytes(t)) == Unpack(Pack(t))
  {
    var w := Pack(t);
    assert Be16(ToBytes(t)[0], ToBytes(t)[1]) == w as int;
  }
}
