/** The message envelope of `src/lib.rs`: the 20-byte header of section 6 of
    RFC 5389 (type, attribute length, magic cookie, transaction id) followed by
    the attribute region. */
module Message {
  import opened Wire
  import opened Wrappers
  import opened Attribute
  import opened StunType
  import opened AttrSeq

  /** A 12-byte transaction id. */
  type TxId = s: seq<byte> | |s| == 12 witness seq(12, _ => 0)

  /** `Stun`: type, transaction id and attributes. */
  datatype Stun = Stun(typ: StunTyp, txid: TxId, attrs: Attrs)

  /** The attribute length field of a header. */
  function LengthField(buff: seq<byte>): u16
    requires |buff| >= HEADER_LEN
  {
    Be16(buff[2], buff[3])
  }

  /** The 20 header bytes `encode` writes: type, attribute length, magic
      cookie and transaction id at offsets 0, 2, 4 and 8. */
  function HeaderBytes(typ: StunTyp, length: u16, txid: TxId): (h: seq<byte>)
    ensures |h| == HEADER_LEN
  {
    ToBytes(typ) + Be16Bytes(length) + Be32Bytes(MAGIC_COOKIE) + txid
  }

  /** `Stun::decode` as a chain of gates: too short, type out of range,
      unaligned length, a buffer longer than the declared message, bad magic,
      and then the walk over every attribute. A buffer shorter than the
      declared message that passes the type, alignment and cookie gates
      panics when the region is sliced. */
  function DecodeSpec(buff: seq<byte>, codec: AttrCodec): Outcome<Result<Stun, DecodeErr>>
  {
    if |buff| < HEADER_LEN then Returns(Result.Err(PacketTooSmall))
    else match FromBytes(buff[0..2])
      case Err(e) => Returns(Result.Err(e))
      case Ok(typ) =>
        var length := LengthField(buff);
        if length % 4 != 0 then Returns(Result.Err(UnalignedLength))
        else if HEADER_LEN + length < |buff| then Returns(Result.Err(PacketTooSmall))
        else if Be32(buff[4..8]) != MAGIC_COOKIE then Returns(Result.Err(BadMagic))
        else if |buff| < HEADER_LEN + length then Panics
        else
          var region, header := buff[HEADER_LEN..], buff[..HEADER_LEN];
          match FirstError(region, header, 0, codec)
          case Panics => Panics
          case Returns(Some(e)) => Returns(Result.Err(AttrErr(e)))
          case Returns(None) => Returns(Ok(Stun(typ, buff[8..20], Parse(region, header))))
  }

  /** The order of the header gates: each error is reported only when every
      earlier gate passed. A bad cookie is reported for a buffer of the
      declared length and for a shorter one alike, before the short buffer
      is sliced. */
  lemma DecodeGates(buff: seq<byte>, codec: AttrCodec)
    ensures |buff| < 20 ==> DecodeSpec(buff, codec) == Returns(Result.Err(PacketTooSmall))
    ensures |buff| >= 20 && FromBytes(buff[0..2]).Err? ==>
      DecodeSpec(buff, codec) == Returns(Result.Err(TypeOutOfRange))
    ensures |buff| >= 20 && FromBytes(buff[0..2]).Ok? && LengthField(buff) % 4 != 0 ==>
      DecodeSpec(buff, codec) == Returns(Result.Err(UnalignedLength))
    ensures
      (|buff| >= 20 && FromBytes(buff[0..2]).Ok? && LengthField(buff) % 4 == 0
       && 20 + LengthField(buff) < |buff|) ==>
      DecodeSpec(buff, codec) == Returns(Result.Err(PacketTooSmall))
    ensures
      (|buff| >= 20 && FromBytes(buff[0..2]).Ok? && LengthField(buff) % 4 == 0
       && |buff| <= 20 + LengthField(buff) && buff[4..8] != Be32Bytes(MAGIC_COOKIE)) ==>
      DecodeSpec(buff, codec) == Returns(Result.Err(BadMagic))
  {
    if |buff| >= 20 {
      UnpackRange(Be16(buff[0], buff[1]) as bv16);
      Be32Exact(buff[4..8], MAGIC_COOKIE);
    }
  }

  /** Once the header gates pass, the outcome is that of the attribute walk:
      the first attribute error aborts the decode wrapped in `AttrErr`. */
  lemma DecodeWalk(buff: seq<byte>, codec: AttrCodec)
    requires |buff| >= 20 && FromBytes(buff[0..2]).Ok?
    requires LengthField(buff) % 4 == 0 && 20 + LengthField(buff) == |buff|
    requires buff[4..8] == Be32Bytes(MAGIC_COOKIE)
    ensures
      match FirstError(buff[20..], buff[..20], 0, codec)
      case Returns(Some(e)) => DecodeSpec(buff, codec) == Returns(Result.Err(AttrErr(e)))
      case Returns(None) =>
        DecodeSpec(buff, codec) ==
          Returns(Ok(Stun(FromBytes(buff[0..2]).value, buff[8..20], Parse(buff[20..], buff[..20]))))
      case Panics => DecodeSpec(buff, codec) == Panics
  {
    UnpackRange(Be16(buff[0], buff[1]) as bv16);
    Be32Exact(buff[4..8], MAGIC_COOKIE);
  }

  /** A successful decode means the buffer is exactly the header plus the
      declared length, the length is a multiple of four, bytes 4..8 hold the
      magic cookie, the transaction id is bytes 8..20, the type is decoded
      from bytes 0..2, the attributes are the raw region after the header,
      and every attribute in it decodes. */
  lemma DecodeOk(buff: seq<byte>, codec: AttrCodec)
    requires DecodeSpec(buff, codec).Returns? && DecodeSpec(buff, codec).value.Ok?
    ensures |buff| >= HEADER_LEN && |buff| == HEADER_LEN + LengthField(buff)
    ensures LengthField(buff) % 4 == 0
    ensures buff[4..8] == Be32Bytes(MAGIC_COOKIE)
    ensures
      var m := DecodeSpec(buff, codec).value.value;
      && Ok(m.typ) == FromBytes(buff[0..2])
      && m.txid == buff[8..20]
      && m.attrs == Parse(buff[20..], buff[..20])
      && FirstError(buff[20..], buff[..20], 0, codec) == Returns(None)
  {
    Be32Exact(buff[4..8], MAGIC_COOKIE);
  }

  /** A buffer shorter than its declared message is not reported as an
      error: once the type, alignment and cookie gates pass, `decode` panics
      when it slices the attribute region. */
  lemma TruncatedPanics(buff: seq<byte>, codec: AttrCodec)
    requires |buff| >= 20 && FromBytes(buff[0..2]).Ok?
    requires LengthField(buff) % 4 == 0 && buff[4..8] == Be32Bytes(MAGIC_COOKIE)
    requires |buff| < 20 + LengthField(buff)
    ensures DecodeSpec(buff, codec) == Panics
  {
    Be32Exact(buff[4..8], MAGIC_COOKIE);
  }

  /** An instance: a 20-byte Binding Request header declaring 4 bytes of
      attributes makes `decode` panic. */
  lemma TruncatedBindingRequestPanics(codec: AttrCodec)
    ensures
      var buff := [0x00, 0x01, 0x00, 0x04, 0x21, 0x12, 0xA4, 0x42] + seq(12, _ => 0);
      DecodeSpec(buff, codec) == Panics
  {
    var buff: seq<byte> := [0x00, 0x01, 0x00, 0x04, 0x21, 0x12, 0xA4, 0x42] + seq(12, _ => 0);
    assert buff[0..2] == [0x00, 0x01];
    assert Unpack(1) == Ok(Req(1));
    assert buff[4..8] == [0x21, 0x12, 0xA4, 0x42];
  }

  /** A bare Binding Request header (type 0x0001, length 0, the magic
      cookie, any transaction id) decodes as `Req(1)` with an empty attribute
      region. */
  lemma BindingRequestDecodes(txid: TxId, codec: AttrCodec)
    ensures
      var buff := [0x00, 0x01, 0x00, 0x00, 0x21, 0x12, 0xA4, 0x42] + txid;
      DecodeSpec(buff, codec) == Returns(Ok(Stun(Req(1), txid, Parse([], buff))))
  {
    var buff: seq<byte> := [0x00, 0x01, 0x00, 0x00, 0x21, 0x12, 0xA4, 0x42] + txid;
    assert buff[0..2] == [0x00, 0x01];
    assert Unpack(1) == Ok(Req(1));
    assert buff[4..8] == [0x21, 0x12, 0xA4, 0x42];
    assert buff[8..20] == txid;
    assert buff[..20] == buff;
  }

  /** Each header field sits at its fixed offset, also with attribute
      bytes after the header. */
  lemma HeaderFields(typ: StunTyp, length: u16, txid: TxId, rest: seq<byte>)
    ensures
      var buff := HeaderBytes(typ, length, txid) + rest;
      && buff[0..2] == ToBytes(typ)
      && LengthField(buff) == length
      && buff[4..8] == Be32Bytes(MAGIC_COOKIE)
      && buff[8..20] == txid
      && buff[..20] == HeaderBytes(typ, length, txid)
      && buff[20..] == rest
  {
    var buff := HeaderBytes(typ, length, txid) + rest;
    var l := Be16Bytes(length);
    assert buff[2] == l[0] && buff[3] == l[1];
  }

  /** The decoder's answer to the bytes `encode` writes for a list-mode
      message: with a type the encoder packs faithfully and an aligned total
      length, the header gates pass, the type and transaction id come back,
      and the outcome is that of the walk over the written attributes; with
      an unaligned total (list mode adds no padding) the decoder rejects
      the message as `UnalignedLength`. */
  lemma EncodedHeaderDecodes(typ: StunTyp, txid: TxId, image: seq<byte>, codec: AttrCodec)
    requires Method(typ) < 0x1000 && Method(typ) & 0x0190 == 0
    requires |image| <= 0xFFFF
    ensures
      var header := HeaderBytes(typ, |image|, txid);
      var d := DecodeSpec(header + image, codec);
      && (|image| % 4 != 0 ==> d == Returns(Result.Err(UnalignedLength)))
      && (|image| % 4 == 0 ==>
            match FirstError(image, header, 0, codec)
            case Panics => d == Panics
            case Returns(Some(e)) => d == Returns(Result.Err(AttrErr(e)))
            case Returns(None) => d == Returns(Ok(Stun(typ, txid, Parse(image, header)))))
  {
    var header := HeaderBytes(typ, |image|, txid);
    var buff := header + image;
    HeaderFields(typ, |image|, txid, image);
    PackRoundTrip(typ);
    BytesRoundTrip(typ);
    UnpackRange(Be16(buff[0], buff[1]) as bv16);
    if |image| % 4 != 0 {
      DecodeGates(buff, codec);
    } else {
      DecodeWalk(buff, codec);
    }
  }

  /** `Stun::len`: the header plus the sequence's `length()`. */
  method Len(msg: Stun, codec: AttrCodec) returns (n: nat)
    requires msg.attrs.List? ==> SumLen(msg.attrs.list, codec) <= 0xFFFF
    ensures msg.attrs.Parse? ==> n == HEADER_LEN + |msg.attrs.region| % 0x1_0000
    ensures msg.attrs.List? ==> n == HEADER_LEN + SumLen(msg.attrs.list, codec)
  {
    var length := Length(msg.attrs, codec);
    n := HEADER_LEN + length;
  }

  /** `Stun::decode`: the gates, then the attribute walk driven by the
      iterator, returning at the first attribute error. */
  method Decode(buff: seq<byte>, codec: AttrCodec) returns (r: Outcome<Result<Stun, DecodeErr>>)
    ensures r == DecodeSpec(buff, codec)
  {
    if |buff| < HEADER_LEN {
      return Returns(Result.Err(PacketTooSmall));
    }
    var typ := FromBytes(buff[0..2]);
    if typ.Err? {
      return Returns(Result.Err(typ.error));
    }
    var length := Be16(buff[2], buff[3]);
    if length % 4 != 0 {
      return Returns(Result.Err(UnalignedLength));
    }
    if HEADER_LEN + length < |buff| {
      return Returns(Result.Err(PacketTooSmall));
    }
    var magic := Be32(buff[4..8]);
    if magic != MAGIC_COOKIE {
      return Returns(Result.Err(BadMagic));
    }
    var txid: TxId := buff[8..20];
    if |buff| < HEADER_LEN + length {
      // `&buff[20..][..length]` is out of bounds
      return Panics;
    }
    var attrs := Parse(buff[20..][..length], buff[..20]);
    assert attrs.region == buff[HEADER_LEN..];
    var it := new AttrsIter(attrs, codec);
    while true
      invariant fresh(it) && it.Valid() && it.attrs == attrs && it.codec == codec
      invariant it.cursor <= |attrs.region|
      invariant FirstError(attrs.region, attrs.header, it.cursor, codec)
             == FirstError(attrs.region, attrs.header, 0, codec)
      decreases |attrs.region| - it.cursor
    {
      ghost var before := it.cursor;
      var res := it.Next();
      match res
      case Panics =>
        return Panics;
      case Returns(None) =>
        break;
      case Returns(Some(Err(e))) =>
        return Returns(Result.Err(AttrErr(e)));
      case Returns(Some(Ok(_))) =>
        AlignedStepInBounds(attrs.region, attrs.header, before, codec);
    }
    r := Returns(Ok(Stun(typ.value, txid, attrs)));
  }

  /** `Stun::encode`: the header fields at their fixed offsets, then the
      attribute sequence from offset 20, encoded against the header just
      written. Parse mode needs a buffer of exactly the message's size; list
      mode a buffer at least `len()` long, and leaves the rest untouched. */
  method Encode(msg: Stun, buff: array<byte>, codec: AttrCodec)
    requires ValidCodec(codec)
    requires msg.attrs.Parse? ==> buff.Length == HEADER_LEN + |msg.attrs.region|
    requires msg.attrs.List? ==>
      SumLen(msg.attrs.list, codec) <= 0xFFFF && HEADER_LEN + SumLen(msg.attrs.list, codec) <= buff.Length
    modifies buff
    ensures msg.attrs.Parse? ==>
      buff[..] == HeaderBytes(msg.typ, |msg.attrs.region| % 0x1_0000, msg.txid) + msg.attrs.region
    ensures msg.attrs.List? ==>
      var length := SumLen(msg.attrs.list, codec);
      var header := HeaderBytes(msg.typ, length, msg.txid);
      && buff[..HEADER_LEN + length] == header + ListImage(msg.attrs.list, header, codec)
      && buff[HEADER_LEN + length..] == old(buff[HEADER_LEN + length..])
  {
    var length := Length(msg.attrs, codec);
    WriteHeader(buff, msg.typ, length, msg.txid);
    var header := buff[..HEADER_LEN];
    AttrSeq.Encode(msg.attrs, buff, HEADER_LEN, header, codec);
    assert buff[..] == buff[..HEADER_LEN] + buff[HEADER_LEN..];
    if msg.attrs.List? {
      assert buff[..HEADER_LEN + length] == buff[..HEADER_LEN] + buff[HEADER_LEN..HEADER_LEN + length];
    }
  }

  /** The header half of `Stun::encode`: type, length, magic cookie and
      transaction id written over the first 20 bytes, nothing else touched. */
  method WriteHeader(buff: array<byte>, typ: StunTyp, length: u16, txid: TxId)
    requires HEADER_LEN <= buff.Length
    modifies buff
    ensures buff[..HEADER_LEN] == HeaderBytes(typ, length, txid)
    ensures buff[HEADER_LEN..] == old(buff[HEADER_LEN..])
  {
    var t := ToBytes(typ);
    buff[0], buff[1] := t[0], t[1];
    var l := Be16Bytes(length);
    buff[2], buff[3] := l[0], l[1];
    var magic := Be32Bytes(MAGIC_COOKIE);
    forall j | 0 <= j < 4 {
      buff[4 + j] := magic[j];
    }
    forall j | 0 <= j < 12 {
      buff[8 + j] := txid[j];
    }
    assert buff[..HEADER_LEN] == HeaderBytes(typ, length, txid);
  }
}
