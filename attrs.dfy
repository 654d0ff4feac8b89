/** The attribute sequence of `src/attrs.rs`: either the unparsed attribute
    region of a received message, walked lazily one TLV at a time, or a list of
    attributes to encode back-to-back. */
module AttrSeq {
  import opened Wire
  import opened Wrappers
  import opened Attribute

  /** `StunAttrs`: the raw region with the message header, or a list. */
  datatype Attrs =
    | Parse(region: seq<byte>, header: seq<byte>)
    | List(list: seq<Attr>)

  /** What the iterator yields for one attribute. */
  type Item = Result<Attr, AttrErr>

  // ---------------------------------------------------------------------
  // Length

  /** The sum of the unpadded TLV lengths of `l`. */
  function SumLen(l: seq<Attr>, codec: AttrCodec): nat
    decreases |l|
  {
    if l == [] then 0 else SumLen(l[..|l| - 1], codec) + codec.len(l[|l| - 1])
  }

  lemma {:induction false} SumLenAppend(xs: seq<Attr>, ys: seq<Attr>, codec: AttrCodec)
    ensures SumLen(xs + ys, codec) == SumLen(xs, codec) + SumLen(ys, codec)
    decreases |ys|
  {
    if ys == [] {
      assert xs + ys == xs;
    } else {
      var n := |ys| - 1;
      assert (xs + ys)[..|xs + ys| - 1] == xs + ys[..n];
      SumLenAppend(xs, ys[..n], codec);
    }
  }

  /** The length of a prefix of `l` plus the next element stays within the
      whole sum. */
  lemma SumLenPrefix(l: seq<Attr>, i: nat, codec: AttrCodec)
    requires i < |l|
    ensures SumLen(l[..i + 1], codec) == SumLen(l[..i], codec) + codec.len(l[i])
    ensures SumLen(l[..i + 1], codec) <= SumLen(l, codec)
  {
    assert l[..i + 1][..i] == l[..i];
    assert l == l[..i + 1] + l[i + 1..];
    SumLenAppend(l[..i + 1], l[i + 1..], codec);
  }

  /** `StunAttrs::length`: the raw region's length cast to `u16` in parse mode,
      and in list mode the sum of the attributes' unpadded lengths, with no
      padding added. The `u16` accumulator must not overflow (a checked add). */
  method Length(attrs: Attrs, codec: AttrCodec) returns (r: u16)
    requires attrs.List? ==> SumLen(attrs.list, codec) <= 0xFFFF
    ensures attrs.Parse? ==> r == |attrs.region| % 0x1_0000
    ensures attrs.List? ==> r == SumLen(attrs.list, codec)
  {
    match attrs
    case Parse(region, _) =>
      r := |region| % 0x1_0000;
    case List(l) =>
      var ret := 0;
      for i := 0 to |l|
        invariant ret == SumLen(l[..i], codec)
      {
        SumLenPrefix(l, i, codec);
        ret := ret + codec.len(l[i]);
      }
      assert l[..|l|] == l;
      r := ret;
  }

  // ---------------------------------------------------------------------
  // List-mode encoding

  /** The bytes list-mode encoding writes for `l`: the attributes back to back,
      each encoded with a context whose prefix is everything written before
      it and whose length is its own `len`. */
  function ListImage(l: seq<Attr>, header: seq<byte>, codec: AttrCodec): seq<byte>
    decreases |l|
  {
    if l == [] then []
    else
      var prefix := ListImage(l[..|l| - 1], header, codec);
      var a := l[|l| - 1];
      prefix + codec.encode(a, AttrContext(header, prefix, codec.len(a), false))
  }

  lemma {:induction false} ListImageLength(l: seq<Attr>, header: seq<byte>, codec: AttrCodec)
    requires ValidCodec(codec)
    ensures |ListImage(l, header, codec)| == SumLen(l, codec)
    decreases |l|
  {
    if l != [] {
      ListImageLength(l[..|l| - 1], header, codec);
    }
  }

  /** Encoding a prefix of the list writes a prefix of the image. */
  lemma {:induction false} ListImagePrefix(l: seq<Attr>, i: nat, header: seq<byte>, codec: AttrCodec)
    requires ValidCodec(codec)
    requires i <= |l|
    ensures SumLen(l[..i], codec) <= |ListImage(l, header, codec)|
    ensures ListImage(l, header, codec)[..SumLen(l[..i], codec)] == ListImage(l[..i], header, codec)
    decreases |l|
  {
    ListImageLength(l, header, codec);
    ListImageLength(l[..i], header, codec);
    if i == |l| {
      assert l[..i] == l;
    } else {
      var n := |l| - 1;
      assert l[..n][..i] == l[..i];
      ListImagePrefix(l[..n], i, header, codec);
      ListImageLength(l[..n], header, codec);
    }
  }

  /** The image of one more attribute of the list: the image so far, then the
      next attribute encoded against it. */
  lemma ListImageSnoc(l: seq<Attr>, i: nat, header: seq<byte>, codec: AttrCodec)
    requires ValidCodec(codec)
    requires i < |l|
    ensures |ListImage(l[..i], header, codec)| == SumLen(l[..i], codec)
    ensures ListImage(l[..i + 1], header, codec) ==
      var prefix := ListImage(l[..i], header, codec);
      prefix + codec.encode(l[i], AttrContext(header, prefix, codec.len(l[i]), false))
  {
    ListImageLength(l[..i], header, codec);
    assert l[..i + 1][..i] == l[..i];
  }

  /** Attribute `i` of the list occupies exactly its `len` bytes at the offset
      given by the lengths before it, and it is encoded with a context whose
      prefix is exactly the image bytes before that offset. */
  lemma ListImageSlot(l: seq<Attr>, i: nat, header: seq<byte>, codec: AttrCodec)
    requires ValidCodec(codec)
    requires i < |l|
    ensures |ListImage(l, header, codec)| == SumLen(l, codec)
    ensures SumLen(l[..i], codec) + codec.len(l[i]) <= SumLen(l, codec)
    ensures
      var image, off := ListImage(l, header, codec), SumLen(l[..i], codec);
      image[off..off + codec.len(l[i])] ==
        codec.encode(l[i], AttrContext(header, image[..off], codec.len(l[i]), false))
  {
    var image, off := ListImage(l, header, codec), SumLen(l[..i], codec);
    ListImageLength(l, header, codec);
    SumLenPrefix(l, i, codec);
    ListImagePrefix(l, i + 1, header, codec);
    ListImagePrefix(l, i, header, codec);
    assert l[..i + 1][..i] == l[..i];
    ListImageLength(l[..i], header, codec);
    var ctx := AttrContext(header, ListImage(l[..i], header, codec), codec.len(l[i]), false);
    assert ListImage(l[..i + 1], header, codec) == ListImage(l[..i], header, codec) + codec.encode(l[i], ctx);
    assert image[..off] == ListImage(l[..i], header, codec);
  }

  /** `StunAttrs::encode` into the slice `buff[base..]`, which follows the
      20 header bytes `header`. Parse mode copies the raw region, which must
      fill the slice exactly; list mode writes each attribute into exactly its
      `len` bytes, handing it the already-written prefix, and leaves the bytes
      past the total untouched. */
  method Encode(attrs: Attrs, buff: array<byte>, base: nat, header: seq<byte>, codec: AttrCodec)
    requires ValidCodec(codec)
    requires base <= buff.Length
    requires attrs.Parse? ==> buff.Length - base == |attrs.region|
    requires attrs.List? ==> base + SumLen(attrs.list, codec) <= buff.Length
    modifies buff
    ensures buff[..base] == old(buff[..base])
    ensures attrs.Parse? ==> buff[base..] == attrs.region
    ensures attrs.List? ==>
      var total := base + SumLen(attrs.list, codec);
      && buff[base..total] == ListImage(attrs.list, header, codec)
      && buff[total..] == old(buff[total..])
  {
    if attrs.Parse? {
      var region := attrs.region;
      forall j | 0 <= j < |region| {
        buff[base + j] := region[j];
      }
    } else {
      EncodeList(attrs.list, buff, base, header, codec);
    }
  }

  /** The list-mode arm of `StunAttrs::encode`. */
  method EncodeList(l: seq<Attr>, buff: array<byte>, base: nat, header: seq<byte>, codec: AttrCodec)
    requires ValidCodec(codec)
    requires base + SumLen(l, codec) <= buff.Length
    modifies buff
    ensures buff[..base] == old(buff[..base])
    ensures buff[base..base + SumLen(l, codec)] == ListImage(l, header, codec)
    ensures buff[base + SumLen(l, codec)..] == old(buff[base + SumLen(l, codec)..])
  {
    var length: nat := 0;
    for i := 0 to |l|
      invariant length == SumLen(l[..i], codec)
      invariant base + length <= buff.Length
      invariant forall j :: 0 <= j < base ==> buff[j] == old(buff[j])
      invariant forall j :: base + length <= j < buff.Length ==> buff[j] == old(buff[j])
      invariant buff[base..base + length] == ListImage(l[..i], header, codec)
    {
      SumLenPrefix(l, i, codec);
      var attrLen := EncodeAttr(buff, base, length, header, l[i], codec);
      ListImageSnoc(l, i, header, codec);
      length := length + attrLen;
    }
    assert l[..|l|] == l;
  }

  /** One turn of the list-mode loop: the attribute is encoded, against the
      bytes written so far, into the `len` bytes after them. */
  method EncodeAttr(buff: array<byte>, base: nat, length: nat, header: seq<byte>, attr: Attr, codec: AttrCodec)
    returns (attrLen: u16)
    requires ValidCodec(codec)
    requires base + length + codec.len(attr) <= buff.Length
    modifies buff
    ensures attrLen == codec.len(attr)
    ensures forall j :: 0 <= j < base + length ==> buff[j] == old(buff[j])
    ensures forall j :: base + length + attrLen <= j < buff.Length ==> buff[j] == old(buff[j])
    ensures buff[base..base + length + attrLen] ==
      old(buff[base..base + length]) + codec.encode(attr, AttrContext(header, old(buff[base..base + length]), attrLen, false))
  {
    attrLen := codec.len(attr);
    var ctx := AttrContext(header, buff[base..base + length], attrLen, false);
    var bytes := codec.encode(attr, ctx);
    ghost var before := buff[..];
    WriteAt(buff, base + length, bytes);
    WriteExtends(before, buff[..], base, base + length, bytes);
  }

  /** Writing `bytes` at `at` over a buffer that is unchanged from `lo` up to
      `at` extends the bytes from `lo` by exactly `bytes`. */
  lemma WriteExtends(before: seq<byte>, after: seq<byte>, lo: nat, at: nat, bytes: seq<byte>)
    requires |before| == |after|
    requires lo <= at && at + |bytes| <= |after|
    requires forall j :: lo <= j < at ==> after[j] == before[j]
    requires after[at..at + |bytes|] == bytes
    ensures after[lo..at + |bytes|] == before[lo..at] + bytes
  {
    assert after[lo..at + |bytes|] == after[lo..at] + after[at..at + |bytes|];
  }

  /** Writes `bytes` into `buff` at offset `at` (what `attr.encode` does to the
      slice it is handed). */
  method WriteAt(buff: array<byte>, at: nat, bytes: seq<byte>)
    requires at + |bytes| <= buff.Length
    modifies buff
    ensures forall j :: 0 <= j < at ==> buff[j] == old(buff[j])
    ensures buff[at..at + |bytes|] == bytes
    ensures forall j :: at + |bytes| <= j < buff.Length ==> buff[j] == old(buff[j])
  {
    forall j | 0 <= j < |bytes| {
      buff[at + j] := bytes[j];
    }
  }

  // ---------------------------------------------------------------------
  // Parse-mode iteration

  /** The declared value length of the TLV at `cursor`. */
  function DeclaredAt(buff: seq<byte>, cursor: nat): u16
    requires cursor + 4 <= |buff|
  {
    Be16(buff[cursor + 2], buff[cursor + 3])
  }

  /** One call of `StunAttrsIter::next` in parse mode at cursor `cursor`: the
      item it yields (or `None` when fewer than four bytes are unread) with
      the new cursor, or a panic. As written, the value handed to the decoder
      is taken from the start of the region (`buff[4..]`), `4 + length` and
      the padding loop are checked `u16` arithmetic, and `split_at` panics on
      a cursor past the end. */
  function ParseStep(buff: seq<byte>, header: seq<byte>, cursor: nat, codec: AttrCodec)
    : (r: Outcome<Option<(Item, nat)>>)
    ensures r.Returns? ==> cursor <= |buff|
    ensures r.Returns? && r.value.Some? ==> r.value.value.1 >= cursor + 4
  {
    if cursor > |buff| then Panics
    else if |buff| - cursor < 4 then Returns(None)
    else
      var typ := Be16(buff[cursor], buff[cursor + 1]);
      var declared := DeclaredAt(buff, cursor);
      if 4 + declared > 0xFFFF then Panics
      else
        var attrLen: u16 := 4 + declared;
        var item :=
          if |buff| - cursor < attrLen then Result.Err(AttrLengthExceedsPacketLength)
          else codec.decode(typ, buff[4..4 + declared], AttrContext(header, buff[..cursor], attrLen, false));
        if RoundUp4(attrLen) > 0xFFFF then Panics
        else Returns(Some((item, cursor + RoundUp4(attrLen))))
  }

  /** The walk stops with `None` exactly when fewer than four bytes are unread. */
  lemma StepEnds(buff: seq<byte>, header: seq<byte>, cursor: nat, codec: AttrCodec)
    requires cursor <= |buff|
    ensures ParseStep(buff, header, cursor, codec) == Returns(None) <==> |buff| - cursor < 4
  {
  }

  /** A step yields an item exactly when four bytes are unread and the
      declared length is at most 0xFFF8; a larger declared length panics
      (checked `u16` overflow) instead of reporting an overrun. The cursor
      advances by four plus the declared length rounded up to a multiple of
      four, so it stays a multiple of four. */
  lemma StepAdvance(buff: seq<byte>, header: seq<byte>, cursor: nat, codec: AttrCodec)
    requires cursor + 4 <= |buff|
    ensures ParseStep(buff, header, cursor, codec).Panics? <==> DeclaredAt(buff, cursor) > 0xFFF8
    ensures
      var r := ParseStep(buff, header, cursor, codec);
      r.Returns? ==> r.value.Some? && r.value.value.1 == cursor + RoundUp4(4 + DeclaredAt(buff, cursor))
    ensures
      var r := ParseStep(buff, header, cursor, codec);
      r.Returns? ==> r.value.value.1 % 4 == cursor % 4
  {
  }

  /** The item of a step: an overrun of the unread bytes is reported as
      `AttrLengthExceedsPacketLength`; otherwise the decoder is called with
      the type, the value window and a context whose prefix is exactly the
      region bytes before the cursor, whose length is four plus the declared
      length, and whose XOR key is not zeroed. */
  lemma StepItem(buff: seq<byte>, header: seq<byte>, cursor: nat, codec: AttrCodec)
    requires cursor + 4 <= |buff|
    requires DeclaredAt(buff, cursor) <= 0xFFF8
    ensures
      var declared := DeclaredAt(buff, cursor);
      var item := ParseStep(buff, header, cursor, codec).value.value.0;
      && (|buff| - cursor < 4 + declared ==> item == Result.Err(AttrLengthExceedsPacketLength))
      && (4 + declared <= |buff| - cursor ==>
            item == codec.decode(Be16(buff[cursor], buff[cursor + 1]), buff[4..4 + declared],
                                 AttrContext(header, buff[..cursor], 4 + declared, false)))
  {
  }

  /** In a region whose length is a multiple of four and fits a `u16` length
      field, a step that yields a decoded attribute leaves the cursor within
      the region. */
  lemma AlignedStepInBounds(buff: seq<byte>, header: seq<byte>, cursor: nat, codec: AttrCodec)
    requires |buff| < 0x1_0000
    requires |buff| % 4 == 0 && cursor % 4 == 0
    requires
      var r := ParseStep(buff, header, cursor, codec);
      r.Returns? && r.value.Some? && r.value.value.0.Ok?
    ensures ParseStep(buff, header, cursor, codec).value.value.1 <= |buff|
  {
    var n := 4 + DeclaredAt(buff, cursor);
    assert |buff| - cursor >= RoundUp4(n) by {
      assert (|buff| - cursor) % 4 == 0;
    }
  }

  /** After an overrun the cursor lies past the region, so the next call of
      `next` panics in `split_at` rather than ending the walk. */
  lemma OverrunThenPanics(buff: seq<byte>, header: seq<byte>, cursor: nat, codec: AttrCodec)
    requires cursor + 4 <= |buff|
    requires DeclaredAt(buff, cursor) <= 0xFFF8
    requires |buff| - cursor < 4 + DeclaredAt(buff, cursor)
    ensures ParseStep(buff, header, cursor, codec).Returns?
    ensures ParseStep(buff, header, ParseStep(buff, header, cursor, codec).value.value.1, codec) == Panics
  {
  }

  /** The value window is taken from the start of the region, not from the
      attribute's own bytes: in a region holding two 4-byte attributes, the
      second (type 2, value 5 6 7 8) is decoded from the first one's value
      bytes 1 2 3 4. A decoder that keeps its input verbatim shows it. */
  lemma ValueWindowFromRegionStart()
    ensures
      var region := [0, 1, 0, 4, 1, 2, 3, 4, 0, 2, 0, 4, 5, 6, 7, 8];
      var keep := AttrCodec(a => 4, (t: u16, v: seq<byte>, ctx: AttrContext) => Ok(Other(t, v)), (a, ctx) => [0, 0, 0, 0]);
      ParseStep(region, [], 8, keep) == Returns(Some((Ok(Other(2, [1, 2, 3, 4])), 16)))
  {
    var region: seq<byte> := [0, 1, 0, 4, 1, 2, 3, 4, 0, 2, 0, 4, 5, 6, 7, 8];
    assert Be16(region[8], region[9]) == 2;
    assert DeclaredAt(region, 8) == 4;
    assert RoundUp4(8) == 8;
    assert region[4..][..4] == region[4..8] == [1, 2, 3, 4];
  }

  /** The walk `Stun::decode` performs over the region: the first attribute
      error, `None` when every attribute decodes, or a panic. */
  function FirstError(buff: seq<byte>, header: seq<byte>, cursor: nat, codec: AttrCodec)
    : Outcome<Option<AttrErr>>
    decreases |buff| - cursor
  {
    match ParseStep(buff, header, cursor, codec)
    case Panics => Panics
    case Returns(None) => Returns(None)
    case Returns(Some((Err(e), _))) => Returns(Some(e))
    case Returns(Some((Ok(_), next))) => FirstError(buff, header, next, codec)
  }

  /** `StunAttrsIter`: the iterator over a sequence, with its cursor (the byte
      offset into the region in parse mode, the index in list mode). */
  class AttrsIter {
    const attrs: Attrs
    const codec: AttrCodec
    var cursor: nat

    /** In parse mode the cursor stays a multiple of four. */
    ghost predicate Valid()
      reads this
    {
      attrs.Parse? ==> cursor % 4 == 0
    }

    /** `IntoIterator for &StunAttrs`: the cursor starts at 0. */
    constructor (attrs: Attrs, codec: AttrCodec)
      ensures this.attrs == attrs && this.codec == codec
      ensures cursor == 0 && Valid()
    {
      this.attrs := attrs;
      this.codec := codec;
      cursor := 0;
    }

    /** `StunAttrsIter::next`. List mode yields every element as `Ok`, in list
      order, then `None`; parse mode performs one `ParseStep`. */
    method Next() returns (r: Outcome<Option<Item>>)
      requires Valid()
      modifies this
      ensures Valid()
      ensures attrs.List? ==>
        if old(cursor) < |attrs.list|
        then r == Returns(Some(Ok(attrs.list[old(cursor)]))) && cursor == old(cursor) + 1
        else r == Returns(None) && cursor == old(cursor)
      ensures attrs.Parse? ==>
        match ParseStep(attrs.region, attrs.header, old(cursor), codec)
        case Panics => r == Panics
        case Returns(None) => r == Returns(None) && cursor == old(cursor)
        case Returns(Some((item, next))) => r == Returns(Some(item)) && cursor == next
    {
      if attrs.List? {
        if cursor < |attrs.list| {
          r := Returns(Some(Ok(attrs.list[cursor])));
          cursor := cursor + 1;
        } else {
          r := Returns(None);
        }
      } else {
        r := NextParsed();
      }
    }

    /** The parse-mode arm of `next`. */
    method NextParsed() returns (r: Outcome<Option<Item>>)
      requires Valid() && attrs.Parse?
      modifies this
      ensures Valid()
      ensures
        match ParseStep(attrs.region, attrs.header, old(cursor), codec)
        case Panics => r == Panics
        case Returns(None) => r == Returns(None) && cursor == old(cursor)
        case Returns(Some((item, next))) => r == Returns(Some(item)) && cursor == next
    {
      var buff, header := attrs.region, attrs.header;
      if cursor > |buff| {
        return Panics;
      }
      var attrsPrefix, unread := buff[..cursor], buff[cursor..];
      if |unread| < 4 {
        return Returns(None);
      }
      var typ := Be16(unread[0], unread[1]);
      var attrLength := Be16(unread[2], unread[3]);
      assert typ == Be16(buff[cursor], buff[cursor + 1]) && attrLength == DeclaredAt(buff, cursor);
      if attrLength > 0xFFFF - 4 {
        return Panics;
      }
      var attrLen: u16 := 4 + attrLength;
      var item: Item;
      if |unread| < attrLen {
        item := Result.Err(AttrLengthExceedsPacketLength);
      } else {
        var ctx := AttrContext(header, attrsPrefix, attrLen, false);
        var data := buff[4..][..attrLength];
        assert data == buff[4..4 + attrLength];
        item := codec.decode(typ, data, ctx);
      }
      var padded := PaddedLen(attrLen);
      if padded.Panics? {
        return Panics;
      }
      cursor := cursor + padded.value;
      r := Returns(Some(item));
    }
  }

  /** The padding loop of `next`: counts a `u16` up from `attrLen` to the next
      multiple of four, panicking if the count overflows. */
  method PaddedLen(attrLen: u16) returns (r: Outcome<u16>)
    ensures RoundUp4(attrLen) > 0xFFFF ==> r == Panics
    ensures RoundUp4(attrLen) <= 0xFFFF ==> r == Returns(RoundUp4(attrLen))
  {
    var paddedLen: u16 := attrLen;
    while paddedLen % 4 != 0
      invariant attrLen <= paddedLen <= RoundUp4(attrLen)
      decreases RoundUp4(attrLen) - paddedLen
    {
      if paddedLen == 0xFFFF {
        return Panics;
      }
      paddedLen := paddedLen + 1;
    }
    r := Returns(paddedLen);
  }
}
