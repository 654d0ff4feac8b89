# stun-zc framing core in Dafny

This project models the framing core of `stun-zc`, a zero-copy STUN library:

- the 14-bit message type, which interleaves a 2-bit class and a 12-bit method as in section 6 of RFC 5389 (Figure 3);
- `Stun::decode`, `Stun::encode` and `Stun::len` for the 20-byte message header;
- the attribute sequence `StunAttrs`:
  - its `length` and `encode`;
  - the cursor-driven TLV walk of its iterator;
- the flattened view `Flat`, whose fold keeps the first attribute of each kind;
- `Flat::check_auth`;
- the `StunAttr` variant set and its IANA type codes.

Modules, following the source files. `Wrappers` (`Option`, `Result`, `Outcome`) and `Wire` are shared helpers with no source file of their own, and `src/lib.rs` is split into `StunType` and `Message`:

- `Wire`:
  - the integer widths `byte`, `u16`, `u32` and `u64`;
  - big-endian conversions;
  - the magic cookie `0x2112A442`;
  - round-up to a multiple of four.
- `Attribute` (`src/attr.rs`):
  - the attribute kinds and their type codes;
  - the attribute payloads, taken in the shapes `src/attrs/flat.rs` consumes;
  - the per-attribute context;
  - `AttrCodec`, an abstract stand-in for `StunAttr::len`, `decode` and `encode`, with the contract the callers rely on (`ValidCodec`): a TLV is at least its 4-byte header, and `encode` fills exactly `len` bytes;
  - the 20-byte HMAC-SHA1 of MESSAGE-INTEGRITY, carried by the type `Hmac`.
- `StunType` (`src/lib.rs:7-66`):
  - `StunDecodeErr`;
  - `StunTyp` with `method`;
  - the decoder `TryFrom<[u8; 2]>` (`Unpack`, `FromBytes`);
  - the encoder `From<&StunTyp>` (`Pack`, `ToBytes`).
- `AttrSeq` (`src/attrs.rs`):
  - `StunAttrs` in its two modes;
  - `length` as a loop method;
  - `encode` as methods on an `array<byte>`;
  - one iterator step as the function `ParseStep`;
  - the iterator as the class `AttrsIter`, whose cursor field its `Next` method updates.
- `Message` (`src/lib.rs:68-107`):
  - `Stun`;
  - `Decode`, a method proved equal to the gate chain `DecodeSpec`;
  - `Encode`, which writes the header into the caller's array and hands the rest to the attribute encoder;
  - `Len`.
- `FlatView` (`src/attrs/flat.rs`):
  - the 24-slot record `Flat`;
  - the fold `FromIter`, a loop over the attributes;
  - `CheckAuth`.

Panics on the decode path are a value, `Outcome.Panics`, so the model can state exactly when they happen. Three cases matter:

- slices out of range;
- the `split_at` past the end;
- checked `u16` arithmetic, using debug-build semantics.

The encode-side panics (an undersized buffer, a wrong-size parse-mode buffer, the `u16` overflow of `length()`) are preconditions instead, as listed under "## Left out".

The model follows the code as written, including where it departs from RFC 5389:

- **Encoder masks.** The type encoder masks the method with the decoder's wire-side masks (`0x00E0`, `0x3E00`) instead of the method-side masks (`0x0070`, `0x0F80`).
  - A type survives encode-then-decode only when its method is below `0x1000` and method bits 4, 7 and 8 are clear.
  - `Req(0x080)` comes back as `Res(0)`, and `Req(0x010)` as `Req(0)`.
- **Buffer longer or shorter than declared.** Once the type and alignment gates pass, `decode` reports `PacketTooSmall` for a buffer *longer* than 20 plus the declared length. A *shorter* one that also passes the cookie gate makes it panic when the region is sliced; with a bad cookie it gets `BadMagic` first.
- **Value slice.** The iterator takes each attribute's value from the start of the region (`buff[4..]`), not from the attribute's own bytes.
- **Large declared lengths.** `4 + length` and the padding loop use `u16` arithmetic, so a declared length above `0xFFF8` panics instead of reporting `AttrLengthExceedsPacketLength`.
- **No padding in list mode.** Section 15 of RFC 5389 pads each attribute to a multiple of four, but `length()` and `encode()` in list mode (`src/attrs.rs:16-22`, `src/attrs.rs:28-38`) do not. An attribute list with an unaligned total therefore encodes to a message that decodes as `UnalignedLength` when its type passes the type gate (method bits 12 and 13 clear); a method with either bit set is packed into wire bits 14-15 and is rejected first with `TypeOutOfRange`. Even an aligned total does not keep the walk in step: the walk pads each attribute to four bytes, so after an unaligned attribute it reads the next header from inside a TLV. It can then misread it, report an error, or panic. For example, the list `[Other(1, [9]), Other(2, [0, 0xFF, 0xF9])]` (TLVs of 5 and 7 bytes, 12 in all) is walked as a header at offset 8 declaring `0xFFF9` bytes, and the `u16` padding overflows.

`src/attr.rs` declares `Fingerprint(u32)` and other payload shapes. `src/attrs/flat.rs` uses a unit `Fingerprint`, a `Data::Slice` payload, and the single field of `EvenPort` and `RequestedTransport`. The model takes the variant and code table from the former and the payload shapes from the latter.

## Model

| member | source | states |
|---|---|---|
| Wire.Be16Bytes | src/lib.rs:101 | the big-endian bytes of a `u16` read back as the same value (`to_be_bytes` / `from_be_bytes` are inverse) |
| Wire.Be32Bytes | src/lib.rs:102 | the four big-endian bytes of a `u32` read back as the same value |
| Wire.Be32Exact | src/lib.rs:85-86 | four bytes read as `v` exactly when they are the big-endian encoding of `v`, so the magic test compares bytes 4..8 with the cookie's encoding |
| Wire.RoundUp4 | src/attrs.rs:84-85 | the padded length is a multiple of four, at least the length, and less than the length plus four |
| Attribute.Code | src/attr.rs:19-46 | the IANA type of each known variant; `CodeTableInverse` and `CodesDistinct` prove the table one-to-one and inverse to the dispatch |
| Attribute.KindOfCode | src/attr.rs:16-49 | the dispatch from a 16-bit type to a known variant, `None` (kept as `Other`) for any other type; `CodeTableInverse` proves it inverts `Code` |
| Attribute.CodeTableInverse | src/attr.rs:16-49 | the kind-to-code table and the code-to-kind dispatch are inverse: each kind's code dispatches to it, and a code dispatches only to the kind that has it |
| Attribute.CodesDistinct | src/attr.rs:19-46 | no two known variants share a type code |
| Attribute.TypeCode | src/attr.rs:16-49 | the type code is total over all variants: `Other(code, _)` gives the code it carries, and a known variant gives the code whose dispatch is its own kind |
| StunType.ClassBits | src/lib.rs:54-59 | the class constants lie in wire bits 4 and 8: Req 0x0000, Ind 0x0010, Res 0x0100, Err 0x0110, one per class |
| StunType.Method | src/lib.rs:24-31 | `method()` returns the method of whichever variant, and a type is its class together with its method |
| StunType.Unpack | src/lib.rs:35-49 | the decoder on the 16-bit value; `UnpackRange` gives its error and range behaviour, and `UnpackFollowsRfc` proves it the inverse of the RFC 5389 Figure 3 layout |
| StunType.Pack | src/lib.rs:53-64 | the encoder before the byte split, with the decoder's masks as written; `PackAgreesWithRfc`, `PackLossy` and `PackRoundTrip` state where it departs from the RFC layout |
| StunType.UnpackRange | src/lib.rs:33-50 | a value at or above 0x4000 fails with `TypeOutOfRange`, and nothing else fails; a decoded method is below 0x1000; the class is fixed by bits 4 and 8 alone, so the `unreachable!` arm cannot be reached |
| StunType.UnpackFollowsRfc | src/lib.rs:40-49 | the decoder inverts the RFC 5389 interleaving: every 14-bit value is the RFC encoding of what it decodes to, and the RFC encoding of any type with a 12-bit method decodes back to it |
| StunType.PackAgreesWithRfc | src/lib.rs:52-66 | for a 12-bit method the encoder gives the RFC layout exactly when method bits 4, 7 and 8 are clear |
| StunType.PackLossy | src/lib.rs:60-63 | decoding the encoder's output drops method bits 4 and 8 and turns method bit 7 into class bit C1 |
| StunType.PackRoundTrip | src/lib.rs:33-66 | decode(encode(t)) == t exactly when the method is below 0x1000 with bits 4, 7 and 8 clear |
| StunType.PackCounterexamples | src/lib.rs:52-66 | `Req(0x080)` encodes as 0x0100, which decodes as `Res(0)`; `Req(0x010)` comes back as `Req(0)` |
| StunType.FromBytes | src/lib.rs:35-36 | `try_from` on the two big-endian bytes; it has exactly the behaviour of `Unpack` on their value, which `BytesRoundTrip` uses |
| StunType.ToBytes | src/lib.rs:52-66 | the two big-endian bytes of the encoder's value; `BytesRoundTrip` proves decoding them is decoding that value |
| StunType.BytesRoundTrip | src/lib.rs:35-36 | decoding the two bytes the encoder emits is decoding its 16-bit value |
| AttrSeq.SumLenAppend | src/attrs.rs:16-22 | the summed `len()` of a list is additive over concatenation |
| AttrSeq.SumLenPrefix | src/attrs.rs:16-22 | the running sum grows by one `len()` per attribute and never exceeds the total |
| AttrSeq.Length | src/attrs.rs:13-24 | parse mode gives the region length truncated to `u16`; list mode gives the sum of `len()` over the list, with no padding |
| AttrSeq.ListImage | src/attrs.rs:29-38 | the bytes list-mode `encode` writes, each attribute encoded against the header and the bytes before it; `ListImageLength`, `ListImagePrefix`, `ListImageSnoc` and `ListImageSlot` state its layout |
| AttrSeq.ListImageLength | src/attrs.rs:29-38 | the bytes list-mode encoding writes are exactly as many as the summed lengths |
| AttrSeq.ListImagePrefix | src/attrs.rs:29-38 | encoding a prefix of the list writes a prefix of what the whole list writes |
| AttrSeq.ListImageSnoc | src/attrs.rs:31-37 | one more attribute appends its encoding, made against exactly the bytes already written |
| AttrSeq.ListImageSlot | src/attrs.rs:29-38 | attribute i occupies exactly `len(i)` bytes at offset Σ_{j<i} len(j), encoded with a context whose prefix is exactly the bytes before that offset |
| AttrSeq.Encode | src/attrs.rs:25-41 | parse mode copies the region verbatim into a slice of the same length; list mode writes the back-to-back image; bytes before the slice and past the written total are unchanged |
| AttrSeq.EncodeList | src/attrs.rs:28-38 | the list-mode loop writes the image of the list after `base` and touches nothing else |
| AttrSeq.EncodeAttr | src/attrs.rs:32-37 | one turn writes the attribute's encoding, against the bytes written so far, into the next `len()` bytes and nothing else |
| AttrSeq.WriteAt | src/attrs.rs:34 | the attribute's bytes land in its slice and nothing outside it changes |
| AttrSeq.ParseStep | src/attrs.rs:72-89 | a step that does not panic started inside the region, and a step that yields an item advances the cursor by at least four |
| AttrSeq.StepEnds | src/attrs.rs:73-74 | the walk ends with `None` exactly when fewer than four bytes are unread |
| AttrSeq.StepAdvance | src/attrs.rs:76-86 | a step panics exactly when the declared length exceeds 0xFFF8; otherwise it yields an item and advances by `4 + length` rounded up to four, so the cursor's residue mod 4 is kept |
| AttrSeq.StepItem | src/attrs.rs:77-81 | an overrun yields `AttrLengthExceedsPacketLength`; otherwise the decoder gets the type, the value window, and a context with prefix = region bytes before the cursor, attr_len = 4 + length, zero_xor_bytes = false |
| AttrSeq.AlignedStepInBounds | src/attrs.rs:77-86 | in an aligned region that fits a `u16` length, a step that decodes an attribute keeps the cursor within the region |
| AttrSeq.OverrunThenPanics | src/attrs.rs:73-86 | after an overrun, the cursor lies past the region and the next `next()` panics in `split_at` |
| AttrSeq.ValueWindowFromRegionStart | src/attrs.rs:80 | the second of two 4-byte attributes is decoded from the first one's value bytes |
| AttrSeq.FirstError | src/lib.rs:91-95 | the walk `decode` runs over the iterator: the first attribute error, a panic, or `None` when every attribute decodes; `DecodeWalk` and `DecodeOk` tie it to the decode outcome |
| AttrSeq.AttrsIter.constructor | src/attrs.rs:43-52 | the iterator starts with its cursor at 0 |
| AttrSeq.AttrsIter.Next | src/attrs.rs:67-91 | list mode yields each element as `Ok`, in order, then `None`; parse mode does one `ParseStep` and moves the cursor where it says |
| AttrSeq.AttrsIter.NextParsed | src/attrs.rs:72-89 | the parse arm of `next()` returns what `ParseStep` specifies and moves the cursor to its next offset |
| AttrSeq.PaddedLen | src/attrs.rs:84-85 | the padding loop returns the length rounded up to four, and panics exactly when that exceeds 0xFFFF |
| Message.DecodeSpec | src/lib.rs:77-98 | `decode` as a chain of gates followed by the walk; `DecodeGates`, `DecodeWalk`, `DecodeOk` and `TruncatedPanics` state its behaviour, and the method `Decode` is proved equal to it |
| Message.DecodeGates | src/lib.rs:78-86 | the gate order: fewer than 20 bytes, then `TypeOutOfRange`, then `UnalignedLength`, then `PacketTooSmall` for a buffer longer than declared, then `BadMagic` for a buffer of the declared length or shorter, before the short buffer's panic |
| Message.DecodeWalk | src/lib.rs:90-97 | past the gates, the first attribute error aborts with `AttrErr(e)`; a clean walk gives the decoded type, bytes 8..20 as the transaction id, and the region as the attributes |
| Message.DecodeOk | src/lib.rs:77-97 | a successful decode means an exact-length buffer, a length that is a multiple of four, the magic cookie at 4..8, the txid from bytes 8..20, and a walk with no attribute error |
| Message.TruncatedPanics | src/lib.rs:83-90 | any buffer shorter than its declared message that passes the type, alignment and cookie gates panics when the region is sliced |
| Message.TruncatedBindingRequestPanics | src/lib.rs:83-90 | a 20-byte Binding Request header declaring 4 attribute bytes makes `decode` panic |
| Message.BindingRequestDecodes | src/lib.rs:77-97 | a bare Binding Request header decodes as `Req(1)` with the given transaction id and an empty attribute region |
| Message.HeaderFields | src/lib.rs:99-103 | the type sits at 0..2, the length at 2..4, the cookie at 4..8 and the txid at 8..20, with the attribute bytes from 20 |
| Message.EncodedHeaderDecodes | src/lib.rs:77-107 | decoding what `encode` writes for a type that survives the type round trip gives `UnalignedLength` when the attribute total is unaligned; otherwise it gives back the type, the txid and the written attributes, unless the walk reports an attribute error or panics |
| Message.Len | src/lib.rs:74-76 | `len()` is 20 plus the sequence's `length()` |
| Message.Decode | src/lib.rs:77-98 | the method with the gates and the iterator loop returns exactly what the gate chain `DecodeSpec` specifies |
| Message.Encode | src/lib.rs:99-107 | the buffer holds the header bytes followed by the region (parse mode), or by the list image made against that header, with bytes past the total untouched (list mode) |
| Message.WriteHeader | src/lib.rs:100-103 | the first 20 bytes become type, length, cookie and txid, and the rest of the buffer is unchanged |
| FlatView.SlotKind | src/attrs/flat.rs:79-103 | `Other` fills no slot, and `Data` fills its slot only with a `Slice` payload |
| FlatView.SlotsDetermineFlat | src/attrs/flat.rs:6-32 | two views with the same slot contents are the same record |
| FlatView.Absorb | src/attrs/flat.rs:77-104 | one turn of the fold, slot by slot; `SlotAbsorb` and `AbsorbIgnores` state its effect on every slot |
| FlatView.SlotAbsorb | src/attrs/flat.rs:77-104 | one turn of the fold puts the attribute into its own slot if that slot was empty and leaves every other slot unchanged |
| FlatView.AbsorbIgnores | src/attrs/flat.rs:103 | an attribute with no slot, or whose slot is already filled, leaves the record unchanged |
| FlatView.FirstOfIsFirst | src/attrs/flat.rs:76-105 | the first-of-kind is `None` iff no attribute of that kind occurs; otherwise it is an occurrence with no earlier one of the same kind |
| FlatView.FirstOfSnoc | src/attrs/flat.rs:76-105 | one more attribute fills a slot only if the slot was still empty |
| FlatView.FirstOfAppend | src/attrs/flat.rs:79-102 | extending the sequence never changes a slot its prefix already filled |
| FlatView.FromIter | src/attrs/flat.rs:49-134 | after the loop each slot holds the first attribute of its kind, and it is empty iff none occurs |
| FlatView.AuthQuery | src/attrs/flat.rs:39-42 | the question put to the lookup exists exactly when a username and an integrity attribute are present, and is then the username with the realm slot |
| FlatView.CheckAuthAsksOnlyQuery | src/attrs/flat.rs:39-42 | `check_auth` depends on the lookup only at the `AuthQuery` question: lookups that agree there give the same answer, and without a username or integrity attribute any two lookups do |
| FlatView.CheckAuth | src/attrs/flat.rs:33-47 | `None` without a username or integrity; otherwise `Some((username, p))` exactly when the lookup gives `p` and the integrity verifies with `p`'s bytes |

## Left out

- The UDP responder in `examples/stun.rs` (socket I/O and logging) is not part of this model.
- `src/auth.rs` is not part of this model. It is a data-only wrapper around a credential callback, with no logic.
- HMAC-SHA1, CRC-32 and `Integrity::verify` are cryptographic, and their bodies are not part of this model. `CheckAuth` takes `verify` as a parameter.
- `StunAttr::len`, `decode` and `encode`, and `AttrContext::xor_key` / `reduce_over_prefix`, are not part of this model.
  - They appear only through the abstract `AttrCodec` and its contract (`ValidCodec`).
  - That contract: a TLV is at least 4 bytes, and `encode` fills exactly `len` bytes. The value sizes the RFCs fix (such as FINGERPRINT's four bytes) are the codec's business and are not part of it.
- `SocketAddr` conversions (`.into()`) and UTF-8 validation are library behaviour. Addresses and strings are kept as opaque values.
- Lifetimes and zero-copy borrowing are not modelled. Borrowed slices are sequences cut from the input buffer.
- Release-build wrap-around of `u16` arithmetic is not modelled. The debug-build overflow panic is modelled instead.
- AttrSeq.Length: a list whose lengths sum past 0xFFFF (a debug-build overflow panic at `ret += attr.len()`) is excluded by precondition rather than modelled as a panic.
- Message.Len, Message.Encode: carry the same `SumLen(...) <= 0xFFFF` precondition, since both call `length()` on the sequence.
- AttrSeq.Encode: the panics of `copy_from_slice` and of slicing `to_write` when the output slice has the wrong size are excluded by preconditions: an exact length in parse mode, room for the list total in list mode.
- Message.Encode: a buffer shorter than 20 bytes, or too small for the attributes, panics in the source. The model requires an adequate buffer instead.
- FlatView.FromIter: takes a finite sequence of attributes rather than any `IntoIterator`.
- The `From<&[StunAttr]>` conversion to `StunAttrs::List` is only a constructor call, so it has no member of its own.
