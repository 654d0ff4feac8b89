/** The flattened view of `src/attrs/flat.rs`: one optional slot per known
    attribute kind, filled by a left-to-right pass that keeps the first
    occurrence of each kind, and the credential check built on it. */
module FlatView {
  import opened Wire
  import opened Wrappers
  import opened Attribute

  /** `Flat`: one slot per kind, holding the payload as the fold stores it. */
  datatype Flat = Flat(
    mapped: Option<SocketAddr>,
    username: Option<string>,
    integrity: Option<MessageIntegrity>,
    error: Option<ErrorCode>,
    unknownAttributes: Option<UnknownList>,
    realm: Option<string>,
    nonce: Option<string>,
    xmapped: Option<SocketAddr>,
    software: Option<string>,
    alternateServer: Option<SocketAddr>,
    fingerprint: Option<()>,
    channel: Option<u16>,
    lifetime: Option<u32>,
    xpeer: Option<SocketAddr>,
    data: Option<seq<byte>>,
    xrelayed: Option<SocketAddr>,
    evenPort: Option<bool>,
    requestedTransport: Option<byte>,
    dontFragment: Option<()>,
    reservationToken: Option<u32>,
    priority: Option<u32>,
    useCandidate: Option<()>,
    iceControlled: Option<u64>,
    iceControlling: Option<u64>)

  /** Every slot empty: the state before the first attribute. */
  const EMPTY: Flat := Flat(None, None, None, None, None, None, None, None, None, None, None, None,
                            None, None, None, None, None, None, None, None, None, None, None, None)

  /** The slot an attribute can fill: its kind, except that `Other` fills none
      and `Data` fills the data slot only with a `Slice` payload. */
  function SlotKind(a: Attr): (k: Option<Kind>)
    ensures a.Other? ==> k == None
    ensures a.Data? ==> (k.Some? <==> a.data.Slice?)
    ensures !a.Data? ==> k == KindOf(a)
  {
    if a.Data? && !a.data.Slice? then None else KindOf(a)
  }

  /** The content of the slot of kind `k`, given back as the attribute it was
      taken from. */
  function Slot(f: Flat, k: Kind): Option<Attr>
  {
    match k
    case Mapped => if f.mapped.Some? then Some(Attr.Mapped(f.mapped.value)) else None
    case Username => if f.username.Some? then Some(Attr.Username(f.username.value)) else None
    case Integrity => if f.integrity.Some? then Some(Attr.Integrity(f.integrity.value)) else None
    case Error => if f.error.Some? then Some(Attr.Error(f.error.value)) else None
    case UnknownAttributes =>
      if f.unknownAttributes.Some? then Some(Attr.UnknownAttributes(f.unknownAttributes.value)) else None
    case Realm => if f.realm.Some? then Some(Attr.Realm(f.realm.value)) else None
    case Nonce => if f.nonce.Some? then Some(Attr.Nonce(f.nonce.value)) else None
    case XMapped => if f.xmapped.Some? then Some(Attr.XMapped(f.xmapped.value)) else None
    case Software => if f.software.Some? then Some(Attr.Software(f.software.value)) else None
    case AlternateServer =>
      if f.alternateServer.Some? then Some(Attr.AlternateServer(f.alternateServer.value)) else None
    case Fingerprint => if f.fingerprint.Some? then Some(Attr.Fingerprint) else None
    case Channel => if f.channel.Some? then Some(Attr.Channel(f.channel.value)) else None
    case Lifetime => if f.lifetime.Some? then Some(Attr.Lifetime(f.lifetime.value)) else None
    case XPeer => if f.xpeer.Some? then Some(Attr.XPeer(f.xpeer.value)) else None
    case Data => if f.data.Some? then Some(Attr.Data(Slice(f.data.value))) else None
    case XRelayed => if f.xrelayed.Some? then Some(Attr.XRelayed(f.xrelayed.value)) else None
    case EvenPort => if f.evenPort.Some? then Some(Attr.EvenPort(EvenPortFlag(f.evenPort.value))) else None
    case RequestedTransport =>
      if f.requestedTransport.Some? then Some(Attr.RequestedTransport(Transport(f.requestedTransport.value))) else None
    case DontFragment => if f.dontFragment.Some? then Some(Attr.DontFragment) else None
    case ReservationToken =>
      if f.reservationToken.Some? then Some(Attr.ReservationToken(f.reservationToken.value)) else None
    case Priority => if f.priority.Some? then Some(Attr.Priority(f.priority.value)) else None
    case UseCandidate => if f.useCandidate.Some? then Some(Attr.UseCandidate) else None
    case IceControlled => if f.iceControlled.Some? then Some(Attr.IceControlled(f.iceControlled.value)) else None
    case IceControlling =>
      if f.iceControlling.Some? then Some(Attr.IceControlling(f.iceControlling.value)) else None
  }

  /** The slots determine the record: two views with the same slots are equal.
      The proof goes through `SameFields1`-`SameFields4` only to keep each
      proof obligation small; the split has no counterpart in the source. */
  lemma SlotsDetermineFlat(f: Flat, g: Flat)
    requires forall k :: Slot(f, k) == Slot(g, k)
    ensures f == g
  {
    SameFields1(f, g);
    SameFields2(f, g);
    SameFields3(f, g);
    SameFields4(f, g);
  }

  /** Six fields at a time: equal slots give equal fields. */
  lemma SameFields1(f: Flat, g: Flat)
    requires forall k :: Slot(f, k) == Slot(g, k)
    ensures f.mapped == g.mapped && f.username == g.username && f.integrity == g.integrity
    ensures f.error == g.error && f.unknownAttributes == g.unknownAttributes && f.realm == g.realm
  {
    assert Slot(f, Kind.Mapped) == Slot(g, Kind.Mapped);
    assert Slot(f, Kind.Username) == Slot(g, Kind.Username);
    assert Slot(f, Kind.Integrity) == Slot(g, Kind.Integrity);
    assert Slot(f, Kind.Error) == Slot(g, Kind.Error);
    assert Slot(f, Kind.UnknownAttributes) == Slot(g, Kind.UnknownAttributes);
    assert Slot(f, Kind.Realm) == Slot(g, Kind.Realm);
  }

  lemma SameFields2(f: Flat, g: Flat)
    requires forall k :: Slot(f, k) == Slot(g, k)
    ensures f.nonce == g.nonce && f.xmapped == g.xmapped && f.software == g.software
    ensures f.alternateServer == g.alternateServer && f.fingerprint == g.fingerprint && f.channel == g.channel
  {
    assert Slot(f, Kind.Nonce) == Slot(g, Kind.Nonce);
    assert Slot(f, Kind.XMapped) == Slot(g, Kind.XMapped);
    assert Slot(f, Kind.Software) == Slot(g, Kind.Software);
    assert Slot(f, Kind.AlternateServer) == Slot(g, Kind.AlternateServer);
    assert Slot(f, Kind.Fingerprint) == Slot(g, Kind.Fingerprint);
    UnitOption(f.fingerprint);
    UnitOption(g.fingerprint);
    assert Slot(f, Kind.Channel) == Slot(g, Kind.Channel);
  }

  lemma SameFields3(f: Flat, g: Flat)
    requires forall k :: Slot(f, k) == Slot(g, k)
    ensures f.lifetime == g.lifetime && f.xpeer == g.xpeer && f.data == g.data
    ensures f.xrelayed == g.xrelayed && f.evenPort == g.evenPort && f.requestedTransport == g.requestedTransport
  {
    assert Slot(f, Kind.Lifetime) == Slot(g, Kind.Lifetime);
    assert Slot(f, Kind.XPeer) == Slot(g, Kind.XPeer);
    assert Slot(f, Kind.Data) == Slot(g, Kind.Data);
    assert Slot(f, Kind.XRelayed) == Slot(g, Kind.XRelayed);
    assert Slot(f, Kind.EvenPort) == Slot(g, Kind.EvenPort);
    assert Slot(f, Kind.RequestedTransport) == Slot(g, Kind.RequestedTransport);
  }

  lemma SameFields4(f: Flat, g: Flat)
    requires forall k :: Slot(f, k) == Slot(g, k)
    ensures f.dontFragment == g.dontFragment && f.reservationToken == g.reservationToken && f.priority == g.priority
    ensures f.useCandidate == g.useCandidate && f.iceControlled == g.iceControlled && f.iceControlling == g.iceControlling
  {
    assert Slot(f, Kind.DontFragment) == Slot(g, Kind.DontFragment);
    UnitOption(f.dontFragment);
    UnitOption(g.dontFragment);
    assert Slot(f, Kind.ReservationToken) == Slot(g, Kind.ReservationToken);
    assert Slot(f, Kind.Priority) == Slot(g, Kind.Priority);
    assert Slot(f, Kind.UseCandidate) == Slot(g, Kind.UseCandidate);
    UnitOption(f.useCandidate);
    UnitOption(g.useCandidate);
    assert Slot(f, Kind.IceControlled) == Slot(g, Kind.IceControlled);
    assert Slot(f, Kind.IceControlling) == Slot(g, Kind.IceControlling);
  }

  /** A unit option carries nothing but whether it is set. */
  lemma UnitOption(x: Option<()>)
    ensures x == None || x == Some(())
  {
    match x
    case None =>
    case Some(()) =>
  }

  /** One turn of the fold: the arm `X(v) if x.is_none() => x = Some(v)` for
      the attribute's variant, written slot by slot. A slot takes the payload
      only when the attribute is of its variant and the slot is still empty;
      `Other`, a non-slice `Data` and a repeated kind fall through to `_ => {}`. */
  function Absorb(f: Flat, a: Attr): Flat
  {
    Flat(
      mapped := if a.Mapped? && f.mapped.None? then Some(a.addr) else f.mapped,
      username := if a.Username? && f.username.None? then Some(a.name) else f.username,
      integrity := if a.Integrity? && f.integrity.None? then Some(a.integrity) else f.integrity,
      error := if a.Error? && f.error.None? then Some(a.error) else f.error,
      unknownAttributes := if a.UnknownAttributes? && f.unknownAttributes.None? then Some(a.unknown) else f.unknownAttributes,
      realm := if a.Realm? && f.realm.None? then Some(a.realm) else f.realm,
      nonce := if a.Nonce? && f.nonce.None? then Some(a.nonce) else f.nonce,
      xmapped := if a.XMapped? && f.xmapped.None? then Some(a.addr) else f.xmapped,
      software := if a.Software? && f.software.None? then Some(a.software) else f.software,
      alternateServer := if a.AlternateServer? && f.alternateServer.None? then Some(a.addr) else f.alternateServer,
      fingerprint := if a.Fingerprint? && f.fingerprint.None? then Some(()) else f.fingerprint,
      channel := if a.Channel? && f.channel.None? then Some(a.channel) else f.channel,
      lifetime := if a.Lifetime? && f.lifetime.None? then Some(a.lifetime) else f.lifetime,
      xpeer := if a.XPeer? && f.xpeer.None? then Some(a.addr) else f.xpeer,
      data := if a.Data? && a.data.Slice? && f.data.None? then Some(a.data.bytes) else f.data,
      xrelayed := if a.XRelayed? && f.xrelayed.None? then Some(a.addr) else f.xrelayed,
      evenPort := if a.EvenPort? && f.evenPort.None? then Some(a.evenPort.reserve) else f.evenPort,
      requestedTransport := if a.RequestedTransport? && f.requestedTransport.None? then Some(a.transport.protocol) else f.requestedTransport,
      dontFragment := if a.DontFragment? && f.dontFragment.None? then Some(()) else f.dontFragment,
      reservationToken := if a.ReservationToken? && f.reservationToken.None? then Some(a.token) else f.reservationToken,
      priority := if a.Priority? && f.priority.None? then Some(a.priority) else f.priority,
      useCandidate := if a.UseCandidate? && f.useCandidate.None? then Some(()) else f.useCandidate,
      iceControlled := if a.IceControlled? && f.iceControlled.None? then Some(a.tiebreaker) else f.iceControlled,
      iceControlling := if a.IceControlling? && f.iceControlling.None? then Some(a.tiebreaker) else f.iceControlling)
  }

  /** The effect of one turn on each slot: the attribute's own slot takes the
      attribute when it was empty, and every other slot is unchanged. The
      helpers `OwnSlotAbsorb`, `OtherSlotAbsorb`, their `First`/`Second`
      halves and `InFirstHalf` only split this proof into obligations small
      enough for the solver. */
  lemma SlotAbsorb(f: Flat, a: Attr, k: Kind)
    ensures Slot(Absorb(f, a), k) ==
      if Slot(f, k).None? && SlotKind(a) == Some(k) then Some(a) else Slot(f, k)
  {
    if SlotKind(a) == Some(k) {
      OwnSlotAbsorb(f, a);
    } else {
      OtherSlotAbsorb(f, a, k);
    }
  }

  /** The attribute's own slot after one turn (split over the two halves
      of the variant list to keep each proof small). */
  lemma OwnSlotAbsorb(f: Flat, a: Attr)
    requires SlotKind(a).Some?
    ensures var k := SlotKind(a).value;
      Slot(Absorb(f, a), k) == if Slot(f, k).None? then Some(a) else Slot(f, k)
  {
    if InFirstHalf(a) {
      OwnSlotAbsorbFirst(f, a);
    } else {
      OwnSlotAbsorbSecond(f, a);
    }
  }

  /** The variants `Mapped` through `Channel`. */
  predicate InFirstHalf(a: Attr)
  {
    a.Mapped? || a.Username? || a.Integrity? || a.Error? || a.UnknownAttributes? ||
      a.Realm? || a.Nonce? || a.XMapped? || a.Software? || a.AlternateServer? ||
      a.Fingerprint? || a.Channel?
  }

  lemma OwnSlotAbsorbFirst(f: Flat, a: Attr)
    requires InFirstHalf(a) && SlotKind(a).Some?
    ensures var k := SlotKind(a).value;
      Slot(Absorb(f, a), k) == if Slot(f, k).None? then Some(a) else Slot(f, k)
  {
  }

  lemma OwnSlotAbsorbSecond(f: Flat, a: Attr)
    requires !InFirstHalf(a) && SlotKind(a).Some?
    ensures var k := SlotKind(a).value;
      Slot(Absorb(f, a), k) == if Slot(f, k).None? then Some(a) else Slot(f, k)
  {
  }

  /** Every other slot after one turn. */
  lemma OtherSlotAbsorb(f: Flat, a: Attr, k: Kind)
    requires SlotKind(a) != Some(k)
    ensures Slot(Absorb(f, a), k) == Slot(f, k)
  {
    if InFirstHalf(a) {
      OtherSlotAbsorbFirst(f, a, k);
    } else {
      OtherSlotAbsorbSecond(f, a, k);
    }
  }

  lemma OtherSlotAbsorbFirst(f: Flat, a: Attr, k: Kind)
    requires InFirstHalf(a) && SlotKind(a) != Some(k)
    ensures Slot(Absorb(f, a), k) == Slot(f, k)
  {
  }

  lemma OtherSlotAbsorbSecond(f: Flat, a: Attr, k: Kind)
    requires !InFirstHalf(a) && SlotKind(a) != Some(k)
    ensures Slot(Absorb(f, a), k) == Slot(f, k)
  {
  }

  /** An attribute with no slot (`Other`, non-slice `Data`), or whose slot is
      already filled, leaves every slot unchanged. */
  lemma AbsorbIgnores(f: Flat, a: Attr)
    requires SlotKind(a).None? || Slot(f, SlotKind(a).value).Some?
    ensures Absorb(f, a) == f
  {
    forall k {
      SlotAbsorb(f, a, k);
    }
    SlotsDetermineFlat(Absorb(f, a), f);
  }

  /** The first attribute of `xs` that fills slot `k`. */
  function FirstOf(xs: seq<Attr>, k: Kind): Option<Attr>
  {
    if xs == [] then None
    else if SlotKind(xs[0]) == Some(k) then Some(xs[0])
    else FirstOf(xs[1..], k)
  }

  /** `FirstOf` is the first occurrence: it is `None` exactly when no
      attribute of the sequence fills the slot, and otherwise it is an
      attribute at some index with no earlier attribute of that slot. */
  lemma {:induction false} FirstOfIsFirst(xs: seq<Attr>, k: Kind)
    ensures FirstOf(xs, k).None? <==> forall i :: 0 <= i < |xs| ==> SlotKind(xs[i]) != Some(k)
    ensures FirstOf(xs, k).Some? ==>
      exists i :: 0 <= i < |xs| && xs[i] == FirstOf(xs, k).value && SlotKind(xs[i]) == Some(k)
        && forall j :: 0 <= j < i ==> SlotKind(xs[j]) != Some(k)
  {
    if xs != [] && SlotKind(xs[0]) != Some(k) {
      FirstOfIsFirst(xs[1..], k);
      if FirstOf(xs, k).Some? {
        var i :| 0 <= i < |xs[1..]| && xs[1..][i] == FirstOf(xs, k).value && SlotKind(xs[1..][i]) == Some(k)
          && forall j :: 0 <= j < i ==> SlotKind(xs[1..][j]) != Some(k);
        assert xs[i + 1] == xs[1..][i];
        forall j | 0 <= j < i + 1 ensures SlotKind(xs[j]) != Some(k) {
          if j > 0 {
            assert xs[j] == xs[1..][j - 1];
          }
        }
      } else {
        forall i | 0 <= i < |xs| ensures SlotKind(xs[i]) != Some(k) {
          if i > 0 {
            assert xs[i] == xs[1..][i - 1];
          }
        }
      }
    }
  }

  /** Extending the sequence never changes a slot its prefix already filled. */
  lemma {:induction false} FirstOfAppend(xs: seq<Attr>, ys: seq<Attr>, k: Kind)
    requires FirstOf(xs, k).Some?
    ensures FirstOf(xs + ys, k) == FirstOf(xs, k)
  {
    if SlotKind(xs[0]) != Some(k) {
      assert (xs + ys)[1..] == xs[1..] + ys;
      FirstOfAppend(xs[1..], ys, k);
    }
  }

  /** Appending one attribute fills the slot only if it was still empty. */
  lemma {:induction false} FirstOfSnoc(xs: seq<Attr>, a: Attr, k: Kind)
    ensures FirstOf(xs + [a], k) ==
      if FirstOf(xs, k).Some? then FirstOf(xs, k)
      else if SlotKind(a) == Some(k) then Some(a)
      else None
  {
    if xs == [] {
      assert [] + [a] == [a];
    } else if SlotKind(xs[0]) != Some(k) {
      assert (xs + [a])[1..] == xs[1..] + [a];
      FirstOfSnoc(xs[1..], a, k);
    }
  }

  /** `FromIterator<StunAttr> for Flat`: the fold over the attributes in
      order. Each slot ends up holding the first attribute of its kind, and is
      empty exactly when no attribute of that kind occurs. */
  method FromIter(attrs: seq<Attr>) returns (f: Flat)
    ensures forall k :: Slot(f, k) == FirstOf(attrs, k)
  {
    f := EMPTY;
    for i := 0 to |attrs|
      invariant forall k :: Slot(f, k) == FirstOf(attrs[..i], k)
    {
      var a := attrs[i];
      forall k ensures Slot(Absorb(f, a), k) == FirstOf(attrs[..i + 1], k) {
        SlotAbsorb(f, a, k);
        assert attrs[..i + 1] == attrs[..i] + [a];
        FirstOfSnoc(attrs[..i], a, k);
      }
      f := Absorb(f, a);
    }
    assert attrs[..|attrs|] == attrs;
  }

  /** The question `check_auth` puts to the lookup: the username and the realm
      slot (possibly empty), asked only when both a username and an integrity
      attribute are present. */
  function AuthQuery(f: Flat): (q: Option<(string, Option<string>)>)
    ensures q.Some? <==> f.username.Some? && f.integrity.Some?
    ensures q.Some? ==> q.value == (f.username.value, f.realm)
  {
    if f.username.None? || f.integrity.None? then None
    else Some((f.username.value, f.realm))
  }

  /** `Flat::check_auth`: `lookup` maps a username and realm to a password,
      `verify` is `Integrity::verify`, and `asRef` gives a password's bytes.
      The answer is the username with the password exactly when the lookup
      was asked, answered, and the integrity attribute verifies with it. */
  function CheckAuth<T>(
    f: Flat,
    lookup: (string, Option<string>) -> Option<T>,
    verify: (MessageIntegrity, seq<byte>) -> bool,
    asRef: T -> seq<byte>)
    : (r: Option<(string, T)>)
    ensures f.username.None? || f.integrity.None? ==> r.None?
    ensures r.Some? <==>
      && f.username.Some? && f.integrity.Some?
      && lookup(f.username.value, f.realm).Some?
      && verify(f.integrity.value, asRef(lookup(f.username.value, f.realm).value))
    ensures r.Some? ==> r.value == (f.username.value, lookup(f.username.value, f.realm).value)
  {
    match AuthQuery(f)
    case None => None
    case Some((username, realm)) =>
      match lookup(username, realm)
      case None => None
      case Some(password) =>
        if verify(f.integrity.value, asRef(password)) then Some((username, password)) else None
  }

  /** `check_auth` consults the lookup only with the question `AuthQuery`
      puts: two lookups that agree on that question (or any two lookups, when
      the username or the integrity attribute is missing) give the same
      answer. */
  lemma CheckAuthAsksOnlyQuery<T>(
    f: Flat,
    lookup1: (string, Option<string>) -> Option<T>,
    lookup2: (string, Option<string>) -> Option<T>,
    verify: (MessageIntegrity, seq<byte>) -> bool,
    asRef: T -> seq<byte>)
    requires AuthQuery(f).Some? ==>
      lookup1(AuthQuery(f).value.0, AuthQuery(f).value.1) == lookup2(AuthQuery(f).value.0, AuthQuery(f).value.1)
    ensures CheckAuth(f, lookup1, verify, asRef) == CheckAuth(f, lookup2, verify, asRef)
  {
  }
}
