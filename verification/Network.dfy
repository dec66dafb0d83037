/** BVLL messages (Annex J), NPDUs (clause 6.2) and `Frame`, which decodes both. */
module Network {
  import opened Octets
  import opened Tags

  const BVLC_TYPE: Octet := 0x81
  const BVLC_FORWARDED_NPDU: Octet := 0x04
  const BVLC_DISTRIBUTE_BROADCAST: Octet := 0x09
  const BVLC_ORIGINAL_UNICAST: Octet := 0x0A
  const BVLC_ORIGINAL_BROADCAST: Octet := 0x0B

  predicate CarriesNpdu(kind: Octet) {
    kind == BVLC_FORWARDED_NPDU || kind == BVLC_DISTRIBUTE_BROADCAST
    || kind == BVLC_ORIGINAL_UNICAST || kind == BVLC_ORIGINAL_BROADCAST
  }

  /** The optional parts of an NPDU header. An address counts only with its network number. */
  datatype Npci = Npci(networkMessage: Option<Octet>, dnet: Option<U16>, dadr: Bytes,
                       snet: Option<U16>, sadr: Bytes, expectingReply: bool, hopCount: Octet)

  const PLAIN := Npci(None, None, [], None, [], false, 255)

  /** The lengths of the addresses fit the octet they are packed into. */
  predicate Packable(n: Npci) {
    (n.dnet.Some? ==> |n.dadr| < 256) && (n.snet.Some? ==> |n.sadr| < 256)
  }

  function Bit(present: bool, weight: nat): nat { if present then weight else 0 }

  function Control(n: Npci): Octet {
    Bit(n.networkMessage.Some?, 0x80) + Bit(n.dnet.Some?, 0x20) + Bit(n.snet.Some?, 0x08) + Bit(n.expectingReply, 0x04)
  }

  function Address(net: Option<U16>, address: Bytes): Bytes
    requires net.Some? ==> |address| < 256
  {
    if net.Some? then U16Bytes(net.value) + [|address|] + address else []
  }

  function HopCount(n: Npci): Bytes { if n.dnet.Some? then [n.hopCount] else [] }

  function MessageType(n: Npci): Bytes { if n.networkMessage.Some? then [n.networkMessage.value] else [] }

  function Npdu(payload: Bytes, n: Npci): Bytes
    requires Packable(n)
  {
    [0x01, Control(n)] + Address(n.dnet, n.dadr) + Address(n.snet, n.sadr) + HopCount(n) + MessageType(n) + payload
  }

  predicate FitsBvll(body: Bytes) { 4 + |body| < 0x1_0000 }

  /** Forwarded-NPDU puts the 6-octet address of the originating device before the NPDU. */
  function Bvll(kind: Octet, body: Bytes): Bytes
    requires FitsBvll(body)
  {
    [BVLC_TYPE, kind] + U16Bytes(4 + |body|) + body
  }

  function Bvlc(npdu: Bytes): Bytes
    requires FitsBvll(npdu)
  {
    Bvll(BVLC_ORIGINAL_UNICAST, npdu)
  }

  /** What `Frame` holds of one datagram. */
  datatype Fields = Fields(bvlcFunction: Option<Octet>, bvllData: Bytes, originatingMac: Bytes, hasNpdu: bool,
                           snet: Option<U16>, sadr: Bytes, dnet: Option<U16>, dadr: Bytes, expectingReply: bool,
                           networkMessage: Option<Octet>, payload: Bytes, ok: bool)
  {
    function PduType(): Option<nat> {
      if networkMessage.None? && payload != [] then Some(payload[0] / 16) else None
    }

    /** SimpleACK, ComplexACK, Error, Reject or Abort. */
    predicate IsResponse() {
      PduType() in {Some(2), Some(3), Some(5), Some(6), Some(7)}
    }

    predicate IsConfirmedRequest() { PduType() == Some(0) }

    function InvokeId(): Outcome<Option<Octet>> {
      if IsResponse() then
        if |payload| < 2 then Raised(IndexError) else Returned(Some(payload[1]))
      else if IsConfirmedRequest() && |payload| > 2 then Returned(Some(payload[2]))
      else Returned(None)
    }

    function Service(): Outcome<Option<Octet>> {
      if PduType() in {Some(2), Some(3), Some(5)} then
        if |payload| < 3 then Raised(IndexError) else Returned(Some(payload[2]))
      else if IsConfirmedRequest() && |payload| > 3 then Returned(Some(payload[3]))
      else if PduType() == Some(1) && |payload| > 1 then Returned(Some(payload[1]))
      else Returned(None)
    }
  }

  const BLANK := Fields(None, [], [], false, None, [], None, [], false, None, [], false)

  /** A network number, the length of an address and the address, which a short frame truncates. */
  function ReadAddress(octets: Bytes, position: nat): (r: Outcome<(U16, Bytes, nat)>)
    ensures r.Returned? ==> position < r.value.2 && |r.value.1| < 256
  {
    if position + 3 > |octets| then Raised(StructError) else
    var length := octets[position + 2];
    Returned(((octets[position] as int) * 256 + octets[position + 1],
              Slice(octets, position + 3, position + 3 + length), position + 3 + length))
  }

  predicate HasBit(control: Octet, weight: nat)
    requires weight > 0
  {
    control / weight % 2 == 1
  }

  function DecodeDestination(octets: Bytes, control: Octet, f: Fields, position: nat): (r: Outcome<(Fields, nat)>)
    ensures r.Returned? ==> r.value.0.ok == f.ok && (|f.sadr| < 256 ==> |r.value.0.sadr| < 256)
  {
    if HasBit(control, 0x20) then
      var (net, address, next) :- ReadAddress(octets, position);
      Returned((f.(dnet := Some(net), dadr := address), next))
    else Returned((f, position))
  }

  function DecodeSource(octets: Bytes, control: Octet, f: Fields, position: nat): (r: Outcome<(Fields, nat)>)
    ensures r.Returned? ==> r.value.0.ok == f.ok && (|f.sadr| < 256 ==> |r.value.0.sadr| < 256)
  {
    if HasBit(control, 0x08) then
      var (net, address, next) :- ReadAddress(octets, position);
      Returned((f.(snet := Some(net), sadr := address), next))
    else Returned((f, position))
  }

  /** The hop count is skipped; a proprietary message type (X'80' and above) takes a vendor id with it. */
  function DecodePayload(octets: Bytes, control: Octet, f: Fields, position: nat): (r: Outcome<Fields>)
    ensures r.Returned? ==> r.value.ok && r.value.sadr == f.sadr
  {
    var p := if HasBit(control, 0x20) then position + 1 else position;
    if HasBit(control, 0x80) then
      if p >= |octets| then Raised(IndexError) else
      var start := if octets[p] >= 0x80 then p + 3 else p + 1;
      Returned(f.(networkMessage := Some(octets[p]), payload := Slice(octets, start, |octets|), ok := true))
    else Returned(f.(payload := Slice(octets, p, |octets|), ok := true))
  }

  function DecodeNpdu(octets: Bytes, f: Fields): (r: Outcome<Fields>)
    ensures r.Returned? && |f.sadr| < 256 ==> |r.value.sadr| < 256
  {
    if |octets| < 2 || octets[0] != 0x01 then Returned(f) else
    var control := octets[1];
    var g := f.(hasNpdu := true, expectingReply := HasBit(control, 0x04));
    var (d, afterDestination) :- DecodeDestination(octets, control, g, 2);
    var (s, afterSource) :- DecodeSource(octets, control, d, afterDestination);
    DecodePayload(octets, control, s, afterSource)
  }

  function FrameOf(data: Bytes): (r: Outcome<Fields>)
    ensures r.Returned? ==> |r.value.sadr| < 256
  {
    if |data| < 4 || data[0] != BVLC_TYPE then Returned(BLANK) else
    var f := BLANK.(bvlcFunction := Some(data[1]), bvllData := data[4..]);
    if !CarriesNpdu(data[1]) then Returned(f.(ok := true))
    else if data[1] == BVLC_FORWARDED_NPDU then
      DecodeNpdu(Slice(data, 10, |data|), f.(originatingMac := Slice(data, 4, 10)))
    else DecodeNpdu(data[4..], f)
  }

  /** The decoder as the source runs it: fields assigned one by one while a position moves on. */
  class Frame {
    var bvlcFunction: Option<Octet>
    var bvllData: Bytes
    var originatingMac: Bytes
    var hasNpdu: bool
    var snet: Option<U16>
    var sadr: Bytes
    var dnet: Option<U16>
    var dadr: Bytes
    var expectingReply: bool
    var networkMessage: Option<Octet>
    var payload: Bytes
    var ok: bool

    ghost function View(): Fields
      reads this
    {
      Fields(bvlcFunction, bvllData, originatingMac, hasNpdu, snet, sadr, dnet, dadr, expectingReply,
             networkMessage, payload, ok)
    }

    constructor ()
      ensures View() == BLANK
    {
      bvlcFunction, bvllData, originatingMac, hasNpdu := None, [], [], false;
      snet, sadr, dnet, dadr := None, [], None, [];
      expectingReply, networkMessage, payload, ok := false, None, [], false;
    }

    /** `Frame.__init__`: either the frame holds what FrameOf says, or the same failure is raised. */
    method Receive(data: Bytes) returns (r: Outcome<bool>)
      requires View() == BLANK
      modifies this
      ensures match FrameOf(data)
              case Returned(f) => r == Returned(f.ok) && View() == f
              case Raised(e) => r == Raised(e)
    {
      r := Decode(data);
      if r.Returned? {
        ok := r.value;
      }
    }

    method Decode(data: Bytes) returns (r: Outcome<bool>)
      requires View() == BLANK
      modifies this
      ensures match FrameOf(data)
              case Returned(f) => r == Returned(f.ok) && View() == f.(ok := false)
              case Raised(e) => r == Raised(e)
    {
      hide DecodeNpdu;
      if |data| < 4 || data[0] != BVLC_TYPE {
        return Returned(false);
      }
      bvlcFunction := Some(data[1]);
      bvllData := data[4..];
      if !CarriesNpdu(data[1]) {
        return Returned(true);
      }
      var offset := 4;
      if data[1] == BVLC_FORWARDED_NPDU {
        originatingMac := Slice(data, 4, 10);
        offset := offset + 6;
      }
      assert data[4..] == Slice(data, 4, |data|);
      r := DecodeOctets(Slice(data, offset, |data|));
    }

    /** The NPDU, after the BVLL header. */
    method DecodeOctets(octets: Bytes) returns (r: Outcome<bool>)
      requires !ok
      modifies this
      ensures match DecodeNpdu(octets, old(View()))
              case Returned(f) => r == Returned(f.ok) && View() == f.(ok := false)
              case Raised(e) => r == Raised(e)
    {
      hide HasBit, DecodeDestination, DecodeSource, DecodePayload;
      if |octets| < 2 || octets[0] != 0x01 {
        return Returned(false);
      }
      hasNpdu := true;
      var control := octets[1];
      expectingReply := HasBit(control, 0x04);
      var a := DecodeAddressFields(octets, control);
      if a.Raised? {
        return Raised(a.error);
      }
      r := DecodeMessage(octets, control, a.value);
    }

    /** What follows the addresses: hop count, message type and payload. */
    method DecodeMessage(octets: Bytes, control: Octet, start: nat) returns (r: Outcome<bool>)
      requires !ok
      modifies this`networkMessage, this`payload
      ensures match DecodePayload(octets, control, old(View()), start)
              case Returned(f) => r == Returned(f.ok) && View() == f.(ok := false)
              case Raised(e) => r == Raised(e)
    {
      hide HasBit, Slice;
      var position := start;
      if HasBit(control, 0x20) {
        position := position + 1;
      }
      if HasBit(control, 0x80) {
        if position >= |octets| {
          return Raised(IndexError);
        }
        networkMessage := Some(octets[position]);
        position := position + 1;
        if networkMessage.value >= 0x80 {
          position := position + 2;
        }
      }
      payload := Slice(octets, position, |octets|);
      return Returned(true);
    }

    /** DNET/DADR and SNET/SADR, in that order; where the rest starts. */
    method DecodeAddressFields(octets: Bytes, control: Octet) returns (r: Outcome<nat>)
      modifies this`dnet, this`dadr, this`snet, this`sadr
      ensures match DecodeDestination(octets, control, old(View()), 2)
              case Raised(e) => r == Raised(e)
              case Returned((d, p)) =>
                match DecodeSource(octets, control, d, p)
                case Raised(e) => r == Raised(e)
                case Returned((s, q)) => r == Returned(q) && View() == s
    {
      hide HasBit, ReadAddress;
      var position := 2;
      if HasBit(control, 0x20) {
        var a := ReadAddress(octets, position);
        if a.Raised? {
          return Raised(a.error);
        }
        dnet, dadr, position := Some(a.value.0), a.value.1, a.value.2;
      }
      if HasBit(control, 0x08) {
        var a := ReadAddress(octets, position);
        if a.Raised? {
          return Raised(a.error);
        }
        snet, sadr, position := Some(a.value.0), a.value.1, a.value.2;
      }
      return Returned(position);
    }
  }

  // -- what is on the wire ---------------------------------------------------------

  /** Annex J.2: type X'81', the function, the length of the whole datagram, header included, and the body. */
  lemma BvllHeader(kind: Octet, body: Bytes)
    requires FitsBvll(body)
    ensures var d := Bvll(kind, body);
            d[0] == 0x81 && d[1] == kind && FromBytes(d[2..4]) == |d| && d[4..] == body
  {
    var d := Bvll(kind, body);
    assert d[2..4] == [d[2], d[3]];
    FromBytes2(d[2], d[3]);
  }

  lemma NpduLayout(payload: Bytes, n: Npci)
    requires Packable(n)
    ensures var to := if n.dnet.Some? then [n.dnet.value / 256, n.dnet.value % 256, |n.dadr|] + n.dadr else [];
            var from := if n.snet.Some? then [n.snet.value / 256, n.snet.value % 256, |n.sadr|] + n.sadr else [];
            var hops := if n.dnet.Some? then [n.hopCount] else [];
            var message := if n.networkMessage.Some? then [n.networkMessage.value] else [];
            Npdu(payload, n) == [1, Control(n)] + to + from + hops + message + payload
  {
    hide Control;
  }

  lemma ControlOctet(n: Npci)
    ensures var c := Control(n);
            && (c >= 0x80 <==> n.networkMessage.Some?) && (c / 0x20 % 2 == 1 <==> n.dnet.Some?)
            && (c / 0x08 % 2 == 1 <==> n.snet.Some?) && (c / 0x04 % 2 == 1 <==> n.expectingReply)
            && c / 0x40 % 2 == 0 && c / 0x10 % 2 == 0 && c % 4 == 0
  {
  }

  /** An NPDU in its datagram (Annex J.2 and clause 6.2): BVLL header, version 1, the control octet, DNET and DADR, SNET
      and SADR, the hop count if there is a DNET, a message type, and the payload. */
  lemma DatagramLayout(kind: Octet, mac: Bytes, payload: Bytes, n: Npci)
    requires Packable(n) && FitsBvll(mac + Npdu(payload, n))
    ensures var d := Bvll(kind, mac + Npdu(payload, n));
            var to := if n.dnet.Some? then [n.dnet.value / 256, n.dnet.value % 256, |n.dadr|] + n.dadr else [];
            var from := if n.snet.Some? then [n.snet.value / 256, n.snet.value % 256, |n.sadr|] + n.sadr else [];
            var hops := if n.dnet.Some? then [n.hopCount] else [];
            var message := if n.networkMessage.Some? then [n.networkMessage.value] else [];
            && d[0] == 0x81 && d[1] == kind && FromBytes(d[2..4]) == |d|
            && d[4..] == mac + ([1, Control(n)] + to + from + hops + message + payload)
    ensures FitsBvll(Npdu(payload, n)) ==> Bvlc(Npdu(payload, n)) == Bvll(0x0A, Npdu(payload, n))
  {
    hide Npdu, Control, Bvll, FromBytes;
    BvllHeader(kind, mac + Npdu(payload, n));
    NpduLayout(payload, n);
  }

  // -- decoding inverts encoding -----------------------------------------------

  function AddressOf(net: Option<U16>, address: Bytes): Bytes { if net.Some? then address else [] }

  /** What a frame made of `n` and `payload` should decode to. */
  function Expected(base: Fields, payload: Bytes, n: Npci): Fields {
    base.(hasNpdu := true, expectingReply := n.expectingReply,
          dnet := n.dnet, dadr := AddressOf(n.dnet, n.dadr), snet := n.snet, sadr := AddressOf(n.snet, n.sadr),
          networkMessage := n.networkMessage, payload := payload, ok := true)
  }

  /** The payload the decoder recovers: two octets short after a proprietary message type, whose
      vendor id the decoder skips and the encoder never writes. */
  function Recovered(payload: Bytes, n: Npci): Bytes {
    if n.networkMessage.Some? && n.networkMessage.value >= 0x80 then Slice(payload, 2, |payload|) else payload
  }

  lemma ControlBits(n: Npci)
    ensures HasBit(Control(n), 0x80) == n.networkMessage.Some?
    ensures HasBit(Control(n), 0x20) == n.dnet.Some?
    ensures HasBit(Control(n), 0x08) == n.snet.Some?
    ensures HasBit(Control(n), 0x04) == n.expectingReply
  {
  }

  lemma ReadAddressOf(net: U16, address: Bytes, a: Bytes, at: nat)
    requires |address| < 256 && Occurs(Address(Some(net), address), a, at)
    ensures ReadAddress(a, at) == Returned((net, address, at + 3 + |address|))
  {
    var b := Address(Some(net), address);
    OccursAt(b, a, at, 0);
    OccursAt(b, a, at, 1);
    OccursAt(b, a, at, 2);
    OccursSlice(b, a, at, 3, 3 + |address|);
    assert b[3..3 + |address|] == address;
  }

  lemma DecodeAddresses(octets: Bytes, f: Fields, n: Npci)
    requires Packable(n)
    requires var d := Address(n.dnet, n.dadr);
             Occurs(d, octets, 2) && Occurs(Address(n.snet, n.sadr), octets, 2 + |d|)
    requires f.dnet.None? && f.dadr == [] && f.snet.None? && f.sadr == []
    ensures var d := Address(n.dnet, n.dadr);
            var g := f.(dnet := n.dnet, dadr := AddressOf(n.dnet, n.dadr));
            && DecodeDestination(octets, Control(n), f, 2) == Returned((g, 2 + |d|))
            && DecodeSource(octets, Control(n), g, 2 + |d|)
               == Returned((g.(snet := n.snet, sadr := AddressOf(n.snet, n.sadr)),
                            2 + |d| + |Address(n.snet, n.sadr)|))
  {
    hide ReadAddress, Control, HasBit, Occurs;
    ControlBits(n);
    var d := Address(n.dnet, n.dadr);
    if n.dnet.Some? {
      ReadAddressOf(n.dnet.value, n.dadr, octets, 2);
    }
    if n.snet.Some? {
      ReadAddressOf(n.snet.value, n.sadr, octets, 2 + |d|);
    }
  }

  lemma DecodeTail(head: Bytes, payload: Bytes, f: Fields, n: Npci)
    requires f.networkMessage.None?
    ensures DecodePayload(head + HopCount(n) + MessageType(n) + payload, Control(n), f, |head|)
            == Returned(f.(networkMessage := n.networkMessage, payload := Recovered(payload, n), ok := true))
  {
    hide Control, HasBit;
    ControlBits(n);
    var octets := head + HopCount(n) + MessageType(n) + payload;
    var p := |head| + |HopCount(n)|;
    if n.networkMessage.Some? {
      assert octets[p] == n.networkMessage.value;
      var start := if octets[p] >= 0x80 then p + 3 else p + 1;
      assert Slice(octets, start, |octets|) == Recovered(payload, n);
    } else {
      assert Slice(octets, p, |octets|) == payload;
    }
  }

  lemma DecodeEncodedNpdu(payload: Bytes, n: Npci, base: Fields)
    requires Packable(n) && base == BLANK.(bvlcFunction := base.bvlcFunction, bvllData := base.bvllData,
                                           originatingMac := base.originatingMac)
    ensures DecodeNpdu(Npdu(payload, n), base) == Returned(Expected(base, Recovered(payload, n), n))
  {
    hide HasBit, Control, Address, HopCount, MessageType, DecodePayload, DecodeDestination, DecodeSource, Recovered;
    var d, s := Address(n.dnet, n.dadr), Address(n.snet, n.sadr);
    var head := [0x01, Control(n)] + d + s;
    var octets := Npdu(payload, n);
    OccursIn([0x01, Control(n)], d, s + HopCount(n) + MessageType(n) + payload);
    assert octets == [0x01, Control(n)] + d + (s + HopCount(n) + MessageType(n) + payload);
    OccursIn([0x01, Control(n)] + d, s, HopCount(n) + MessageType(n) + payload);
    assert octets == ([0x01, Control(n)] + d) + s + (HopCount(n) + MessageType(n) + payload);
    ControlBits(n);
    var f := base.(hasNpdu := true, expectingReply := n.expectingReply);
    DecodeAddresses(octets, f, n);
    var g := f.(dnet := n.dnet, dadr := AddressOf(n.dnet, n.dadr),
                snet := n.snet, sadr := AddressOf(n.snet, n.sadr));
    DecodeTail(head, payload, g, n);
  }

  /** Clause 6.2 and Annex J: for every presence combination, any address lengths, any payload and
      either kind of BVLL message, the decoder recovers each part exactly, and the payload up to
      the vendor id. */
  lemma FrameInvertsEncoding(kind: Octet, mac: Bytes, payload: Bytes, n: Npci)
    requires CarriesNpdu(kind) && |mac| == if kind == BVLC_FORWARDED_NPDU then 6 else 0
    requires Packable(n) && FitsBvll(mac + Npdu(payload, n))
    ensures var body := mac + Npdu(payload, n);
            FrameOf(Bvll(kind, body))
            == Returned(Expected(BLANK.(bvlcFunction := Some(kind), bvllData := body, originatingMac := mac),
                                 Recovered(payload, n), n))
  {
    hide Npdu, DecodeNpdu, Recovered, U16Bytes;
    var body := mac + Npdu(payload, n);
    var data := Bvll(kind, body);
    assert data[4..] == body;
    if kind == BVLC_FORWARDED_NPDU {
      assert Slice(data, 10, |data|) == Npdu(payload, n);
      assert Slice(data, 4, 10) == mac;
    } else {
      assert body == Npdu(payload, n);
    }
    DecodeEncodedNpdu(payload, n, BLANK.(bvlcFunction := Some(kind), bvllData := body, originatingMac := mac));
  }

  /** Only functions X'04', X'09', X'0A' and X'0B' have an NPDU in them; any other message is decoded to its header and
      its data, and a datagram of fewer than four octets or of another type is not decoded at all. */
  lemma OtherMessages(kind: Octet, body: Bytes, data: Bytes)
    requires FitsBvll(body)
    ensures CarriesNpdu(kind) <==> kind in {0x04, 0x09, 0x0A, 0x0B}
    ensures kind !in {0x04, 0x09, 0x0A, 0x0B} ==>
              FrameOf(Bvll(kind, body)) == Returned(BLANK.(bvlcFunction := Some(kind), bvllData := body, ok := true))
    ensures |data| < 4 || data[0] != 0x81 ==> FrameOf(data) == Returned(BLANK)
  {
    hide DecodeNpdu;
    assert Bvll(kind, body)[4..] == body;
  }

  /** Exactly when the decoder finds the payload whole: unless the message type is proprietary and there is a
      payload to lose octets from. */
  lemma PayloadSurvives(kind: Octet, mac: Bytes, payload: Bytes, n: Npci)
    requires CarriesNpdu(kind) && |mac| == if kind == BVLC_FORWARDED_NPDU then 6 else 0
    requires Packable(n) && FitsBvll(mac + Npdu(payload, n))
    ensures var f := FrameOf(Bvll(kind, mac + Npdu(payload, n)));
            f.Returned? && (f.value.payload == payload
                            <==> n.networkMessage.None? || n.networkMessage.value < 0x80 || payload == [])
  {
    hide Npdu, FrameOf, Bvll;
    FrameInvertsEncoding(kind, mac, payload, n);
  }

  // -- the two ends of an exchange ---------------------------------------------------

  /** The path a request takes to a server: straight, or relayed by a router that adds SNET/SADR. */
  datatype Path = Straight | Relayed(snet: U16, sadr: Bytes)

  predicate PathOk(path: Path) { path.Relayed? ==> |path.sadr| < 256 }

  function RequestNpci(path: Path): Npci {
    match path
    case Straight => PLAIN.(expectingReply := true)
    case Relayed(snet, sadr) => PLAIN.(expectingReply := true, snet := Some(snet), sadr := sadr)
  }

  /** `SimulatedDevice._reply` (clause 6.5.4): back through the router the request came from. */
  function ReplyNpci(request: Fields): Npci {
    if request.snet.Some? then PLAIN.(dnet := request.snet, dadr := request.sadr) else PLAIN
  }

  function RequestFrame(apdu: Bytes, path: Path): Fields
    requires PathOk(path)
  {
    var n := RequestNpci(path);
    Expected(BLANK.(bvlcFunction := Some(BVLC_ORIGINAL_UNICAST), bvllData := Npdu(apdu, n)), apdu, n)
  }

  function ReplyFrame(apdu: Bytes, path: Path): Fields
    requires PathOk(path)
  {
    var n := if path.Relayed? then PLAIN.(dnet := Some(path.snet), dadr := path.sadr) else PLAIN;
    Expected(BLANK.(bvlcFunction := Some(BVLC_ORIGINAL_UNICAST), bvllData := Npdu(apdu, n)), apdu, n)
  }

  /** A request reaches the server whole, and the reply to it comes back whole, addressed by
      DNET/DADR to the SNET/SADR the request carried. */
  lemma Transported(request: Bytes, reply: Bytes, path: Path)
    requires PathOk(path)
    requires FitsBvll(Npdu(request, RequestNpci(path)))
    ensures FrameOf(Bvlc(Npdu(request, RequestNpci(path)))) == Returned(RequestFrame(request, path))
    ensures var n := ReplyNpci(RequestFrame(request, path));
            && Packable(n)
            && (FitsBvll(Npdu(reply, n)) ==> FrameOf(Bvlc(Npdu(reply, n))) == Returned(ReplyFrame(reply, path)))
    ensures var seen, back := RequestFrame(request, path), ReplyFrame(reply, path);
            && seen.ok && seen.expectingReply && seen.payload == request && seen.networkMessage.None?
            && back.ok && !back.expectingReply && back.payload == reply && back.networkMessage.None?
            && (path.Straight? ==> seen.snet.None? && back.dnet.None?)
            && (path.Relayed? ==> (seen.snet, seen.sadr) == (back.dnet, back.dadr) == (Some(path.snet), path.sadr))
  {
    hide Npdu, FrameOf, Bvll;
    assert [] + Npdu(request, RequestNpci(path)) == Npdu(request, RequestNpci(path));
    FrameInvertsEncoding(BVLC_ORIGINAL_UNICAST, [], request, RequestNpci(path));
    var n := ReplyNpci(RequestFrame(request, path));
    if FitsBvll(Npdu(reply, n)) {
      assert [] + Npdu(reply, n) == Npdu(reply, n);
      FrameInvertsEncoding(BVLC_ORIGINAL_UNICAST, [], reply, n);
    }
  }
}
