/** Who-Is and I-Am (clauses 16.10.1 and 16.10.2): who answers, and what a client reads from the answer. */
module Discovery {
  import opened Octets
  import opened Tags
  import opened Network
  import opened Requests
  import opened Server
  import EndToEnd

  function WhoIsRange(low: U32, high: U32): Bytes {
    [0x10, SERVICE_WHO_IS] + (ContextUnsigned(0, low) + ContextUnsigned(1, high))
  }

  function WhoIsAnyone(): Bytes { [0x10, SERVICE_WHO_IS] }

  /** `i_am_device_instance` */
  function DeviceInstance(apdu: Bytes): Outcome<Option<Instance>> {
    if |apdu| < 7 || apdu[0] / 16 != 1 || apdu[1] != 0 then Returned(None) else
    var t :- ReadTag(apdu, 2);
    if t.isContext || t.number != 12 || |t.body| != 4 then Returned(None) else
    var o :- UnpackObjectId(t.body);
    Returned(if o.objectType == OBJECT_TYPE_DEVICE then Some(o.instance) else None)
  }

  lemma LimitsStep(tag: TagNumber, v: U32, a: Bytes, at: nat, rest: seq<nat>)
    requires Occurs(ContextUnsigned(tag, v), a, at)
    requires Limits(a, at + |ContextUnsigned(tag, v)|) == Returned(rest)
    ensures Limits(a, at) == Returned([v as nat] + rest)
  {
    hide ReadTag, FromBytes, ContextUnsigned, UnsignedOctets, Occurs;
    ReadContextUnsigned(tag, v, a, at);
  }

  lemma LimitsOfRange(low: U32, high: U32)
    ensures Limits(ContextUnsigned(0, low) + ContextUnsigned(1, high), 0) == Returned([low as nat, high as nat])
  {
    hide ReadTag, ContextUnsigned, Limits;
    var a, b := ContextUnsigned(0, low), ContextUnsigned(1, high);
    OccursIn([], a, b);
    assert [] + a + b == a + b;
    OccursIn(a, b, []);
    assert a + b + [] == a + b;
    LimitsPastEnd(a + b, |a + b|);
    LimitsStep(1, high, a + b, |a|, []);
    LimitsStep(0, low, a + b, 0, [high as nat] + []);
    assert [low as nat] + ([high as nat] + []) == [low as nat, high as nat];
  }

  lemma LimitsPastEnd(octets: Bytes, position: nat)
    requires position >= |octets|
    ensures Limits(octets, position) == Returned([])
  {
  }

  lemma WhoIsAnswer(c: Config, low: U32, high: U32)
    ensures WhoIs(c, WhoIsRange(low, high))
            == Returned(if low <= c.deviceInstance <= high then Some(IAm(c)) else None)
    ensures WhoIs(c, WhoIsAnyone()) == Returned(Some(IAm(c)))
  {
    hide Limits, ContextUnsigned, IAm;
    LimitsOfRange(low, high);
    var apdu := WhoIsRange(low, high);
    assert Slice(apdu, 2, |apdu|) == ContextUnsigned(0, low) + ContextUnsigned(1, high);
    LimitsPastEnd([], 0);
  }

  /** The instance an I-Am announces is read back. */
  lemma IAmRoundTrip(c: Config)
    ensures DeviceInstance(IAm(c)) == Returned(Some(c.deviceInstance))
  {
    hide ReadTag, Primitive, UnpackObjectId, UnsignedOctets;
    var id := ApplicationObjectId(DeviceId(c));
    var rest := ApplicationUnsigned(1476) + ApplicationEnumerated(3) + ApplicationUnsigned(c.vendorIdentifier);
    assert IAm(c) == [0x10, 0x00] + id + rest;
    OccursIn([0x10, 0x00], id, rest);
    IdOctets(DeviceId(c));
    ReadPrimitiveAt(12, false, ObjectIdBytes(DeviceId(c)), IAm(c), 2);
    ObjectIdRoundTrip(DeviceId(c));
  }

  /** The first tag of an I-Am is the object identifier: a Device's instance is announced, any other object's is not. */
  lemma AnnouncedInstance(o: ObjectId, rest: Bytes)
    requires rest != []
    ensures DeviceInstance([0x10, 0x00] + ApplicationObjectId(o) + rest)
            == Returned(if o.objectType == 8 then Some(o.instance) else None)
  {
    hide ReadTag, Primitive, UnpackObjectId;
    var apdu := [0x10, 0x00] + ApplicationObjectId(o) + rest;
    OccursIn([0x10, 0x00], ApplicationObjectId(o), rest);
    IdOctets(o);
    ReadPrimitiveAt(12, false, ObjectIdBytes(o), apdu, 2);
    ObjectIdRoundTrip(o);
  }

  /** No other APDU announces anything. */
  lemma NothingAnnounced(apdu: Bytes)
    requires |apdu| < 7 || apdu[0] / 16 != 1 || apdu[1] != 0
    ensures DeviceInstance(apdu) == Returned(None)
  {
  }

  lemma IdOctets(o: ObjectId)
    ensures |ObjectIdBytes(o)| == 4 && |ApplicationObjectId(o)| == 5
  {
  }

  lemma LooksFor(s: State, wanted: Instance, f: Fields)
    requires WellFormed(s) && f.payload == WhoIsRange(wanted, wanted) && f.networkMessage.None?
    ensures AnswerFrame(s, f) == (s, Returned(if s.config.deviceInstance == wanted && s.script.mode != Offline
                                              then Some(IAm(s.config)) else None))
  {
    hide WhoIs, ContextUnsigned, WellFormed, RequestedObject, IAm;
    WhoIsAnswer(s.config, wanted, wanted);
    assert f.PduType() == Some(1);
  }

  lemma ShortDatagrams(c: Config, wanted: Instance)
    ensures |Npdu(WhoIsRange(wanted, wanted), PLAIN)| < 20 && |Npdu(IAm(c), PLAIN)| < 40
  {
    hide Header;
  }

  /** What `who_is` sends. */
  function WhoIsDatagram(wanted: Instance): Bytes {
    WhoIsFits(wanted);
    Bvlc(Npdu(WhoIsRange(wanted, wanted), PLAIN))
  }

  lemma WhoIsFits(wanted: Instance)
    ensures FitsBvll(Npdu(WhoIsRange(wanted, wanted), PLAIN))
  {
    hide Header;
  }

  /** A Who-Is for exactly one instance: the server of that instance answers, unless it is offline, with a
      datagram that decodes to an I-Am recognised as that instance; no other server answers. */
  lemma FindsDevice(s: State, wanted: Instance)
    requires WellFormed(s)
    ensures var r := EndToEnd.ServerTurn(s, WhoIsDatagram(wanted)).1;
            && r.Returned?
            && (r.value.Some? <==> s.config.deviceInstance == wanted && s.script.mode != Offline)
            && (r.value.Some? ==>
                  var f := FrameOf(EndToEnd.Received(r.value.value));
                  f.Returned? && f.value.ok && DeviceInstance(f.value.payload) == Returned(Some(wanted)))
  {
    hide Npdu, Bvlc, AnswerFrame, IAm, DeviceInstance, WellFormed, FrameOf, EndToEnd.Received, WhoIsRange;
    var apdu, reply := WhoIsRange(wanted, wanted), IAm(s.config);
    ShortDatagrams(s.config, wanted);
    PlainFrame(apdu);
    PlainFrame(reply);
    EndToEnd.WholeDatagram(Npdu(apdu, PLAIN));
    EndToEnd.WholeDatagram(Npdu(reply, PLAIN));
    LooksFor(s, wanted, FrameOf(Bvlc(Npdu(apdu, PLAIN))).value);
    IAmRoundTrip(s.config);
  }

  /** An APDU sent plainly arrives whole. */
  lemma PlainFrame(apdu: Bytes)
    requires FitsBvll(Npdu(apdu, PLAIN))
    ensures FrameOf(Bvlc(Npdu(apdu, PLAIN)))
            == Returned(Expected(BLANK.(bvlcFunction := Some(BVLC_ORIGINAL_UNICAST), bvllData := Npdu(apdu, PLAIN)),
                                 apdu, PLAIN))
  {
    hide Npdu;
    assert [] + Npdu(apdu, PLAIN) == Npdu(apdu, PLAIN);
    FrameInvertsEncoding(BVLC_ORIGINAL_UNICAST, [], apdu, PLAIN);
  }
}
