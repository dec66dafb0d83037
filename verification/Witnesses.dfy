/** Inputs on which the code does not do what its own texts say. */
module Witnesses {
  import opened Octets
  import opened Tags
  import opened Constructed
  import opened Network
  import opened Requests
  import opened Multiple
  import opened Server
  import opened Arbiter
  import opened BitStrings
  import opened Primitives
  import opened Discovery
  import opened Totality
  import Direct
  import EndToEnd
  import Protocol
  import Workstation

  /** A commandable analog output whose Present_Value is NULL. */
  const OUTPUT := ObjectId(1, 1)
  const SERVER := Initial(Config(389001, [], 389, None, Some({OUTPUT}), map[OUTPUT := ApplicationNull()], false),
                          map[OUTPUT := map[PROPERTY_PRESENT_VALUE := ApplicationNull()]])

  lemma ServerStarts()
    ensures Invariant(SERVER) && WellFormed(SERVER) && IsCommandable(SERVER, OUTPUT)
  {
    hide Balanced, Effective;
    EndToEnd.NullBalanced();
    InitialInvariant(SERVER.config, SERVER.objects);
  }

  function WriteOf(priority: Option<U32>): Fields {
    RequestFrame(WriteRequest(1, OUTPUT, PROPERTY_PRESENT_VALUE, ApplicationBoolean(true), priority, None), Straight)
  }

  lemma WriteArrives(priority: Option<U32>)
    ensures ConfirmedService(WriteOf(priority)) == Some(SERVICE_WRITE_PROPERTY)
    ensures ParseWrite(WriteOf(priority).payload)
            == Returned(Some(Write(OUTPUT, PROPERTY_PRESENT_VALUE, None, ApplicationBoolean(true), Widen(priority))))
  {
    hide ParseWrite, WriteRequest, Balanced, RequestFrame;
    BalancedBoolean(true);
    EndToEnd.WriteFrame(1, Straight,
                        Direct.WriteCall(OUTPUT, PROPERTY_PRESENT_VALUE, ApplicationBoolean(true), priority, None));
  }

  /** A WriteProperty at priority 17: the Present_Value no longer agrees with the slots. */
  lemma PriorityPastLast()
    ensures Invariant(SERVER) && WellFormed(SERVER) && !InStep(AnswerFrame(SERVER, WriteOf(Some(17))).0, OUTPUT)
  {
    hide Invariant, AnswerFrame, InStep, ParseWrite, WriteOf;
    ServerStarts();
    WriteArrives(Some(17));
    FrameAgreement(SERVER, WriteOf(Some(17)), OUTPUT);
    assert Reaching(SERVER, WriteOf(Some(17))).Some?;
  }

  /** A WriteProperty met by a scripted reject arrived, and is not among the requests kept. */
  lemma RejectedWriteNotKept()
    ensures var s := SERVER.(script := Script(Online, map[OUTPUT := FailReject], {}));
            var f := WriteOf(None);
            && ConfirmedService(f) == Some(SERVICE_WRITE_PROPERTY) && ParseWrite(f.payload).Returned?
            && ParseWrite(f.payload).value.Some? && WellFormed(s)
            && AnswerFrame(s, f).0.log.writeRequests == []
  {
    hide AnswerFrame, ParseWrite, WriteOf;
    ServerStarts();
    WriteArrives(None);
    WritesLogged(SERVER.(script := Script(Online, map[OUTPUT := FailReject], {})), WriteOf(None));
  }

  /** A proprietary network message of three octets: the first two are gone. */
  lemma VendorIdLost()
    ensures var n := PLAIN.(networkMessage := Some(0x80));
            FitsBvll(Npdu([1, 2, 3], n)) && FrameOf(Bvlc(Npdu([1, 2, 3], n))).Returned?
            && FrameOf(Bvlc(Npdu([1, 2, 3], n))).value.payload == [3]
  {
    hide FrameOf;
    var n := PLAIN.(networkMessage := Some(0x80));
    assert [] + Npdu([1, 2, 3], n) == Npdu([1, 2, 3], n);
    FrameInvertsEncoding(BVLC_ORIGINAL_UNICAST, [], [1, 2, 3], n);
  }

  /** 25 set bits, encoded and decoded, are other bits. */
  lemma TwentyFiveBits()
    ensures var bits := seq(25, _ => true);
            ApplicationBitString(bits).Returned?
            && DecodeApplication(ApplicationBitString(bits).value) != Returned(BitList(bits))
  {
    hide DecodeApplication, BitBody;
    var bits := seq(25, _ => true);
    BodyLength(bits);
    DecodeBitString(bits, []);
    assert ApplicationBitString(bits).value + [] == ApplicationBitString(bits).value;
  }

  /** A ComplexACK of two octets is an answer the client takes, and its parser raises IndexError on it; on an ACK
      with an oversize BOOLEAN it raises ValueError. */
  lemma AckParserEscapes()
    ensures var f := BLANK.(payload := [0x30, 1], ok := true);
            EndToEnd.Matching(f, 1) == Returned(true) && ParseMultipleAck(Some(f)) == Raised(IndexError)
    ensures var f := BLANK.(payload := [0x30, 1, 14, 0x15, 254, 1, 0], ok := true);
            EndToEnd.Matching(f, 1) == Returned(true) && ParseMultipleAck(Some(f)) == Raised(ValueError)
  {
    hide ReadTag;
    var apdu: Bytes := [0x30, 1, 14, 0x15, 254, 1, 0];
    LongBoolean(apdu, 3);
    assert ParseResults(apdu, 3, START) == Raised(ValueError);
  }

  /** The other parsers that promise None: an oversize BOOLEAN, and a value, or a length, cut short. */
  lemma OtherParsersEscape()
    ensures ParseRead([0x00, 0x05, 1, 12, 0x15, 254, 1, 0]) == Raised(ValueError)
    ensures ReadValue([0x30, 1, 12, 0x15, 254, 1, 0], 3) == Raised(ValueError)
    ensures ReadValue([0x30, 1, 12, 0x3E], 3) == Raised(IndexError)
    ensures DeviceInstance([0x10, 0, 0x15, 254, 1, 0, 0]) == Raised(ValueError)
    ensures DeviceInstance([0x10, 0, 0xC5, 255, 0, 0, 0]) == Raised(StructError)
  {
    hide ReadTag, FromBytes;
    LongBoolean([0x00, 0x05, 1, 12, 0x15, 254, 1, 0], 4);
    LongBoolean([0x30, 1, 12, 0x15, 254, 1, 0], 3);
    CutValue();
    LongBoolean([0x10, 0, 0x15, 254, 1, 0, 0], 2);
    AnnouncementTotal([0x10, 0, 0xC5, 255, 0, 0, 0]);
  }

  lemma CutValue()
    ensures ReadValue([0x30, 1, 12, 0x3E], 3) == Raised(IndexError)
  {
    var a: Bytes := [0x30, 1, 12, 0x3E];
    ReadOpening(3, a, 3);
    assert ReadTag(a, 4) == Raised(IndexError);
  }

  // -- an answer 256 requests old --------------------------------------------------------------

  const CALL := Direct.ReadCall(OUTPUT, PROPERTY_PRESENT_VALUE, None)

  const CLIENT := Protocol.System(SERVER, true, 0, Straight, [], false, 0, [], [], map[])

  /** So many requests begun and given up. */
  function Unanswered(count: nat): seq<Protocol.Move> {
    if count == 0 then [] else [Protocol.Begin(CALL), Protocol.GiveUp] + Unanswered(count - 1)
  }

  lemma {:induction false} AfterConcat(y: Protocol.System, a: seq<Protocol.Move>, b: seq<Protocol.Move>)
    requires Protocol.Safe(y)
    ensures Protocol.After(y, a + b) == Protocol.After(Protocol.After(y, a), b)
    decreases |a|
  {
    hide Protocol.Safe, Protocol.Next, Protocol.Sane;
    if a == [] {
      assert a + b == b;
    } else {
      Protocol.SafeIsSane(y);
      Protocol.NextSafe(y, a[0]);
      AfterConcat(Protocol.Next(y, a[0]), a[1..], b);
      assert (a + b)[1..] == a[1..] + b;
    }
  }

  /** The call is short, so it is sent. */
  lemma CallSent(y: Protocol.System, m: nat)
    requires y.path == Straight && 1 <= m <= Protocol.Started(y) && y.calls[m - 1] == CALL
    ensures Protocol.Sendable(y, m)
  {
    ShortCall(IdOf(m));
  }

  lemma ShortCall(invokeId: Octet)
    ensures |Npdu(EndToEnd.EncodeCall(invokeId, CALL), RequestNpci(Straight))| == 13
  {
  }

  lemma {:induction false} UnansweredPass(y: Protocol.System, count: nat)
    requires Protocol.Safe(y) && !y.waiting && y.retries == 0 && y.path == Straight
    ensures var z := Protocol.After(y, Unanswered(count));
            && Protocol.Safe(z) && !z.waiting && z.retries == 0 && z.path == Straight && z.answers == y.answers
            && Protocol.Started(z) == Protocol.Started(y) + count
    decreases count
  {
    hide Protocol.Safe, Protocol.After, Protocol.Sane;
    Protocol.SafeIsSane(y);
    var pair := [Protocol.Begin(CALL), Protocol.GiveUp];
    GivenUp(y);
    Protocol.AfterSafe(y, pair);
    if count > 0 {
      AfterConcat(y, pair, Unanswered(count - 1));
      UnansweredPass(Protocol.After(y, pair), count - 1);
    } else {
      AfterNothing(y);
    }
  }

  lemma AfterNothing(y: Protocol.System)
    ensures Protocol.After(y, []) == y
  {
  }

  lemma BegunSends(y: Protocol.System)
    requires Protocol.Safe(y) && Protocol.Sane(y) && !y.waiting && y.path == Straight
    ensures var x := Protocol.Next(y, Protocol.Begin(CALL));
            && Protocol.Safe(x) && Protocol.Sane(x)
            && x == y.(calls := y.calls + [CALL], delivered := y.delivered + [0], sends := 1, waiting := true)
  {
    hide Protocol.Safe, Protocol.Sane, Protocol.Sendable;
    Protocol.NextSafe(y, Protocol.Begin(CALL));
    Protocol.SafeIsSane(Protocol.Next(y, Protocol.Begin(CALL)));
    var z := y.(calls := y.calls + [CALL], delivered := y.delivered + [0], sends := 1);
    CallSent(z, Protocol.Started(z));
  }

  lemma GivenUp(y: Protocol.System)
    requires Protocol.Safe(y) && !y.waiting && y.retries == 0 && y.path == Straight
    ensures var z := Protocol.After(y, [Protocol.Begin(CALL), Protocol.GiveUp]);
            && !z.waiting && z.retries == 0 && z.path == Straight && z.answers == y.answers
            && Protocol.Started(z) == Protocol.Started(y) + 1
  {
    hide Protocol.Safe, Protocol.Sane, Protocol.Sendable, Protocol.DeliverMove, Protocol.Looked;
    Protocol.SafeIsSane(y);
    BegunSends(y);
    var x := Protocol.Next(y, Protocol.Begin(CALL));
    assert Protocol.After(x, [Protocol.GiveUp]) == Protocol.Next(x, Protocol.GiveUp);
  }

  /** The first request is answered, but given up before the answer comes in. */
  const FIRST: seq<Protocol.Move> := [Protocol.Begin(CALL), Protocol.Deliver(1), Protocol.GiveUp]

  lemma Answered()
    ensures WellFormed(SERVER)
    ensures var r := EndToEnd.ServerTurn(SERVER, Bvlc(Npdu(EndToEnd.EncodeCall(1, CALL), RequestNpci(Straight)))).1;
            r.Returned? && r.value.Some?
  {
    hide FrameOf, EndToEnd.Received, Npdu, Bvlc, WellFormed, AnswerFrame, RequestFrame, ReplyNpci, Protocol.FrameSeen,
         EndToEnd.EncodeCall, FitsBvll;
    var request := EndToEnd.EncodeCall(1, CALL);
    ServerStarts();
    CallFits();
    Protocol.RequestSeen(request, Straight);
    Protocol.SeenIsServed(SERVER, request, Straight);
    CallAnswered();
  }

  lemma CallFits()
    ensures FitsBvll(Npdu(EndToEnd.EncodeCall(1, CALL), RequestNpci(Straight)))
  {
    hide EndToEnd.EncodeCall, Npdu;
    ShortCall(1);
  }

  lemma CallAnswered()
    ensures WellFormed(SERVER)
    ensures var f := Protocol.FrameSeen(EndToEnd.EncodeCall(1, CALL), Straight);
            var r := AnswerFrame(SERVER, f).1;
            && r.Returned? && r.value.Some? && Packable(ReplyNpci(f)) && FitsBvll(Npdu(r.value.value, ReplyNpci(f)))
  {
    hide Npdu, ReadRequest, WellFormed, AnswerFrame, RequestFrame, ReplyNpci, ReadListed;
    var request := EndToEnd.EncodeCall(1, CALL);
    ServerStarts();
    ShortCall(1);
    EndToEnd.HeaderOctets(RequestNpci(Straight));
    assert EndToEnd.Cut(request, RequestNpci(Straight)) == request;
    ReadArrives(SERVER, 1, Straight, OUTPUT, PROPERTY_PRESENT_VALUE, None);
    ShortAnswer();
    EndToEnd.ReplyFits(AnswerFrame(SERVER, RequestFrame(request, Straight)).1.value.value, request, Straight);
  }

  lemma ShortAnswer()
    ensures var r := ReadListed(SERVER, 1, OUTPUT, PROPERTY_PRESENT_VALUE, None, None).1;
            r.Returned? && r.value.Some? && |r.value.value| < 100
  {
  }

  lemma ClientFresh()
    ensures Protocol.Fresh(CLIENT) && Protocol.Sane(CLIENT) && Protocol.Safe(CLIENT)
  {
    ServerStarts();
    Protocol.FreshSafe(CLIENT);
  }

  lemma FirstAnswered()
    ensures var x := Protocol.After(CLIENT, FIRST);
            && Protocol.Safe(x) && !x.waiting && x.retries == 0 && x.path == Straight && Protocol.Started(x) == 1
            && |x.answers| == 1 && x.answers[0].request == 1
  {
    hide Protocol.Safe, Protocol.Sane, Protocol.Looked, EndToEnd.ServerTurn, EndToEnd.EncodeCall, Npdu, Bvlc;
    ClientFresh();
    Answered();
    BegunSends(CLIENT);
    var a := Protocol.Next(CLIENT, Protocol.Begin(CALL));
    CallSent(a, 1);
    var b := Protocol.Next(a, Protocol.Deliver(1));
    Protocol.NextSafe(a, Protocol.Deliver(1));
    Protocol.SafeIsSane(b);
    var c := Protocol.Next(b, Protocol.GiveUp);
    Protocol.NextSafe(b, Protocol.GiveUp);
    AfterTwo(b, Protocol.GiveUp, []);
    AfterTwo(a, Protocol.Deliver(1), [Protocol.GiveUp]);
    AfterTwo(CLIENT, Protocol.Begin(CALL), [Protocol.Deliver(1), Protocol.GiveUp]);
    AfterNothing(c);
  }

  lemma AfterTwo(y: Protocol.System, move: Protocol.Move, moves: seq<Protocol.Move>)
    requires Protocol.Sane(y)
    ensures Protocol.After(y, [move] + moves) == Protocol.After(Protocol.Next(y, move), moves)
  {
    hide Protocol.Next, Protocol.Sane;
    assert ([move] + moves)[1..] == moves;
  }

  /** The answer to request 1 comes in during request 257, and is what request 257 returns. */
  lemma StaleAnswer()
    ensures Protocol.Fresh(CLIENT) && Protocol.Sane(CLIENT)
    ensures var z := Protocol.After(CLIENT, FIRST + Unanswered(255) + [Protocol.Begin(CALL), Protocol.Arrive(0)]);
            257 in z.results && z.results[257].request == 1
  {
    hide Protocol.Safe, Protocol.Sane, Protocol.After, Unanswered;
    var last := [Protocol.Begin(CALL), Protocol.Arrive(0)];
    ClientFresh();
    FirstAnswered();
    var x := Protocol.After(CLIENT, FIRST);
    UnansweredPass(x, 255);
    var w := Protocol.After(x, Unanswered(255));
    AfterConcat(CLIENT, FIRST, Unanswered(255));
    AfterConcat(CLIENT, FIRST + Unanswered(255), last);
    TakenLast(w);
  }

  lemma TakenLast(w: Protocol.System)
    requires Protocol.Safe(w) && !w.waiting && w.path == Straight && Protocol.Started(w) == 256
    requires |w.answers| > 0 && w.answers[0].request == 1
    ensures var z := Protocol.After(w, [Protocol.Begin(CALL), Protocol.Arrive(0)]);
            257 in z.results && z.results[257].request == 1
  {
    hide Protocol.Safe, Protocol.Sane, Protocol.Looked, Protocol.Sendable, Protocol.DeliverMove;
    Protocol.SafeIsSane(w);
    BegunSends(w);
    var v := Protocol.Next(w, Protocol.Begin(CALL));
    Protocol.TakenIfCongruent(v, 0);
    AfterTwo(w, Protocol.Begin(CALL), [Protocol.Arrive(0)]);
    AfterTwo(v, Protocol.Arrive(0), []);
    AfterNothing(Protocol.Next(v, Protocol.Arrive(0)));
  }

  // -- a workstation that is stopped for good -----------------------------------------------------

  const STATION := Workstation.System(Workstation.State(true, [], [], 0, 0, None, []), true, [], [], [], [], map[])

  /** A datagram whose APDU is the single octet of a ComplexACK. */
  const CUT_ACK: Bytes := [0x81, 0x0A, 0x00, 0x07, 0x01, 0x00, 0x30]

  /** A workstation that receives it first never sends a request. */
  lemma OneOctetStops(moves: seq<Workstation.Move>)
    ensures Workstation.Fresh(STATION) && FrameOf(CUT_ACK).Returned?
    ensures var y := Workstation.After(STATION, [Workstation.ReceiveOther(FrameOf(CUT_ACK).value)]);
            forall k | 0 <= k < |Workstation.After(y, moves).begun| :: Workstation.After(y, moves).begun[k].None?
  {
    hide FrameOf, Workstation.Next, Workstation.After, Workstation.OneOctet;
    CutAckFrame();
    var f := FrameOf(CUT_ACK).value;
    CutAckQueued(f);
    AfterMove(STATION, Workstation.ReceiveOther(f));
    assert Workstation.Fresh(STATION);
    Workstation.StuckForGood(Workstation.Next(STATION, Workstation.ReceiveOther(f)), moves, Workstation.Response(0, f));
  }

  lemma AfterMove(y: Workstation.System, move: Workstation.Move)
    ensures Workstation.After(y, [move]) == Workstation.Next(y, move)
  {
    hide Workstation.Next;
    assert [move][1..] == [];
  }

  lemma CutAckFrame()
    ensures FrameOf(CUT_ACK).Returned?
    ensures var f := FrameOf(CUT_ACK).value; f.ok && f.networkMessage.None? && f.payload == [0x30]
  {
    assert CUT_ACK[4..] == [0x01, 0x00, 0x30];
  }

  lemma CutAckQueued(f: Fields)
    requires f.ok && f.networkMessage.None? && f.payload == [0x30]
    ensures Workstation.OneOctet(f)
    ensures var y := Workstation.Next(STATION, Workstation.ReceiveOther(f));
            y.station.responses == [Workstation.Response(0, f)] && y.begun == []
  {
    assert !Workstation.IsEventNotification(f);
  }
}
