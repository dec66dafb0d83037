/** A client and a server over a network that loses, delays, duplicates and reorders datagrams: whatever
    was once sent may arrive any number of times, at any later moment, or never. */
module Protocol {
  import opened Octets
  import opened Tags
  import opened Network
  import opened Requests
  import opened Multiple
  import opened Snapshots
  import opened Server
  import opened Arbiter
  import opened Runs
  import Direct
  import opened EndToEnd

  // -- an answer carries the invoke id of its request ---------------------------------

  /** A response APDU with this invoke id. */
  predicate Answers(apdu: Bytes, invokeId: Octet) {
    |apdu| > 1 && apdu[0] / 16 in {2, 3, 5, 6, 7} && apdu[1] == invokeId
  }

  predicate AnswersIfAny(r: Answer, invokeId: Octet) {
    r.Returned? && r.value.Some? ==> Answers(r.value.value, invokeId)
  }

  lemma PdusAnswer(invokeId: Octet, service: Octet, a: Octet, c: U32, d: U32)
    ensures Answers(ErrorPdu(invokeId, service, c, d), invokeId)
    ensures Answers(SimpleAck(invokeId, service), invokeId)
    ensures Answers(RejectPdu(invokeId, a), invokeId) && Answers(AbortPdu(invokeId, a), invokeId)
  {
    hide ApplicationEnumerated;
  }

  lemma AcksAnswer(invokeId: Octet, o: ObjectId, property: U32, index: Option<U32>, value: Bytes,
                   results: seq<ObjectResult>)
    ensures Answers(ReadAck(invokeId, o, property, index, value), invokeId)
    ensures Answers(ReadMultipleAck(invokeId, results), invokeId)
  {
    hide Target, Enclosed, EncodeResults;
  }

  lemma ReadsAnswer(s: State, f: Fields, failure: Option<Failure>)
    requires WellFormed(s) && ConfirmedService(f).Some?
    ensures AnswersIfAny(AnswerRead(s, f, failure).1, f.payload[2])
  {
    hide ParseRead, ParseIndexedRead, Target, Enclosed, ApplicationEnumerated, Elements, CharacterString,
         ApplicationObjectId, ApplicationUnsigned, WellFormed, ApplicationNull;
  }

  lemma WritesAnswer(s: State, invokeId: Octet, request: Option<Write>)
    requires WellFormed(s)
    ensures AnswersIfAny(PerformWrite(s, invokeId, request).1, invokeId)
  {
    hide ApplicationEnumerated, IsNull, Effective, SetProperty, Served;
  }

  /** Whatever a confirmed request is answered with, in any state, is a response with its invoke id. */
  lemma AnswerCarriesInvokeId(s: State, f: Fields)
    requires WellFormed(s) && ConfirmedService(f).Some?
    ensures AnswersIfAny(AnswerFrame(s, f).1, f.payload[2])
  {
    hide ParseWrite, RequestedObject, AnswerRead, PerformWrite, ReadSpecifications, Serve, InRange, Answers,
         ReadMultipleAck, RejectPdu, AbortPdu;
    PdusAnswer(f.payload[2], 0, REJECT_REASON_UNRECOGNIZED_SERVICE, 0, 0);
    PdusAnswer(f.payload[2], 0, ABORT_REASON_SEGMENTATION_NOT_SUPPORTED, 0, 0);
    var failure := FailureFor(s, f);
    if failure.Returned? {
      if ConfirmedService(f) == Some(SERVICE_READ_PROPERTY) {
        ReadsAnswer(s, f, failure.value);
      } else if ConfirmedService(f) == Some(SERVICE_WRITE_PROPERTY) {
        var w := ParseWrite(f.payload);
        if w.Returned? {
          WritesAnswer(LogWrite(s, w.value), f.payload[2], w.value);
        }
      } else if ConfirmedService(f) == Some(SERVICE_READ_PROPERTY_MULTIPLE) {
        var members := ReadSpecifications(Slice(f.payload, 4, |f.payload|), 0, [], None);
        if members.Returned? && InRange(members.value) {
          AcksAnswer(f.payload[2], ObjectId(0, 0), 0, None, [], Serve(s.objects, members.value));
        }
      }
    }
  }

  // -- datagrams, cut to the receive buffer if they are longer ------------------------------

  /** A confirmed request with the `n`-th invoke id. */
  predicate NumberedRequest(apdu: Bytes, n: nat) {
    |apdu| > 3 && apdu[0] == 0 && apdu[2] == IdOf(n)
  }

  /** The frame the server makes of a request's datagram. */
  function FrameSeen(request: Bytes, path: Path): Fields
    requires PathOk(path)
  {
    RequestFrame(Cut(request, RequestNpci(path)), path)
  }

  lemma RequestSeen(request: Bytes, path: Path)
    requires PathOk(path) && FitsBvll(Npdu(request, RequestNpci(path)))
    ensures FrameOf(Received(Bvlc(Npdu(request, RequestNpci(path))))) == Returned(FrameSeen(request, path))
  {
    hide FrameOf, Npdu, Bvlc, Cut, Received, RequestFrame;
    CutFrame(request, RequestNpci(path));
    Transported(Cut(request, RequestNpci(path)), [], path);
  }

  lemma ReplySeen(request: Bytes, reply: Bytes, path: Path)
    requires PathOk(path) && FitsBvll(Npdu(request, RequestNpci(path)))
    requires var n := ReplyNpci(FrameSeen(request, path)); Packable(n) && FitsBvll(Npdu(reply, n))
    ensures var n := ReplyNpci(FrameSeen(request, path));
            FrameOf(Received(Bvlc(Npdu(reply, n)))) == Returned(ReplyFrame(Cut(reply, n), path))
  {
    hide FrameOf, Npdu, Bvlc, Cut, Received, RequestFrame;
    var seen := Cut(request, RequestNpci(path));
    var n := ReplyNpci(FrameSeen(request, path));
    CutFrame(request, RequestNpci(path));
    CutFrame(reply, n);
    Transported(seen, Cut(reply, n), path);
  }

  /** The server's state after a datagram is that after the frame it makes of it; whether it is answered. */
  lemma TurnState(s: State, request: Bytes, path: Path)
    requires WellFormed(s) && PathOk(path) && FitsBvll(Npdu(request, RequestNpci(path)))
    ensures ServerTurn(s, Bvlc(Npdu(request, RequestNpci(path)))).0 == AnswerFrame(s, FrameSeen(request, path)).0
  {
    hide FrameOf, Npdu, Bvlc, AnswerFrame, Received, FrameSeen;
    RequestSeen(request, path);
    SeenIsServed(s, request, path);
  }

  /** Whether the datagram is the answer to `invokeId`, for a client that takes it in. */
  function Looked(datagram: Bytes, invokeId: Octet): Outcome<bool> {
    var f :- FrameOf(Received(datagram));
    Matching(f, invokeId)
  }

  lemma CutRequest(request: Bytes, n: nat, path: Path)
    requires NumberedRequest(request, n) && PathOk(path)
    ensures ConfirmedService(FrameSeen(request, path)).Some? && FrameSeen(request, path).payload[2] == IdOf(n)
  {
    hide Npdu;
    HeaderOctets(RequestNpci(path));
  }

  lemma CutReply(reply: Bytes, invokeId: Octet, n: Npci, path: Path)
    requires Answers(reply, invokeId) && PathOk(path) && Packable(n)
    ensures Matching(ReplyFrame(Cut(reply, n), path), invokeId) == Returned(true)
  {
    hide Npdu;
    HeaderOctets(n);
  }

  /** Whatever the server sends back for a numbered request, however long either is, the client takes for an
      answer to just that invoke id. */
  lemma TurnAnswers(s: State, request: Bytes, n: nat, path: Path)
    requires WellFormed(s) && PathOk(path) && FitsBvll(Npdu(request, RequestNpci(path))) && NumberedRequest(request, n)
    ensures var r := ServerTurn(s, Bvlc(Npdu(request, RequestNpci(path)))).1;
            r.Returned? && r.value.Some? ==> Looked(r.value.value, IdOf(n)) == Returned(true)
  {
    hide FrameOf, Npdu, Bvlc, AnswerFrame, Received, FrameSeen, Cut, Answers, Matching, ReplyNpci, ReplyFrame,
         WellFormed, ConfirmedService;
    var f := FrameSeen(request, path);
    RequestSeen(request, path);
    SeenIsServed(s, request, path);
    CutRequest(request, n, path);
    AnswerCarriesInvokeId(s, f);
    SeenPackable(request, path);
    var r := AnswerFrame(s, f).1;
    if r.Returned? && r.value.Some? && FitsBvll(Npdu(r.value.value, ReplyNpci(f))) {
      ReplySeen(request, r.value.value, path);
      CutReply(r.value.value, IdOf(n), ReplyNpci(f), path);
    }
  }

  lemma SeenIsServed(s: State, request: Bytes, path: Path)
    requires WellFormed(s) && PathOk(path)
    ensures ServeFrame(s, FrameSeen(request, path)) == AnswerFrame(s, FrameSeen(request, path))
  {
    hide AnswerFrame, Npdu, Cut;
  }

  lemma SeenPackable(request: Bytes, path: Path)
    requires PathOk(path)
    ensures Packable(ReplyNpci(FrameSeen(request, path)))
  {
    hide Npdu, Cut;
  }

  // -- the system ------------------------------------------------------------------------

  /** An answer once sent: the request it answers, its datagram, and the server as the request found it. */
  datatype Sent = Sent(request: nat, datagram: Bytes, before: State)

  /** Requests are numbered from 1. `answers` holds every answer ever sent; `alive` is false once an answer has
      raised and ended the serving thread. */
  datatype System = System(server: State, alive: bool, retries: nat, path: Path, calls: seq<Direct.Call>, waiting: bool,
                           sends: nat, delivered: seq<nat>, answers: seq<Sent>, results: map<nat, Sent>)

  datatype Move =
    | Begin(call: Direct.Call)
    | Resend
    | GiveUp
    | Deliver(request: nat)
    | Arrive(answer: nat)
    | Script(script: Server.Script)

  ghost predicate Sane(y: System) { WellFormed(y.server) && PathOk(y.path) && |y.delivered| == |y.calls| }

  function Started(y: System): nat { |y.calls| }

  function RequestOf(y: System, m: nat): Bytes
    requires 1 <= m <= Started(y)
  {
    EncodeCall(IdOf(m), y.calls[m - 1])
  }

  /** Request `m` was sent: one too long for a BVLL message raises before. */
  predicate Sendable(y: System, m: nat) {
    PathOk(y.path) && 1 <= m <= Started(y) && FitsBvll(Npdu(RequestOf(y, m), RequestNpci(y.path)))
  }

  function DatagramOf(y: System, m: nat): Bytes
    requires Sendable(y, m)
  {
    Bvlc(Npdu(RequestOf(y, m), RequestNpci(y.path)))
  }

  function DeliverMove(y: System, m: nat): System
    requires Sane(y) && Sendable(y, m) && y.alive
  {
    var (t, r) := ServerTurn(y.server, DatagramOf(y, m));
    y.(server := t, alive := r.Returned?, delivered := y.delivered[m - 1 := y.delivered[m - 1] + 1],
       answers := if r.Returned? && r.value.Some? then y.answers + [Sent(m, r.value.value, y.server)] else y.answers)
  }

  /** One move; a move that is not possible changes nothing. */
  function Next(y: System, move: Move): System
    requires Sane(y)
  {
    match move
    case Begin(c) =>
      if y.waiting then y
      else
        var z := y.(calls := y.calls + [c], delivered := y.delivered + [0], sends := 1);
        z.(waiting := Sendable(z, Started(z)))
    case Resend => if y.waiting && y.sends < 1 + y.retries then y.(sends := y.sends + 1) else y
    case GiveUp => if y.waiting && y.sends == 1 + y.retries then y.(waiting := false) else y
    case Deliver(m) => if y.alive && Sendable(y, m) then DeliverMove(y, m) else y
    case Arrive(i) =>
      if !y.waiting || i >= |y.answers| then y
      else
        var taken := Looked(y.answers[i].datagram, IdOf(Started(y)));
        if taken.Raised? then y.(waiting := false)
        else if taken.value then y.(waiting := false, results := y.results[Started(y) := y.answers[i]])
        else y
    case Script(script) => y.(server := y.server.(script := script))
  }

  /** The datagram answers request `m`, which was delivered at least once. */
  predicate AnswerTo(y: System, m: nat, datagram: Bytes)
    requires |y.delivered| == |y.calls|
  {
    1 <= m <= Started(y) && y.delivered[m - 1] > 0 && Looked(datagram, IdOf(m)) == Returned(true)
  }

  ghost predicate Answered(y: System)
    requires |y.delivered| == |y.calls|
  {
    forall i | 0 <= i < |y.answers| :: AnswerTo(y, y.answers[i].request, y.answers[i].datagram)
  }

  ghost predicate Paired(y: System)
    requires |y.delivered| == |y.calls|
  {
    forall n <- y.results ::
      && 1 <= n <= Started(y) && y.results[n].request <= n && AnswerTo(y, y.results[n].request, y.results[n].datagram)
      && Looked(y.results[n].datagram, IdOf(n)) == Returned(true)
  }

  ghost predicate Safe(y: System) { Sane(y) && Answered(y) && Paired(y) }

  lemma EncodedNumbered(n: nat, c: Direct.Call)
    ensures NumberedRequest(EncodeCall(IdOf(n), c), n)
  {
    hide Target, Enclosed, OptionalUnsigned, EncodeSpecifications;
  }

  lemma DeliverSafe(y: System, m: nat)
    requires Safe(y) && Sendable(y, m) && y.alive
    ensures Safe(DeliverMove(y, m))
  {
    hide ServerTurn, Looked, WellFormed, EncodeCall, Npdu, Bvlc;
    EncodedNumbered(m, y.calls[m - 1]);
    TurnAnswers(y.server, RequestOf(y, m), m, y.path);
    var z := DeliverMove(y, m);
    assert forall k, d :: AnswerTo(y, k, d) ==> AnswerTo(z, k, d);
  }

  /** Later requests, and moves that send or hand over nothing, leave everything as good as it was. */
  lemma SafeStays(y: System, z: System)
    requires Safe(y) && Sane(z) && y.delivered <= z.delivered && z.answers == y.answers && z.results == y.results
    ensures Safe(z)
  {
    hide Looked, WellFormed;
    assert forall k, d :: AnswerTo(y, k, d) ==> AnswerTo(z, k, d);
  }

  lemma ArriveSafe(y: System, i: nat)
    requires Safe(y) && y.waiting && i < |y.answers| && Started(y) > 0
    requires Looked(y.answers[i].datagram, IdOf(Started(y))) == Returned(true)
    ensures Safe(y.(waiting := false, results := y.results[Started(y) := y.answers[i]]))
  {
    hide Looked, WellFormed;
    var z := y.(waiting := false, results := y.results[Started(y) := y.answers[i]]);
    assert AnswerTo(y, y.answers[i].request, y.answers[i].datagram);
    assert forall k, d :: AnswerTo(y, k, d) ==> AnswerTo(z, k, d);
  }

  lemma NextSafe(y: System, move: Move)
    requires Safe(y)
    ensures Safe(Next(y, move))
  {
    hide DeliverMove, WellFormed, Sendable, Looked, PathOk, Answered, Paired;
    var z := Next(y, move);
    match move {
      case Deliver(m) =>
        if y.alive && Sendable(y, m) {
          DeliverSafe(y, m);
        }
      case Arrive(i) =>
        if z.results != y.results {
          AnsweredAt(y, i);
          ArriveSafe(y, i);
        } else if z != y {
          SafeStays(y, z);
        }
      case Script(script) =>
        ScriptWellFormed(y.server, script);
        SafeStays(y, z);
      case _ => SafeStays(y, z);
    }
  }

  lemma AnsweredAt(y: System, i: nat)
    requires Safe(y) && i < |y.answers|
    ensures Started(y) > 0
  {
    assert AnswerTo(y, y.answers[i].request, y.answers[i].datagram);
  }

  ghost function After(y: System, moves: seq<Move>): System
    decreases |moves|
  {
    if moves == [] || !Sane(y) then y else After(Next(y, moves[0]), moves[1..])
  }

  predicate Fresh(y: System) {
    y.calls == [] && y.delivered == [] && y.answers == [] && y.results == map[] && !y.waiting && y.alive
  }

  lemma {:induction false} AfterSafe(y: System, moves: seq<Move>)
    requires Safe(y)
    ensures Safe(After(y, moves))
    decreases |moves|
  {
    hide Safe, Next;
    if moves != [] {
      SafeIsSane(y);
      NextSafe(y, moves[0]);
      AfterSafe(Next(y, moves[0]), moves[1..]);
    }
  }

  lemma SafeIsSane(y: System)
    requires Safe(y)
    ensures Sane(y)
  {
  }

  /** Over every run: what request `n` returns answers some request `m` sent no later, with `m` congruent to
      `n` modulo 256, that reached the server. If no answer outlives 255 later requests, it answers `n`
      itself: so an answered request was delivered at least once. */
  lemma InvokeIdSafety(y: System, moves: seq<Move>, n: nat)
    requires Fresh(y) && Sane(y) && n in After(y, moves).results
    ensures var z := After(y, moves);
            var m := z.results[n].request;
            && 1 <= m <= n <= Started(z) && m % 256 == n % 256
            && |z.delivered| == |z.calls| && z.delivered[m - 1] > 0
            && (n - m <= 255 ==> m == n)
  {
    hide After, Safe, Sane;
    assert Safe(y) by {
      FreshSafe(y);
    }
    AfterSafe(y, moves);
    ResultSafe(After(y, moves), n);
  }

  lemma FreshSafe(y: System)
    requires Fresh(y) && Sane(y)
    ensures Safe(y)
  {
    hide WellFormed;
  }

  lemma ResultSafe(z: System, n: nat)
    requires Safe(z) && n in z.results
    ensures var m := z.results[n].request;
            && 1 <= m <= n <= Started(z) && m % 256 == n % 256
            && |z.delivered| == |z.calls| && z.delivered[m - 1] > 0
            && (n - m <= 255 ==> m == n)
  {
    hide Looked, WellFormed;
    var r := z.results[n];
    LookedId(r.datagram, IdOf(n), IdOf(r.request));
  }

  lemma LookedId(datagram: Bytes, wanted: Octet, actual: Octet)
    requires Looked(datagram, actual) == Returned(true)
    ensures Looked(datagram, wanted) == Returned(wanted == actual)
  {
    hide FrameOf, Received;
  }

  /** Exactly which answers a waiting client takes: those to requests congruent to its own modulo 256, stale
      ones included. */
  lemma TakenIfCongruent(y: System, i: nat)
    requires Safe(y) && y.waiting && i < |y.answers|
    ensures Next(y, Arrive(i)).waiting <==> y.answers[i].request % 256 != Started(y) % 256
    ensures !Next(y, Arrive(i)).waiting ==>
              Started(y) in Next(y, Arrive(i)).results && Next(y, Arrive(i)).results[Started(y)] == y.answers[i]
  {
    hide Looked, WellFormed;
    assert AnswerTo(y, y.answers[i].request, y.answers[i].datagram);
    LookedId(y.answers[i].datagram, IdOf(Started(y)), IdOf(y.answers[i].request));
  }

  // -- how often a request is sent ---------------------------------------------------------

  /** A request is sent once when it begins and then resent at most `retries` times; it stops waiting when an answer is
      taken, and otherwise only after the last of these sends. */
  lemma NextSends(y: System, move: Move)
    requires Sane(y) && y.sends <= 1 + y.retries
    ensures var z := Next(y, move);
            && z.sends <= 1 + z.retries && z.retries == y.retries && z.path == y.path
            && (z.sends != y.sends ==> (move.Begin? && z.sends == 1) || (move == Resend && z.sends == y.sends + 1))
            && (move == Resend && y.waiting && y.sends < 1 + y.retries ==> z.sends == y.sends + 1)
            && (y.waiting && !z.waiting ==>
                  (move == GiveUp && y.sends == 1 + y.retries)
                  || (move.Arrive? && move.answer < |y.answers|
                      && Looked(y.answers[move.answer].datagram, IdOf(Started(y))) != Returned(false)))
            && (move == GiveUp && y.waiting && y.sends == 1 + y.retries ==> !z.waiting)
            && (z.calls != y.calls ==> !y.waiting && move.Begin? && z.calls == y.calls + [move.call])
            && (move.Begin? && !y.waiting ==> z.calls == y.calls + [move.call] && z.sends == 1)
  {
    hide ServerTurn, WellFormed, DatagramOf, Looked;
  }

  lemma {:induction false} SendsBounded(y: System, moves: seq<Move>)
    requires Safe(y) && y.sends <= 1 + y.retries
    ensures After(y, moves).sends <= 1 + y.retries && After(y, moves).retries == y.retries
    decreases |moves|
  {
    hide Safe, Next, Sane;
    if moves != [] {
      SafeIsSane(y);
      NextSends(y, moves[0]);
      NextSafe(y, moves[0]);
      SendsBounded(Next(y, moves[0]), moves[1..]);
    }
  }

  // -- at least once ------------------------------------------------------------------------

  /** Moves during which no request but `n` reaches the server and nothing is reconfigured. */
  predicate OnlyRequest(moves: seq<Move>, n: nat) {
    forall i | 0 <= i < |moves| ::
      moves[i] in {Resend, GiveUp, Deliver(n)} || moves[i].Arrive?
  }

  function Copies(moves: seq<Move>, n: nat): nat {
    if moves == [] then 0 else (if moves[0] == Deliver(n) then 1 else 0) + Copies(moves[1..], n)
  }

  /** The frame the server makes of request `n`. */
  function ServedFrame(y: System, n: nat): Fields
    requires PathOk(y.path) && 1 <= n <= Started(y)
  {
    FrameSeen(RequestOf(y, n), y.path)
  }

  /** What such a move does to the server. */
  lemma NextServer(y: System, move: Move, n: nat)
    requires Sane(y) && Sendable(y, n) && (move in {Resend, GiveUp, Deliver(n)} || move.Arrive?)
    ensures var z := Next(y, move);
            && Sane(z) && z.calls == y.calls && z.path == y.path && (!y.alive ==> !z.alive)
            && z.server
               == (if move == Deliver(n) && y.alive then AnswerFrame(y.server, ServedFrame(y, n)).0 else y.server)
            && (move != Deliver(n) ==> z.alive == y.alive)
  {
    hide ServerTurn, AnswerFrame, FrameSeen, Looked, WellFormed, EncodeCall, Npdu, Bvlc;
    TurnState(y.server, RequestOf(y, n), y.path);
  }

  lemma {:induction false} DeadServer(y: System, moves: seq<Move>, n: nat)
    requires Sane(y) && !y.alive && Sendable(y, n) && OnlyRequest(moves, n)
    ensures After(y, moves).server == y.server
    decreases |moves|
  {
    hide Next, WellFormed, Npdu, EncodeCall;
    if moves != [] {
      assert OnlyRequest(moves[1..], n);
      assert moves[0] in {Resend, GiveUp, Deliver(n)} || moves[0].Arrive?;
      NextServer(y, moves[0], n);
      DeadServer(Next(y, moves[0]), moves[1..], n);
    }
  }

  /** With mode and scripted failures fixed: however many resends of a request get through, in whatever
      order with everything else, objects and priority arrays end as after one delivery; with none
      delivered the server is unchanged. */
  lemma {:induction false} ResendsAreHarmless(y: System, moves: seq<Move>, n: nat)
    requires Sane(y) && y.alive && Sendable(y, n) && OnlyRequest(moves, n)
    ensures Copies(moves, n) == 0 ==> After(y, moves).server == y.server
    ensures Copies(moves, n) > 0 ==>
              SameButLogs(AnswerFrame(y.server, ServedFrame(y, n)).0, After(y, moves).server)
    decreases |moves|
  {
    hide AnswerFrame, FrameSeen, Next, WellFormed, EncodeCall, Npdu;
    if moves != [] {
      var z := Next(y, moves[0]);
      assert OnlyRequest(moves[1..], n);
      assert moves[0] in {Resend, GiveUp, Deliver(n)} || moves[0].Arrive?;
      NextServer(y, moves[0], n);
      if moves[0] == Deliver(n) {
        SaneServer(y);
        ResendChangesNothing(y.server, ServedFrame(y, n));
      }
      if z.alive {
        ResendsAreHarmless(z, moves[1..], n);
      } else {
        DeadServer(z, moves[1..], n);
      }
    }
  }

  lemma SaneServer(y: System)
    requires Sane(y)
    ensures WellFormed(y.server)
  {
  }
}
