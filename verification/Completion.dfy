/** On a network that delivers, a request gets its answer: the runs in which nothing is lost, for the client with its
    retries and for the workstation with its threads. */
module Completion {
  import opened Octets
  import opened Network
  import opened Requests
  import opened Notifications
  import Server
  import Direct
  import EndToEnd
  import Protocol
  import opened Workstation

  // -- the client ---------------------------------------------------------------------------

  /** A call begun while none is under way, delivered once, and its answer let in: the call returns exactly the
      server's answer, sent once, and is over. With no answer it stays under way. */
  lemma CallCompletes(y: Protocol.System, c: Direct.Call)
    requires Protocol.Safe(y) && !y.waiting && y.alive
    requires FitsBvll(Npdu(EndToEnd.EncodeCall(IdOf(|y.calls| + 1), c), RequestNpci(y.path)))
    ensures var n := |y.calls| + 1;
            var datagram := Bvlc(Npdu(EndToEnd.EncodeCall(IdOf(n), c), RequestNpci(y.path)));
            var (t, r) := EndToEnd.ServerTurn(y.server, datagram);
            var z := Protocol.After(y, [Protocol.Begin(c), Protocol.Deliver(n), Protocol.Arrive(|y.answers|)]);
            && z.server == t && z.alive == r.Returned? && z.delivered == y.delivered + [1] && z.sends == 1
            && (r.Returned? && r.value.Some? ==>
                  var sent := Protocol.Sent(n, r.value.value, y.server);
                  !z.waiting && z.results == y.results[n := sent] && z.answers == y.answers + [sent])
            && (r.Raised? || r.value.None? ==> z.waiting && z.results == y.results && z.answers == y.answers)
  {
    hide EndToEnd.ServerTurn, Protocol.Looked, Server.WellFormed, EndToEnd.EncodeCall, Npdu, Bvlc, PathOk;
    var n := |y.calls| + 1;
    Protocol.EncodedNumbered(n, c);
    Protocol.TurnAnswers(y.server, EndToEnd.EncodeCall(IdOf(n), c), n, y.path);
    var a := Protocol.Next(y, Protocol.Begin(c));
    assert Protocol.RequestOf(a, n) == EndToEnd.EncodeCall(IdOf(n), c);
    var b := Protocol.Next(a, Protocol.Deliver(n));
    assert b == Protocol.DeliverMove(a, n);
    assert b.delivered == y.delivered + [1];
    var z := Protocol.Next(b, Protocol.Arrive(|y.answers|));
    ThreeMoves(y, Protocol.Begin(c), Protocol.Deliver(n), Protocol.Arrive(|y.answers|));
  }

  lemma ThreeMoves(y: Protocol.System, a: Protocol.Move, b: Protocol.Move, c: Protocol.Move)
    requires Protocol.Safe(y)
    ensures Protocol.Safe(Protocol.Next(y, a)) && Protocol.Safe(Protocol.Next(Protocol.Next(y, a), b))
    ensures Protocol.After(y, [a, b, c]) == Protocol.Next(Protocol.Next(Protocol.Next(y, a), b), c)
  {
    hide Protocol.Next, Protocol.Answered, Protocol.Paired;
    Protocol.NextSafe(y, a);
    Protocol.NextSafe(Protocol.Next(y, a), b);
    Protocol.NextSafe(Protocol.Next(Protocol.Next(y, a), b), c);
    assert [a, b, c][1..] == [b, c] && [b, c][1..] == [c] && [c][1..] == [];
    var z := Protocol.Next(Protocol.Next(y, a), b);
    assert Protocol.After(z, [c]) == Protocol.Next(z, c);
    assert Protocol.After(Protocol.Next(y, a), [b, c]) == Protocol.Next(z, c);
  }

  // -- the workstation ----------------------------------------------------------------------

  predicate Readable(responses: seq<Response>) { forall r <- responses :: r.frame.InvokeId().Returned? }

  lemma {:induction false} OthersReadable(responses: seq<Response>, id: Octet)
    requires Others(responses, id).Returned?
    ensures Readable(Others(responses, id).value)
    ensures forall r <- Others(responses, id).value :: !Has(r, id)
  {
    hide Fields.InvokeId;
    if responses != [] {
      OthersReadable(responses[1..], id);
    }
  }

  /** The first response with an invoke id, when only the last one has it. */
  lemma {:induction false} LastFound(responses: seq<Response>, r: Response, id: Octet)
    requires Readable(responses) && (forall q <- responses :: !Has(q, id)) && Has(r, id)
    ensures FirstFor(responses + [r], id) == Returned(Some(|responses|))
  {
    hide Fields.InvokeId;
    var all := responses + [r];
    if responses != [] {
      assert all[0] == responses[0] && responses[0] in responses && !Has(responses[0], id);
      assert all[1..] == responses[1..] + [r];
      LastFound(responses[1..], r, id);
    } else {
      assert all == [r];
    }
  }

  /** A request just begun whose answer is received is handed that answer, and the queue is as it was. */
  lemma ReceivedIsHanded(y: System, f: Fields, origin: Option<nat>)
    requires Ready(y) && |y.begun| > 0 && y.begun[|y.begun| - 1].Some? && |y.begun| !in y.results
    requires EndToEnd.Matching(f, IdOf(|y.begun|)) == Returned(true)
    requires Readable(y.station.responses) && forall r <- y.station.responses :: !Has(r, IdOf(|y.begun|))
    ensures var n := |y.begun|;
            var z := Next(ReceiveMove(y, f, origin), Take(n));
            && z.results == y.results[n := Response(y.station.serial, f)]
            && z.station.responses == y.station.responses && z.answers == y.answers && Ready(z)
  {
    hide Fields.InvokeId, FirstFor, EndToEnd.Matching, Readable, Has, ReceiveMove, ResponsesIn, NoticesIn;
    var n := |y.begun|;
    var z := ReceiveMove(y, f, origin);
    var r := Response(y.station.serial, f);
    MatchingResponse(f, IdOf(n));
    ResponseTaken(y, f, origin);
    assert Has(r, IdOf(n)) by {
      TheirId(r, IdOf(n));
    }
    LastFound(y.station.responses, r, IdOf(n));
    var all := y.station.responses + [r];
    assert all[..|all| - 1] + all[|all|..] == y.station.responses;
  }

  lemma TheirId(r: Response, id: Octet)
    requires r.frame.InvokeId() == Returned(Some(id))
    ensures Has(r, id)
  {
  }

  lemma ResponseTaken(y: System, f: Fields, origin: Option<nat>)
    requires Ready(y) && f.ok && f.networkMessage.None? && f.IsResponse()
    ensures var z := ReceiveMove(y, f, origin);
            && z.station == y.station.(responses := y.station.responses + [Response(y.station.serial, f)],
                                       serial := y.station.serial + 1)
            && z.receiving && z.begun == y.begun && z.results == y.results && z.answers == y.answers
  {
    hide DecodeNotification, IsEventNotification;
    ResponseIsNoNotification(f);
  }

  /** What a request finds once it is sent: nothing queued has its invoke id, and it has been handed nothing. */
  lemma Begun(y: System, service: Octet, parameters: Bytes)
    requires Coherent(y) && Next(y, Begin(service, parameters)).begun[|y.begun|].Some?
    ensures var b := Next(y, Begin(service, parameters));
            && |b.begun| == |y.begun| + 1 && |b.begun| !in b.results && b.results == y.results
            && b.answers == y.answers && b.station.pending == y.station.pending && b.receiving == y.receiving
            && Readable(b.station.responses) && (forall r <- b.station.responses :: !Has(r, IdOf(|b.begun|)))
            && b.apdus == y.apdus + [ConfirmedRequest(IdOf(|b.begun|), service, parameters)] && |b.apdus| == |b.begun|
  {
    hide Coherent, Others, Readable, Has, Npdu, Bvlc, ConfirmedRequest;
    CoherentCounts(y);
    OthersReadable(y.station.responses, IdOf(|y.begun| + 1));
    NotYetHanded(y);
  }

  lemma CoherentCounts(y: System)
    requires Coherent(y)
    ensures y.station.invokeId == IdOf(|y.begun|) && |y.apdus| == |y.begun|
  {
    hide Handed, Current, Sourced, Ordered, Protocol.NumberedRequest, EndToEnd.Matching;
  }

  lemma NotYetHanded(y: System)
    requires Coherent(y)
    ensures |y.begun| + 1 !in y.results
  {
    hide Coherent, Has, Own;
    forall n <- y.results
      ensures n <= |y.begun|
    {
      CoherentHanded(y, n);
    }
  }

  /** A request begun when the receiver is ready, served by a simulated server on any path, and its answer received,
      is handed exactly the frame of the server's answer. */
  lemma ServerAnswerHanded(y: System, service: Octet, parameters: Bytes, server: Server.State, path: Path)
    requires Coherent(y) && Ready(y) && Server.WellFormed(server) && PathOk(path)
    requires Next(y, Begin(service, parameters)).begun[|y.begun|].Some?
    requires FitsBvll(Npdu(ConfirmedRequest(IdOf(|y.begun| + 1), service, parameters), RequestNpci(path)))
    ensures var n := |y.begun| + 1;
            var apdu := ConfirmedRequest(IdOf(n), service, parameters);
            var r := EndToEnd.ServerTurn(server, Bvlc(Npdu(apdu, RequestNpci(path)))).1;
            var z := After(y, [Begin(service, parameters), Serve(n, server, path), Receive(|y.answers|), Take(n)]);
            if r.Returned? && r.value.Some? then
              && n in z.results && FrameOf(EndToEnd.Received(r.value.value)) == Returned(z.results[n].frame)
              && z.answers == y.answers + [(n, z.results[n].frame)] && Ready(z)
            else z.results == y.results && z.answers == y.answers
  {
    hide Coherent, Fields.InvokeId, EndToEnd.ServerTurn, EndToEnd.Received, EndToEnd.Matching, FrameOf, Npdu, Bvlc, Has,
         Readable, BeginStep, ConfirmedRequest, Server.WellFormed, PathOk, ReceiveMove, TakeStep;
    var n := |y.begun| + 1;
    var b := Next(y, Begin(service, parameters));
    Begun(y, service, parameters);
    var c := Next(b, Serve(n, server, path));
    BeginCoherent(y, service, parameters);
    CoherentNumbered(b, n);
    Protocol.TurnAnswers(server, b.apdus[n - 1], n, path);
    assert c == ServeMove(b, n, server, path);
    FourMoves(y, Begin(service, parameters), Serve(n, server, path), Receive(|y.answers|), Take(n));
    if c.answers != b.answers {
      ReceivedIsHanded(c, c.answers[|y.answers|].1, Some(n));
    } else {
      NothingTaken(c, n);
    }
  }

  lemma NothingTaken(y: System, n: nat)
    requires forall r <- y.station.responses :: !Has(r, IdOf(n))
    ensures Next(y, Take(n)) == y
  {
    hide Has, FirstFor;
  }

  lemma CoherentNumbered(y: System, n: nat)
    requires Coherent(y) && 1 <= n <= |y.apdus|
    ensures Protocol.NumberedRequest(y.apdus[n - 1], n)
  {
    hide Protocol.NumberedRequest, Handed, Current, Sourced, EndToEnd.Matching;
  }

  /** So is an answer from any other device with the request's invoke id. */
  lemma DeviceAnswerHanded(y: System, service: Octet, parameters: Bytes, f: Fields)
    requires Coherent(y) && Ready(y) && EndToEnd.Matching(f, IdOf(|y.begun| + 1)) == Returned(true)
    requires Next(y, Begin(service, parameters)).begun[|y.begun|].Some?
    ensures var n := |y.begun| + 1;
            var z := After(y, [Begin(service, parameters), Reply(n, f), Receive(|y.answers|), Take(n)]);
            && n in z.results && z.results[n].frame == f && z.answers == y.answers + [(n, f)] && Ready(z)
  {
    hide Coherent, Fields.InvokeId, EndToEnd.Matching, Npdu, Has, Readable, BeginStep, ConfirmedRequest, ReceiveMove,
         TakeStep;
    var n := |y.begun| + 1;
    var b := Next(y, Begin(service, parameters));
    Begun(y, service, parameters);
    var c := Next(b, Reply(n, f));
    FourMoves(y, Begin(service, parameters), Reply(n, f), Receive(|y.answers|), Take(n));
    ReceivedIsHanded(c, f, Some(n));
  }

  lemma FourMoves(y: System, a: Move, b: Move, c: Move, d: Move)
    ensures After(y, [a, b, c, d]) == Next(Next(Next(Next(y, a), b), c), d)
  {
    hide Next;
    assert [a, b, c, d][1..] == [b, c, d] && [b, c, d][1..] == [c, d] && [c, d][1..] == [d] && [d][1..] == [];
    var y1 := Next(y, a);
    var y2 := Next(y1, b);
    var y3 := Next(y2, c);
    assert After(y3, [d]) == Next(y3, d);
    assert After(y2, [c, d]) == Next(y3, d);
    assert After(y1, [b, c, d]) == Next(y3, d);
  }

  lemma TwoMoves(y: System, a: Move, b: Move)
    ensures After(y, [a, b]) == Next(Next(y, a), b)
  {
    hide Next;
    assert [a, b][1..] == [b] && [b][1..] == [];
    assert After(Next(y, a), [b]) == Next(Next(y, a), b);
  }

  // -- the receiver -------------------------------------------------------------------------

  /** A notification that cannot be decoded ends the receiver: whatever happens after, nothing more is kept, queued
      or acknowledged. */
  lemma {:induction false} ReceiverStops(y: System, f: Fields, moves: seq<Move>)
    requires Ready(y) && f.ok && IsEventNotification(f) && DecodeNotification(f).Raised?
    ensures var z := After(Next(y, ReceiveOther(f)), moves);
            && !z.receiving && z.station.notifications == y.station.notifications
            && z.station.serial == y.station.serial && z.station.acks == y.station.acks
    decreases |moves|
  {
    hide DecodeNotification, After, Fields.Service;
    StoppedForGood(Next(y, ReceiveOther(f)), moves);
  }

  lemma {:induction false} StoppedForGood(y: System, moves: seq<Move>)
    requires !y.receiving
    ensures var z := After(y, moves);
            && !z.receiving && z.station.notifications == y.station.notifications
            && z.station.serial == y.station.serial && z.station.acks == y.station.acks
    decreases |moves|
  {
    hide Next;
    if moves != [] {
      StoppedStep(y, moves[0]);
      StoppedForGood(Next(y, moves[0]), moves[1..]);
    }
  }

  lemma StoppedStep(y: System, move: Move)
    requires !y.receiving
    ensures var z := Next(y, move);
            && !z.receiving && z.station.notifications == y.station.notifications
            && z.station.serial == y.station.serial && z.station.acks == y.station.acks
  {
    hide ReceiveStep, Others, FirstFor, EndToEnd.ServerTurn, FrameOf, Npdu, Bvlc, Server.WellFormed,
         EndToEnd.Matching;
  }

  /** Whether a confirmed notification is acknowledged is as the workstation was last told, even after the
      notification came in. */
  lemma AnsweringAsTold(y: System, f: Fields, on: bool)
    requires Ready(y) && f.ok && f.networkMessage.None? && Kept(f).Some?
    ensures var n := Kept(f).value;
            var z := After(y, [ReceiveOther(f), SetAnswering(on), Acknowledge]);
            && z.station.notifications == y.station.notifications + [n] && Ready(z)
            && z.station.acks == y.station.acks + if on && n.invokeId.Some? then [n.invokeId.value] else []
  {
    hide DecodeNotification, IsEventNotification;
    var y1 := Next(y, ReceiveOther(f));
    assert [ReceiveOther(f), SetAnswering(on), Acknowledge][1..] == [SetAnswering(on), Acknowledge];
    TwoMoves(y1, SetAnswering(on), Acknowledge);
  }
}
