/** `Workstation`: a receiver thread and any number of requesters sharing state under a lock. Each method
    is one critical section; the runs interleave them in every possible way. */
module Workstation {
  import opened Octets
  import opened Network
  import opened Requests
  import opened Notifications
  import Server
  import EndToEnd
  import Protocol

  /** A received response; `serial` tells one frame object from another. */
  datatype Response = Response(serial: nat, frame: Fields)

  datatype Notice = Notice(confirmed: bool, invokeId: Option<Octet>, fields: Notification)

  /** `serial` numbers the responses received; `pending` is the invoke id of a confirmed notification kept
      but not yet acknowledged; `acks` are the invoke ids of the SimpleACKs sent. */
  datatype State = State(answering: bool, notifications: seq<Notice>, responses: seq<Response>, invokeId: Octet,
                         serial: nat, pending: Option<Octet>, acks: seq<Octet>)

  predicate IsEventNotification(f: Fields) {
    f.networkMessage.None?
    && ((f.IsConfirmedRequest() && f.Service() == Returned(Some(SERVICE_CONFIRMED_EVENT_NOTIFICATION)))
        || (f.PduType() == Some(1) && f.Service() == Returned(Some(SERVICE_UNCONFIRMED_EVENT_NOTIFICATION))))
  }

  /** The receiver takes a frame: a notification is kept, a response is queued, anything else dropped. */
  function ReceiveStep(s: State, f: Fields): Outcome<State> {
    if !f.ok || f.networkMessage.Some? then Returned(s)
    else if IsEventNotification(f) then
      var (confirmed, id, fields) :- DecodeNotification(f);
      Returned(s.(notifications := s.notifications + [Notice(confirmed, id, fields)], pending := id))
    else if f.IsResponse() then
      Returned(s.(responses := s.responses + [Response(s.serial, f)], serial := s.serial + 1))
    else Returned(s)
  }

  /** Outside the lock, the receiver acknowledges what it just kept, if it is answering. */
  function AcknowledgeStep(s: State): State {
    s.(acks := if s.pending.Some? && s.answering then s.acks + [s.pending.value] else s.acks, pending := None)
  }

  /** The responses that do not have invoke id `id`, in order. */
  function Others(responses: seq<Response>, id: Octet): Outcome<seq<Response>> {
    if responses == [] then Returned([]) else
    var own :- responses[0].frame.InvokeId();
    var rest :- Others(responses[1..], id);
    Returned(if own == Some(id) then rest else [responses[0]] + rest)
  }

  /** A request takes the next invoke id and drops what is queued for it. */
  function BeginStep(s: State): (State, Outcome<Octet>) {
    var id := (s.invokeId + 1) % 256;
    var t := s.(invokeId := id);
    match Others(s.responses, id)
    case Raised(e) => (t, Raised(e))
    case Returned(others) => (t.(responses := others), Returned(id))
  }

  predicate Has(r: Response, id: Octet) { r.frame.InvokeId() == Returned(Some(id)) }

  /** Where the first response with invoke id `id` is queued. */
  function FirstFor(responses: seq<Response>, id: Octet): (r: Outcome<Option<nat>>)
    ensures r.Returned? && r.value.Some? ==>
              r.value.value < |responses| && Has(responses[r.value.value], id)
    ensures r.Returned? ==>
              forall i | 0 <= i < (if r.value.Some? then r.value.value else |responses|) :: !Has(responses[i], id)
  {
    if responses == [] then Returned(None) else
    var own :- responses[0].frame.InvokeId();
    if own == Some(id) then Returned(Some(0)) else
    var k :- FirstFor(responses[1..], id);
    assert forall i | 0 < i < |responses| :: responses[i] == responses[1..][i - 1];
    Returned(if k.Some? then Some(k.value + 1) else None)
  }

  /** A requester takes the first response with its invoke id out of the queue. */
  function TakeStep(s: State, id: Octet): (State, Outcome<Option<Response>>) {
    match FirstFor(s.responses, id)
    case Raised(e) => (s, Raised(e))
    case Returned(None) => (s, Returned(None))
    case Returned(Some(k)) =>
      (s.(responses := s.responses[..k] + s.responses[k + 1..]), Returned(Some(s.responses[k])))
  }

  class Workstation {
    var answerNotifications: bool
    var notifications: seq<Notice>
    var responses: seq<Response>
    var invokeId: Octet
    var pending: Option<Octet>
    ghost var serial: nat
    ghost var acks: seq<Octet>

    ghost function View(): State
      reads this
    {
      State(answerNotifications, notifications, responses, invokeId, serial, pending, acks)
    }

    constructor (answerNotifications: bool)
      ensures View() == State(answerNotifications, [], [], 0, 0, None, [])
    {
      this.answerNotifications := answerNotifications;
      notifications, responses, invokeId, pending := [], [], 0, None;
      serial, acks := 0, [];
    }

    /** `_serve`, the locked part; `identity` is the new frame object. */
    method Receive(frame: Fields, identity: nat) returns (raised: Option<PyError>)
      requires identity == serial
      modifies this
      ensures match ReceiveStep(old(View()), frame)
              case Returned(t) => raised == None && View() == t
              case Raised(e) => raised == Some(e) && View() == old(View())
    {
      hide DecodeNotification;
      if !frame.ok || frame.networkMessage.Some? {
        return None;
      }
      if IsEventNotification(frame) {
        var decoded := DecodeNotification(frame);
        if decoded.Raised? {
          return Some(decoded.error);
        }
        var (confirmed, id, fields) := decoded.value;
        notifications := notifications + [Notice(confirmed, id, fields)];
        pending := id;
      } else if frame.IsResponse() {
        responses := responses + [Response(identity, frame)];
        serial := serial + 1;
      }
      return None;
    }

    /** `_serve`, the SimpleACK; its octets, if one is sent. */
    method Acknowledge() returns (apdu: Option<Bytes>)
      modifies this
      ensures View() == AcknowledgeStep(old(View())) && pending == None
      ensures apdu == if old(pending).Some? && answerNotifications
                      then Some(SimpleAck(old(pending).value, SERVICE_CONFIRMED_EVENT_NOTIFICATION)) else None
    {
      apdu := None;
      if pending.Some? && answerNotifications {
        apdu := Some(SimpleAck(pending.value, SERVICE_CONFIRMED_EVENT_NOTIFICATION));
        acks := acks + [pending.value];
      }
      pending := None;
    }

    /** `request`, before anything is sent. */
    method BeginRequest() returns (r: Outcome<Octet>)
      modifies this
      ensures (View(), r) == BeginStep(old(View()))
    {
      invokeId := (invokeId + 1) % 256;
      var others := Others(responses, invokeId);
      if others.Raised? {
        return Raised(others.error);
      }
      responses := others.value;
      return Returned(invokeId);
    }

    /** `request`, one look through the queue. */
    method TakeResponse(id: Octet) returns (r: Outcome<Option<Response>>)
      modifies this`responses
      ensures (View(), r) == TakeStep(old(View()), id)
    {
      hide Fields.InvokeId, FirstFor;
      var i: nat := 0;
      assert responses[0..] == responses;
      NotMoved(FirstFor(responses, id));
      while i < |responses|
        invariant i <= |responses| && responses == old(responses)
        invariant FirstFor(responses, id) == Moved(FirstFor(responses[i..], id), i)
      {
        var own := responses[i].frame.InvokeId();
        FirstForAt(responses, i, id);
        if own.Raised? {
          return Raised(own.error);
        }
        if own.value == Some(id) {
          r := Returned(Some(responses[i]));
          responses := responses[..i] + responses[i + 1..];
          return;
        }
        i := i + 1;
      }
      FirstForNone(responses[i..], id);
      return Returned(None);
    }

    /** `wait_for_notification`, one look: the first notification from `after` on that matches. */
    method FindNotification(matches: Notice -> bool, after: nat) returns (found: Option<Notice>)
      ensures match found
              case Some(n) =>
                exists i :: after <= i < |notifications| && notifications[i] == n && matches(n)
                            && forall j | after <= j < i :: !matches(notifications[j])
              case None => forall j | after <= j < |notifications| :: !matches(notifications[j])
    {
      var i := after;
      while i < |notifications|
        invariant after <= i
        invariant forall j | after <= j < i && j < |notifications| :: !matches(notifications[j])
      {
        if matches(notifications[i]) {
          return Some(notifications[i]);
        }
        i := i + 1;
      }
      return None;
    }
  }

  function Moved(r: Outcome<Option<nat>>, i: nat): Outcome<Option<nat>> {
    match r
    case Raised(e) => Raised(e)
    case Returned(None) => Returned(None)
    case Returned(Some(k)) => Returned(Some(k + i))
  }

  lemma NotMoved(r: Outcome<Option<nat>>)
    ensures Moved(r, 0) == r
  {
  }

  /** The search from position `i` on: it ends there, or is the search from the next position. */
  lemma FirstForAt(responses: seq<Response>, i: nat, id: Octet)
    requires i < |responses|
    ensures var own := responses[i].frame.InvokeId();
            Moved(FirstFor(responses[i..], id), i)
            == if own.Raised? then Raised(own.error)
               else if own.value == Some(id) then Returned(Some(i))
               else Moved(FirstFor(responses[i + 1..], id), i + 1)
  {
    hide Fields.InvokeId;
    assert responses[i..][0] == responses[i] && responses[i..][1..] == responses[i + 1..];
  }

  lemma FirstForNone(responses: seq<Response>, id: Octet)
    requires responses == []
    ensures FirstFor(responses, id) == Returned(None)
  {
  }

  // -- every interleaving -------------------------------------------------------------

  /** Requests are numbered from 1; `begun[n-1]` is how many responses had come in when request `n` began,
      or None if it raised before it was sent, and `apdus[n-1]` is its APDU. `answers` holds every answer
      ever sent to one, with the request it answers; `origins[k]` is the request that response `k` answers, if
      it is known to answer one. `results` holds what each request was handed. The receiver stops for good
      once it raises. */
  datatype System = System(station: State, receiving: bool, begun: seq<Option<nat>>, apdus: seq<Bytes>,
                           answers: seq<(nat, Fields)>, origins: seq<Option<nat>>, results: map<nat, Response>)

  /** `Serve` is the simulated server, in any state, answering a request, and `Reply` any other device that
      answers one with its invoke id, each as often as copies of the request get there. An answer may be received
      any number of times, whenever it likes, or never, and so may any other frame whatever. */
  datatype Move =
    | Begin(service: Octet, parameters: Bytes)
    | Serve(request: nat, server: Server.State, path: Path)
    | Reply(request: nat, frame: Fields)
    | Receive(answer: nat)
    | ReceiveOther(frame: Fields)
    | Acknowledge
    | SetAnswering(on: bool)
    | Take(request: nat)

  /** When request `n` began, if it was sent. */
  function BegunAt(y: System, n: nat): Option<nat> { if 1 <= n <= |y.begun| then y.begun[n - 1] else None }

  predicate Waiting(y: System, n: nat) { BegunAt(y, n).Some? && n !in y.results }

  ghost function ServeMove(y: System, m: nat, server: Server.State, path: Path): System
    requires Reaches(y, m, path) && Server.WellFormed(server)
  {
    var r := EndToEnd.ServerTurn(server, Bvlc(Npdu(y.apdus[m - 1], RequestNpci(path)))).1;
    if r.Raised? || r.value.None? then y else
    var f := FrameOf(EndToEnd.Received(r.value.value));
    if f.Returned? then y.(answers := y.answers + [(m, f.value)]) else y
  }

  /** Request `m` was sent and fits a datagram on the path it takes. */
  predicate Reaches(y: System, m: nat, path: Path) {
    BegunAt(y, m).Some? && m <= |y.apdus| && PathOk(path) && FitsBvll(Npdu(y.apdus[m - 1], RequestNpci(path)))
  }

  /** A frame comes in; if it is queued as a response, `origin` is the request it is known to answer. */
  function ReceiveMove(y: System, f: Fields, origin: Option<nat>): System {
    if !y.receiving || y.station.pending.Some? then y else
    var r := ReceiveStep(y.station, f);
    if r.Raised? then y.(receiving := false)
    else
      var queued := r.value.serial > y.station.serial;
      y.(station := r.value, origins := if queued then y.origins + [origin] else y.origins)
  }

  /** One critical section, or one answer on its way; a move that is not possible changes nothing. */
  ghost function Next(y: System, move: Move): System {
    match move
    case Begin(service, parameters) =>
      var (t, r) := BeginStep(y.station);
      var apdu := ConfirmedRequest(IdOf(|y.begun| + 1), service, parameters);
      var sent := r.Returned? && FitsBvll(Npdu(apdu, RequestNpci(Straight)));
      y.(station := t, begun := y.begun + [if sent then Some(y.station.serial) else None], apdus := y.apdus + [apdu])
    case Serve(m, server, path) =>
      if Reaches(y, m, path) && Server.WellFormed(server) then ServeMove(y, m, server, path) else y
    case Reply(m, f) =>
      if BegunAt(y, m).Some? && EndToEnd.Matching(f, IdOf(m)) == Returned(true) then y.(answers := y.answers + [(m, f)])
      else y
    case Receive(i) =>
      if i < |y.answers| then ReceiveMove(y, y.answers[i].1, Some(y.answers[i].0)) else y
    case ReceiveOther(f) => ReceiveMove(y, f, None)
    case Acknowledge => if y.receiving then y.(station := AcknowledgeStep(y.station)) else y
    case SetAnswering(on) => y.(station := y.station.(answering := on))
    case Take(n) =>
      if !Waiting(y, n) then y else
      var (t, r) := TakeStep(y.station, IdOf(n));
      if r.Returned? && r.value.Some? then y.(station := t, results := y.results[n := r.value.value]) else y
  }

  ghost function After(y: System, moves: seq<Move>): System
    decreases |moves|
  {
    if moves == [] then y else After(Next(y, moves[0]), moves[1..])
  }

  predicate Ordered(responses: seq<Response>, serial: nat) {
    && (forall i | 0 <= i < |responses| :: responses[i].serial < serial)
    && (forall i, j | 0 <= i < j < |responses| :: responses[i].serial < responses[j].serial)
  }

  /** A queued response that request `n` could be handed came in after the request began. */
  ghost predicate Current(y: System) {
    forall n: nat, i | 0 <= i < |y.station.responses| && BegunAt(y, n).Some? && Has(y.station.responses[i], IdOf(n)) ::
      BegunAt(y, n).value <= y.station.responses[i].serial
  }

  /** What request `n` was handed: its own invoke id, received after it began, and queued no longer. */
  ghost predicate Proper(y: System, n: nat, r: Response) {
    && BegunAt(y, n).Some? && Has(r, IdOf(n))
    && BegunAt(y, n).value <= r.serial < y.station.serial
    && forall i | 0 <= i < |y.station.responses| :: y.station.responses[i].serial != r.serial
  }

  ghost predicate Handed(y: System) {
    && (forall n <- y.results :: Proper(y, n, y.results[n]))
    && (forall n, m | n in y.results && m in y.results :: y.results[n].serial == y.results[m].serial ==> n == m)
  }

  ghost predicate Coherent(y: System) {
    && y.station.invokeId == IdOf(|y.begun|)
    && Ordered(y.station.responses, y.station.serial)
    && (forall n: nat :: BegunAt(y, n).Some? ==> BegunAt(y, n).value <= y.station.serial)
    && Current(y) && Handed(y) && Asked(y) && Sourced(y)
  }

  /** Each request has its APDU, with its invoke id, and each answer matches a request that was sent. */
  ghost predicate Asked(y: System) {
    && |y.apdus| == |y.begun| && (forall i | 0 <= i < |y.apdus| :: Protocol.NumberedRequest(y.apdus[i], i + 1))
    && (forall a <- y.answers :: BegunAt(y, a.0).Some? && EndToEnd.Matching(a.1, IdOf(a.0)) == Returned(true))
  }

  /** If the response is known to answer a request, that was sent and the response has its invoke id. */
  predicate Own(y: System, r: Response) {
    r.serial < |y.origins| && Fitting(y, r.frame, y.origins[r.serial])
  }

  predicate Fitting(y: System, f: Fields, origin: Option<nat>) {
    origin.Some? ==> BegunAt(y, origin.value).Some? && f.InvokeId() == Returned(Some(IdOf(origin.value)))
  }

  ghost predicate Sourced(y: System) {
    && |y.origins| == y.station.serial
    && (forall r <- y.station.responses :: Own(y, r))
    && (forall n <- y.results :: Own(y, y.results[n]))
  }

  lemma {:induction false} OthersKept(responses: seq<Response>, id: Octet, serial: nat)
    requires Ordered(responses, serial) && Others(responses, id).Returned?
    ensures var o := Others(responses, id).value;
            && Ordered(o, serial)
            && (forall i | 0 <= i < |o| :: o[i] in responses && !Has(o[i], id))
            && (forall r <- responses :: !Has(r, id) ==> r in o)
  {
    hide Fields.InvokeId;
    if responses != [] {
      OthersKept(responses[1..], id, serial);
      var rest := Others(responses[1..], id).value;
      assert forall i | 0 <= i < |rest| :: responses[0].serial < rest[i].serial;
    }
  }

  /** If requests keep their beginnings, responses are only dropped or newly come in, and nothing is handed
      over, then what was handed stays proper. */
  lemma HandedStays(y: System, z: System)
    requires Handed(y) && z.results == y.results && y.station.serial <= z.station.serial
    requires forall n: nat :: BegunAt(y, n).Some? ==> BegunAt(z, n) == BegunAt(y, n)
    requires forall i | 0 <= i < |z.station.responses| ::
               z.station.responses[i] in y.station.responses || z.station.responses[i].serial >= y.station.serial
    ensures Handed(z)
  {
    hide Has, BegunAt;
    forall n <- z.results
      ensures Proper(z, n, z.results[n])
    {
      assert Proper(y, n, y.results[n]);
    }
  }

  /** Answers stay as good as they were while requests keep their beginnings. */
  lemma SourcedStays(y: System, z: System)
    requires Sourced(y) && y.origins <= z.origins
    requires |z.origins| - |y.origins| == z.station.serial - y.station.serial
    requires forall n: nat :: BegunAt(y, n).Some? ==> BegunAt(z, n) == BegunAt(y, n)
    requires forall r <- z.station.responses :: r in y.station.responses || Own(z, r)
    requires forall n <- z.results ::
               (n in y.results && z.results[n] == y.results[n]) || z.results[n] in y.station.responses
    ensures Sourced(z)
  {
    hide Has, BegunAt;
    forall r | Own(y, r)
      ensures Own(z, r)
    {
    }
    forall n <- z.results
      ensures Own(z, z.results[n])
    {
      assert n in y.results ==> Own(y, y.results[n]);
    }
  }

  lemma ReceiveCoherent(y: System, f: Fields, origin: Option<nat>)
    requires Coherent(y) && Fitting(y, f, origin)
    ensures Coherent(ReceiveMove(y, f, origin))
  {
    hide DecodeNotification, Handed, Sourced, Asked;
    var z := ReceiveMove(y, f, origin);
    assert forall n: nat :: BegunAt(z, n) == BegunAt(y, n);
    HandedStays(y, z);
    AskedStays(y, z);
    ReceiveSourced(y, f, origin);
  }

  lemma AskedStays(y: System, z: System)
    requires Asked(y) && z.apdus == y.apdus && z.begun == y.begun && z.answers == y.answers
    ensures Asked(z)
  {
    hide Protocol.NumberedRequest, EndToEnd.Matching;
    assert forall n: nat :: BegunAt(z, n) == BegunAt(y, n);
  }

  lemma ReceiveSourced(y: System, f: Fields, origin: Option<nat>)
    requires Sourced(y) && Fitting(y, f, origin)
    ensures Sourced(ReceiveMove(y, f, origin))
  {
    hide DecodeNotification;
    var z := ReceiveMove(y, f, origin);
    assert forall n: nat :: BegunAt(z, n) == BegunAt(y, n);
    SourcedStays(y, z);
  }

  lemma ServeCoherent(y: System, m: nat, server: Server.State, path: Path)
    requires Coherent(y) && Reaches(y, m, path) && Server.WellFormed(server)
    ensures Coherent(ServeMove(y, m, server, path))
  {
    hide EndToEnd.ServerTurn, EndToEnd.Received, FrameOf, Npdu, Bvlc, EndToEnd.Matching, Server.WellFormed, Has, Handed,
         Current, Sourced;
    assert Protocol.NumberedRequest(y.apdus[m - 1], m);
    Protocol.TurnAnswers(server, y.apdus[m - 1], m, path);
    AnswersOnly(y, ServeMove(y, m, server, path));
  }

  lemma ReplyCoherent(y: System, m: nat, f: Fields)
    requires Coherent(y) && BegunAt(y, m).Some? && EndToEnd.Matching(f, IdOf(m)) == Returned(true)
    ensures Coherent(y.(answers := y.answers + [(m, f)]))
  {
    hide EndToEnd.Matching, Has, Handed, Current, Sourced;
    AnswersOnly(y, y.(answers := y.answers + [(m, f)]));
  }

  lemma AnswersOnly(y: System, z: System)
    requires Coherent(y) && z == y.(answers := z.answers) && Asked(z)
    ensures Coherent(z)
  {
    hide Has, Asked, Handed;
    assert forall n: nat :: BegunAt(z, n) == BegunAt(y, n);
    HandedStays(y, z);
    SourcedStays(y, z);
  }

  /** What beginning a request does to the queue. */
  lemma BeginEffect(s: State)
    requires Ordered(s.responses, s.serial)
    ensures var (t, r) := BeginStep(s);
            && t.serial == s.serial && t.invokeId == (s.invokeId + 1) % 256 && Ordered(t.responses, t.serial)
            && (forall i | 0 <= i < |t.responses| :: t.responses[i] in s.responses)
            && (r.Returned? ==> forall i | 0 <= i < |t.responses| :: !Has(t.responses[i], t.invokeId))
  {
    hide Others, Has;
    var id := (s.invokeId + 1) % 256;
    if Others(s.responses, id).Returned? {
      OthersKept(s.responses, id, s.serial);
    }
  }

  lemma BeginCoherent(y: System, service: Octet, parameters: Bytes)
    requires Coherent(y)
    ensures Coherent(Next(y, Begin(service, parameters)))
  {
    hide Has, BeginStep, Handed, Current, Sourced, Asked;
    var z := Next(y, Begin(service, parameters));
    BeginEffect(y.station);
    assert z.station.invokeId == IdOf(|y.begun| + 1);
    assert forall n: nat :: BegunAt(y, n).Some? ==> BegunAt(z, n) == BegunAt(y, n);
    HandedStays(y, z);
    BeginCurrent(y, z);
    SourcedStays(y, z);
    BeginAsked(y, service, parameters);
  }

  lemma BeginAsked(y: System, service: Octet, parameters: Bytes)
    requires Asked(y)
    ensures Asked(Next(y, Begin(service, parameters)))
  {
    hide EndToEnd.Matching, BeginStep;
  }

  lemma BeginCurrent(y: System, z: System)
    requires Current(y) && |z.begun| == |y.begun| + 1
    requires forall n: nat | n != |z.begun| :: BegunAt(z, n) == BegunAt(y, n)
    requires forall i | 0 <= i < |z.station.responses| :: z.station.responses[i] in y.station.responses
    requires BegunAt(z, |z.begun|).Some? ==>
               forall i | 0 <= i < |z.station.responses| :: !Has(z.station.responses[i], IdOf(|z.begun|))
    ensures Current(z)
  {
    hide Has, BegunAt;
    forall n: nat, i | 0 <= i < |z.station.responses| && BegunAt(z, n).Some? && Has(z.station.responses[i], IdOf(n))
      ensures BegunAt(z, n).value <= z.station.responses[i].serial
    {
      var k :| 0 <= k < |y.station.responses| && y.station.responses[k] == z.station.responses[i];
      assert n != |z.begun|;
      assert BegunAt(y, n) == BegunAt(z, n);
    }
  }

  lemma TakeCoherent(y: System, n: nat)
    requires Coherent(y)
    ensures Coherent(Next(y, Take(n)))
  {
    hide FirstFor, Has, Handed, Current, Sourced, Asked;
    var z := Next(y, Take(n));
    if z != y {
      var k := FirstFor(y.station.responses, IdOf(n)).value.value;
      assert Has(y.station.responses[k], IdOf(n)) by {
        TakenHas(y.station.responses, IdOf(n));
      }
      TakenOut(y.station.responses, y.station.serial, k);
      assert forall m: nat :: BegunAt(z, m) == BegunAt(y, m);
      TakeCurrent(y, z);
      TakeHanded(y, z, n, k);
      SourcedStays(y, z);
      AskedStays(y, z);
    }
  }

  lemma TakenHas(responses: seq<Response>, id: Octet)
    requires FirstFor(responses, id).Returned? && FirstFor(responses, id).value.Some?
    ensures Has(responses[FirstFor(responses, id).value.value], id)
  {
  }

  lemma TakeCurrent(y: System, z: System)
    requires Current(y) && forall m: nat :: BegunAt(z, m) == BegunAt(y, m)
    requires forall i | 0 <= i < |z.station.responses| :: z.station.responses[i] in y.station.responses
    ensures Current(z)
  {
    hide Has, BegunAt;
    forall n: nat, i | 0 <= i < |z.station.responses| && BegunAt(z, n).Some? && Has(z.station.responses[i], IdOf(n))
      ensures BegunAt(z, n).value <= z.station.responses[i].serial
    {
      var k :| 0 <= k < |y.station.responses| && y.station.responses[k] == z.station.responses[i];
      assert BegunAt(y, n) == BegunAt(z, n);
    }
  }

  lemma TakeHanded(y: System, z: System, n: nat, k: nat)
    requires Handed(y) && Current(y) && Ordered(y.station.responses, y.station.serial)
    requires k < |y.station.responses| && Has(y.station.responses[k], IdOf(n)) && Waiting(y, n)
    requires z.results == y.results[n := y.station.responses[k]] && z.station.serial == y.station.serial
    requires forall m: nat :: BegunAt(z, m) == BegunAt(y, m)
    requires forall i | 0 <= i < |z.station.responses| ::
               z.station.responses[i] in y.station.responses
               && z.station.responses[i].serial != y.station.responses[k].serial
    ensures Handed(z)
  {
    hide Has, BegunAt;
    var r := y.station.responses[k];
    forall m <- z.results
      ensures Proper(z, m, z.results[m])
    {
      if m == n {
        assert BegunAt(z, n) == BegunAt(y, n);
      } else {
        assert Proper(y, m, y.results[m]);
      }
    }
    assert forall m <- y.results :: Proper(y, m, y.results[m]);
    assert forall m <- y.results :: y.results[m].serial != r.serial;
  }

  lemma TakenOut(responses: seq<Response>, serial: nat, k: nat)
    requires Ordered(responses, serial) && k < |responses|
    ensures var left := responses[..k] + responses[k + 1..];
            && Ordered(left, serial)
            && (forall i | 0 <= i < |left| :: left[i] in responses && left[i].serial != responses[k].serial)
  {
    var left := responses[..k] + responses[k + 1..];
    forall i | 0 <= i < |left|
      ensures left[i] == responses[if i < k then i else i + 1]
    {
    }
  }

  lemma MatchingResponse(f: Fields, id: Octet)
    requires EndToEnd.Matching(f, id) == Returned(true)
    ensures f.ok && f.networkMessage.None? && f.IsResponse() && f.InvokeId() == Returned(Some(id))
  {
  }

  lemma NextCoherent(y: System, move: Move)
    requires Coherent(y)
    ensures Coherent(Next(y, move))
  {
    hide Coherent, ReceiveMove, ServeMove, EndToEnd.Matching, Server.WellFormed, TakeStep, BeginStep, Fields.InvokeId,
         Fields.IsResponse;
    CoherentAsked(y);
    match move {
      case Begin(service, parameters) => BeginCoherent(y, service, parameters);
      case Serve(m, server, path) =>
        if Reaches(y, m, path) && Server.WellFormed(server) {
          ServeCoherent(y, m, server, path);
        }
      case Reply(m, f) =>
        if BegunAt(y, m).Some? && EndToEnd.Matching(f, IdOf(m)) == Returned(true) {
          ReplyCoherent(y, m, f);
        }
      case Receive(i) =>
        if i < |y.answers| {
          var a := y.answers[i];
          MatchingResponse(a.1, IdOf(a.0));
          ReceiveCoherent(y, a.1, Some(a.0));
        }
      case ReceiveOther(f) => ReceiveCoherent(y, f, None);
      case Take(n) => TakeCoherent(y, n);
      case Acknowledge => QuietCoherent(y, move);
      case SetAnswering(_) => QuietCoherent(y, move);
    }
  }

  lemma CoherentAsked(y: System)
    requires Coherent(y)
    ensures Asked(y)
  {
  }

  lemma QuietCoherent(y: System, move: Move)
    requires Coherent(y) && (move.Acknowledge? || move.SetAnswering?)
    ensures Coherent(Next(y, move))
  {
    hide Has, Handed, Asked, Sourced;
    var z := Next(y, move);
    assert forall n: nat :: BegunAt(z, n) == BegunAt(y, n);
    HandedStays(y, z);
    SourcedStays(y, z);
    AskedStays(y, z);
  }

  lemma {:induction false} RunCoherent(y: System, moves: seq<Move>)
    requires Coherent(y)
    ensures Coherent(After(y, moves))
    decreases |moves|
  {
    hide Coherent, Next;
    if moves != [] {
      NextCoherent(y, moves[0]);
      RunCoherent(Next(y, moves[0]), moves[1..]);
    }
  }

  predicate Fresh(y: System) {
    y == System(State(y.station.answering, [], [], 0, 0, None, []), true, [], [], [], [], map[])
  }

  lemma FreshCoherent(y: System)
    requires Fresh(y)
    ensures Coherent(y)
  {
  }

  /** Under any interleaving of the receiver and the requesters, whatever frames come in: a response is handed to at
      most one request, only to one with its invoke id that had begun before the response came in. If it is an
      answer to request `m` of this workstation, lost, delayed, repeated or overtaken as may be, `m` is congruent to
      `n` modulo 256, older or newer, and so is `n` itself if they are at most 255 apart. */
  lemma HandedOnce(y: System, moves: seq<Move>, n: nat)
    requires Fresh(y) && n in After(y, moves).results
    ensures var z := After(y, moves);
            var r := z.results[n];
            && BegunAt(z, n).Some?
            && r.frame.InvokeId() == Returned(Some(IdOf(n)))
            && BegunAt(z, n).value <= r.serial < |z.origins|
            && (forall k | k in z.results && k != n :: z.results[k].serial != r.serial)
            && (forall q <- z.station.responses :: q.serial != r.serial)
            && match z.origins[r.serial]
               case None => true
               case Some(m) => BegunAt(z, m).Some? && m % 256 == n % 256 && (-255 <= n - m <= 255 ==> m == n)
  {
    hide After, Coherent;
    FreshCoherent(y);
    RunCoherent(y, moves);
    CoherentHanded(After(y, moves), n);
  }

  lemma CoherentHanded(z: System, n: nat)
    requires Coherent(z) && n in z.results
    ensures Proper(z, n, z.results[n]) && Own(z, z.results[n])
    ensures forall k | k in z.results && k != n :: z.results[k].serial != z.results[n].serial
  {
    hide Has, Asked, Current;
  }

  // -- nothing received is lost ------------------------------------------------------------

  /** The receiver is ready for the next frame. */
  predicate Ready(y: System) { y.receiving && y.station.pending.None? }

  /** The frame a move brings in, if the receiver is ready for it. */
  function FrameTaken(y: System, move: Move): Option<Fields> {
    match move
    case Receive(i) => if Ready(y) && i < |y.answers| then Some(y.answers[i].1) else None
    case ReceiveOther(f) => if Ready(y) then Some(f) else None
    case _ => None
  }

  /** Every frame taken in, in order. */
  ghost function FramesTaken(y: System, moves: seq<Move>): seq<Fields>
    decreases |moves|
  {
    if moves == [] then [] else
    var f := FrameTaken(y, moves[0]);
    (if f.Some? then [f.value] else []) + FramesTaken(Next(y, moves[0]), moves[1..])
  }

  function NoticeIn(f: Fields): seq<Notice> {
    if f.ok && f.networkMessage.None? && Kept(f).Some? then [Kept(f).value] else []
  }

  /** The notifications among the frames, in order. */
  function NoticesIn(frames: seq<Fields>): seq<Notice> {
    if frames == [] then [] else NoticeIn(frames[0]) + NoticesIn(frames[1..])
  }

  /** The responses among the frames, in order, numbered from `serial`. */
  function ResponsesIn(frames: seq<Fields>, serial: nat): seq<Response> {
    if frames == [] then [] else
    if frames[0].ok && frames[0].networkMessage.None? && frames[0].IsResponse()
    then [Response(serial, frames[0])] + ResponsesIn(frames[1..], serial + 1)
    else ResponsesIn(frames[1..], serial)
  }

  lemma TakenOne(f: Fields, serial: nat)
    ensures NoticesIn([f]) == NoticeIn(f)
    ensures ResponsesIn([f], serial)
            == if f.ok && f.networkMessage.None? && f.IsResponse() then [Response(serial, f)] else []
  {
    hide Kept;
    assert [f][1..] == [];
  }

  /** A frame received: a notification is kept and its invoke id is to be acknowledged, a response is queued, and
      nothing else changes. */
  lemma ReceivedWhole(y: System, f: Fields, origin: Option<nat>)
    requires Ready(y)
    ensures var z := ReceiveMove(y, f, origin);
            && z.station.notifications == y.station.notifications + NoticesIn([f])
            && z.station.responses == y.station.responses + ResponsesIn([f], y.station.serial)
            && z.station.serial == y.station.serial + |ResponsesIn([f], y.station.serial)|
            && z.station.pending == (if NoticesIn([f]) != [] then NoticesIn([f])[0].invokeId else None)
            && z.station.acks == y.station.acks && z.station.invokeId == y.station.invokeId
  {
    hide DecodeNotification;
    TakenOne(f, y.station.serial);
    if f.IsResponse() {
      ResponseIsNoNotification(f);
    }
  }

  lemma NextTaken(y: System, move: Move)
    ensures var z := Next(y, move);
            var taken := if FrameTaken(y, move).Some? then [FrameTaken(y, move).value] else [];
            && z.station.notifications == y.station.notifications + NoticesIn(taken)
            && z.station.serial == y.station.serial + |ResponsesIn(taken, y.station.serial)|
  {
    hide ReceiveMove, ReceiveStep, NoticesIn, ResponsesIn, Others, FirstFor, ServeMove, Server.WellFormed,
         EndToEnd.Matching, Npdu;
    NothingIn(y.station.serial);
    match move {
      case Receive(i) =>
        if FrameTaken(y, move).Some? {
          ReceivedWhole(y, y.answers[i].1, Some(y.answers[i].0));
        } else if i < |y.answers| {
          NotReady(y, y.answers[i].1, Some(y.answers[i].0));
        }
      case ReceiveOther(f) =>
        if Ready(y) {
          ReceivedWhole(y, f, None);
        } else {
          NotReady(y, f, None);
        }
      case Serve(m, server, path) =>
        if Reaches(y, m, path) && Server.WellFormed(server) {
          ServeKeepsStation(y, m, server, path);
        }
      case _ =>
    }
  }

  lemma NotReady(y: System, f: Fields, origin: Option<nat>)
    requires !Ready(y)
    ensures ReceiveMove(y, f, origin) == y
  {
    hide ReceiveStep;
  }

  lemma NothingIn(serial: nat)
    ensures NoticesIn([]) == [] && ResponsesIn([], serial) == []
  {
  }

  lemma {:induction false} NoticesOfConcat(a: seq<Fields>, b: seq<Fields>)
    ensures NoticesIn(a + b) == NoticesIn(a) + NoticesIn(b)
  {
    hide NoticeIn;
    if a == [] {
      assert a + b == b;
    } else {
      NoticesOfConcat(a[1..], b);
      assert (a + b)[1..] == a[1..] + b;
    }
  }

  /** Over every run: the notifications are those there were and every one taken in since, in order. */
  lemma {:induction false} EveryNotificationKept(y: System, moves: seq<Move>)
    ensures After(y, moves).station.notifications
            == y.station.notifications + NoticesIn(FramesTaken(y, moves))
    decreases |moves|
  {
    hide Next, NoticesIn, FrameTaken;
    if moves == [] {
      NothingIn(0);
    } else {
      var z := Next(y, moves[0]);
      var f := FrameTaken(y, moves[0]);
      var taken := if f.Some? then [f.value] else [];
      NextTaken(y, moves[0]);
      EveryNotificationKept(z, moves[1..]);
      NoticesOfConcat(taken, FramesTaken(z, moves[1..]));
    }
  }

  /** The acknowledgement: its invoke id is among those sent if answering, and the receiver is ready again. */
  lemma AcknowledgeSends(y: System)
    requires y.receiving
    ensures var z := Next(y, Acknowledge);
            && Ready(z) && z.station.notifications == y.station.notifications
            && z.station.acks == y.station.acks + (if y.station.answering then Pending(y.station) else [])
  {
  }

  /** Which frames are notifications, by their octets: confirmed service 2 or unconfirmed service 3. */
  lemma NotificationOctets(f: Fields)
    ensures IsEventNotification(f)
            <==> f.networkMessage.None?
                 && ((|f.payload| > 3 && f.payload[0] / 16 == 0 && f.payload[3] == 2)
                     || (|f.payload| > 1 && f.payload[0] / 16 == 1 && f.payload[1] == 3))
  {
  }

  /** An encoded notification, confirmed or not, straight or relayed, is kept with all its fields. */
  lemma EncodedEventKept(e: Event, invokeId: Option<Octet>, path: Path)
    requires ValidEvent(e) && PathOk(path)
    ensures var f := RequestFrame(EventApdu(e, invokeId), path);
            NoticesIn([f]) == [Notice(invokeId.Some?, invokeId, ExpectedNotification(e))]
  {
    hide DecodeNotification, IsEventNotification, EventApdu, RequestFrame, ExpectedNotification;
    var f := RequestFrame(EventApdu(e, invokeId), path);
    NotificationRoundTrip(e, invokeId, path);
    EventOctets(e, invokeId, path);
    NotificationOctets(f);
    TakenOne(f, 0);
  }

  lemma EventOctets(e: Event, invokeId: Option<Octet>, path: Path)
    requires ValidEvent(e) && PathOk(path)
    ensures var f := RequestFrame(EventApdu(e, invokeId), path);
            && f.ok && f.networkMessage.None?
            && if invokeId.Some? then |f.payload| > 3 && f.payload[0] == 0 && f.payload[3] == 2
               else |f.payload| > 1 && f.payload[0] == 0x10 && f.payload[1] == 3
  {
    hide EncodePieces, EventPieces, ValidEvent, ValidPieces, Npdu;
  }

  // -- a response of one octet ----------------------------------------------------------

  /** A response that ends before its invoke id, which cannot be read. */
  predicate OneOctet(f: Fields) { f.IsResponse() && |f.payload| == 1 }

  lemma {:induction false} OthersRaises(responses: seq<Response>, id: Octet)
    ensures Others(responses, id).Raised? <==> exists r :: r in responses && OneOctet(r.frame)
  {
    if responses != [] {
      OthersRaises(responses[1..], id);
      assert forall r <- responses :: r == responses[0] || r in responses[1..];
    }
  }

  /** Exactly when a request raises before it is sent: a response of one octet is queued, or the request is too
      long for a datagram. The response stays queued. */
  lemma RequestRaises(y: System, service: Octet, parameters: Bytes)
    ensures var z := Next(y, Begin(service, parameters));
            var apdu := ConfirmedRequest(IdOf(|y.begun| + 1), service, parameters);
            var stuck := exists r :: r in y.station.responses && OneOctet(r.frame);
            && |z.begun| == |y.begun| + 1
            && (z.begun[|y.begun|].None? <==> stuck || !FitsBvll(Npdu(apdu, RequestNpci(Straight))))
            && (stuck ==> z.station.responses == y.station.responses)
  {
    hide Others, OneOctet, Npdu;
    OthersRaises(y.station.responses, (y.station.invokeId + 1) % 256);
  }

  lemma StuckStep(y: System, move: Move, r: Response)
    requires r in y.station.responses && OneOctet(r.frame)
    ensures var z := Next(y, move);
            && r in z.station.responses && y.begun <= z.begun
            && forall k | |y.begun| <= k < |z.begun| :: z.begun[k].None?
  {
    hide DecodeNotification, ServeMove, Server.WellFormed, FirstFor, EndToEnd.Matching, IsEventNotification, Npdu,
         Others;
    match move {
      case Begin(service, parameters) => RequestRaises(y, service, parameters);
      case Serve(m, server, path) =>
        if Reaches(y, m, path) && Server.WellFormed(server) {
          ServeKeepsStation(y, m, server, path);
        }
      case Take(n) =>
        var k := FirstFor(y.station.responses, IdOf(n));
        if k.Returned? && k.value.Some? {
          TakenHas(y.station.responses, IdOf(n));
          StillIn(y.station.responses, k.value.value, r);
        }
      case _ =>
    }
  }

  lemma StillIn(responses: seq<Response>, k: nat, r: Response)
    requires k < |responses| && r in responses && responses[k] != r
    ensures r in responses[..k] + responses[k + 1..]
  {
    var i :| 0 <= i < |responses| && responses[i] == r;
    var left := responses[..k] + responses[k + 1..];
    assert left[if i < k then i else i - 1] == r;
  }

  /** One received response of a single octet stops a workstation for good: whatever happens after, it stays queued
      and every later request raises before it is sent. */
  lemma {:induction false} StuckForGood(y: System, moves: seq<Move>, r: Response)
    requires r in y.station.responses && OneOctet(r.frame)
    ensures var z := After(y, moves);
            && r in z.station.responses && y.begun <= z.begun
            && forall k | |y.begun| <= k < |z.begun| :: z.begun[k].None?
    decreases |moves|
  {
    hide Next, OneOctet;
    if moves != [] {
      StuckStep(y, moves[0], r);
      StuckForGood(Next(y, moves[0]), moves[1..], r);
    }
  }

  // -- notifications and their acknowledgements -------------------------------------------

  /** The notification a frame is kept as, if it is one. */
  function Kept(f: Fields): Option<Notice> {
    if !IsEventNotification(f) then None else
    var d := DecodeNotification(f);
    if d.Raised? then None else Some(Notice(d.value.0, d.value.1, d.value.2))
  }

  /** What was kept grows by what this move brought in, if it brought in a notification. */
  predicate KeptBy(before: seq<Notice>, after: seq<Notice>, move: Move) {
    || after == before
    || (move.ReceiveOther? && Kept(move.frame).Some? && after == before + [Kept(move.frame).value])
  }

  lemma NextNotifications(y: System, move: Move)
    requires Asked(y)
    ensures KeptBy(y.station.notifications, Next(y, move).station.notifications, move)
  {
    hide DecodeNotification, Others, FirstFor, ServeMove, Server.WellFormed, IsEventNotification, EndToEnd.Matching;
    match move {
      case Receive(i) =>
        if i < |y.answers| {
          var a := y.answers[i];
          MatchingResponse(a.1, IdOf(a.0));
          ResponseIsNoNotification(a.1);
        }
      case Serve(m, server, path) =>
        if Reaches(y, m, path) && Server.WellFormed(server) {
          ServeKeepsStation(y, m, server, path);
        }
      case _ =>
    }
  }

  lemma ResponseIsNoNotification(f: Fields)
    requires f.IsResponse()
    ensures !IsEventNotification(f)
  {
  }

  /** Some move brought in the notification. */
  predicate BroughtIn(n: Notice, moves: seq<Move>) {
    exists j | 0 <= j < |moves| :: moves[j].ReceiveOther? && Kept(moves[j].frame) == Some(n)
  }

  /** Notifications are only ever appended: those there were stay where they are, and after them come only ones
      brought in by these moves. */
  lemma {:induction false} NotificationsGrow(y: System, moves: seq<Move>)
    requires Coherent(y)
    ensures var before, after := y.station.notifications, After(y, moves).station.notifications;
            before <= after && forall k | |before| <= k < |after| :: BroughtIn(after[k], moves)
    decreases |moves|
  {
    hide Coherent, Asked, Next, Kept;
    if moves != [] {
      CoherentAsked(y);
      NextCoherent(y, moves[0]);
      NextNotifications(y, moves[0]);
      NotificationsGrow(Next(y, moves[0]), moves[1..]);
      LaterBroughtIn(moves);
    }
  }

  lemma LaterBroughtIn(moves: seq<Move>)
    requires moves != []
    ensures forall n :: BroughtIn(n, moves[1..]) ==> BroughtIn(n, moves)
    ensures forall n :: moves[0].ReceiveOther? && Kept(moves[0].frame) == Some(n) ==> BroughtIn(n, moves)
  {
    hide Kept;
    forall n | BroughtIn(n, moves[1..])
      ensures BroughtIn(n, moves)
    {
      var j :| 0 <= j < |moves| - 1 && moves[1..][j].ReceiveOther? && Kept(moves[1..][j].frame) == Some(n);
      assert moves[j + 1] == moves[1..][j];
    }
  }

  /** What `mark` is for: of the notifications there are later, those before the mark were there when it was
      taken, and every one at or after it came in since. */
  lemma MarkSeparates(y: System, earlier: seq<Move>, later: seq<Move>)
    requires Fresh(y)
    ensures var marked := After(y, earlier).station.notifications;
            var found := After(After(y, earlier), later).station.notifications;
            var mark := |marked|;
            && mark <= |found| && found[..mark] == marked
            && forall k | mark <= k < |found| :: BroughtIn(found[k], later)
  {
    hide After, BroughtIn, Coherent;
    FreshCoherent(y);
    RunCoherent(y, earlier);
    NotificationsGrow(After(y, earlier), later);
  }

  /** The invoke ids of the confirmed notifications, in order. */
  function ConfirmedIds(notices: seq<Notice>): seq<Octet> {
    if notices == [] then []
    else
      var n := notices[|notices| - 1];
      ConfirmedIds(notices[..|notices| - 1])
      + if n.confirmed && n.invokeId.Some? then [n.invokeId.value] else []
  }

  function Pending(s: State): seq<Octet> { if s.pending.Some? then [s.pending.value] else [] }

  predicate AnsweringFixed(moves: seq<Move>) { forall i | 0 <= i < |moves| :: !moves[i].SetAnswering? }

  /** So far as sent or about to be: one SimpleACK for each confirmed notification kept, with its own invoke
      id, in order; none at all when not answering. */
  predicate Acknowledged(s: State) {
    if s.answering then s.acks + Pending(s) == ConfirmedIds(s.notifications) else s.acks == []
  }

  lemma ConfirmedIdsOfAppend(notices: seq<Notice>, n: Notice)
    ensures ConfirmedIds(notices + [n])
            == ConfirmedIds(notices) + if n.confirmed && n.invokeId.Some? then [n.invokeId.value] else []
  {
    assert (notices + [n])[..|notices|] == notices;
  }

  lemma ReceiveAcknowledged(y: System, f: Fields, origin: Option<nat>)
    requires Acknowledged(y.station)
    ensures var z := ReceiveMove(y, f, origin);
            Acknowledged(z.station) && z.station.answering == y.station.answering
  {
    hide DecodeNotification, IsEventNotification, ConfirmedIds;
    var d := DecodeNotification(f);
    if d.Returned? {
      var (confirmed, id, fields) := d.value;
      UnconfirmedHasNoId(f);
      ConfirmedIdsOfAppend(y.station.notifications, Notice(confirmed, id, fields));
    }
  }

  lemma NextAcknowledged(y: System, move: Move)
    requires Acknowledged(y.station) && !move.SetAnswering?
    ensures Acknowledged(Next(y, move).station) && Next(y, move).station.answering == y.station.answering
  {
    hide ReceiveMove, Others, FirstFor, ConfirmedIds, ServeMove, Server.WellFormed;
    match move {
      case Receive(i) =>
        if i < |y.answers| {
          ReceiveAcknowledged(y, y.answers[i].1, Some(y.answers[i].0));
        }
      case ReceiveOther(f) => ReceiveAcknowledged(y, f, None);
      case Serve(m, server, path) =>
        if Reaches(y, m, path) && Server.WellFormed(server) {
          ServeKeepsStation(y, m, server, path);
        }
      case _ =>
    }
  }

  lemma ServeKeepsStation(y: System, m: nat, server: Server.State, path: Path)
    requires Reaches(y, m, path) && Server.WellFormed(server)
    ensures ServeMove(y, m, server, path).station == y.station && ServeMove(y, m, server, path).begun == y.begun
  {
    hide EndToEnd.ServerTurn, FrameOf, Npdu, Bvlc;
  }

  lemma UnconfirmedHasNoId(f: Fields)
    ensures DecodeNotification(f).Returned? && !DecodeNotification(f).value.0 ==> DecodeNotification(f).value.1 == None
  {
    hide ParseNotification;
  }

  /** Over every run with answering left on, each confirmed notification kept is acknowledged exactly once,
      with its own invoke id, in the order they came (the latest possibly still to be sent); with answering
      left off, none is. */
  lemma {:induction false} EachAcknowledgedOnce(y: System, moves: seq<Move>)
    requires Acknowledged(y.station) && AnsweringFixed(moves)
    ensures Acknowledged(After(y, moves).station) && After(y, moves).station.answering == y.station.answering
    decreases |moves|
  {
    hide Acknowledged, Next;
    if moves != [] {
      NextAcknowledged(y, moves[0]);
      assert AnsweringFixed(moves[1..]);
      EachAcknowledgedOnce(Next(y, moves[0]), moves[1..]);
    }
  }

  /** Over every run from the start with answering left on: of the confirmed notifications taken in, in order, each has
      been sent one SimpleACK with its invoke id, the latest possibly still to be sent; with answering off, none. */
  lemma EveryNotificationAcknowledged(y: System, moves: seq<Move>)
    requires Fresh(y) && AnsweringFixed(moves)
    ensures var z := After(y, moves).station;
            if y.station.answering then z.acks + Pending(z) == ConfirmedIds(NoticesIn(FramesTaken(y, moves)))
            else z.acks == []
  {
    hide After, FramesTaken, NoticesIn, ConfirmedIds;
    FreshAcknowledged(y.station);
    EachAcknowledgedOnce(y, moves);
    EveryNotificationKept(y, moves);
    assert y.station.notifications + NoticesIn(FramesTaken(y, moves)) == NoticesIn(FramesTaken(y, moves));
  }

  lemma FreshAcknowledged(s: State)
    requires s.notifications == [] && s.acks == [] && s.pending.None?
    ensures Acknowledged(s)
  {
  }
}
