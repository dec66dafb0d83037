/** Calls over the lossy network of `Protocol`, with resends: whatever is lost, repeated or overtaken, each answer
    the client takes is the one the plain objects give at some delivery of its request. */
module LossyCalls {
  import opened Octets
  import opened Network
  import opened Requests
  import opened Server
  import opened Arbiter
  import opened Runs
  import Direct
  import opened EndToEnd
  import opened Protocol

  /** The move delivers a request. */
  predicate Serves(y: System, move: Move) { move.Deliver? && y.alive && Sendable(y, move.request) }

  /** The same move on plain objects: a delivered call is made directly, and no network is left. */
  function DirectNext(y: System, p: Direct.Plain, move: Move): (q: Direct.Plain)
    requires |p.config.objectName| < 253
    ensures q.config == p.config
  {
    match move
    case Deliver(m) => if Serves(y, move) then Direct.Perform(p, y.calls[m - 1]).0 else p
    case Script(script) => p.(script := script)
    case _ => p
  }

  ghost function DirectAfter(y: System, p: Direct.Plain, moves: seq<Move>): (q: Direct.Plain)
    requires |p.config.objectName| < 253
    ensures q.config == p.config
    decreases |moves|
  {
    if moves == [] || !Sane(y) then p else DirectAfter(Next(y, moves[0]), DirectNext(y, p, moves[0]), moves[1..])
  }

  /** A delivered call is one a caller may make of the plain objects as they are, and its datagrams fit the receive
      buffers. */
  predicate MoveOk(y: System, p: Direct.Plain, move: Move)
    requires |p.config.objectName| < 253
  {
    Serves(y, move) ==> CallOk(p, y.calls[move.request - 1]) && Fits(p, y.path, y.calls[move.request - 1])
  }

  ghost predicate RunOk(y: System, p: Direct.Plain, moves: seq<Move>)
    requires |p.config.objectName| < 253
    decreases |moves|
  {
    moves == []
    || (Sane(y) && MoveOk(y, p, moves[0]) && RunOk(Next(y, moves[0]), DirectNext(y, p, moves[0]), moves[1..]))
  }

  /** What the client makes of the datagram is what the plain objects reply to the call. */
  ghost predicate TrueAnswer(calls: seq<Direct.Call>, a: Sent) {
    var p := Abs(a.before);
    && 1 <= a.request <= |calls| && |p.config.objectName| < 253
    && ClientTurn(IdOf(a.request), calls[a.request - 1], a.datagram)
       == Returned(Direct.Perform(p, calls[a.request - 1]).1)
  }

  ghost predicate AllTrue(y: System) {
    && (forall a <- y.answers :: TrueAnswer(y.calls, a))
    && (forall n <- y.results :: y.results[n] in y.answers)
  }

  lemma TrueStays(calls: seq<Direct.Call>, c: Direct.Call, a: Sent)
    requires TrueAnswer(calls, a)
    ensures TrueAnswer(calls + [c], a)
  {
    hide Abs, ClientTurn, Direct.Perform;
  }

  /** One delivery: it is answered, if at all, with what the plain objects reply, and has its effect on them. */
  lemma DeliveryTrue(y: System, m: nat)
    requires Sane(y) && Invariant(y.server) && AllTrue(y) && y.alive && Sendable(y, m)
    requires CallOk(Abs(y.server), y.calls[m - 1]) && Fits(Abs(y.server), y.path, y.calls[m - 1])
    ensures var z := DeliverMove(y, m);
            && Sane(z) && z.alive && Invariant(z.server) && AllTrue(z)
            && Abs(z.server) == Direct.Perform(Abs(y.server), y.calls[m - 1]).0
  {
    hide Invariant, ServerTurn, Abs, ClientTurn, Direct.Perform, CallOk, Fits, EncodeCall, Npdu, Bvlc, WellFormed;
    NameFits(y.server);
    CallRefines(y.server, IdOf(m), y.path, y.calls[m - 1]);
  }

  lemma MoveTrue(y: System, move: Move)
    requires Sane(y) && Invariant(y.server) && AllTrue(y) && y.alive
    requires MoveOk(y, Abs(y.server), move)
    ensures var z := Next(y, move);
            && Sane(z) && z.alive && Invariant(z.server) && AllTrue(z)
            && Abs(z.server) == DirectNext(y, Abs(y.server), move)
  {
    hide Invariant, DeliverMove, Abs, Direct.Perform, CallOk, Fits, Looked, WellFormed, TrueAnswer, Sendable;
    match move {
      case Begin(c) =>
        forall a | TrueAnswer(y.calls, a)
          ensures TrueAnswer(y.calls + [c], a)
        {
          TrueStays(y.calls, c, a);
        }
      case Deliver(m) =>
        if Serves(y, move) {
          SendableStarted(y, m);
          DeliveryTrue(y, m);
        }
      case Script(script) =>
        ScriptWellFormed(y.server, script);
        ScriptKeepsInvariant(y.server, script);
        AbsOfScript(y.server, script);
      case _ =>
    }
  }

  lemma SendableStarted(y: System, m: nat)
    requires Sendable(y, m)
    ensures 1 <= m <= Started(y)
  {
  }

  lemma {:induction false} RunTrue(y: System, moves: seq<Move>)
    requires Sane(y) && Invariant(y.server) && AllTrue(y) && y.alive
    requires RunOk(y, Abs(y.server), moves)
    ensures var z := After(y, moves);
            && Sane(z) && z.alive && Invariant(z.server) && AllTrue(z)
            && Abs(z.server) == DirectAfter(y, Abs(y.server), moves)
    decreases |moves|
  {
    hide Invariant, Next, Abs, AllTrue, MoveOk, Sane, DirectNext;
    if moves != [] {
      MoveTrue(y, moves[0]);
      RunTrue(Next(y, moves[0]), moves[1..]);
    }
  }

  /** The answer was sent at move `k`, which delivered its request to the server as recorded. */
  ghost predicate SentAt(y: System, moves: seq<Move>, a: Sent, k: nat) {
    k < |moves| && moves[k] == Deliver(a.request) && After(y, moves[..k]).server == a.before
  }

  lemma {:induction false} Moment(y: System, moves: seq<Move>, a: Sent) returns (k: nat)
    requires Safe(y) && a in After(y, moves).answers && a !in y.answers
    ensures SentAt(y, moves, a, k)
    decreases |moves|
  {
    hide Safe, Next, Sane;
    SafeIsSane(y);
    var z := Next(y, moves[0]);
    if a in z.answers {
      NewAnswer(y, moves[0], a);
      k := 0;
      assert moves[..0] == [];
    } else {
      NextSafe(y, moves[0]);
      var later := Moment(z, moves[1..], a);
      k := later + 1;
      assert moves[..k][1..] == moves[1..][..later];
    }
  }

  lemma NewAnswer(y: System, move: Move, a: Sent)
    requires Sane(y) && a in Next(y, move).answers && a !in y.answers
    ensures move == Deliver(a.request) && a.before == y.server
  {
    hide ServerTurn, DatagramOf, Looked, WellFormed, Sendable;
  }

  lemma {:induction false} PrefixOk(y: System, p: Direct.Plain, moves: seq<Move>, k: nat)
    requires |p.config.objectName| < 253 && RunOk(y, p, moves) && k <= |moves|
    ensures RunOk(y, p, moves[..k])
    decreases k
  {
    hide Next, MoveOk, Sane, DirectNext;
    if k > 0 {
      PrefixOk(Next(y, moves[0]), DirectNext(y, p, moves[0]), moves[1..], k - 1);
      assert moves[..k][1..] == moves[1..][..k - 1];
    }
  }

  /** At move `k` the plain objects reply to call `m` what the client makes of the datagram. */
  ghost predicate RepliedAt(y: System, moves: seq<Move>, k: nat, m: nat, datagram: Bytes)
    requires Sane(y)
  {
    var calls := After(y, moves).calls;
    && k < |moves| && moves[k] == Deliver(m) && 1 <= m <= |calls|
    && ClientTurn(IdOf(m), calls[m - 1], datagram)
       == Returned(Direct.Perform(DirectAfter(y, Abs(y.server), moves[..k]), calls[m - 1]).1)
  }

  /** Over every run of calls a caller may make and whose datagrams fit, whatever the network loses, delays,
      duplicates and reorders and however often a call is resent: the serving thread lives, and the server's
      objects are the plain objects after the delivered calls. */
  lemma LossyRunRefines(y: System, moves: seq<Move>)
    requires Fresh(y) && Sane(y) && Invariant(y.server)
    requires RunOk(y, Abs(y.server), moves)
    ensures var z := After(y, moves);
            z.alive && Invariant(z.server) && Abs(z.server) == DirectAfter(y, Abs(y.server), moves)
  {
    hide Invariant, Abs, RunOk, DirectAfter, After, Sane;
    RunTrue(y, moves);
  }

  /** And what call `n` returns is what the plain objects reply, at a moment the call was delivered, to call `n`
      itself, or to one at least 256 calls older. */
  lemma LossyAnswersRefine(y: System, moves: seq<Move>, n: nat)
    requires Fresh(y) && Sane(y) && Invariant(y.server) && n in After(y, moves).results
    requires RunOk(y, Abs(y.server), moves)
    ensures var a := After(y, moves).results[n];
            && (exists k :: RepliedAt(y, moves, k, a.request, a.datagram))
            && a.request % 256 == n % 256 && (a.request == n || a.request + 256 <= n)
  {
    hide Invariant, Abs, RunOk, DirectAfter, After, Sane, ClientTurn, Direct.Perform, Safe;
    InvokeIdSafety(y, moves, n);
    FreshSafe(y);
    RunTrue(y, moves);
    var a := After(y, moves).results[n];
    var k := Moment(y, moves, a);
    SaneServer(y);
    NameFits(y.server);
    PrefixOk(y, Abs(y.server), moves, k);
    RunTrue(y, moves[..k]);
    assert RepliedAt(y, moves, k, a.request, a.datagram);
  }
}
