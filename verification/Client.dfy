/** `Endpoint` and `Client`: frames kept, invoke ids numbered, requests resent until one answer matches, and
    devices looked for. */
module Client {
  import opened Octets
  import opened Network
  import opened Requests
  import opened Discovery
  import opened EndToEnd

  /** What a frame is tested for; the test may raise. */
  type Wanted = Fields -> Outcome<bool>

  /** Only decoded frames are tested. */
  function Tested(f: Fields, wanted: Wanted): Outcome<bool> { if f.ok then wanted(f) else Returned(false) }

  /** The test `request` makes. */
  function AnswerFor(invokeId: Octet): Wanted { f => Matching(f, invokeId) }

  /** The test `who_is` makes. */
  function Announcing(instance: Instance): Wanted { f => Announces(f, instance) }

  function Announces(f: Fields, instance: Instance): Outcome<bool> {
    var announced :- DeviceInstance(f.payload);
    Returned(announced == Some(instance))
  }

  /** Which frames `who_is` takes: of those that announce an object, exactly the decoded ones that announce the Device
      with that instance; and none that is no I-Am. */
  lemma WhoIsTakes(f: Fields, o: ObjectId, rest: Bytes, instance: Instance)
    requires rest != []
    ensures f.payload == [0x10, 0x00] + ApplicationObjectId(o) + rest ==>
              Tested(f, Announcing(instance)) == Returned(f.ok && o.objectType == 8 && o.instance == instance)
    ensures |f.payload| < 7 || f.payload[0] / 16 != 1 || f.payload[1] != 0 ==>
              Tested(f, Announcing(instance)) == Returned(false)
  {
    hide DeviceInstance, ApplicationObjectId;
    AnnouncedInstance(o, rest);
    if |f.payload| < 7 || f.payload[0] / 16 != 1 || f.payload[1] != 0 {
      NothingAnnounced(f.payload);
    }
  }

  /** Which frames `request` takes: the decoded APDUs of types 2, 3, 5, 6 and 7 with its invoke id in the second octet;
      one of these types with a single octet raises. */
  lemma RequestTakes(f: Fields, invokeId: Octet)
    ensures var apdu := f.payload;
            var response := f.ok && f.networkMessage.None? && apdu != [] && apdu[0] / 16 in {2, 3, 5, 6, 7};
            Tested(f, AnswerFor(invokeId))
            == if response && |apdu| == 1 then Raised(IndexError)
               else Returned(response && apdu[1] == invokeId)
  {
  }

  /** The first match among frames already kept. */
  function FirstKept(frames: seq<Fields>, wanted: Wanted): Outcome<Option<Fields>> {
    if frames == [] then Returned(None) else
    var m :- Tested(frames[0], wanted);
    if m then Returned(Some(frames[0])) else FirstKept(frames[1..], wanted)
  }

  /** The first match among datagrams as they arrive, and how many were taken in. */
  function FirstArriving(arrivals: seq<Bytes>, wanted: Wanted): Outcome<(Option<Fields>, nat)> {
    if arrivals == [] then Returned((None, 0)) else
    var f :- FrameOf(Received(arrivals[0]));
    var m :- Tested(f, wanted);
    if m then Returned((Some(f), 1)) else
    var (r, n) :- FirstArriving(arrivals[1..], wanted);
    Returned((r, n + 1))
  }

  /** The `n`-th datagram is the first match: it decodes to `f`, which matches, and none before it does. */
  predicate IsFirst(arrivals: seq<Bytes>, wanted: Wanted, f: Fields, n: nat) {
    && 1 <= n <= |arrivals| && FrameOf(Received(arrivals[n - 1])) == Returned(f) && Tested(f, wanted) == Returned(true)
    && forall i | 0 <= i < n - 1 :: Unmatched(arrivals[i], wanted)
  }

  predicate Unmatched(datagram: Bytes, wanted: Wanted) {
    var f := FrameOf(Received(datagram));
    f.Returned? && Tested(f.value, wanted) == Returned(false)
  }

  lemma {:induction false} AllTaken(arrivals: seq<Bytes>, wanted: Wanted)
    ensures forall n: nat :: FirstArriving(arrivals, wanted) == Returned((None, n)) ==> n == |arrivals|
  {
    hide FrameOf, Tested;
    if arrivals != [] {
      AllTaken(arrivals[1..], wanted);
    }
  }

  lemma {:induction false} FirstIsFirst(arrivals: seq<Bytes>, wanted: Wanted)
    ensures forall f, n: nat ::
              FirstArriving(arrivals, wanted) == Returned((Some(f), n)) <==> IsFirst(arrivals, wanted, f, n)
    ensures OutcomeOf(FirstArriving(arrivals, wanted)) == Returned(None)
            <==> forall i | 0 <= i < |arrivals| :: Unmatched(arrivals[i], wanted)
  {
    hide FrameOf, Tested;
    if arrivals != [] {
      var rest := arrivals[1..];
      FirstIsFirst(rest, wanted);
      assert forall i | 0 < i < |arrivals| :: arrivals[i] == rest[i - 1];
      if Unmatched(arrivals[0], wanted) {
        forall f, n: nat
          ensures IsFirst(arrivals, wanted, f, n + 1) <==> IsFirst(rest, wanted, f, n)
        {
          LaterFirst(arrivals, wanted, f, n);
        }
        forall f, n: nat | FirstArriving(arrivals, wanted) == Returned((Some(f), n)) || IsFirst(arrivals, wanted, f, n)
          ensures FirstArriving(arrivals, wanted) == Returned((Some(f), n)) <==> IsFirst(arrivals, wanted, f, n)
        {
          assert n >= 1;
          LaterFirst(arrivals, wanted, f, n - 1);
        }
      }
    }
  }

  lemma LaterFirst(arrivals: seq<Bytes>, wanted: Wanted, f: Fields, n: nat)
    requires arrivals != [] && Unmatched(arrivals[0], wanted)
    ensures IsFirst(arrivals, wanted, f, n + 1) <==> IsFirst(arrivals[1..], wanted, f, n)
  {
    hide FrameOf, Tested;
    var rest := arrivals[1..];
    assert forall i | 0 < i < |arrivals| :: arrivals[i] == rest[i - 1];
    if IsFirst(rest, wanted, f, n) {
      forall i | 0 <= i < n
        ensures Unmatched(arrivals[i], wanted)
      {
        assert i == 0 || Unmatched(rest[i - 1], wanted);
      }
    } else if IsFirst(arrivals, wanted, f, n + 1) {
      assert n > 0;
      forall i | 0 <= i < n - 1
        ensures Unmatched(rest[i], wanted)
      {
        assert Unmatched(arrivals[i + 1], wanted);
      }
    }
  }

  function Flatten(attempts: seq<seq<Bytes>>): seq<Bytes> {
    if attempts == [] then [] else attempts[0] + Flatten(attempts[1..])
  }

  class Client {
    const retries: nat
    var invokeId: Octet
    var frames: seq<Fields>

    constructor (retries: nat)
      ensures this.retries == retries && invokeId == 0 && frames == []
    {
      this.retries := retries;
      invokeId := 0;
      frames := [];
    }

    method NextInvokeId() returns (id: Octet)
      modifies this`invokeId
      ensures id == invokeId == (old(invokeId) + 1) % 256
    {
      invokeId := (invokeId + 1) % 256;
      id := invokeId;
    }

    /** `Endpoint.wait_for`; `arrivals` are the datagrams that come in before the
        deadline. The first match is returned, whether it was kept before or arrives. */
    method WaitFor(wanted: Wanted, arrivals: seq<Bytes>) returns (r: Outcome<Option<Fields>>)
      modifies this`frames
      ensures match FirstKept(old(frames), wanted)
              case Raised(e) => r == Raised(e)
              case Returned(Some(f)) => r == Returned(Some(f))
              case Returned(None) =>
                match FirstArriving(arrivals, wanted)
                case Raised(e) => r == Raised(e)
                case Returned((m, n)) => r == Returned(m)
      ensures r == Returned(None) ==> FirstKept(frames, wanted) == Returned(None)
    {
      hide FrameOf, Tested;
      var seen: nat := 0;
      ghost var kept := frames;
      var next: nat := 0;
      assert frames[0..] == frames;
      while true
        invariant seen <= |frames| && next <= |arrivals|
        invariant FirstKept(frames[..seen], wanted) == Returned(None)
        invariant next == 0 ==> frames == kept && FirstKept(kept, wanted) == FirstKept(kept[seen..], wanted)
        invariant next == 0 ==> seen == 0
        invariant next > 0 ==> seen + 1 == |frames| && FirstKept(kept, wanted) == Returned(None)
                               && Pending(frames[seen], arrivals, next, wanted)
        decreases |arrivals| - next
      {
        while seen < |frames|
          invariant seen <= |frames|
          invariant FirstKept(frames[..seen], wanted) == Returned(None)
          invariant next == 0 ==> frames == kept && FirstKept(kept, wanted) == FirstKept(kept[seen..], wanted)
          invariant next > 0 ==> FirstKept(kept, wanted) == Returned(None)
          invariant next > 0 && seen < |frames| ==>
                      seen + 1 == |frames| && Pending(frames[seen], arrivals, next, wanted)
          invariant next > 0 && seen == |frames| ==> Passed(arrivals, next, wanted)
        {
          var m := Tested(frames[seen], wanted);
          assert next == 0 ==> kept[seen..][0] == frames[seen] && kept[seen..][1..] == kept[seen + 1..];
          if m.Raised? {
            return Raised(m.error);
          }
          if m.value {
            return Returned(Some(frames[seen]));
          }
          KeptOneMore(frames[..seen], frames[seen], wanted);
          assert frames[..seen] + [frames[seen]] == frames[..seen + 1];
          seen := seen + 1;
        }
        assert frames[..seen] == frames;
        if next == |arrivals| {
          assert arrivals[0..] == arrivals;
          return Returned(None);
        }
        if next == 0 {
          assert arrivals[0..] == arrivals;
        }
        var f := FrameOf(Received(arrivals[next]));
        assert arrivals[next..][0] == arrivals[next] && arrivals[next..][1..] == arrivals[next + 1..];
        if f.Raised? {
          return Raised(f.error);
        }
        assert (frames + [f.value])[..seen] == frames[..seen];
        frames := frames + [f.value];
        next := next + 1;
      }
    }

    /** `request` and `send_with_retries`: up to 1 + retries sends of the same octets, the arrivals of each
        attempt in turn. The answer is the first match of everything that arrives, whichever resend it
        comes in on, and no resend follows it. */
    method Request(attempts: seq<seq<Bytes>>) returns (id: Octet, answer: Outcome<Option<Fields>>, sends: nat)
      requires |attempts| == 1 + retries
      modifies this
      ensures id == invokeId == (old(invokeId) + 1) % 256
      ensures 1 <= sends <= 1 + retries
      ensures match FirstArriving(Flatten(attempts), AnswerFor(id))
              case Raised(e) => answer == Raised(e)
              case Returned((m, _)) => answer == Returned(m)
      ensures sends > 1 ==> OutcomeOf(FirstArriving(Flatten(attempts[..sends - 1]), AnswerFor(id))) == Returned(None)
      ensures answer == Returned(None) ==> sends == 1 + retries
    {
      hide FirstArriving;
      id := NextInvokeId();
      frames := [];
      var frame: Option<Fields> := None;
      sends := 0;
      assert attempts[0..] == attempts && attempts[..0] == [];
      FirstOfNothing(AnswerFor(id));
      while sends < 1 + retries
        invariant sends <= 1 + retries
        invariant invokeId == id
        invariant FirstKept(frames, AnswerFor(id)) == Returned(None)
        invariant OutcomeOf(FirstArriving(Flatten(attempts), AnswerFor(id)))
                  == OutcomeOf(FirstArriving(Flatten(attempts[sends..]), AnswerFor(id)))
        invariant OutcomeOf(FirstArriving(Flatten(attempts[..sends]), AnswerFor(id))) == Returned(None)
        invariant sends > 0 ==>
                    OutcomeOf(FirstArriving(Flatten(attempts[..sends - 1]), AnswerFor(id))) == Returned(None)
      {
        FlattenSplit(attempts, sends);
        FirstOfConcat(attempts[sends], Flatten(attempts[sends + 1..]), AnswerFor(id));
        FirstOfConcat(Flatten(attempts[..sends]), attempts[sends], AnswerFor(id));
        var r := WaitFor(AnswerFor(id), attempts[sends]);
        sends := sends + 1;
        if r.Raised? {
          return id, Raised(r.error), sends;
        }
        if r.value.Some? {
          return id, r, sends;
        }
      }
      assert Flatten(attempts[sends..]) == [];
      answer := Returned(None);
    }

    /** `who_is`: sent up to `|attempts|` times, what was kept dropped before each; the arrivals of each attempt in
        turn. What is found is the first I-Am of the instance in everything that arrives. */
    method WhoIs(instance: Instance, attempts: seq<seq<Bytes>>) returns (found: Outcome<Option<Fields>>, sends: nat)
      modifies this`frames
      ensures sends <= |attempts|
      ensures match FirstArriving(Flatten(attempts), Announcing(instance))
              case Raised(e) => found == Raised(e)
              case Returned((m, _)) => found == Returned(m)
      ensures sends > 0 ==>
                OutcomeOf(FirstArriving(Flatten(attempts[..sends - 1]), Announcing(instance))) == Returned(None)
      ensures found == Returned(None) ==> sends == |attempts|
    {
      hide FirstArriving;
      var wanted := Announcing(instance);
      sends := 0;
      assert attempts[0..] == attempts && attempts[..0] == [];
      FirstOfNothing(wanted);
      while sends < |attempts|
        invariant sends <= |attempts|
        invariant OutcomeOf(FirstArriving(Flatten(attempts), wanted))
                  == OutcomeOf(FirstArriving(Flatten(attempts[sends..]), wanted))
        invariant OutcomeOf(FirstArriving(Flatten(attempts[..sends]), wanted)) == Returned(None)
        invariant sends > 0 ==> OutcomeOf(FirstArriving(Flatten(attempts[..sends - 1]), wanted)) == Returned(None)
      {
        FlattenSplit(attempts, sends);
        FirstOfConcat(attempts[sends], Flatten(attempts[sends + 1..]), wanted);
        FirstOfConcat(Flatten(attempts[..sends]), attempts[sends], wanted);
        frames := [];
        var r := WaitFor(wanted, attempts[sends]);
        sends := sends + 1;
        if r.Raised? || r.value.Some? {
          return r, sends;
        }
      }
      assert Flatten(attempts[sends..]) == [];
      found := Returned(None);
    }
  }

  /** The frame of the first match, without the count. */
  function OutcomeOf(r: Outcome<(Option<Fields>, nat)>): Outcome<Option<Fields>> {
    match r
    case Raised(e) => Raised(e)
    case Returned((f, _)) => Returned(f)
  }

  /** `f` is the latest datagram taken in and none before it matched. */
  predicate Pending(f: Fields, arrivals: seq<Bytes>, next: nat, wanted: Wanted)
    requires 0 < next <= |arrivals|
  {
    FrameOf(Received(arrivals[next - 1])) == Returned(f)
    && OutcomeOf(FirstArriving(arrivals, wanted)) == OutcomeOf(FirstArriving(arrivals[next - 1..], wanted))
  }

  predicate Passed(arrivals: seq<Bytes>, next: nat, wanted: Wanted)
    requires next <= |arrivals|
  {
    OutcomeOf(FirstArriving(arrivals, wanted)) == OutcomeOf(FirstArriving(arrivals[next..], wanted))
  }

  lemma {:induction false} KeptOneMore(frames: seq<Fields>, f: Fields, wanted: Wanted)
    requires FirstKept(frames, wanted) == Returned(None) && Tested(f, wanted) == Returned(false)
    ensures FirstKept(frames + [f], wanted) == Returned(None)
  {
    if frames != [] {
      KeptOneMore(frames[1..], f, wanted);
      assert (frames + [f])[1..] == frames[1..] + [f];
    }
  }

  lemma FirstOfNothing(wanted: Wanted)
    ensures OutcomeOf(FirstArriving([], wanted)) == Returned(None)
  {
  }

  lemma {:induction false} FirstOfConcat(a: seq<Bytes>, b: seq<Bytes>, wanted: Wanted)
    ensures OutcomeOf(FirstArriving(a + b, wanted))
            == if OutcomeOf(FirstArriving(a, wanted)) == Returned(None) then OutcomeOf(FirstArriving(b, wanted))
               else OutcomeOf(FirstArriving(a, wanted))
  {
    hide FrameOf, Tested;
    if a == [] {
      assert a + b == b;
    } else {
      FirstOfConcat(a[1..], b, wanted);
      assert (a + b)[1..] == a[1..] + b;
    }
  }

  lemma FlattenSplit(attempts: seq<seq<Bytes>>, k: nat)
    requires k < |attempts|
    ensures Flatten(attempts[k..]) == attempts[k] + Flatten(attempts[k + 1..])
    ensures Flatten(attempts[..k + 1]) == Flatten(attempts[..k]) + attempts[k]
  {
    assert attempts[k..][1..] == attempts[k + 1..];
    FlattenLast(attempts[..k], attempts[k]);
    assert attempts[..k] + [attempts[k]] == attempts[..k + 1];
  }

  lemma {:induction false} FlattenLast(a: seq<seq<Bytes>>, x: seq<Bytes>)
    ensures Flatten(a + [x]) == Flatten(a) + x
  {
    if a == [] {
      assert (a + [x])[1..] == [];
    } else {
      FlattenLast(a[1..], x);
      assert (a + [x])[1..] == a[1..] + [x];
    }
  }
}
