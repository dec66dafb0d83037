/** Whole runs of the server: any frames in any order, with modes and scripted failures changed between
    them. */
module Runs {
  import opened Octets
  import opened Tags
  import opened Constructed
  import opened Network
  import opened Requests
  import opened Multiple
  import opened Snapshots
  import opened Server
  import opened Arbiter
  import Direct

  datatype Event = Arrives(frame: Fields) | Reconfigure(script: Script)

  /** A run: an answer that raises ends the serving thread, and with it the run. */
  function Run(s: State, events: seq<Event>): (t: State)
    requires WellFormed(s)
    ensures WellFormed(t)
    decreases |events|
  {
    if events == [] then s else
    match events[0]
    case Reconfigure(script) => Run(s.(script := script), events[1..])
    case Arrives(f) =>
      var (t, r) := AnswerFrame(s, f);
      if r.Raised? then t else Run(t, events[1..])
  }

  /** No frame commands a priority past 16. */
  predicate AllLegal(c: Config, events: seq<Event>) {
    forall i | 0 <= i < |events| :: events[i].Arrives? ==> Legal(c, events[i].frame)
  }

  lemma {:induction false} RunKeepsInvariant(s: State, events: seq<Event>)
    requires Invariant(s) && WellFormed(s) && AllLegal(s.config, events)
    ensures Invariant(Run(s, events)) && Run(s, events).config == s.config
    decreases |events|
  {
    hide AnswerFrame, Invariant, Legal, LegalHere;
    if events != [] {
      match events[0] {
        case Arrives(f) =>
          LegalAnywhere(s, f);
          FrameKeepsInvariant(s, f);
          FrameConfig(s, f);
          var (t, r) := AnswerFrame(s, f);
          if r.Returned? {
            RunKeepsInvariant(t, events[1..]);
          }
        case Reconfigure(script) =>
          ScriptKeepsInvariant(s, script);
          RunKeepsInvariant(s.(script := script), events[1..]);
      }
    }
  }

  lemma ScriptKeepsInvariant(s: State, script: Script)
    requires Invariant(s)
    ensures Invariant(s.(script := script))
  {
    hide Balanced, AllBalanced, Effective, BalancedSlots;
    assert forall o :: IsCommandable(s, o) ==> Agrees(s, o);
    assert forall o :: IsCommandable(s.(script := script), o) == IsCommandable(s, o);
  }

  lemma ScriptWellFormed(s: State, script: Script)
    requires WellFormed(s)
    ensures WellFormed(s.(script := script))
  {
  }

  /** Slot `p`, counted from 1; empty if there is no such slot. */
  function SlotAt(s: State, o: ObjectId, p: nat): Option<Bytes> {
    if o in s.priorityArrays && 1 <= p <= |s.priorityArrays[o]| then s.priorityArrays[o][p - 1] else None
  }

  // -- slots follow the accepted writes -----------------------------------------------------

  /** A commanded write the server acknowledged; no value if it was a NULL. */
  datatype Accepted = Accepted(target: ObjectId, priority: nat, value: Option<Bytes>)

  /** What an outside observer sees: a WriteProperty of a commandable Present_Value, answered SimpleACK. */
  function AcceptedBy(s: State, f: Fields): seq<Accepted>
    requires WellFormed(s)
  {
    if ConfirmedService(f) != Some(SERVICE_WRITE_PROPERTY)
       || AnswerFrame(s, f).1 != Returned(Some(SimpleAck(f.payload[2], SERVICE_WRITE_PROPERTY))) then [] else
    var w := ParseWrite(f.payload);
    if w.Raised? || w.value.None? || !Commanded(s, w.value.value) then [] else
    [Accepted(w.value.value.target, PriorityOf(w.value.value),
              if Direct.Relinquishes(w.value.value.value) then None else Some(w.value.value.value))]
  }

  function History(s: State, events: seq<Event>): seq<Accepted>
    requires WellFormed(s)
    decreases |events|
  {
    if events == [] then [] else
    match events[0]
    case Reconfigure(script) => History(s.(script := script), events[1..])
    case Arrives(f) =>
      var (t, r) := AnswerFrame(s, f);
      if r.Raised? then AcceptedBy(s, f) else AcceptedBy(s, f) + History(t, events[1..])
  }

  /** The value of the latest accepted write at `priority`, or `initial` if there was none. */
  function Latest(history: seq<Accepted>, o: ObjectId, priority: nat, initial: Option<Bytes>): Option<Bytes> {
    if history == [] then initial
    else
      var last := history[|history| - 1];
      if last.target == o && last.priority == priority then last.value
      else Latest(history[..|history| - 1], o, priority, initial)
  }

  lemma {:induction false} LatestOfConcat(a: seq<Accepted>, b: seq<Accepted>, o: ObjectId, p: nat,
                                          initial: Option<Bytes>)
    ensures Latest(a + b, o, p, initial) == Latest(b, o, p, Latest(a, o, p, initial))
    decreases |b|
  {
    if b == [] {
      assert a + b == a;
    } else {
      var n := |b| - 1;
      assert (a + b)[..|a + b| - 1] == a + b[..n];
      LatestOfConcat(a, b[..n], o, p, initial);
    }
  }

  /** A frame changes slot `p` of object `o` exactly when it is accepted as a write there. */
  lemma SlotStep(s: State, f: Fields, o: ObjectId, p: nat)
    requires WellFormed(s) && IsCommandable(s, o) && 1 <= p <= SLOTS
    ensures SlotAt(AnswerFrame(s, f).0, o, p) == Latest(AcceptedBy(s, f), o, p, SlotAt(s, o, p))
  {
    hide AnswerFrame, ParseWrite, IsNull, Perform, SimpleAck, Latest;
    FrameEffect(s, f);
    FrameConfig(s, f);
    var initial := SlotAt(s, o, p);
    if Reaching(s, f).Some? {
      var w := Reaching(s, f).value;
      var isNull := IsNull(w.value).value;
      Direct.NullOctets(w.value);
      PerformSlots(s, f.payload[2], w, isNull, o, p);
      LatestOne(Accepted(w.target, PriorityOf(w), if isNull then None else Some(w.value)), o, p, initial);
    } else {
      UnreachedNotAccepted(s, f);
    }
    LatestNone(o, p, initial);
  }

  lemma LatestOne(a: Accepted, o: ObjectId, p: nat, initial: Option<Bytes>)
    ensures Latest([a], o, p, initial) == if a.target == o && a.priority == p then a.value else initial
  {
    LatestNone(o, p, initial);
    assert [a][..0] == [];
  }

  lemma LatestNone(o: ObjectId, p: nat, initial: Option<Bytes>)
    ensures Latest([], o, p, initial) == initial
  {
  }

  lemma UnreachedNotAccepted(s: State, f: Fields)
    requires WellFormed(s) && Reaching(s, f).None?
    ensures AcceptedBy(s, f) == []
  {
    hide ReadTag, ParseWrite, ParseRead, ParseIndexedRead, WhoIs, ReadDevice, FailureFor, IsNull, Served,
         ReadSpecifications, Elements, ElementAnswer, Perform;
    FailureNamesService(s, f);
  }

  lemma PerformSlots(s: State, invokeId: Octet, w: Write, isNull: bool, o: ObjectId, p: nat)
    requires WellFormed(s) && IsCommandable(s, o) && 1 <= p <= SLOTS
    ensures var (t, r) := Perform(s, invokeId, w, isNull);
            var here := r == Returned(Some(SimpleAck(invokeId, SERVICE_WRITE_PROPERTY))) && Commanded(s, w)
                        && w.target == o && PriorityOf(w) == p;
            SlotAt(t, o, p) == if here then (if isNull then None else Some(w.value)) else SlotAt(s, o, p)
  {
    hide Winning, Served;
  }

  /** Section 19.2 over every run: slot `p` of a commandable object holds the value of the latest accepted
      write at priority `p`, or what it held at the start if there was none. */
  lemma {:induction false} SlotsFollowHistory(s: State, events: seq<Event>, o: ObjectId, p: nat)
    requires WellFormed(s) && IsCommandable(s, o) && 1 <= p <= SLOTS
    ensures SlotAt(Run(s, events), o, p) == Latest(History(s, events), o, p, SlotAt(s, o, p))
    decreases |events|
  {
    hide AnswerFrame, AcceptedBy, Latest, WellFormed;
    var initial := SlotAt(s, o, p);
    if events == [] {
      LatestNone(o, p, initial);
    } else {
      match events[0] {
        case Arrives(f) =>
          SlotStep(s, f, o, p);
          FrameConfig(s, f);
          var (t, r) := AnswerFrame(s, f);
          if r.Returned? {
            SlotsFollowHistory(t, events[1..], o, p);
            LatestOfConcat(AcceptedBy(s, f), History(t, events[1..]), o, p, initial);
          }
        case Reconfigure(script) =>
          ScriptWellFormed(s, script);
          SlotsFollowHistory(s.(script := script), events[1..], o, p);
      }
    }
  }

  /** From the start, an object no write was accepted for has every slot empty. */
  lemma SlotsFromStart(config: Config, objects: Objects, events: seq<Event>, o: ObjectId, p: nat)
    requires var s := Initial(config, objects); WellFormed(s) && IsCommandable(s, o) && 1 <= p <= SLOTS
    ensures var s := Initial(config, objects); SlotAt(Run(s, events), o, p) == Latest(History(s, events), o, p, None)
  {
    hide Run, History, Latest, WellFormed;
    SlotsFollowHistory(Initial(config, objects), events, o, p);
  }

  /** Over every run of frames that command no priority past 16, the Present_Value is the value of the
      lowest-numbered slot not empty, or the Relinquish_Default captured when the server was made. */
  lemma PresentValueFollowsSlots(s: State, events: seq<Event>, o: ObjectId)
    requires Invariant(s) && WellFormed(s) && AllLegal(s.config, events) && IsCommandable(s, o)
    ensures var t := Run(s, events);
            && IsCommandable(t, o)
            && IsHighest(t.priorityArrays[o], s.config.relinquishDefaults[o], t.objects[o][PROPERTY_PRESENT_VALUE])
  {
    hide Run, AllLegal, Winning, IsHighest, Effective, Balanced, BalancedSlots, AllBalanced;
    RunKeepsInvariant(s, events);
    var t := Run(s, events);
    assert IsCommandable(t, o);
    assert Agrees(t, o);
    WinningIsHighest(t.priorityArrays[o], s.config.relinquishDefaults[o]);
  }

  /** A server made of these arguments, after any run of frames that command no priority past 16: with all its slots
      empty a commandable object serves the Present_Value it was given. */
  lemma UnwrittenServesDefault(deviceInstance: Instance, objectName: Bytes, vendorIdentifier: U32, objects: Objects,
                               writable: Option<set<(ObjectId, U32)>>, commandable: Option<set<ObjectId>>,
                               arrayElements: bool, events: seq<Event>, o: ObjectId)
    requires Makes(objectName, objects, commandable) && AllBalanced(objects)
    requires commandable.Some? && o in commandable.value
    requires var s := Initial(InitialConfig(deviceInstance, objectName, vendorIdentifier, objects, writable,
                                            commandable, arrayElements), objects);
             WellFormed(s) && AllLegal(s.config, events)
             && forall p | 1 <= p <= 16 :: SlotAt(Run(s, events), o, p) == None
    ensures var t := Run(Initial(InitialConfig(deviceInstance, objectName, vendorIdentifier, objects, writable,
                                               commandable, arrayElements), objects), events);
            && o in t.objects && PROPERTY_PRESENT_VALUE in t.objects[o]
            && t.objects[o][PROPERTY_PRESENT_VALUE] == objects[o][PROPERTY_PRESENT_VALUE]
  {
    hide Run, AllLegal, Invariant, InitialConfig, Initial, WellFormed, AllBalanced;
    var s := Initial(InitialConfig(deviceInstance, objectName, vendorIdentifier, objects, writable, commandable,
                                   arrayElements), objects);
    MadeServer(deviceInstance, objectName, vendorIdentifier, objects, writable, commandable, arrayElements);
    PresentValueFollowsSlots(s, events, o);
    RunKeepsInvariant(s, events);
    var t := Run(s, events);
    SlotsAreSixteen(t, o);
    forall q | 0 <= q < |t.priorityArrays[o]|
      ensures t.priorityArrays[o][q].None?
    {
      assert SlotAt(t, o, q + 1) == t.priorityArrays[o][q];
    }
  }

  lemma SlotsAreSixteen(t: State, o: ObjectId)
    requires WellFormed(t) && IsCommandable(t, o)
    ensures o in t.priorityArrays && |t.priorityArrays[o]| == 16
    ensures o in t.objects && PROPERTY_PRESENT_VALUE in t.objects[o]
  {
  }

  // -- resends ---------------------------------------------------------------------------

  /** The server after `copies` of the same frame: none is served once an answer has raised. */
  function Deliver(s: State, f: Fields, copies: nat): (t: State)
    requires WellFormed(s)
    ensures WellFormed(t)
    decreases copies
  {
    if copies == 0 then s else
    var (t, r) := AnswerFrame(s, f);
    if r.Raised? then t else Deliver(t, f, copies - 1)
  }

  lemma ReachingAgain(s: State, t: State, f: Fields)
    requires t.script == s.script
    ensures Reaching(t, f) == Reaching(s, f)
  {
    hide ParseWrite, ParseRead;
  }

  lemma PerformAgain(s: State, invokeId: Octet, w: Write, isNull: bool)
    requires WellFormed(s)
    ensures var (t, r) := Perform(s, invokeId, w, isNull); Perform(t, invokeId, w, isNull) == (t, r)
  {
    hide Winning, Effective, Command, PriorityOf;
    var (t, r) := Perform(s, invokeId, w, isNull);
    if Commanded(s, w) {
      CommandAgain(s, w, isNull);
      PerformConfig(s, invokeId, w, isNull);
      assert Perform(t, invokeId, w, isNull) == (t, r);
    } else if w.target in s.objects && Allowed(s, w) {
      StoreAgain(s, w.target, w.property, w.value);
      assert Perform(t, invokeId, w, isNull) == (t, r);
    } else {
      assert Perform(t, invokeId, w, isNull) == (t, r);
    }
  }

  lemma StoreAgain(s: State, o: ObjectId, property: U32, value: Bytes)
    requires o in s.objects
    ensures var t := SetProperty(s, o, property, value); o in t.objects && SetProperty(t, o, property, value) == t
  {
    var t := SetProperty(s, o, property, value);
    var u := SetProperty(t, o, property, value);
    assert u.objects[o] == t.objects[o];
    assert u.objects == t.objects;
  }

  lemma CommandAgain(s: State, w: Write, isNull: bool)
    requires WellFormed(s) && Commanded(s, w)
    ensures var (t, r) := Command(s, w, isNull);
            Commanded(t, w) && Command(t, w, isNull) == (t, r) && (Allowed(s, w) <==> Allowed(t, w))
  {
    hide Effective;
    var t := Command(s, w, isNull).0;
    var u := Command(t, w, isNull).0;
    assert u.priorityArrays == t.priorityArrays by {
      if PriorityOf(w) <= SLOTS {
        assert u.priorityArrays[w.target] == t.priorityArrays[w.target];
      }
    }
    assert u.objects[w.target] == t.objects[w.target];
    assert u.objects == t.objects;
  }

  /** A second delivery of the same frame changes nothing but the logs. */
  lemma ResendChangesNothing(s: State, f: Fields)
    requires WellFormed(s)
    ensures SameButLogs(AnswerFrame(s, f).0, AnswerFrame(AnswerFrame(s, f).0, f).0)
    ensures Reaching(s, f).Some? ==> AnswerFrame(AnswerFrame(s, f).0, f).1 == AnswerFrame(s, f).1
  {
    hide AnswerFrame, Perform, ParseWrite, IsNull, Reaching;
    FrameEffect(s, f);
    FrameConfig(s, f);
    var t := AnswerFrame(s, f).0;
    ReachingAgain(s, t, f);
    FrameEffect(t, f);
    if Reaching(s, f).Some? {
      var w := Reaching(s, f).value;
      var isNull := IsNull(w.value).value;
      var u := Perform(s, f.payload[2], w, isNull).0;
      PerformAgain(s, f.payload[2], w, isNull);
      PerformIgnoresLogs(u, t, f.payload[2], w, isNull);
    }
  }

  /** At least once is as good as once: any number of copies of a request beyond the first leaves
      objects and priority arrays as the first left them. */
  lemma {:induction false} AtLeastOnce(s: State, f: Fields, copies: nat)
    requires WellFormed(s) && copies > 0
    ensures SameButLogs(AnswerFrame(s, f).0, Deliver(s, f, copies))
    decreases copies
  {
    hide AnswerFrame;
    var (t, r) := AnswerFrame(s, f);
    if copies > 1 && r.Returned? {
      ResendChangesNothing(s, f);
      AtLeastOnce(t, f, copies - 1);
    }
  }

  // -- writes commute -----------------------------------------------------------------------

  lemma CommandsCommute(s: State, v: Write, vNull: bool, w: Write, wNull: bool)
    requires WellFormed(s) && Commanded(s, v) && Commanded(s, w)
    requires PriorityOf(v) <= SLOTS && PriorityOf(w) <= SLOTS
    requires v.target != w.target || PriorityOf(v) != PriorityOf(w)
    ensures Commanded(Command(s, v, vNull).0, w) && Commanded(Command(s, w, wNull).0, v)
    ensures Command(Command(s, v, vNull).0, w, wNull).0 == Command(Command(s, w, wNull).0, v, vNull).0
  {
    hide Effective, PriorityOf, Command;
    if v.target == w.target {
      SameTargetCommute(s, v, vNull, w, wNull);
    } else {
      OtherTargetsCommute(s, v, vNull, w, wNull);
    }
  }

  /** The state after slots of one object are replaced. */
  function WithSlots(s: State, o: ObjectId, slots: seq<Option<Bytes>>): State
    requires o in s.objects && o in s.config.relinquishDefaults
  {
    SetProperty(s.(priorityArrays := s.priorityArrays[o := slots]), o, PROPERTY_PRESENT_VALUE,
                Effective(slots, s.config.relinquishDefaults[o]))
  }

  function SlotsAfter(slots: seq<Option<Bytes>>, w: Write, isNull: bool): (r: seq<Option<Bytes>>)
    requires PriorityOf(w) <= |slots|
    ensures |r| == |slots|
  {
    slots[PriorityOf(w) - 1 := if isNull then None else Some(w.value)]
  }

  lemma CommandSlots(s: State, w: Write, isNull: bool)
    requires WellFormed(s) && Commanded(s, w) && PriorityOf(w) <= SLOTS
    ensures Command(s, w, isNull).0 == WithSlots(s, w.target, SlotsAfter(s.priorityArrays[w.target], w, isNull))
  {
    hide Effective;
  }

  lemma SlotsTwice(s: State, o: ObjectId, a: seq<Option<Bytes>>, b: seq<Option<Bytes>>)
    requires o in s.objects && o in s.config.relinquishDefaults
    ensures var t := WithSlots(s, o, a);
            && o in t.objects && t.config == s.config && t.priorityArrays[o] == a
            && WithSlots(t, o, b) == WithSlots(s, o, b)
  {
    hide Effective;
    var t, u := WithSlots(s, o, a), WithSlots(s, o, b);
    assert WithSlots(t, o, b).objects[o] == u.objects[o];
    assert WithSlots(t, o, b).objects == u.objects;
    assert WithSlots(t, o, b).priorityArrays == u.priorityArrays;
  }

  lemma SameTargetCommute(s: State, v: Write, vNull: bool, w: Write, wNull: bool)
    requires WellFormed(s) && Commanded(s, v) && Commanded(s, w) && v.target == w.target
    requires PriorityOf(v) <= SLOTS && PriorityOf(w) <= SLOTS && PriorityOf(v) != PriorityOf(w)
    ensures Commanded(Command(s, v, vNull).0, w) && Commanded(Command(s, w, wNull).0, v)
    ensures Command(Command(s, v, vNull).0, w, wNull).0 == Command(Command(s, w, wNull).0, v, vNull).0
  {
    hide Command, WithSlots;
    var o, slots := v.target, s.priorityArrays[v.target];
    var first, second := SlotsAfter(slots, v, vNull), SlotsAfter(slots, w, wNull);
    CommandSlots(s, v, vNull);
    CommandSlots(s, w, wNull);
    SlotsTwice(s, o, first, SlotsAfter(first, w, wNull));
    SlotsTwice(s, o, second, SlotsAfter(second, v, vNull));
    CommandSlots(Command(s, v, vNull).0, w, wNull);
    CommandSlots(Command(s, w, wNull).0, v, vNull);
    assert SlotsAfter(first, w, wNull) == SlotsAfter(second, v, vNull);
  }

  lemma OtherTargetsCommute(s: State, v: Write, vNull: bool, w: Write, wNull: bool)
    requires WellFormed(s) && Commanded(s, v) && Commanded(s, w) && v.target != w.target
    requires PriorityOf(v) <= SLOTS && PriorityOf(w) <= SLOTS
    ensures Commanded(Command(s, v, vNull).0, w) && Commanded(Command(s, w, wNull).0, v)
    ensures Command(Command(s, v, vNull).0, w, wNull).0 == Command(Command(s, w, wNull).0, v, vNull).0
  {
    hide Effective, PriorityOf;
    var a := Command(Command(s, v, vNull).0, w, wNull).0;
    var b := Command(Command(s, w, wNull).0, v, vNull).0;
    assert a.priorityArrays == b.priorityArrays;
    assert a.objects == b.objects;
  }

  lemma PerformCommand(s: State, invokeId: Octet, w: Write, isNull: bool)
    requires WellFormed(s) && Commanded(s, w) && PriorityOf(w) <= SLOTS
    ensures Perform(s, invokeId, w, isNull).0
            == if s.script.mode == Refusing || !Allowed(s, w) then s else Command(s, w, isNull).0
  {
    hide Command, Served;
  }

  lemma AllowedStays(s: State, v: Write, vNull: bool, w: Write)
    requires WellFormed(s) && Commanded(s, v) && Commanded(s, w) && PriorityOf(v) <= SLOTS
    ensures Allowed(Command(s, v, vNull).0, w) == Allowed(s, w)
  {
    hide Winning;
  }

  /** Section 19.2: commanded writes at different priorities, or of different objects, have the same
      effect in either order, whatever the mode and whether or not they are allowed. */
  lemma WritesCommute(s: State, f: Fields, g: Fields)
    requires WellFormed(s) && Reaching(s, f).Some? && Reaching(s, g).Some?
    requires var v, w := Reaching(s, f).value, Reaching(s, g).value;
             && Commanded(s, v) && Commanded(s, w) && PriorityOf(v) <= SLOTS && PriorityOf(w) <= SLOTS
             && (v.target != w.target || PriorityOf(v) != PriorityOf(w))
    ensures SameButLogs(AnswerFrame(AnswerFrame(s, f).0, g).0, AnswerFrame(AnswerFrame(s, g).0, f).0)
  {
    hide AnswerFrame, Perform, ParseWrite, IsNull, Reaching, Command, Allowed, PriorityOf;
    var v, w := Reaching(s, f).value, Reaching(s, g).value;
    FrameEffect(s, f);
    FrameEffect(s, g);
    var vNull, wNull := IsNull(v.value).value, IsNull(w.value).value;
    var i, j := f.payload[2], g.payload[2];
    var sf, sg := AnswerFrame(s, f).0, AnswerFrame(s, g).0;
    FrameConfig(s, f);
    FrameConfig(s, g);
    ReachingAgain(s, sf, g);
    ReachingAgain(s, sg, f);
    FrameEffect(sf, g);
    FrameEffect(sg, f);
    PerformIgnoresLogs(Perform(s, i, v, vNull).0, sf, j, w, wNull);
    PerformIgnoresLogs(Perform(s, j, w, wNull).0, sg, i, v, vNull);
    PerformsCommute(s, i, v, vNull, j, w, wNull);
  }

  lemma PerformsCommute(s: State, i: Octet, v: Write, vNull: bool, j: Octet, w: Write, wNull: bool)
    requires WellFormed(s) && Commanded(s, v) && Commanded(s, w)
    requires PriorityOf(v) <= SLOTS && PriorityOf(w) <= SLOTS
    requires v.target != w.target || PriorityOf(v) != PriorityOf(w)
    ensures Perform(Perform(s, i, v, vNull).0, j, w, wNull).0 == Perform(Perform(s, j, w, wNull).0, i, v, vNull).0
  {
    hide Perform, Command, Allowed, PriorityOf;
    PerformCommand(s, i, v, vNull);
    PerformCommand(s, j, w, wNull);
    CommandsCommute(s, v, vNull, w, wNull);
    AllowedStays(s, v, vNull, w);
    AllowedStays(s, w, wNull, v);
    PerformConfig(s, i, v, vNull);
    PerformConfig(s, j, w, wNull);
    PerformCommand(Perform(s, i, v, vNull).0, j, w, wNull);
    PerformCommand(Perform(s, j, w, wNull).0, i, v, vNull);
  }
}
