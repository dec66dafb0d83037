/** What every frame keeps, and what whole runs of frames and mode changes amount to: the priority
    arrays of section 19.2, resends, and the order of writes. */
module Arbiter {
  import opened Octets
  import opened Tags
  import opened Constructed
  import opened Network
  import opened Requests
  import opened Multiple
  import opened Snapshots
  import opened Server

  // -- the invariant ----------------------------------------------------------------

  predicate IsCommandable(s: State, o: ObjectId) { s.config.commandable.Some? && o in s.config.commandable.value }

  /** The Present_Value served is the one section 19.2 derives from the slots. */
  ghost predicate Agrees(s: State, o: ObjectId)
    requires WellFormed(s) && IsCommandable(s, o)
  {
    s.objects[o][PROPERTY_PRESENT_VALUE] == Effective(s.priorityArrays[o], s.config.relinquishDefaults[o])
  }

  ghost predicate BalancedSlots(slots: seq<Option<Bytes>>) {
    forall i | 0 <= i < |slots| :: slots[i].Some? ==> Balanced(slots[i].value)
  }

  ghost predicate Invariant(s: State) {
    && WellFormed(s)
    && AllBalanced(s.objects)
    && (forall o :: IsCommandable(s, o) ==>
          Agrees(s, o) && BalancedSlots(s.priorityArrays[o]) && Balanced(s.config.relinquishDefaults[o]))
  }

  /** A server made with balanced values starts with the invariant: every slot empty, every Present_Value
      its own Relinquish_Default. */
  lemma InitialInvariant(config: Config, objects: Objects)
    requires |config.objectName| < 253 && AllBalanced(objects)
    requires config.commandable.Some? ==>
               forall o <- config.commandable.value ::
                 && o in objects && PROPERTY_PRESENT_VALUE in objects[o]
                 && o in config.relinquishDefaults
                 && config.relinquishDefaults[o] == objects[o][PROPERTY_PRESENT_VALUE]
    ensures Invariant(Initial(config, objects))
  {
    hide Balanced, Winning;
    var s := Initial(config, objects);
    forall o | IsCommandable(s, o)
      ensures Agrees(s, o) && BalancedSlots(s.priorityArrays[o]) && Balanced(s.config.relinquishDefaults[o])
    {
      WinningIsHighest(s.priorityArrays[o], s.config.relinquishDefaults[o]);
    }
  }

  /** The arguments of a server: commandable objects have a Present_Value. */
  predicate Makes(objectName: Bytes, objects: Objects, commandable: Option<set<ObjectId>>) {
    && |objectName| < 253
    && (commandable.Some? ==> forall o <- commandable.value :: o in objects && PROPERTY_PRESENT_VALUE in objects[o])
  }

  /** A server made of these arguments: it has them for its own, is online without scripted failures, every slot of
      every commandable object is empty, and the Relinquish_Default is the Present_Value given. */
  lemma MadeServer(deviceInstance: Instance, objectName: Bytes, vendorIdentifier: U32, objects: Objects,
                   writable: Option<set<(ObjectId, U32)>>, commandable: Option<set<ObjectId>>, arrayElements: bool)
    requires Makes(objectName, objects, commandable) && AllBalanced(objects)
    ensures var s := Initial(InitialConfig(deviceInstance, objectName, vendorIdentifier, objects, writable, commandable,
                                           arrayElements), objects);
            && Invariant(s) && s.objects == objects && s.script == Script(Online, map[], {})
            && s.config.deviceInstance == deviceInstance && s.config.objectName == objectName
            && s.config.vendorIdentifier == vendorIdentifier && s.config.writable == writable
            && s.config.commandable == commandable && s.config.arrayElements == arrayElements
            && (commandable.Some? ==>
                  forall o <- commandable.value ::
                    && o in s.config.relinquishDefaults
                    && s.config.relinquishDefaults[o] == objects[o][PROPERTY_PRESENT_VALUE]
                    && o in s.priorityArrays && |s.priorityArrays[o]| == 16
                    && forall i | 0 <= i < 16 :: s.priorityArrays[o][i] == None)
            && s.log.readRequests == [] && s.log.writeRequests == [] && s.log.arrayReads == []
            && s.log.requestsWhileOffline == 0 && s.log.silentRequests == 0
  {
    hide Invariant, Balanced;
    InitialInvariant(InitialConfig(deviceInstance, objectName, vendorIdentifier, objects, writable, commandable,
                                   arrayElements), objects);
  }

  /** What section 19.2 says of a value: the slot it comes from and that every slot above is empty. */
  ghost predicate IsHighest(slots: seq<Option<Bytes>>, fallback: Bytes, value: Bytes) {
    || (exists p :: 0 <= p < |slots| && slots[p] == Some(value) && forall q | 0 <= q < p :: slots[q].None?)
    || (value == fallback && forall q | 0 <= q < |slots| :: slots[q].None?)
  }

  lemma {:induction false} WinningIsHighest(slots: seq<Option<Bytes>>, fallback: Bytes)
    ensures IsHighest(slots, fallback, Effective(slots, fallback))
    ensures Winning(slots).Some? ==> Winning(slots) in slots
    ensures forall v :: IsHighest(slots, fallback, v) ==> v == Effective(slots, fallback)
  {
    if slots != [] && slots[0].None? {
      var rest := slots[1..];
      WinningIsHighest(rest, fallback);
      var v := Effective(rest, fallback);
      if exists p :: 0 <= p < |rest| && rest[p] == Some(v) && forall q | 0 <= q < p :: rest[q].None? {
        var p :| 0 <= p < |rest| && rest[p] == Some(v) && forall q | 0 <= q < p :: rest[q].None?;
        assert slots[p + 1] == Some(v);
      }
      forall v | IsHighest(slots, fallback, v)
        ensures IsHighest(rest, fallback, v)
      {
        if exists p :: 0 <= p < |slots| && slots[p] == Some(v) && forall q | 0 <= q < p :: slots[q].None? {
          var p :| 0 <= p < |slots| && slots[p] == Some(v) && forall q | 0 <= q < p :: slots[q].None?;
          assert rest[p - 1] == Some(v);
          assert forall q | 0 <= q < p - 1 :: rest[q] == slots[q + 1];
        }
      }
    } else if slots != [] {
      assert slots[0] == Some(Effective(slots, fallback));
    }
  }

  // -- which frames change objects ----------------------------------------------------

  /** The write a frame carries as far as the server's write logic: not if it is offline or a scripted
      failure answers instead. */
  function Reaching(s: State, f: Fields): Option<Write> {
    var failure := FailureFor(s, f);
    if ConfirmedService(f) != Some(SERVICE_WRITE_PROPERTY) || s.script.mode == Offline || failure.Raised?
       || failure.value in {Some(FailReject), Some(FailAbort), Some(FailSilent)} then None else
    var w := ParseWrite(f.payload);
    if w.Returned? then w.value else None
  }

  /** The two states differ at most in their logs. */
  predicate SameButLogs(s: State, t: State) {
    t == s.(log := t.log)
  }

  /** Only a write that reaches the write logic touches anything but the logs. */
  lemma FrameEffect(s: State, f: Fields)
    requires WellFormed(s)
    ensures var (t, r) := AnswerFrame(s, f);
            match Reaching(s, f)
            case None => SameButLogs(s, t)
            case Some(w) =>
              && IsNull(w.value).Returned? && |f.payload| > 3
              && SameButLogs(Perform(s, f.payload[2], w, IsNull(w.value).value).0, t)
              && r == Perform(s, f.payload[2], w, IsNull(w.value).value).1
  {
    hide ReadTag, ParseWrite, ParseRead, ParseIndexedRead, WhoIs, ReadMultiple, ReadDevice, ReadListed, Perform,
         FailureFor, IsNull, Served;
    FailureNamesService(s, f);
    var w := ParseWrite(f.payload);
    if Reaching(s, f).Some? {
      ParsedNullKnown(f.payload);
      PerformIgnoresLogs(s, LogWrite(s, w.value), f.payload[2], w.value.value, IsNull(w.value.value.value).value);
    } else {
      QuietFrame(s, f);
    }
  }

  lemma FailureNamesService(s: State, f: Fields)
    ensures FailureFor(s, f).Returned? && FailureFor(s, f).value.Some? ==> ConfirmedService(f).Some?
  {
  }

  lemma QuietFrame(s: State, f: Fields)
    requires WellFormed(s) && Reaching(s, f).None?
    ensures SameButLogs(s, AnswerFrame(s, f).0)
  {
    hide ReadTag, ParseWrite, ParseRead, ParseIndexedRead, WhoIs, ReadDevice, FailureFor, IsNull, Served,
         ReadSpecifications, Elements, ElementAnswer, Perform;
  }

  /** Which WriteProperty requests the server keeps: those it can parse, answered or not, unless a scripted
      reject, abort or silence comes first. */
  lemma WritesLogged(s: State, f: Fields)
    requires WellFormed(s) && ConfirmedService(f) == Some(SERVICE_WRITE_PROPERTY) && ParseWrite(f.payload).Returned?
    ensures var w := ParseWrite(f.payload).value;
            var failing := w.Some? && s.script.mode == Online && w.value.target in s.script.failures
                           && s.script.failures[w.value.target] != FailMalformed;
            AnswerFrame(s, f).0.log.writeRequests
            == s.log.writeRequests + if w.Some? && !failing then [w.value] else []
  {
    hide ParseWrite, IsNull, Perform, RejectPdu, AbortPdu;
    FailureNamesService(s, f);
    var w := ParseWrite(f.payload).value;
    assert s.log.writeRequests + [] == s.log.writeRequests;
    if w.Some? {
      ParsedNullKnown(f.payload);
      PerformKeepsLog(LogWrite(s, w), f.payload[2], w.value, IsNull(w.value.value).value);
    }
  }

  lemma PerformKeepsLog(s: State, invokeId: Octet, w: Write, isNull: bool)
    requires WellFormed(s)
    ensures Perform(s, invokeId, w, isNull).0.log == s.log
  {
    hide Served, Effective;
  }

  lemma PerformIgnoresLogs(s: State, t: State, invokeId: Octet, w: Write, isNull: bool)
    requires WellFormed(s) && SameButLogs(s, t)
    ensures WellFormed(t)
    ensures SameButLogs(Perform(s, invokeId, w, isNull).0, Perform(t, invokeId, w, isNull).0)
    ensures Perform(s, invokeId, w, isNull).1 == Perform(t, invokeId, w, isNull).1
  {
    hide Served, Winning;
  }

  /** A value the parser returned has a readable first tag, so asking whether it is NULL never fails. */
  lemma ParsedNullKnown(apdu: Bytes)
    requires ParseWrite(apdu).Returned? && ParseWrite(apdu).value.Some?
    ensures IsNull(ParseWrite(apdu).value.value.value).Returned?
  {
    hide ReadTag, ParseWrite;
    ParsedValueBalanced(apdu);
  }

  // -- every frame keeps the invariant ----------------------------------------------------

  /** The frame commands no priority past 16, the last that clause 15.9 allows. */
  predicate Legal(c: Config, f: Fields) {
    ConfirmedService(f) == Some(SERVICE_WRITE_PROPERTY) ==>
      var w := ParseWrite(f.payload);
      w.Returned? && w.value.Some? && Commands(c, w.value.value) ==> PriorityOf(w.value.value) <= SLOTS
  }

  /** Less: it commands none as far as the write logic sees it. */
  predicate LegalHere(s: State, f: Fields) {
    var w := Reaching(s, f);
    w.Some? && Commanded(s, w.value) ==> PriorityOf(w.value) <= SLOTS
  }

  lemma LegalAnywhere(s: State, f: Fields)
    requires Legal(s.config, f)
    ensures LegalHere(s, f)
  {
    hide ParseWrite, FailureFor;
  }

  /** Whatever the frame, garbled or refused or raising on the way, unless it commands a priority past 16:
      Present_Values agree with the slots and everything stored is balanced. */
  lemma FrameKeepsInvariant(s: State, f: Fields)
    requires Invariant(s) && LegalHere(s, f)
    ensures Invariant(AnswerFrame(s, f).0)
  {
    hide Invariant, AnswerFrame, Perform, ParseWrite, Balanced, IsNull;
    InvariantWellFormed(s);
    FrameEffect(s, f);
    var w := Reaching(s, f);
    var t := AnswerFrame(s, f).0;
    if w.Some? {
      ParsedValueBalanced(f.payload);
      var u := Perform(s, f.payload[2], w.value, IsNull(w.value.value).value).0;
      PerformKeepsInvariant(s, f.payload[2], w.value, IsNull(w.value.value).value);
      LogsKeepInvariant(u, t);
    } else {
      LogsKeepInvariant(s, t);
    }
  }

  lemma InvariantWellFormed(s: State)
    requires Invariant(s)
    ensures WellFormed(s)
  {
  }

  lemma LogsKeepInvariant(s: State, t: State)
    requires Invariant(s) && SameButLogs(s, t)
    ensures Invariant(t)
  {
    hide Balanced, AllBalanced, Effective, BalancedSlots;
    assert forall o :: IsCommandable(t, o) == IsCommandable(s, o);
    assert forall o :: IsCommandable(s, o) ==> Agrees(s, o);
  }

  lemma PerformKeepsInvariant(s: State, invokeId: Octet, w: Write, isNull: bool)
    requires Invariant(s) && Balanced(w.value) && (Commanded(s, w) ==> PriorityOf(w) <= SLOTS)
    ensures Invariant(Perform(s, invokeId, w, isNull).0)
  {
    hide Balanced, Winning, Command, Invariant;
    InvariantWellFormed(s);
    if s.script.mode != Refusing && Allowed(s, w) {
      if Commanded(s, w) {
        CommandKeepsInvariant(s, w, isNull);
      } else {
        StoreKeepsInvariant(s, w.target, w.property, w.value);
      }
    }
  }

  lemma CommandRaises(s: State, w: Write, isNull: bool)
    requires WellFormed(s) && Commanded(s, w)
    ensures Command(s, w, isNull).1.Raised? <==> PriorityOf(w) > SLOTS
  {
  }

  lemma StoreKeepsInvariant(s: State, o: ObjectId, property: U32, value: Bytes)
    requires Invariant(s) && o in s.objects && Balanced(value)
    requires !(IsCommandable(s, o) && property == PROPERTY_PRESENT_VALUE)
    ensures Invariant(SetProperty(s, o, property, value))
  {
    hide Balanced, Effective, BalancedSlots;
    var t := SetProperty(s, o, property, value);
    assert forall x :: IsCommandable(t, x) == IsCommandable(s, x);
    assert forall x :: IsCommandable(s, x) ==> Agrees(s, x);
  }

  lemma CommandKeepsInvariant(s: State, w: Write, isNull: bool)
    requires Invariant(s) && Commanded(s, w) && Balanced(w.value) && PriorityOf(w) <= SLOTS
    ensures Invariant(Command(s, w, isNull).0)
  {
    hide Balanced, Winning;
    var o := w.target;
    assert IsCommandable(s, o);
    assert Agrees(s, o);
    var slots := s.priorityArrays[o][PriorityOf(w) - 1 := if isNull then None else Some(w.value)];
    WinningIsHighest(slots, s.config.relinquishDefaults[o]);
    var t := Command(s, w, isNull).0;
    assert t.objects[o][PROPERTY_PRESENT_VALUE] == Effective(slots, s.config.relinquishDefaults[o]);
    assert Balanced(Effective(slots, s.config.relinquishDefaults[o]));
    assert forall x :: IsCommandable(t, x) == IsCommandable(s, x);
    assert forall x :: IsCommandable(s, x) ==> Agrees(s, x);
  }

  /** The Present_Value served is the one the slots give, in a state that may be any. */
  ghost predicate InStep(s: State, o: ObjectId) { WellFormed(s) && IsCommandable(s, o) && Agrees(s, o) }

  lemma LogsKeepAgreement(s: State, t: State, o: ObjectId)
    requires SameButLogs(s, t)
    ensures InStep(s, o) <==> InStep(t, o)
  {
    hide Effective;
    WellFormedButLogs(s, t);
  }

  lemma WellFormedButLogs(s: State, t: State)
    requires SameButLogs(s, t)
    ensures WellFormed(s) <==> WellFormed(t)
  {
  }

  /** An accepted write of another value to a commandable Present_Value, past priority 16. */
  predicate Breaks(s: State, w: Write, o: ObjectId) {
    && Commanded(s, w) && w.target == o && s.script.mode != Refusing && Allowed(s, w) && PriorityOf(w) > SLOTS
    && Served(s.objects, o, PROPERTY_PRESENT_VALUE) != Some(w.value)
  }

  lemma PastLastSlot(s: State, invokeId: Octet, w: Write, isNull: bool)
    requires WellFormed(s) && Commanded(s, w) && PriorityOf(w) > SLOTS
    ensures Perform(s, invokeId, w, isNull).0
            == if s.script.mode == Refusing || !Allowed(s, w) then s
               else SetProperty(s, w.target, PROPERTY_PRESENT_VALUE, w.value)
  {
    hide Served;
  }

  lemma BrokenAgreement(s: State, invokeId: Octet, w: Write, isNull: bool, o: ObjectId)
    requires Invariant(s) && WellFormed(s) && Commanded(s, w) && PriorityOf(w) > SLOTS && IsCommandable(s, o)
    ensures InStep(Perform(s, invokeId, w, isNull).0, o) <==> !Breaks(s, w, o)
  {
    hide Balanced, Effective, AllBalanced, BalancedSlots, Perform;
    PastLastSlot(s, invokeId, w, isNull);
    assert Agrees(s, o);
    assert IsCommandable(s, w.target);
  }

  /** Storing comes before choosing the slot, so an accepted write past priority 16 breaks the agreement and
      stops the serving thread. Exactly: after any frame, a commandable object's Present_Value is still the
      one its slots give if and only if the frame is no such write to it of another value. */
  lemma FrameAgreement(s: State, f: Fields, o: ObjectId)
    requires Invariant(s) && WellFormed(s) && IsCommandable(s, o)
    ensures InStep(AnswerFrame(s, f).0, o) <==> !(Reaching(s, f).Some? && Breaks(s, Reaching(s, f).value, o))
  {
    hide Invariant, AnswerFrame, Perform, Balanced, IsNull, Reaching, InStep, Allowed, PriorityOf;
    FrameEffect(s, f);
    if LegalHere(s, f) {
      FrameKeepsInvariant(s, f);
      AgreesInvariant(s, f, o);
    } else {
      var w := Reaching(s, f).value;
      var isNull := IsNull(w.value).value;
      BrokenAgreement(s, f.payload[2], w, isNull, o);
      LogsKeepAgreement(Perform(s, f.payload[2], w, isNull).0, AnswerFrame(s, f).0, o);
    }
  }

  lemma AgreesInvariant(s: State, f: Fields, o: ObjectId)
    requires WellFormed(s) && IsCommandable(s, o) && Invariant(AnswerFrame(s, f).0)
    ensures InStep(AnswerFrame(s, f).0, o)
  {
    hide AnswerFrame, Balanced, Effective, AllBalanced, BalancedSlots;
    FrameConfig(s, f);
    assert IsCommandable(AnswerFrame(s, f).0, o);
  }

  lemma FrameConfig(s: State, f: Fields)
    requires WellFormed(s)
    ensures AnswerFrame(s, f).0.config == s.config && AnswerFrame(s, f).0.script == s.script
  {
    hide AnswerFrame, ParseWrite, IsNull;
    FrameEffect(s, f);
    if Reaching(s, f).Some? {
      var w := Reaching(s, f).value;
      PerformConfig(s, f.payload[2], w, IsNull(w.value).value);
    }
  }

  lemma PerformConfig(s: State, invokeId: Octet, w: Write, isNull: bool)
    requires WellFormed(s)
    ensures var t := Perform(s, invokeId, w, isNull).0; t.config == s.config && t.script == s.script
  {
    hide Winning, Served;
  }
}
