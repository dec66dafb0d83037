/** The ReadPropertyMultiple round trip: from the client's specifications, through the server's parser
    and its ACK, to the map the client returns. */
module Snapshots {
  import opened Octets
  import opened Tags
  import opened Constructed
  import opened Requests
  import opened Multiple

  // -- the request, as the server reads it -------------------------------------------

  function FoldMembers(m: Members, specs: seq<Specification>): Members
    decreases |specs|
  {
    if specs == [] then m else FoldMembers(Update(m, specs[0].0, Properties(specs[0].1)), specs[1..])
  }

  lemma {:induction false} UpdateAgain(m: Members, o: ObjectId, first: seq<nat>, second: seq<nat>)
    ensures Update(Update(m, o, first), o, second) == Update(m, o, second)
    ensures Lookup(Update(m, o, first), o) == first
  {
    if m != [] && m[0].0 != o {
      UpdateAgain(m[1..], o, first, second);
      var u := Update(m, o, first);
      assert u[0] == m[0] && u[1..] == Update(m[1..], o, first);
    } else if m != [] {
      var u := Update(m, o, first);
      assert u[1..] == m[1..];
    }
  }

  lemma {:induction false} ReadReferences(refs: seq<Reference>, a: Bytes, at: nat, m: Members, o: ObjectId,
                                          ps: seq<nat>)
    requires Occurs(EncodeReferences(refs), a, at)
    ensures ReadSpecifications(a, at, Update(m, o, ps), Some(o))
            == ReadSpecifications(a, at + |EncodeReferences(refs)|, Update(m, o, ps + Properties(refs)), Some(o))
    decreases |refs|
  {
    hide ReadTag, Occurs, ContextUnsigned, FromBytes, UnpackObjectId, Update, Lookup, EncodeReference;
    if refs == [] {
      assert ps + Properties(refs) == ps;
    } else {
      var r := refs[0];
      OccursSplit(EncodeReference(r), EncodeReferences(refs[1..]), a, at);
      ReadReference(r, a, at, m, o, ps);
      ReadReferences(refs[1..], a, at + |EncodeReference(r)|, m, o, ps + [r.property as nat]);
      assert ps + [r.property as nat] + Properties(refs[1..]) == ps + Properties(refs);
    }
  }

  lemma ReadReference(r: Reference, a: Bytes, at: nat, m: Members, o: ObjectId, ps: seq<nat>)
    requires Occurs(EncodeReference(r), a, at)
    ensures ReadSpecifications(a, at, Update(m, o, ps), Some(o))
            == ReadSpecifications(a, at + |EncodeReference(r)|, Update(m, o, ps + [r.property as nat]), Some(o))
  {
    hide ReadTag, Occurs, ContextUnsigned, FromBytes, UnpackObjectId, Update, Lookup;
    OccursSplit(ContextUnsigned(0, r.property), OptionalUnsigned(1, r.index), a, at);
    ReadContextUnsigned(0, r.property, a, at);
    UpdateAgain(m, o, ps, ps + [r.property as nat]);
    var p := at + |ContextUnsigned(0, r.property)|;
    assert ReadSpecifications(a, at, Update(m, o, ps), Some(o))
        == ReadSpecifications(a, p, Update(m, o, ps + [r.property as nat]), Some(o));
    if r.index.Some? {
      ReadContextUnsigned(1, r.index.value, a, p);
    }
  }

  lemma {:induction false} ReadSpecificationsOf(specs: seq<Specification>, a: Bytes, at: nat, m: Members)
    requires Occurs(EncodeSpecifications(specs), a, at) && |a| == at + |EncodeSpecifications(specs)|
    ensures ReadSpecifications(a, at, m, None) == Returned(FoldMembers(m, specs))
    decreases |specs|
  {
    hide ReadTag, Occurs, EncodeSpecification, Update, Properties;
    if specs != [] {
      OccursSplit(EncodeSpecification(specs[0]), EncodeSpecifications(specs[1..]), a, at);
      ReadSpecification(specs[0], a, at, m);
      ReadSpecificationsOf(specs[1..], a, at + |EncodeSpecification(specs[0])|,
                           Update(m, specs[0].0, Properties(specs[0].1)));
    }
  }

  lemma ReadSpecification(s: Specification, a: Bytes, at: nat, m: Members)
    requires Occurs(EncodeSpecification(s), a, at)
    ensures ReadSpecifications(a, at, m, None)
            == ReadSpecifications(a, at + |EncodeSpecification(s)|, Update(m, s.0, Properties(s.1)), None)
  {
    hide ReadTag, Occurs, ContextObjectId, Enclosed, EncodeReferences, Update, Lookup, UnpackObjectId, FromBytes,
         Properties, ObjectIdBytes;
    var (o, refs) := s;
    var inner := EncodeReferences(refs);
    OccursSplit(ContextObjectId(0, o), Enclosed(1, inner), a, at);
    ReadContextObjectId(0, o, a, at);
    var p := at + |ContextObjectId(0, o)|;
    ReadEnclosed(1, inner, a, p);
    EnclosedLength(1, inner);
    UpdateAgain(m, o, [], []);
    assert ReadSpecifications(a, at, m, None) == ReadSpecifications(a, p, Update(m, o, []), Some(o));
    assert ReadSpecifications(a, p, Update(m, o, []), Some(o))
        == ReadSpecifications(a, p + 1, Update(m, o, []), Some(o));
    ReadReferences(refs, a, p + 1, m, o, []);
    assert [] + Properties(refs) == Properties(refs);
  }

  // -- the ACK, as the client reads it --------------------------------------------------

  function EntryResult(e: Entry): Result {
    match e.1
    case Some(v) => Octets(v)
    case None => Failed([ERROR_CLASS_PROPERTY, ERROR_CODE_UNKNOWN_PROPERTY])
  }

  predicate BalancedEntry(e: Entry) { e.1.Some? ==> Balanced(e.1.value) }

  predicate BalancedResults(results: seq<ObjectResult>) {
    forall r <- results :: forall e <- r.1 :: BalancedEntry(e)
  }

  function StoreEntry(c: Cursor, e: Entry): Cursor
    requires c.current.Some?
  {
    Store(c.(property := Some(e.0), index := None), EntryResult(e))
  }

  function StoreEntries(c: Cursor, entries: seq<Entry>): (d: Cursor)
    requires c.current.Some?
    ensures d.current == c.current
    decreases |entries|
  {
    if entries == [] then c else StoreEntries(StoreEntry(c, entries[0]), entries[1..])
  }

  function StoreObject(c: Cursor, r: ObjectResult): Cursor {
    StoreEntries(c.(results := SetDefault(c.results, r.0), current := Some(r.0)), r.1)
  }

  function StoreResults(c: Cursor, results: seq<ObjectResult>): Cursor
    decreases |results|
  {
    if results == [] then c else StoreResults(StoreObject(c, results[0]), results[1..])
  }

  lemma ParseEntry(e: Entry, a: Bytes, at: nat, c: Cursor)
    requires Occurs(EncodeEntry(e), a, at) && c.current.Some? && BalancedEntry(e)
    ensures ParseResults(a, at, c) == ParseResults(a, at + |EncodeEntry(e)|, StoreEntry(c, e))
  {
    hide ReadTag, Occurs, ContextUnsigned, Enclosed, UnknownProperty, FromBytes, BodyOf, Balanced, ApplicationValues,
         Store, UnpackObjectId;
    var number: TagNumber := if e.1.Some? then 4 else 5;
    var inner := if e.1.Some? then e.1.value else UnknownProperty();
    OccursSplit(ContextUnsigned(2, e.0), Enclosed(number, inner), a, at);
    ReadContextUnsigned(2, e.0, a, at);
    var p := at + |ContextUnsigned(2, e.0)|;
    var d := c.(property := Some(e.0), index := None);
    assert ParseResults(a, at, c) == ParseResults(a, p, d);
    UnknownPropertyResult();
    ReadEnclosed(number, inner, a, p);
    EnclosedLength(number, inner);
    BodyOfBalanced(inner, a, p + 1);
  }

  lemma UnknownPropertyResult()
    ensures ResultOf(5, UnknownProperty()) == Returned(Failed([ERROR_CLASS_PROPERTY, ERROR_CODE_UNKNOWN_PROPERTY]))
    ensures Balanced(UnknownProperty())
  {
    hide ApplicationValues, FromBytes, ReadTag, Walk, UnsignedOctets, Primitive;
    TwoEnumerated(ERROR_CLASS_PROPERTY, ERROR_CODE_UNKNOWN_PROPERTY);
    BalancedPrimitive(9, false, UnsignedOctets(ERROR_CLASS_PROPERTY));
    BalancedPrimitive(9, false, UnsignedOctets(ERROR_CODE_UNKNOWN_PROPERTY));
    BalancedConcat(ApplicationEnumerated(ERROR_CLASS_PROPERTY), ApplicationEnumerated(ERROR_CODE_UNKNOWN_PROPERTY));
  }

  lemma {:induction false} ParseEntries(entries: seq<Entry>, a: Bytes, at: nat, c: Cursor)
    requires Occurs(EncodeEntries(entries), a, at) && c.current.Some? && forall e <- entries :: BalancedEntry(e)
    ensures ParseResults(a, at, c) == ParseResults(a, at + |EncodeEntries(entries)|, StoreEntries(c, entries))
    decreases |entries|
  {
    hide ReadTag, Occurs, EncodeEntry, BalancedEntry, StoreEntry, ParseResults;
    if entries != [] {
      OccursSplit(EncodeEntry(entries[0]), EncodeEntries(entries[1..]), a, at);
      ParseEntry(entries[0], a, at, c);
      CurrentStays(c, entries[0]);
      ParseEntries(entries[1..], a, at + |EncodeEntry(entries[0])|, StoreEntry(c, entries[0]));
    }
  }

  lemma CurrentStays(c: Cursor, e: Entry)
    requires c.current.Some?
    ensures StoreEntry(c, e).current == c.current
  {
  }

  lemma ParseObject(r: ObjectResult, a: Bytes, at: nat, c: Cursor)
    requires Occurs(EncodeObjectResult(r), a, at) && forall e <- r.1 :: BalancedEntry(e)
    ensures ParseResults(a, at, c) == ParseResults(a, at + |EncodeObjectResult(r)|, StoreObject(c, r))
  {
    hide ReadTag, Occurs, ContextObjectId, Enclosed, EncodeEntries, StoreEntries, SetDefault, UnpackObjectId,
         BodyOf, ObjectIdBytes, BalancedEntry;
    var inner := EncodeEntries(r.1);
    OccursSplit(ContextObjectId(0, r.0), Enclosed(1, inner), a, at);
    ReadContextObjectId(0, r.0, a, at);
    var p := at + |ContextObjectId(0, r.0)|;
    var d := c.(results := SetDefault(c.results, r.0), current := Some(r.0));
    assert ParseResults(a, at, c) == ParseResults(a, p, d);
    ReadEnclosed(1, inner, a, p);
    EnclosedLength(1, inner);
    assert ParseResults(a, p, d) == ParseResults(a, p + 1, d);
    ParseEntries(r.1, a, p + 1, d);
  }

  lemma {:induction false} ParseResultsOf(results: seq<ObjectResult>, a: Bytes, at: nat, c: Cursor)
    requires Occurs(EncodeResults(results), a, at) && |a| == at + |EncodeResults(results)|
    requires BalancedResults(results)
    ensures ParseResults(a, at, c) == Returned(StoreResults(c, results).results)
    decreases |results|
  {
    hide ReadTag, Occurs, EncodeObjectResult, StoreObject, BalancedEntry;
    if results != [] {
      OccursSplit(EncodeObjectResult(results[0]), EncodeResults(results[1..]), a, at);
      ParseObject(results[0], a, at, c);
      ParseResultsOf(results[1..], a, at + |EncodeObjectResult(results[0])|, StoreObject(c, results[0]));
    }
  }

  // -- both together ----------------------------------------------------------------------

  /** Property identifiers that context_unsigned can encode. */
  predicate Encodable(ps: seq<nat>) { forall i | 0 <= i < |ps| :: ps[i] < 0x1_0000_0000 }

  predicate InRange(m: Members) { forall i | 0 <= i < |m| :: Encodable(m[i].1) }

  function ServeEntries(objects: Objects, o: ObjectId, properties: seq<nat>): seq<Entry>
    requires Encodable(properties)
  {
    if properties == [] then []
    else [(properties[0] as U32, Served(objects, o, properties[0]))] + ServeEntries(objects, o, properties[1..])
  }

  function Serve(objects: Objects, m: Members): seq<ObjectResult>
    requires InRange(m)
  {
    if m == [] then []
    else [(m[0].0, ServeEntries(objects, m[0].0, m[0].1))] + Serve(objects, m[1..])
  }

  function Collect(objects: Objects, m: Members, done: Results): Results {
    if m == [] then done else Collect(objects, m[1..], done[m[0].0 := Answers(objects, m[0].0, m[0].1, map[])])
  }

  predicate HasKey(m: Members, o: ObjectId) { m != [] && (m[0].0 == o || HasKey(m[1..], o)) }

  predicate DistinctKeys(m: Members) {
    m == [] || (!HasKey(m[1..], m[0].0) && DistinctKeys(m[1..]))
  }

  lemma {:induction false} CollectOutside(objects: Objects, m: Members, done: Results, o: ObjectId, x: map<Key, Result>)
    requires !HasKey(m, o)
    ensures Collect(objects, m, done[o := x]) == Collect(objects, m, done)[o := x]
  {
    hide Answers;
    if m != [] {
      var y := Answers(objects, m[0].0, m[0].1, map[]);
      assert done[o := x][m[0].0 := y] == done[m[0].0 := y][o := x];
      CollectOutside(objects, m[1..], done[m[0].0 := y], o, x);
    }
  }

  lemma {:induction false} UpdateKeys(m: Members, o: ObjectId, ps: seq<nat>)
    requires DistinctKeys(m)
    ensures DistinctKeys(Update(m, o, ps))
    ensures forall k :: HasKey(Update(m, o, ps), k) ==> k == o || HasKey(m, k)
  {
    if m != [] {
      var u := Update(m, o, ps);
      if m[0].0 == o {
        assert u[1..] == m[1..];
      } else {
        UpdateKeys(m[1..], o, ps);
        assert u[1..] == Update(m[1..], o, ps);
      }
    }
  }

  lemma {:induction false} CollectUpdate(objects: Objects, m: Members, done: Results, o: ObjectId, ps: seq<nat>)
    requires DistinctKeys(m)
    ensures Collect(objects, Update(m, o, ps), done)
            == Collect(objects, m, done)[o := Answers(objects, o, ps, map[])]
  {
    hide Answers, HasKey;
    var x := Answers(objects, o, ps, map[]);
    var u := Update(m, o, ps);
    if m == [] {
      assert u[1..] == [];
      assert Collect(objects, u[1..], done[o := x]) == done[o := x];
    } else {
      var y := Answers(objects, m[0].0, m[0].1, map[]);
      if m[0].0 == o {
        assert u[1..] == m[1..];
        CollectOutside(objects, m[1..], done, o, x);
        CollectOutside(objects, m[1..], done, o, y);
      } else {
        assert u[1..] == Update(m[1..], o, ps);
        CollectUpdate(objects, m[1..], done[m[0].0 := y], o, ps);
      }
    }
  }

  lemma {:induction false} CollectFolded(objects: Objects, m: Members, specs: seq<Specification>)
    requires DistinctKeys(m)
    ensures Collect(objects, FoldMembers(m, specs), map[]) == Snapshot(objects, specs, Collect(objects, m, map[]))
    ensures DistinctKeys(FoldMembers(m, specs))
    decreases |specs|
  {
    hide Answers, Update, Properties, DistinctKeys, Collect;
    if specs != [] {
      var (o, refs) := specs[0];
      UpdateKeys(m, o, Properties(refs));
      CollectUpdate(objects, m, map[], o, Properties(refs));
      CollectFolded(objects, Update(m, o, Properties(refs)), specs[1..]);
    }
  }

  lemma {:induction false} StoreServedEntries(objects: Objects, o: ObjectId, ps: seq<nat>, c: Cursor)
    requires Encodable(ps)
    requires c.current == Some(o) && o in c.results
    ensures StoreEntries(c, ServeEntries(objects, o, ps)).results
            == c.results[o := Answers(objects, o, ps, c.results[o])]
    decreases |ps|
  {
    hide Served;
    if ps != [] {
      var entries := ServeEntries(objects, o, ps);
      assert entries[1..] == ServeEntries(objects, o, ps[1..]);
      StoreServedEntries(objects, o, ps[1..], StoreEntry(c, entries[0]));
    }
  }

  lemma {:induction false} StoreServed(objects: Objects, m: Members, c: Cursor)
    requires InRange(m) && DistinctKeys(m) && forall k :: HasKey(m, k) ==> k !in c.results
    ensures StoreResults(c, Serve(objects, m)).results == Collect(objects, m, c.results)
  {
    hide Answers, StoreEntries, ServeEntries;
    if m != [] {
      var (o, ps) := m[0];
      assert HasKey(m, o);
      var results := Serve(objects, m);
      assert results[1..] == Serve(objects, m[1..]);
      var d := c.(results := SetDefault(c.results, o), current := Some(o));
      StoreServedEntries(objects, o, ps, d);
      var e := StoreObject(c, results[0]);
      assert e.results == c.results[o := Answers(objects, o, ps, map[])];
      assert forall k :: HasKey(m[1..], k) ==> HasKey(m, k);
      StoreServed(objects, m[1..], e);
    }
  }

  /** Whatever references are asked for, the parsed members hold in-range property identifiers. */
  lemma {:induction false} FoldedInRange(m: Members, specs: seq<Specification>)
    requires InRange(m)
    ensures InRange(FoldMembers(m, specs))
    decreases |specs|
  {
    hide InRange;
    if specs != [] {
      PropertiesInRange(specs[0].1);
      UpdateInRange(m, specs[0].0, Properties(specs[0].1));
      FoldedInRange(Update(m, specs[0].0, Properties(specs[0].1)), specs[1..]);
    }
  }

  lemma {:induction false} PropertiesInRange(refs: seq<Reference>)
    ensures Encodable(Properties(refs))
  {
    if refs != [] {
      PropertiesInRange(refs[1..]);
    }
  }

  lemma {:induction false} UpdateInRange(m: Members, o: ObjectId, ps: seq<nat>)
    requires InRange(m) && Encodable(ps)
    ensures InRange(Update(m, o, ps))
  {
    if m != [] && m[0].0 != o {
      UpdateInRange(m[1..], o, ps);
    }
  }

  ghost predicate AllBalanced(objects: Objects) {
    forall o <- objects :: forall p <- objects[o] :: Balanced(objects[o][p])
  }

  lemma {:induction false} ServedBalanced(objects: Objects, o: ObjectId, ps: seq<nat>)
    requires AllBalanced(objects) && Encodable(ps)
    ensures forall e <- ServeEntries(objects, o, ps) :: BalancedEntry(e)
  {
    hide Balanced;
    if ps != [] {
      ServedBalanced(objects, o, ps[1..]);
    }
  }

  lemma {:induction false} ServeBalanced(objects: Objects, m: Members)
    requires AllBalanced(objects) && InRange(m)
    ensures BalancedResults(Serve(objects, m))
  {
    hide Balanced, AllBalanced, BalancedEntry;
    if m != [] {
      ServedBalanced(objects, m[0].0, m[0].1);
      ServeBalanced(objects, m[1..]);
    }
  }

  /** Clause 15.7 end to end: the server's parser reads the encoded request as `members`, and the
      client's parser reads the ACK it answers with as the snapshot of its objects. */
  lemma ReadMultipleRoundTrip(invokeId: Octet, specs: seq<Specification>, objects: Objects)
    requires AllBalanced(objects)
    ensures var request := ReadMultipleRequest(invokeId, specs);
            var members := FoldMembers([], specs);
            && ReadSpecifications(Slice(request, 4, |request|), 0, [], None) == Returned(members)
            && InRange(members)
            && ParseResults(ReadMultipleAck(invokeId, Serve(objects, members)), 3, START)
               == Returned(Snapshot(objects, specs, map[]))
  {
    hide ReadTag, EncodeSpecifications, ReadSpecifications, FoldMembers, Serve, ParseResults, EncodeResults, Snapshot,
         Collect, AllBalanced, BalancedResults, InRange, StoreResults, Occurs;
    var parameters := EncodeSpecifications(specs);
    var request := ReadMultipleRequest(invokeId, specs);
    assert Slice(request, 4, |request|) == parameters;
    OccursIn([], parameters, []);
    assert [] + parameters + [] == parameters;
    ReadSpecificationsOf(specs, parameters, 0, []);
    assert InRange([]) by {
      EmptyInRange();
    }
    FoldedInRange([], specs);
    var members := FoldMembers([], specs);
    var body := EncodeResults(Serve(objects, members));
    var head := [0x30, invokeId, SERVICE_READ_PROPERTY_MULTIPLE];
    OccursIn(head, body, []);
    assert head + body + [] == head + body;
    ServeBalanced(objects, members);
    ParseResultsOf(Serve(objects, members), head + body, 3, START);
    CollectFolded(objects, [], specs);
    StoreServed(objects, members, START);
    assert Collect(objects, [], map[]) == map[] by {
      EmptyCollect(objects);
    }
  }

  lemma EmptyInRange()
    ensures InRange([])
  {
  }

  lemma EmptyCollect(objects: Objects)
    ensures Collect(objects, [], map[]) == map[]
  {
  }
}
