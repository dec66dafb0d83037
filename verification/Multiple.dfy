/** ReadPropertyMultiple (clause 15.7): the client's request, the server's parser, the server's ACK
    and the client's parser. */
module Multiple {
  import opened Octets
  import opened Tags
  import opened Constructed
  import opened Network
  import opened Requests

  // -- the request -----------------------------------------------------------------

  /** A property identifier, or a (property identifier, array index) pair. */
  datatype Reference = Reference(property: U32, index: Option<U32>)

  type Specification = (ObjectId, seq<Reference>)

  function EncodeReference(r: Reference): Bytes { ContextUnsigned(0, r.property) + OptionalUnsigned(1, r.index) }

  function EncodeReferences(refs: seq<Reference>): Bytes {
    if refs == [] then [] else EncodeReference(refs[0]) + EncodeReferences(refs[1..])
  }

  function EncodeSpecification(s: Specification): Bytes {
    ContextObjectId(0, s.0) + Enclosed(1, EncodeReferences(s.1))
  }

  function EncodeSpecifications(specs: seq<Specification>): Bytes {
    if specs == [] then [] else EncodeSpecification(specs[0]) + EncodeSpecifications(specs[1..])
  }

  function ReadMultipleRequest(invokeId: Octet, specs: seq<Specification>): Bytes {
    ConfirmedRequest(invokeId, SERVICE_READ_PROPERTY_MULTIPLE, EncodeSpecifications(specs))
  }

  /** `read_access_specification`: the octets are appended reference by reference. */
  method ReadAccessSpecification(o: ObjectId, refs: seq<Reference>) returns (out: Bytes)
    ensures out == EncodeSpecification((o, refs))
  {
    hide ContextUnsigned, ContextObjectId, Opening, Closing;
    var head := ContextObjectId(0, o) + Opening(1);
    out := head;
    for i := 0 to |refs|
      invariant out + EncodeReferences(refs[i..]) == head + EncodeReferences(refs)
    {
      ghost var before := out;
      out := out + ContextUnsigned(0, refs[i].property);
      if refs[i].index.Some? {
        out := out + ContextUnsigned(1, refs[i].index.value);
      }
      assert out == before + EncodeReference(refs[i]);
      assert refs[i..][1..] == refs[i + 1..];
      Regroup(before, EncodeReference(refs[i]), EncodeReferences(refs[i + 1..]));
    }
    assert out + EncodeReferences(refs[|refs|..]) == out;
    out := out + Closing(1);
    assert out == ContextObjectId(0, o) + (Opening(1) + EncodeReferences(refs) + Closing(1));
  }

  // -- the server's parser ------------------------------------------------------------

  /** A Python dict in insertion order: the keys are distinct. */
  type Members = seq<(ObjectId, seq<nat>)>

  function Lookup(m: Members, o: ObjectId): seq<nat> {
    if m == [] then [] else if m[0].0 == o then m[0].1 else Lookup(m[1..], o)
  }

  /** The entry of `o` replaced in place, or added at the end. */
  function Update(m: Members, o: ObjectId, properties: seq<nat>): Members {
    if m == [] then [(o, properties)]
    else if m[0].0 == o then [(o, properties)] + m[1..]
    else [m[0]] + Update(m[1..], o, properties)
  }

  function ReadSpecifications(value: Bytes, position: nat, members: Members, current: Option<ObjectId>)
    : Outcome<Members>
    decreases Left(value, position)
  {
    if position >= |value| then Returned(members) else
    var t :- ReadTag(value, position);
    if t.kind == Value && t.isContext && t.number == 0 then
      if current.Some? then
        var properties := Lookup(members, current.value) + [FromBytes(t.body)];
        ReadSpecifications(value, t.next, Update(members, current.value, properties), current)
      else
        var o := UnpackObjectId(t.body);
        if o.Returned? then ReadSpecifications(value, t.next, Update(members, o.value, []), Some(o.value))
        else ReadSpecifications(value, t.next, members, current)
    else
      ReadSpecifications(value, t.next, members, if t.kind == Close && t.number == 1 then None else current)
  }

  /** `read_access_specifications` */
  method ReadAccessSpecifications(value: Bytes) returns (r: Outcome<Members>)
    ensures r == ReadSpecifications(value, 0, [], None)
  {
    hide ReadTag;
    var members: Members := [];
    var position: nat := 0;
    var current: Option<ObjectId> := None;
    while position < |value|
      invariant ReadSpecifications(value, 0, [], None) == ReadSpecifications(value, position, members, current)
      decreases Left(value, position)
    {
      var t := ReadTag(value, position);
      if t.Raised? {
        return Raised(t.error);
      }
      position := t.value.next;
      var named := t.value.kind == Value && t.value.isContext && t.value.number == 0;
      if named && current.None? && |t.value.body| == 4 {
        var o := UnpackObjectId(t.value.body);
        current := Some(o.value);
        members := Update(members, o.value, []);
      } else if named && current.Some? {
        members := Update(members, current.value, Lookup(members, current.value) + [FromBytes(t.value.body)]);
      } else if t.value.kind == Close && t.value.number == 1 {
        current := None;
      }
    }
    return Returned(members);
  }

  // -- the ACK ---------------------------------------------------------------------------

  /** The value octets of a property, or nothing if the device has none. */
  type Entry = (U32, Option<Bytes>)
  type ObjectResult = (ObjectId, seq<Entry>)

  function UnknownProperty(): Bytes {
    ApplicationEnumerated(ERROR_CLASS_PROPERTY) + ApplicationEnumerated(ERROR_CODE_UNKNOWN_PROPERTY)
  }

  function EncodeEntry(e: Entry): Bytes {
    ContextUnsigned(2, e.0) + (if e.1.Some? then Enclosed(4, e.1.value) else Enclosed(5, UnknownProperty()))
  }

  function EncodeEntries(entries: seq<Entry>): Bytes {
    if entries == [] then [] else EncodeEntry(entries[0]) + EncodeEntries(entries[1..])
  }

  function EncodeObjectResult(r: ObjectResult): Bytes { ContextObjectId(0, r.0) + Enclosed(1, EncodeEntries(r.1)) }

  function EncodeResults(results: seq<ObjectResult>): Bytes {
    if results == [] then [] else EncodeObjectResult(results[0]) + EncodeResults(results[1..])
  }

  function ReadMultipleAck(invokeId: Octet, results: seq<ObjectResult>): Bytes {
    [0x30, invokeId, SERVICE_READ_PROPERTY_MULTIPLE] + EncodeResults(results)
  }

  /** `read_property_multiple_ack`, its two loops. */
  method BuildReadMultipleAck(invokeId: Octet, results: seq<ObjectResult>) returns (apdu: Bytes)
    ensures apdu == ReadMultipleAck(invokeId, results)
  {
    hide ContextObjectId, Opening, Closing, EncodeEntries;
    var body: Bytes := [];
    for i := 0 to |results|
      invariant body + EncodeResults(results[i..]) == EncodeResults(results)
    {
      ghost var before := body;
      var inner := BuildEntries(results[i].1);
      body := body + (ContextObjectId(0, results[i].0) + (Opening(1) + inner + Closing(1)));
      assert body == before + EncodeObjectResult(results[i]);
      assert results[i..][1..] == results[i + 1..];
      Regroup(before, EncodeObjectResult(results[i]), EncodeResults(results[i + 1..]));
    }
    assert body + EncodeResults(results[|results|..]) == body;
    apdu := [0x30, invokeId, SERVICE_READ_PROPERTY_MULTIPLE] + body;
  }

  method BuildEntries(entries: seq<Entry>) returns (body: Bytes)
    ensures body == EncodeEntries(entries)
  {
    hide ContextUnsigned, Enclosed, UnknownProperty;
    body := [];
    for j := 0 to |entries|
      invariant body + EncodeEntries(entries[j..]) == EncodeEntries(entries)
    {
      ghost var before := body;
      body := body + ContextUnsigned(2, entries[j].0);
      if entries[j].1.None? {
        body := body + Enclosed(5, UnknownProperty());
      } else {
        body := body + Enclosed(4, entries[j].1.value);
      }
      assert body == before + EncodeEntry(entries[j]);
      assert entries[j..][1..] == entries[j + 1..];
      Regroup(before, EncodeEntry(entries[j]), EncodeEntries(entries[j + 1..]));
    }
    assert body + EncodeEntries(entries[|entries|..]) == body;
  }

  // -- the client's parser ---------------------------------------------------------------------

  /** Value octets, or ('error', class, code). */
  datatype Result = Octets(value: Bytes) | Failed(numbers: seq<nat>)

  /** A property identifier, or a pair with an array index; the property is None before any was read. */
  datatype Key = Key(property: Option<nat>, index: Option<nat>)

  type Results = map<ObjectId, map<Key, Result>>

  datatype Cursor = Cursor(results: Results, current: Option<ObjectId>, property: Option<nat>, index: Option<nat>)

  function Numbers(values: seq<(nat, Bytes)>): seq<nat> {
    if |values| == 0 then []
    else if |values| == 1 then [FromBytes(values[0].1)]
    else [FromBytes(values[0].1), FromBytes(values[1].1)]
  }

  function ResultOf(number: nat, inner: Bytes): Outcome<Result> {
    if number == 4 then Returned(Octets(inner)) else
    var values :- ApplicationValues(inner, 0);
    Returned(Failed(Numbers(values)))
  }

  /** The results with an entry for `o`, empty if there was none. */
  function SetDefault(results: Results, o: ObjectId): (r: Results)
    ensures o in r
  {
    if o in results then results else results[o := map[]]
  }

  function Store(c: Cursor, result: Result): Cursor
    requires c.current.Some?
  {
    var inner := SetDefault(c.results, c.current.value)[c.current.value];
    c.(results := c.results[c.current.value := inner[Key(c.property, c.index) := result]])
  }

  function AtValue(c: Cursor, t: Tag): Outcome<Cursor> {
    if t.number == 0 then
      var o :- UnpackObjectId(t.body);
      Returned(c.(results := SetDefault(c.results, o), current := Some(o)))
    else if t.number == 2 then Returned(c.(property := Some(FromBytes(t.body)), index := None))
    else if t.number == 3 then Returned(c.(index := Some(FromBytes(t.body))))
    else Returned(c)
  }

  function ParseResults(apdu: Bytes, position: nat, c: Cursor): Outcome<Results>
    decreases Left(apdu, position)
  {
    if position >= |apdu| then Returned(c.results) else
    var t :- ReadTag(apdu, position);
    if t.kind == Value && t.isContext then
      var d :- AtValue(c, t);
      ParseResults(apdu, t.next, d)
    else if t.kind == Open && (t.number == 4 || t.number == 5) && c.current.Some? then
      var (inner, after) :- BodyOf(apdu, t.next);
      var result :- ResultOf(t.number, inner);
      ParseResults(apdu, after, Store(c, result))
    else ParseResults(apdu, t.next, c)
  }

  const START := Cursor(map[], None, None, None)

  /** `_complex_ack`: the APDU if the answer is a ComplexACK of `service`, else None. The service of one with
      two octets cannot be read. */
  function ComplexAckOf(answer: Option<Fields>, service: Octet): Outcome<Option<Bytes>> {
    if answer.None? || answer.value.PduType() != Some(3) then Returned(None) else
    var own :- answer.value.Service();
    Returned(if own == Some(service) then Some(answer.value.payload) else None)
  }

  function ParseMultipleAck(answer: Option<Fields>): Outcome<Option<Results>> {
    var apdu :- ComplexAckOf(answer, SERVICE_READ_PROPERTY_MULTIPLE);
    if apdu.None? then Returned(None) else
    match ParseResults(apdu.value, 3, START)
    case Returned(results) => Returned(Some(results))
    case Raised(e) => Guarded(Raised(e))
  }

  /** `parse_read_property_multiple_ack` of an answer, or of none. */
  method ParseReadPropertyMultipleAck(answer: Option<Fields>) returns (r: Outcome<Option<Results>>)
    ensures r == ParseMultipleAck(answer)
  {
    hide ReadTag, BodyOf, ApplicationValues, UnpackObjectId, SetDefault, Fields.PduType, Fields.Service;
    var ack := ComplexAckOf(answer, SERVICE_READ_PROPERTY_MULTIPLE);
    if ack.Raised? {
      return Raised(ack.error);
    }
    if ack.value.None? {
      return Returned(None);
    }
    var apdu := ack.value.value;
    var c := START;
    var position: nat := 3;
    while position < |apdu|
      invariant ParseResults(apdu, 3, START) == ParseResults(apdu, position, c)
      decreases Left(apdu, position)
    {
      var t := ReadTag(apdu, position);
      if t.Raised? {
        return Guarded(Raised(t.error));
      }
      position := t.value.next;
      if t.value.kind == Value && t.value.isContext {
        var d := AtValue(c, t.value);
        if d.Raised? {
          return Guarded(Raised(d.error));
        }
        c := d.value;
      } else if t.value.kind == Open && t.value.number in {4, 5} && c.current.Some? {
        var body := ConstructedBody(apdu, position);
        if body.Raised? {
          return Guarded(Raised(body.error));
        }
        position := body.value.1;
        var result := ResultOf(t.value.number, body.value.0);
        if result.Raised? {
          return Guarded(Raised(result.error));
        }
        c := Store(c, result.value);
      }
    }
    return Returned(Some(c.results));
  }

  // -- what a request asks for and what it should get --------------------------------------------

  type Objects = map<ObjectId, map<U32, Bytes>>

  function Served(objects: Objects, o: ObjectId, property: nat): Option<Bytes> {
    if o in objects && property in objects[o] then Some(objects[o][property]) else None
  }

  function Properties(refs: seq<Reference>): seq<nat> {
    if refs == [] then [] else [refs[0].property as nat] + Properties(refs[1..])
  }

  function ResultFor(objects: Objects, o: ObjectId, property: nat): Result {
    match Served(objects, o, property)
    case Some(v) => Octets(v)
    case None => Failed([ERROR_CLASS_PROPERTY, ERROR_CODE_UNKNOWN_PROPERTY])
  }

  function KeyOf(property: nat): Key { Key(Some(property), None) }

  /** The results for one object, on top of those already there. */
  function Answers(objects: Objects, o: ObjectId, properties: seq<nat>, done: map<Key, Result>): map<Key, Result> {
    if properties == [] then done
    else Answers(objects, o, properties[1..], done[KeyOf(properties[0]) := ResultFor(objects, o, properties[0])])
  }

  /** What a ReadPropertyMultiple should return: each object's results, under bare property
      identifiers; of an object asked for twice, those of its last list. */
  function Snapshot(objects: Objects, specs: seq<Specification>, done: Results): Results {
    if specs == [] then done
    else
      var (o, refs) := specs[0];
      Snapshot(objects, specs[1..], done[o := Answers(objects, o, Properties(refs), map[])])
  }

  /** `inner` has the result for each of `properties`, and nothing else. */
  ghost predicate Exact(inner: map<Key, Result>, objects: Objects, o: ObjectId, properties: seq<nat>) {
    && (forall p <- properties :: KeyOf(p) in inner && inner[KeyOf(p)] == ResultFor(objects, o, p))
    && (forall k <- inner :: k.property.Some? && k == KeyOf(k.property.value) && k.property.value in properties)
  }

  lemma {:induction false} AnswersContents(objects: Objects, o: ObjectId, before: seq<nat>, properties: seq<nat>,
                                           done: map<Key, Result>)
    requires Exact(done, objects, o, before)
    ensures Exact(Answers(objects, o, properties, done), objects, o, before + properties)
    decreases |properties|
  {
    hide ResultFor;
    if properties == [] {
      assert before + properties == before;
    } else {
      var p := properties[0];
      AnswersContents(objects, o, before + [p], properties[1..], done[KeyOf(p) := ResultFor(objects, o, p)]);
      assert before + [p] + properties[1..] == before + properties;
    }
  }

  predicate DistinctObjects(specs: seq<Specification>) {
    forall i, j :: 0 <= i < j < |specs| ==> specs[i].0 != specs[j].0
  }

  /** For pairwise distinct objects: one entry for each requested object and property, with exactly the
      served octets or the error, and no other entries. */
  lemma {:induction false} SnapshotContents(objects: Objects, specs: seq<Specification>, done: Results)
    requires DistinctObjects(specs)
    requires forall s <- specs :: s.0 !in done
    ensures var r := Snapshot(objects, specs, done);
            && (forall o <- r :: o in done || exists s :: s in specs && s.0 == o)
            && (forall o <- done :: o in r && r[o] == done[o])
            && (forall s <- specs :: s.0 in r && Exact(r[s.0], objects, s.0, Properties(s.1)))
  {
    hide Exact, Answers, Properties;
    if specs != [] {
      var (o, refs) := specs[0];
      AnswersFor(objects, o, Properties(refs));
      SnapshotContents(objects, specs[1..], done[o := Answers(objects, o, Properties(refs), map[])]);
      assert forall s <- specs :: s == specs[0] || s in specs[1..];
    }
  }

  lemma AnswersFor(objects: Objects, o: ObjectId, properties: seq<nat>)
    ensures Exact(Answers(objects, o, properties, map[]), objects, o, properties)
  {
    AnswersContents(objects, o, [], properties, map[]);
    assert [] + properties == properties;
  }
}
