/** ReadPropertyMultiple-ACKs of any device: results with array indexes, errors of any class and code, objects that come
    again. What the client's parser makes of them (clause 15.7 and the ReadAccessResult production). */
module Indexed {
  import opened Octets
  import opened Tags
  import opened Constructed
  import opened Requests
  import opened Multiple

  /** One result: a property, perhaps of one array element, and its value or error. */
  datatype Reported =
    | Read(property: U32, index: Option<U32>, value: Bytes)
    | Denied(property: U32, index: Option<U32>, errorClass: U32, errorCode: U32)

  predicate ValidReported(r: Reported) { r.Read? ==> Balanced(r.value) }

  predicate AllValid(rs: seq<Reported>) { forall i | 0 <= i < |rs| :: ValidReported(rs[i]) }

  function Contents(r: Reported): Bytes {
    match r
    case Read(_, _, value) => Enclosed(4, value)
    case Denied(_, _, errorClass, errorCode) =>
      Enclosed(5, ApplicationEnumerated(errorClass) + ApplicationEnumerated(errorCode))
  }

  function EncodeReported(r: Reported): Bytes {
    ContextUnsigned(2, r.property) + OptionalUnsigned(3, r.index) + Contents(r)
  }

  function EncodeAll(rs: seq<Reported>): Bytes {
    if rs == [] then [] else EncodeReported(rs[0]) + EncodeAll(rs[1..])
  }

  type Access = (ObjectId, seq<Reported>)

  function EncodeAccess(a: Access): Bytes { ContextObjectId(0, a.0) + Enclosed(1, EncodeAll(a.1)) }

  function EncodeAccesses(accesses: seq<Access>): Bytes {
    if accesses == [] then [] else EncodeAccess(accesses[0]) + EncodeAccesses(accesses[1..])
  }

  // -- what the client should get ---------------------------------------------------------

  function KeyFor(r: Reported): Key {
    Key(Some(r.property as nat), if r.index.Some? then Some(r.index.value as nat) else None)
  }

  function Outcomes(r: Reported): Result {
    match r
    case Read(_, _, value) => Octets(value)
    case Denied(_, _, errorClass, errorCode) => Failed([errorClass as nat, errorCode as nat])
  }

  /** The results of one object on top of those it has: each under its property and index, the last one counting. */
  function Entered(inner: map<Key, Result>, rs: seq<Reported>): map<Key, Result>
    decreases |rs|
  {
    if rs == [] then inner else Entered(inner[KeyFor(rs[0]) := Outcomes(rs[0])], rs[1..])
  }

  function Gathered(results: Results, accesses: seq<Access>): Results
    decreases |accesses|
  {
    if accesses == [] then results else
    var (o, rs) := accesses[0];
    Gathered(results[o := Entered(if o in results then results[o] else map[], rs)], accesses[1..])
  }

  // -- reading one result ---------------------------------------------------------------------

  function Noted(c: Cursor, r: Reported): Cursor
    requires c.current.Some?
  {
    var key := KeyFor(r);
    Store(c.(property := key.property, index := key.index), Outcomes(r))
  }

  lemma ReadContents(r: Reported, a: Bytes, at: nat, c: Cursor)
    requires Occurs(Contents(r), a, at) && c.current.Some? && ValidReported(r)
    ensures ParseResults(a, at, c) == ParseResults(a, at + |Contents(r)|, Store(c, Outcomes(r)))
  {
    hide ReadTag, Occurs, Enclosed, FromBytes, BodyOf, Balanced, ApplicationValues, Store, UnpackObjectId,
         ApplicationEnumerated, UnsignedOctets;
    var number: TagNumber := if r.Read? then 4 else 5;
    var inner := if r.Read? then r.value
                 else ApplicationEnumerated(r.errorClass) + ApplicationEnumerated(r.errorCode);
    if r.Denied? {
      TwoEnumerated(r.errorClass, r.errorCode);
      EnumeratedBalanced(r.errorClass, r.errorCode);
    }
    ReadEnclosed(number, inner, a, at);
    EnclosedLength(number, inner);
    BodyOfBalanced(inner, a, at + 1);
  }

  lemma EnumeratedBalanced(first: U32, second: U32)
    ensures Balanced(ApplicationEnumerated(first) + ApplicationEnumerated(second))
  {
    hide Balanced, Primitive;
    BalancedPrimitive(9, false, UnsignedOctets(first));
    BalancedPrimitive(9, false, UnsignedOctets(second));
    BalancedConcat(ApplicationEnumerated(first), ApplicationEnumerated(second));
  }

  lemma ReadReported(r: Reported, a: Bytes, at: nat, c: Cursor)
    requires Occurs(EncodeReported(r), a, at) && c.current.Some? && ValidReported(r)
    ensures ParseResults(a, at, c) == ParseResults(a, at + |EncodeReported(r)|, Noted(c, r))
  {
    hide ReadTag, Occurs, ContextUnsigned, Contents, FromBytes, BodyOf, Balanced, Store, UnpackObjectId, ResultOf,
         UnsignedOctets, Outcomes;
    var first, second := ContextUnsigned(2, r.property), OptionalUnsigned(3, r.index);
    OccursSplit(first + second, Contents(r), a, at);
    OccursSplit(first, second, a, at);
    ReadContextUnsigned(2, r.property, a, at);
    var d := c.(property := Some(r.property as nat), index := None);
    assert ParseResults(a, at, c) == ParseResults(a, at + |first|, d);
    var key := KeyFor(r);
    var e := c.(property := key.property, index := key.index);
    if r.index.Some? {
      ReadContextUnsigned(3, r.index.value, a, at + |first|);
      assert ParseResults(a, at + |first|, d) == ParseResults(a, at + |first + second|, e);
    }
    ReadContents(r, a, at + |first + second|, e);
  }

  lemma {:induction false} ReadAll(rs: seq<Reported>, a: Bytes, at: nat, c: Cursor)
    requires Occurs(EncodeAll(rs), a, at) && c.current.Some? && c.current.value in c.results && AllValid(rs)
    ensures exists d: Cursor ::
              && d.results == c.results[c.current.value := Entered(c.results[c.current.value], rs)]
              && ParseResults(a, at, c) == ParseResults(a, at + |EncodeAll(rs)|, d)
    decreases |rs|
  {
    hide ReadTag, Occurs, EncodeReported, ParseResults, Outcomes, ValidReported, KeyFor;
    if rs == [] {
      assert c.results == c.results[c.current.value := Entered(c.results[c.current.value], rs)];
    } else {
      OccursSplit(EncodeReported(rs[0]), EncodeAll(rs[1..]), a, at);
      assert ValidReported(rs[0]);
      ReadReported(rs[0], a, at, c);
      NotedEntered(c, rs[0]);
      ReadAll(rs[1..], a, at + |EncodeReported(rs[0])|, Noted(c, rs[0]));
    }
  }

  lemma NotedEntered(c: Cursor, r: Reported)
    requires c.current.Some? && c.current.value in c.results
    ensures var d := Noted(c, r);
            && d.current == c.current
            && d.results == c.results[c.current.value := c.results[c.current.value][KeyFor(r) := Outcomes(r)]]
  {
    hide Outcomes;
  }

  lemma ReadAccess(x: Access, a: Bytes, at: nat, c: Cursor)
    requires Occurs(EncodeAccess(x), a, at) && AllValid(x.1)
    ensures exists d: Cursor ::
              && d.results == c.results[x.0 := Entered(if x.0 in c.results then c.results[x.0] else map[], x.1)]
              && ParseResults(a, at, c) == ParseResults(a, at + |EncodeAccess(x)|, d)
  {
    hide ReadTag, Occurs, ContextObjectId, Enclosed, EncodeAll, UnpackObjectId, BodyOf, ObjectIdBytes, AllValid,
         Entered, FromBytes, Store;
    var inner := EncodeAll(x.1);
    OccursSplit(ContextObjectId(0, x.0), Enclosed(1, inner), a, at);
    ReadContextObjectId(0, x.0, a, at);
    var p := at + |ContextObjectId(0, x.0)|;
    var d := c.(results := SetDefault(c.results, x.0), current := Some(x.0));
    assert ParseResults(a, at, c) == ParseResults(a, p, d);
    ReadEnclosed(1, inner, a, p);
    EnclosedLength(1, inner);
    assert ParseResults(a, p, d) == ParseResults(a, p + 1, d);
    ReadAll(x.1, a, p + 1, d);
    var e: Cursor :| e.results == d.results[x.0 := Entered(d.results[x.0], x.1)]
                     && ParseResults(a, p + 1, d) == ParseResults(a, p + 1 + |inner|, e);
    assert ParseResults(a, p + 1 + |inner|, e) == ParseResults(a, p + 2 + |inner|, e);
    assert e.results == c.results[x.0 := Entered(if x.0 in c.results then c.results[x.0] else map[], x.1)];
  }

  lemma {:induction false} ReadAccesses(accesses: seq<Access>, a: Bytes, at: nat, c: Cursor)
    requires Occurs(EncodeAccesses(accesses), a, at) && |a| == at + |EncodeAccesses(accesses)|
    requires forall i | 0 <= i < |accesses| :: AllValid(accesses[i].1)
    ensures ParseResults(a, at, c) == Returned(Gathered(c.results, accesses))
    decreases |accesses|
  {
    hide ReadTag, Occurs, EncodeAccess, Entered, AllValid;
    if accesses != [] {
      OccursSplit(EncodeAccess(accesses[0]), EncodeAccesses(accesses[1..]), a, at);
      ReadAccess(accesses[0], a, at, c);
      var x := accesses[0];
      var d: Cursor :| d.results == c.results[x.0 := Entered(if x.0 in c.results then c.results[x.0] else map[], x.1)]
                       && ParseResults(a, at, c) == ParseResults(a, at + |EncodeAccess(x)|, d);
      ReadAccesses(accesses[1..], a, at + |EncodeAccess(x)|, d);
    }
  }

  /** Whatever objects, properties, array indexes, values and errors a device reports, and in whatever order: the
      client's map has each result under its object, its property and its index. */
  lemma IndexedResults(invokeId: Octet, accesses: seq<Access>)
    requires forall i | 0 <= i < |accesses| :: AllValid(accesses[i].1)
    ensures ParseResults([0x30, invokeId, 14] + EncodeAccesses(accesses), 3, START)
            == Returned(Gathered(map[], accesses))
  {
    hide EncodeAccesses, ParseResults, AllValid, Occurs, Gathered;
    var head: Bytes := [0x30, invokeId, 14];
    var body := EncodeAccesses(accesses);
    OccursIn(head, body, []);
    assert head + body + [] == head + body;
    ReadAccesses(accesses, head + body, 3, START);
  }
}
