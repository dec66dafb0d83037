/** Constructed values: the depth-counting scans for a matching closing tag, and the grammar of
    balanced tags they decide. */
module Constructed {
  import opened Octets
  import opened Tags

  predicate Closes(data: Bytes, k: nat) {
    ReadTag(data, k).Returned? && ReadTag(data, k).value.kind == Close
  }

  function Left(data: Bytes, position: nat): nat {
    if position < |data| then |data| - position else 0
  }

  /** Where the closing tag lies that brings `depth` open tags down to none. */
  function Scan(data: Bytes, position: nat, depth: nat): (r: Outcome<nat>)
    requires depth > 0
    ensures r.Returned? ==> position <= r.value && Closes(data, r.value)
    decreases Left(data, position)
  {
    var t :- ReadTag(data, position);
    if t.kind == Close then
      if depth == 1 then Returned(position) else Scan(data, t.next, depth - 1)
    else Scan(data, t.next, if t.kind == Open then depth + 1 else depth)
  }

  /** The position after the closing tag that matches an opening tag read just before `start`. */
  function EndOf(data: Bytes, start: nat): (r: Outcome<nat>)
    ensures r.Returned? ==> start < r.value
  {
    var close :- Scan(data, start, 1);
    Returned(ReadTag(data, close).value.next)
  }

  /** The octets between that opening tag and its closing tag, and the position after it. */
  function BodyOf(data: Bytes, start: nat): (r: Outcome<(Bytes, nat)>)
    ensures r.Returned? ==> start < r.value.1
  {
    var close :- Scan(data, start, 1);
    Returned((data[start..close], ReadTag(data, close).value.next))
  }

  // -- the scans of services.py and alarm.py -----------------------------------

  method ConstructedEnd(octets: Bytes, start: nat) returns (r: Outcome<nat>)
    ensures r == EndOf(octets, start)
  {
    var position := start;
    var depth: nat := 1;
    while depth > 0
      invariant start <= position
      invariant depth > 0 ==> Scan(octets, start, 1) == Scan(octets, position, depth)
      invariant depth == 0 ==> EndOf(octets, start) == Returned(position)
      decreases depth > 0, Left(octets, position)
    {
      var t := ReadTag(octets, position);
      if t.Raised? {
        return Raised(t.error);
      }
      position := t.value.next;
      depth := match t.value.kind case Open => depth + 1 case Close => depth - 1 case Value => depth;
    }
    return Returned(position);
  }

  method ConstructedBody(octets: Bytes, start: nat) returns (r: Outcome<(Bytes, nat)>)
    ensures r == BodyOf(octets, start)
  {
    var position := start;
    var depth: nat := 1;
    while true
      invariant start <= position && depth > 0
      invariant Scan(octets, start, 1) == Scan(octets, position, depth)
      decreases Left(octets, position)
    {
      var tagStart := position;
      var t := ReadTag(octets, position);
      if t.Raised? {
        return Raised(t.error);
      }
      position := t.value.next;
      depth := match t.value.kind case Open => depth + 1 case Close => depth - 1 case Value => depth;
      if depth == 0 {
        return Returned((octets[start..tagStart], position));
      }
    }
  }

  // -- the grammar -----------------------------------------------------------

  /** The shape of a run of balanced tags: nothing, a primitive and more, or an opening tag, a
      run, a closing tag, and more. */
  datatype Forest = Empty | Leaf(rest: Forest) | Group(inner: Forest, rest: Forest)

  /** Recursive descent: where a run of shape `f` that starts at `i` ends, if there is one. */
  function Span(f: Forest, data: Bytes, i: nat): Option<nat>
    decreases f
  {
    match f
    case Empty => Some(i)
    case Leaf(rest) =>
      var t := ReadTag(data, i);
      if t.Returned? && t.value.kind == Value then Span(rest, data, t.value.next) else None
    case Group(inner, rest) =>
      var t := ReadTag(data, i);
      if t.Raised? || t.value.kind != Open then None else
      var k := Span(inner, data, t.value.next);
      if k.None? || !Closes(data, k.value) then None
      else Span(rest, data, ReadTag(data, k.value).value.next)
  }

  /** A balanced run from `start`, then the closing tag at `close`. */
  ghost predicate BalancedUpTo(data: Bytes, start: nat, close: nat) {
    Closes(data, close) && exists f :: Span(f, data, start) == Some(close)
  }

  /** Scanning passes over a balanced run without changing the depth. */
  lemma {:induction false} ScanSpan(f: Forest, data: Bytes, i: nat, depth: nat)
    requires depth > 0 && Span(f, data, i).Some?
    ensures Scan(data, i, depth) == Scan(data, Span(f, data, i).value, depth)
    decreases f
  {
    match f
    case Empty =>
    case Leaf(rest) =>
      ScanSpan(rest, data, ReadTag(data, i).value.next, depth);
    case Group(inner, rest) =>
      var after := ReadTag(data, i).value.next;
      ScanSpan(inner, data, after, depth + 1);
      ScanSpan(rest, data, ReadTag(data, Span(inner, data, after).value).value.next, depth);
  }

  /** A scan that returns has passed one balanced run and the closing tag after it. */
  lemma {:induction false} ScanDescends(data: Bytes, i: nat, depth: nat) returns (f: Forest, k: nat)
    requires depth > 0 && Scan(data, i, depth).Returned?
    ensures Span(f, data, i) == Some(k) && Closes(data, k) && i <= k
    ensures if depth == 1 then Scan(data, i, depth) == Returned(k)
            else Scan(data, i, depth) == Scan(data, ReadTag(data, k).value.next, depth - 1)
    decreases Left(data, i)
  {
    var t := ReadTag(data, i).value;
    match t.kind
    case Close =>
      f, k := Empty, i;
    case Value =>
      f, k := ScanDescends(data, t.next, depth);
      f := Leaf(f);
    case Open =>
      var inner, close := ScanDescends(data, t.next, depth + 1);
      f, k := ScanDescends(data, ReadTag(data, close).value.next, depth);
      f := Group(inner, f);
  }

  /** For every octet string and start: the depth counter stops at `close` exactly when the
      grammar has a balanced run up to a closing tag there, and fails exactly when it has none. */
  lemma ScanIsGrammar(data: Bytes, start: nat)
    ensures forall close: nat :: Scan(data, start, 1) == Returned(close) <==> BalancedUpTo(data, start, close)
    ensures Scan(data, start, 1).Raised? <==> forall close: nat :: !BalancedUpTo(data, start, close)
  {
    if Scan(data, start, 1).Returned? {
      var f, k := ScanDescends(data, start, 1);
      assert BalancedUpTo(data, start, k);
    }
    forall close: nat | BalancedUpTo(data, start, close)
      ensures Scan(data, start, 1) == Returned(close)
    {
      var f :| Span(f, data, start) == Some(close);
      ScanSpan(f, data, start, 1);
    }
  }

  // -- balanced values -----------------------------------------------------------

  /** From `i` on, `v` closes exactly the `depth` tags open there and ends with its last tag. */
  predicate Walk(v: Bytes, i: nat, depth: nat)
    decreases Left(v, i)
  {
    if i >= |v| then i == |v| && depth == 0 else
    var t := ReadTag(v, i);
    t.Returned? &&
    match t.value.kind
    case Open => Walk(v, t.value.next, depth + 1)
    case Close => depth > 0 && Walk(v, t.value.next, depth - 1)
    case Value => Walk(v, t.value.next, depth)
  }

  /** `v` is a run of whole tags in which every opening tag is closed. */
  predicate Balanced(v: Bytes) {
    Walk(v, 0, 0)
  }

  /** Inside a larger message, followed by a closing tag: the scan stops right after `v`, rather
      than before or beyond it, exactly when `v` is balanced. */
  lemma {:induction false} ScanWalk(v: Bytes, a: Bytes, at: nat, i: nat, depth: nat)
    requires Occurs(v, a, at) && Closes(a, at + |v|)
    ensures Scan(a, at + i, depth + 1) == Returned(at + |v|) <==> Walk(v, i, depth)
    decreases Left(v, i)
  {
    hide ReadTag, ReadRest, ReadHead;
    if i < |v| {
      ReadTagLocal(v, a, at, i);
      var t := ReadTag(v, i);
      if t.Returned? && t.value.next <= |v| {
        match t.value.kind
        case Open => ScanWalk(v, a, at, t.value.next, depth + 1);
        case Close =>
          if depth > 0 {
            ScanWalk(v, a, at, t.value.next, depth - 1);
          }
        case Value => ScanWalk(v, a, at, t.value.next, depth);
      } else {
        if Walk(v, i, depth) {
          WalkOverrun(v, i, depth);
        }
        ScanOverrun(a, at + i, depth + 1, at + |v|);
      }
    }
  }

  lemma ScanOverrun(a: Bytes, i: nat, depth: nat, end: nat)
    requires depth > 0 && i < end
    requires ReadTag(a, i).Returned? ==> ReadTag(a, i).value.next > end
    ensures Scan(a, i, depth) != Returned(end)
  {
  }

  lemma WalkOverrun(v: Bytes, i: nat, depth: nat)
    requires i < |v| && Walk(v, i, depth)
    ensures ReadTag(v, i).Returned? && ReadTag(v, i).value.next <= |v|
  {
  }

  lemma BodyOfBalanced(v: Bytes, a: Bytes, at: nat)
    requires Occurs(v, a, at) && Closes(a, at + |v|)
    ensures (BodyOf(a, at).Returned? && BodyOf(a, at).value.0 == v) <==> Balanced(v)
    ensures Balanced(v) ==> BodyOf(a, at) == Returned((v, ReadTag(a, at + |v|).value.next))
  {
    hide ReadTag, Scan, Walk;
    ScanWalk(v, a, at, 0, 0);
  }

  /** What any scan returns as the contents of a constructed value is balanced. */
  lemma BodyIsBalanced(a: Bytes, start: nat)
    requires BodyOf(a, start).Returned?
    ensures Balanced(BodyOf(a, start).value.0)
  {
    hide ReadTag, Scan, Walk;
    var v := BodyOf(a, start).value.0;
    ScanWalk(v, a, start, 0, 0);
  }

  // -- encodings are balanced -------------------------------------------------------

  /** Walking a balanced piece of `a` leads to its end at the same depth. */
  lemma {:induction false} WalkPiece(u: Bytes, a: Bytes, at: nat, i: nat, depth: nat, outer: nat)
    requires Occurs(u, a, at) && Walk(u, i, depth)
    ensures Walk(a, at + i, depth + outer) == Walk(a, at + |u|, outer)
    decreases Left(u, i)
  {
    hide ReadTag;
    if i < |u| {
      WalkOverrun(u, i, depth);
      ReadTagLocal(u, a, at, i);
      var t := ReadTag(u, i).value;
      var inner := match t.kind case Open => depth + 1 case Close => depth - 1 case Value => depth;
      WalkPiece(u, a, at, t.next, inner, outer);
    }
  }

  lemma BalancedConcat(u: Bytes, v: Bytes)
    requires Balanced(u) && Balanced(v)
    ensures Balanced(u + v)
  {
    hide ReadTag;
    WalkPiece(u, u + v, 0, 0, 0, 0);
    WalkPiece(v, u + v, |u|, 0, 0, 0);
    assert Walk(u + v, |u + v|, 0);
  }

  lemma BalancedWrap(tag: TagNumber, v: Bytes)
    requires Balanced(v)
    ensures Balanced(Opening(tag) + v + Closing(tag))
  {
    hide ReadTag;
    var a := Opening(tag) + v + Closing(tag);
    OccursIn(Opening(tag), v, Closing(tag));
    ReadOpening(tag, a, 0);
    WalkPiece(v, a, 1, 0, 0, 1);
    ReadClosing(tag, a, 1 + |v|);
    assert Walk(a, |a|, 0);
  }

  lemma BalancedPrimitive(tag: TagNumber, isContext: bool, body: Bytes)
    requires |body| < 0x1_0000 && (isContext || tag != 1)
    ensures Balanced(Primitive(tag, isContext, body))
  {
    ReadPrimitive(tag, isContext, body);
  }

  lemma BalancedBoolean(v: bool)
    ensures Balanced(ApplicationBoolean(v))
  {
    ReadBoolean(v, ApplicationBoolean(v), 0);
  }

  /** Arbitrarily nested data: primitives, application BOOLEANs and constructed values. */
  datatype Data =
    | Nil
    | Prim(tag: TagNumber, isContext: bool, body: Bytes, rest: Data)
    | Bool(value: bool, rest: Data)
    | Nest(tag: TagNumber, inner: Data, rest: Data)

  predicate Encodable(d: Data) {
    match d
    case Nil => true
    case Prim(tag, isContext, body, rest) =>
      |body| < 0x1_0000 && (isContext || tag != 1) && Encodable(rest)
    case Bool(_, rest) => Encodable(rest)
    case Nest(_, inner, rest) => Encodable(inner) && Encodable(rest)
  }

  function EncodeData(d: Data): Bytes
    requires Encodable(d)
  {
    match d
    case Nil => []
    case Prim(tag, isContext, body, rest) => Primitive(tag, isContext, body) + EncodeData(rest)
    case Bool(v, rest) => ApplicationBoolean(v) + EncodeData(rest)
    case Nest(tag, inner, rest) => Opening(tag) + EncodeData(inner) + Closing(tag) + EncodeData(rest)
  }

  lemma {:induction false} EncodedIsBalanced(d: Data)
    requires Encodable(d)
    ensures Balanced(EncodeData(d))
  {
    hide Primitive, Opening, Closing, ApplicationBoolean;
    match d
    case Nil =>
    case Prim(tag, isContext, body, rest) =>
      EncodedIsBalanced(rest);
      BalancedPrimitive(tag, isContext, body);
      BalancedConcat(Primitive(tag, isContext, body), EncodeData(rest));
    case Bool(v, rest) =>
      EncodedIsBalanced(rest);
      BalancedBoolean(v);
      BalancedConcat(ApplicationBoolean(v), EncodeData(rest));
    case Nest(tag, inner, rest) =>
      EncodedIsBalanced(inner);
      EncodedIsBalanced(rest);
      BalancedWrap(tag, EncodeData(inner));
      BalancedConcat(Opening(tag) + EncodeData(inner) + Closing(tag), EncodeData(rest));
  }

  /** Every scan returns exactly the encoded contents, whatever stands before and after. */
  lemma EncodedBody(d: Data, before: Bytes, tag: TagNumber, after: Bytes)
    requires Encodable(d)
    ensures BodyOf(before + EncodeData(d) + Closing(tag) + after, |before|)
            == Returned((EncodeData(d), |before| + |EncodeData(d)| + 1))
  {
    hide Balanced, BodyOf, Closing;
    EncodedIsBalanced(d);
    BodyInMessage(before, EncodeData(d), tag, after);
  }

  lemma BodyInMessage(before: Bytes, v: Bytes, tag: TagNumber, after: Bytes)
    requires Balanced(v)
    ensures BodyOf(before + v + Closing(tag) + after, |before|) == Returned((v, |before| + |v| + 1))
  {
    hide ReadTag, Scan, Walk;
    var a := before + v + Closing(tag) + after;
    assert a == before + v + (Closing(tag) + after);
    OccursIn(before, v, Closing(tag) + after);
    ReadClosing(tag, a, |before| + |v|);
    BodyOfBalanced(v, a, |before|);
  }
}
