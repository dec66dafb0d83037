/** Reads whose answers are longer than the receive buffer: the client never gets the value, so a read over the wire
    is the direct read exactly when its datagrams fit. */
module LongAnswers {
  import opened Octets
  import opened Tags
  import opened Constructed
  import opened Network
  import opened Requests
  import opened Server
  import opened Arbiter
  import Direct
  import opened EndToEnd
  import opened Protocol

  // -- what a message and a prefix of it have in common ---------------------------------

  /** An opening or closing tag ends inside the data. */
  lemma MarkerEnds(b: Bytes, i: nat)
    ensures ReadTag(b, i).Returned? && ReadTag(b, i).value.kind != Value ==> ReadTag(b, i).value.next <= |b|
  {
    hide ReadHead, ReadLength, Slice;
    assert b[0..|b|] == b;
    ReadHeadLocal(b, b, 0, i);
  }

  /** A tag that ends within the prefix is a tag of the whole. */
  lemma TagOfPrefix(a: Bytes, k: nat, i: nat)
    requires k <= |a|
    ensures var t := ReadTag(a[..k], i);
            && (t.Returned? && t.value.next <= k ==> ReadTag(a, i) == t)
            && (t.Returned? && t.value.kind != Value ==> t.value.next <= k)
  {
    hide ReadTag;
    assert Occurs(a[..k], a, 0);
    ReadTagLocal(a[..k], a, 0, i);
    MarkerEnds(a[..k], i);
  }

  lemma {:induction false} ScanOfPrefix(a: Bytes, k: nat, i: nat, depth: nat)
    requires k <= |a| && depth > 0 && Scan(a[..k], i, depth).Returned?
    ensures Scan(a, i, depth) == Scan(a[..k], i, depth)
    ensures ReadTag(a, Scan(a, i, depth).value).Returned? && ReadTag(a, Scan(a, i, depth).value).value.next <= k
    decreases Left(a[..k], i)
  {
    hide ReadTag;
    TagOfPrefix(a, k, i);
    var t := ReadTag(a[..k], i).value;
    if !(t.kind == Close && depth == 1) {
      var inner: nat := match t.kind case Open => depth + 1 case Close => depth - 1 case Value => depth;
      assert Scan(a[..k], i, depth) == Scan(a[..k], t.next, inner);
      assert t.next <= k by {
        StopsInside(a[..k], t.next, inner);
      }
      ScanOfPrefix(a, k, t.next, inner);
    }
  }

  lemma StopsInside(b: Bytes, i: nat, depth: nat)
    requires depth > 0 && Scan(b, i, depth).Returned?
    ensures i < |b|
  {
  }

  lemma {:induction false} OpeningOfPrefix(a: Bytes, k: nat, i: nat)
    requires k <= |a| && FirstOpening(a[..k], i).Returned? && FirstOpening(a[..k], i).value.Some?
    ensures FirstOpening(a, i) == FirstOpening(a[..k], i)
    decreases Left(a[..k], i)
  {
    hide ReadTag;
    TagOfPrefix(a, k, i);
    var t := ReadTag(a[..k], i).value;
    if !(t.isContext && t.number == 3 && t.kind == Open) {
      assert t.next <= k;
      OpeningOfPrefix(a, k, t.next);
    }
  }

  /** Where the first [3] ends, its closing tag included. */
  function ValueEnd(a: Bytes, i: nat): Option<nat> {
    var start := FirstOpening(a, i);
    if start.Raised? || start.value.None? then None else
    var end := EndOf(a, start.value.value);
    if end.Raised? then None else Some(end.value)
  }

  /** A value read from a prefix ends within it. */
  lemma ValueOfPrefix(a: Bytes, k: nat, i: nat)
    requires k <= |a| && ReadValue(a[..k], i).Returned? && ReadValue(a[..k], i).value.Some?
    ensures ValueEnd(a, i).Some? && ValueEnd(a, i).value <= k
  {
    hide ReadTag, Scan, FirstOpening;
    OpeningOfPrefix(a, k, i);
    ScanOfPrefix(a, k, FirstOpening(a[..k], i).value.value, 1);
  }

  lemma AckEnd(invokeId: Octet, o: ObjectId, property: U32, index: Option<U32>, value: Bytes)
    requires Balanced(value)
    ensures var apdu := ReadAck(invokeId, o, property, index, value); ValueEnd(apdu, 3) == Some(|apdu|)
  {
    hide ReadTag, Scan, Balanced, Target, Enclosed, Occurs;
    var apdu := ReadAck(invokeId, o, property, index, value);
    var head, target := [0x30, invokeId, SERVICE_READ_PROPERTY], Target(o, property, index);
    OccursIn(head, target + Enclosed(3, value), []);
    assert head + (target + Enclosed(3, value)) + [] == apdu;
    OccursSplit(target, Enclosed(3, value), apdu, 3);
    SkipTarget(o, property, index, apdu, 3);
    var at := 3 + |target|;
    ReadEnclosed(3, value, apdu, at);
    EnclosedLength(3, value);
    BodyOfBalanced(value, apdu, at + 1);
  }

  /** Cut anywhere, an ACK does not give its value. */
  lemma CutAckLost(apdu: Bytes, value: Bytes, k: nat)
    requires IsAck(apdu, Some(value)) && k < |apdu|
    ensures ReadValue(apdu[..k], 3) != Returned(Some(value))
  {
    hide ReadAck, Balanced, ReadValue, ValueEnd;
    var invokeId, o, property, index :| apdu == ReadAck(invokeId, o, property, index, value);
    AckEnd(invokeId, o, property, index, value);
    if ReadValue(apdu[..k], 3) == Returned(Some(value)) {
      ValueOfPrefix(apdu, k, 3);
    }
  }

  // -- reads over the wire ----------------------------------------------------------------

  /** A ReadProperty request always fits. */
  lemma ReadRequestFits(invokeId: Octet, path: Path, c: Direct.Call)
    requires c.ReadCall? && PathOk(path)
    ensures 4 + |Npdu(EncodeCall(invokeId, c), RequestNpci(path))| <= RECEIVE_BUFFER
    ensures Cut(EncodeCall(invokeId, c), RequestNpci(path)) == EncodeCall(invokeId, c)
  {
    hide Npdu;
    HeaderOctets(RequestNpci(path));
    ReadRequestOctets(invokeId, c);
  }

  lemma ReadRequestOctets(invokeId: Octet, c: Direct.Call)
    requires c.ReadCall?
    ensures |EncodeCall(invokeId, c)| <= 30
  {
  }

  /** Of the replies only a value can be too long. */
  lemma OnlyValuesAreLong(p: Direct.Plain, path: Path, c: Direct.Call)
    requires |p.config.objectName| < 253 && PathOk(path) && c.ReadCall? && !Fits(p, path, c)
    ensures Direct.Perform(p, c).1.Content?
    ensures ReplyHeaders(path) + SizeOf(p, c, Direct.Perform(p, c).1) > RECEIVE_BUFFER
  {
    hide EncodeCall, Npdu, ReadAckSize, ByElement, Direct.DirectRead, Direct.Visible;
    ReadRequestFits(0, path, c);
    ReadReplies(p, c);
  }

  lemma ReadReplies(p: Direct.Plain, c: Direct.Call)
    requires |p.config.objectName| < 253 && c.ReadCall?
    ensures var reply := Direct.Perform(p, c).1; !reply.Properties?
  {
    hide Direct.Visible;
  }

  /** What the client makes of a long value: it raises, or the server did. */
  lemma LongReadLost(s: State, invokeId: Octet, path: Path, c: Direct.Call)
    requires Invariant(s) && WellFormed(s) && PathOk(path) && c.ReadCall? && CallOk(Abs(s), c)
    requires !Fits(Abs(s), path, c)
    ensures WireCall(s, invokeId, path, c).1 != Returned(Direct.Perform(Abs(s), c).1)
  {
    hide FrameOf, Npdu, Bvlc, AnswerFrame, Received, RequestFrame, ReplyFrame, ReplyNpci, Cut, Fits, IsAck, Carries,
         Abs, Invariant, WellFormed, CallOk, EncodeCall, Direct.Perform, SizeOf, Matching, Interpret;
    var request := EncodeCall(invokeId, c);
    var f := RequestFrame(request, path);
    NameFits(s);
    ReadRequestFits(invokeId, path, c);
    WholeDatagram(Npdu(request, RequestNpci(path)));
    RequestSeen(request, path);
    RequestIsServed(s, request, path);
    CallServed(s, invokeId, path, c);
    OnlyValuesAreLong(Abs(s), path, c);
    var reply := Direct.Perform(Abs(s), c).1;
    var r := AnswerFrame(s, f).1;
    if r.value.Some? {
      var apdu, n := r.value.value, ReplyNpci(f);
      ReplyFits(apdu, request, path);
      if FitsBvll(Npdu(apdu, n)) {
        ReplySeen(request, apdu, path);
        CutValue(apdu, invokeId, n, path, c, reply);
      }
    }
  }

  lemma CutValue(apdu: Bytes, invokeId: Octet, n: Npci, path: Path, c: Direct.Call, reply: Direct.Reply)
    requires PathOk(path) && Packable(n) && c.ReadCall? && reply.Content? && IsAck(apdu, reply.octets)
    requires 4 + |Npdu(apdu, n)| > RECEIVE_BUFFER
    ensures Interpret(c, ReplyFrame(Cut(apdu, n), path)) != Returned(reply)
  {
    hide Npdu, ReadValue, ErrorClassAndCode, IsAck;
    HeaderOctets(n);
    var k: nat := RECEIVE_BUFFER - 4 - |Npdu([], n)|;
    assert k < |apdu| && Cut(apdu, n) == apdu[..k];
    HasValue(apdu, reply.octets);
    CutAckLost(apdu, reply.octets.value, k);
  }

  lemma HasValue(apdu: Bytes, value: Option<Bytes>)
    requires IsAck(apdu, value)
    ensures value.Some?
  {
  }

  /** A ReadProperty over the wire gives the direct reply if and only if its datagrams fit the receive buffers. */
  lemma ReadRefinesExactly(s: State, invokeId: Octet, path: Path, c: Direct.Call)
    requires Invariant(s) && WellFormed(s) && PathOk(path) && c.ReadCall? && CallOk(Abs(s), c)
    ensures WireCall(s, invokeId, path, c).1 == Returned(Direct.Perform(Abs(s), c).1) <==> Fits(Abs(s), path, c)
  {
    hide WireCall, Direct.Perform, Abs, Invariant, WellFormed, CallOk, Fits;
    NameFits(s);
    if Fits(Abs(s), path, c) {
      CallRefines(s, invokeId, path, c);
    } else {
      LongReadLost(s, invokeId, path, c);
    }
  }
}
