/** Application-tagged primitives: the encoders, `decode_application`, and lists of them. */
module Primitives {
  import opened Octets
  import opened Tags
  import opened Constructed
  import opened Network
  import opened Requests
  import opened Multiple
  import opened Server
  import opened BitStrings
  import EndToEnd

  // -- signed integers (clause 20.2.5) -------------------------------------------------

  type I32 = v: int | -0x8000_0000 <= v < 0x8000_0000

  function SignedLength(v: I32): nat {
    if -0x80 <= v < 0x80 then 1 else if -0x8000 <= v < 0x8000 then 2 else if -0x80_0000 <= v < 0x80_0000 then 3 else 4
  }

  /** Two's complement, big-endian, in the fewest octets that hold it. */
  function SignedOctets(v: I32): (b: Bytes)
    ensures |b| == SignedLength(v)
  {
    var n := SignedLength(v);
    if n == 1 then [if v < 0 then v + 256 else v]
    else if n == 2 then U16Bytes(if v < 0 then v + 0x1_0000 else v)
    else if n == 3 then ThreeOctets(if v < 0 then v + 0x100_0000 else v)
    else U32Bytes(if v < 0 then v + 0x1_0000_0000 else v)
  }

  function ThreeOctets(u: nat): (b: Bytes)
    requires u < 0x100_0000
    ensures |b| == 3
  {
    [u / 256 / 256, u / 256 % 256, u % 256]
  }

  lemma Pow256Small()
    ensures Pow256(1) == 256 && Pow256(2) == 0x1_0000 && Pow256(3) == 0x100_0000 && Pow256(4) == 0x1_0000_0000
  {
  }

  lemma SignedRoundTrip(v: I32)
    ensures FromSignedBytes(SignedOctets(v)) == v
  {
    hide FromBytes, Pow256;
    Pow256Small();
    var b := SignedOctets(v);
    var n := SignedLength(v);
    if n == 1 {
      FromBytes1(b[0]);
    } else if n == 2 {
      FromBytes2(b[0], b[1]);
    } else if n == 3 {
      FromBytes3(b[0], b[1], b[2]);
    } else {
      TopOctet(if v < 0 then v + 0x1_0000_0000 else v);
    }
  }

  lemma TopOctet(u: U32)
    ensures FromBytes(U32Bytes(u)) == u && (U32Bytes(u)[0] >= 128 <==> u >= 0x8000_0000)
  {
    hide FromBytes;
    U32RoundTrip(u);
    assert u / 256 / 256 / 256 >= 128 <==> u / 256 / 256 >= 0x8000;
    assert u / 256 / 256 >= 0x8000 <==> u / 256 >= 0x80_0000;
  }

  /** No shorter two's complement has the same value. */
  lemma SignedShortest(v: I32, b: Bytes)
    requires b != [] && FromSignedBytes(b) == v
    ensures |SignedOctets(v)| <= |b|
  {
    hide FromBytes, Pow256;
    Pow256Small();
    if |b| == 1 {
      assert b == [b[0]];
      FromBytes1(b[0]);
    } else if |b| == 2 {
      assert b == [b[0], b[1]];
      FromBytes2(b[0], b[1]);
    } else if |b| == 3 {
      assert b == [b[0], b[1], b[2]];
      FromBytes3(b[0], b[1], b[2]);
    }
  }

  // -- encoders ---------------------------------------------------------------------------

  function ApplicationSigned(v: I32): Bytes { Primitive(3, false, SignedOctets(v)) }

  /** Short, one-octet and 254-prefixed two-octet lengths. */
  function ApplicationOctetString(octets: Bytes): Bytes
    requires |octets| < 0x1_0000
  {
    Primitive(6, false, octets)
  }

  /** The octet with its top bit set. */
  function OrTop(n: Octet): Octet { if n < 128 then 128 + n else n }

  /** `application_bit_string` puts the length of the contents in the tag octet whatever it is; 256 octets
      or more raise ValueError. */
  function ApplicationBitString(bits: seq<bool>): Outcome<Bytes> {
    var body := BitBody(bits);
    if |body| < 256 then Returned([OrTop(|body|)] + body) else Raised(ValueError)
  }

  // -- the decoder --------------------------------------------------------------------------

  /** A Python value: None, a bool, an int, the octets of a REAL or Double, of text or of anything else, a
      list of bools, or an object identifier. */
  datatype Decoded =
    | Nothing
    | Truth(truth: bool)
    | Int(number: int)
    | Float(octets: Bytes)
    | Text(text: Bytes)
    | BitList(bits: seq<bool>)
    | Identifier(target: ObjectId)
    | Raw(raw: Bytes)

  function DecodeContents(number: nat, body: Bytes): Outcome<Decoded> {
    match number
    case 0 => Returned(Nothing)
    case 1 => if body == [] then Raised(IndexError) else Returned(Truth(body[0] != 0))
    case 2 => Returned(Int(FromBytes(body)))
    case 9 => Returned(Int(FromBytes(body)))
    case 3 => Returned(Int(FromSignedBytes(body)))
    case 4 => if |body| == 4 then Returned(Float(body)) else Raised(StructError)
    case 5 => if |body| == 8 then Returned(Float(body)) else Raised(StructError)
    case 7 => Returned(Text(Slice(body, 1, |body|)))
    case 8 =>
      var bits :- DecodeBits(body);
      Returned(BitList(bits))
    case 12 =>
      var o :- UnpackObjectId(body);
      Returned(Identifier(o))
    case _ => Returned(Raw(body))
  }

  function DecodeApplication(octets: Bytes): Outcome<Decoded> {
    if octets == [] then Returned(Nothing) else
    var t :- ReadTag(octets, 0);
    if t.isContext || t.kind != Value then Returned(Nothing) else DecodeContents(t.number, t.body)
  }

  // -- round trips, whatever follows ------------------------------------------------------------

  lemma DecodePrimitive(tag: TagNumber, body: Bytes, after: Bytes)
    requires |body| < 0x1_0000 && tag != 1
    ensures DecodeApplication(Primitive(tag, false, body) + after) == DecodeContents(tag, body)
  {
    hide ReadTag, DecodeContents, Header;
    var a := Primitive(tag, false, body) + after;
    OccursIn([], Primitive(tag, false, body), after);
    assert [] + Primitive(tag, false, body) + after == a;
    ReadPrimitiveAt(tag, false, body, a, 0);
  }

  /** Clause 20.2: unsigned and enumerated, signed, octet string, object identifier and boolean. */
  lemma PrimitivesRoundTrip(u: U32, v: I32, octets: Bytes, o: ObjectId, b: bool, after: Bytes)
    requires |octets| < 0x1_0000
    ensures DecodeApplication(ApplicationUnsigned(u) + after) == Returned(Int(u))
    ensures DecodeApplication(ApplicationEnumerated(u) + after) == Returned(Int(u))
    ensures DecodeApplication(ApplicationSigned(v) + after) == Returned(Int(v))
    ensures DecodeApplication(ApplicationOctetString(octets) + after) == Returned(Raw(octets))
    ensures DecodeApplication(ApplicationObjectId(o) + after) == Returned(Identifier(o))
    ensures DecodeApplication(ApplicationBoolean(b) + after) == Returned(Truth(b))
    ensures DecodeApplication(ApplicationNull() + after) == Returned(Nothing)
  {
    hide DecodeApplication, Primitive, FromBytes, FromSignedBytes, UnpackObjectId, UnsignedOctets, SignedOctets;
    DecodePrimitive(2, UnsignedOctets(u), after);
    DecodePrimitive(9, UnsignedOctets(u), after);
    UnsignedRoundTrip(u);
    DecodePrimitive(3, SignedOctets(v), after);
    SignedRoundTrip(v);
    DecodePrimitive(6, octets, after);
    DecodePrimitive(12, ObjectIdBytes(o), after);
    ObjectIdRoundTrip(o);
    DecodeSimple(b, after);
  }

  /** The rest of `decode_application`: REAL, Double and text without its character set octet; what is no primitive, and
      what is context-tagged, is None; any other application tag gives its contents. */
  lemma OthersDecode(tag: TagNumber, body: Bytes, after: Bytes)
    requires |body| < 0x1_0000
    ensures DecodeApplication([]) == Returned(Nothing)
    ensures DecodeApplication(Primitive(tag, true, body) + after) == Returned(Nothing)
    ensures DecodeApplication(Opening(tag) + after) == Returned(Nothing)
    ensures DecodeApplication(Primitive(4, false, body) + after)
            == if |body| == 4 then Returned(Float(body)) else Raised(StructError)
    ensures DecodeApplication(Primitive(5, false, body) + after)
            == if |body| == 8 then Returned(Float(body)) else Raised(StructError)
    ensures DecodeApplication(Primitive(7, false, body) + after)
            == Returned(Text(if body == [] then [] else body[1..]))
    ensures tag in {6, 10, 11, 13, 14} ==>
              DecodeApplication(Primitive(tag, false, body) + after) == Returned(Raw(body))
  {
    hide ReadTag, Primitive, FromBytes;
    var a, b := Primitive(tag, true, body) + after, Opening(tag) + after;
    OccursIn([], Primitive(tag, true, body), after);
    assert [] + Primitive(tag, true, body) + after == a;
    ReadPrimitiveAt(tag, true, body, a, 0);
    ReadOpening(tag, b, 0);
    DecodePrimitive(4, body, after);
    DecodePrimitive(5, body, after);
    DecodePrimitive(7, body, after);
    assert Slice(body, 1, |body|) == if body == [] then [] else body[1..];
    if tag != 1 {
      DecodePrimitive(tag, body, after);
    }
  }

  lemma DecodeSimple(b: bool, after: Bytes)
    ensures DecodeApplication(ApplicationBoolean(b) + after) == Returned(Truth(b))
    ensures DecodeApplication(ApplicationNull() + after) == Returned(Nothing)
  {
    hide ReadTag;
    ReadBoolean(b, ApplicationBoolean(b) + after, 0);
    var a := ApplicationNull() + after;
    ReadNull(a);
  }

  lemma ReadNull(a: Bytes)
    requires |a| > 0 && a[0] == 0
    ensures ReadTag(a, 0) == Returned(Tag(0, false, Value, [], 1))
  {
  }

  /** A bit string whose contents take 5 octets claims an extended length, and one of 8 or more spoils
      the tag: exactly the others read back. */
  predicate FitsTag(bits: seq<bool>) { |bits| <= 24 || 33 <= |bits| <= 48 }

  lemma BitStringRoundTrip(bits: seq<bool>)
    ensures ApplicationBitString(bits).Raised? <==> |bits| > 2032
    ensures ApplicationBitString(bits).Returned? ==>
              (ReadTag(ApplicationBitString(bits).value, 0)
               == Returned(Tag(8, false, Value, BitBody(bits), 1 + |BitBody(bits)|))
               <==> FitsTag(bits))
  {
    hide Packed, ReadTag, OrTop;
    var body := BitBody(bits);
    BodyLength(bits);
    assert |body| < 256 ==> [OrTop(|body|)] + body + [] == [OrTop(|body|)] + body;
    if FitsTag(bits) {
      BitTag(body, []);
    } else if |body| == 5 {
      ShiftedTag(body, []);
    } else if |body| < 256 {
      SpoiledTag(body, []);
    }
  }

  lemma BodyLength(bits: seq<bool>)
    ensures |BitBody(bits)| == 1 + OctetCount(|bits|)
  {
  }

  lemma BitTag(body: Bytes, after: Bytes)
    requires 1 <= |body| <= 7 && |body| != 5
    ensures ReadTag([OrTop(|body|)] + body + after, 0) == Returned(Tag(8, false, Value, body, 1 + |body|))
  {
    hide FromBytes, Slice, OrTop;
    var a := [OrTop(|body|)] + body + after;
    TopOfTag(|body|);
    assert ReadHead(a, 0) == Returned(Head(8, false, |body|, 1));
    assert Slice(a, 1, 1 + |body|) == body by {
      OccursIn([OrTop(|body|)], body, after);
      OccursSlice(body, a, 1, 0, |body|);
    }
  }

  lemma TopOfTag(n: Octet)
    requires n < 8
    ensures OrTop(n) / 16 == 8 && OrTop(n) / 8 % 2 == 0 && OrTop(n) % 8 == n
  {
  }

  /** A spoiled tag octet: no bit string, or one of at most seven octets. */
  lemma SpoiledTag(body: Bytes, after: Bytes)
    requires 8 <= |body| < 256 && body[0] < 8
    ensures var t := ReadTag([OrTop(|body|)] + body + after, 0);
            t.Returned? && !t.value.isContext && t.value.number == 8 ==> |t.value.body| <= 7
  {
    hide FromBytes;
    var a := [OrTop(|body|)] + body + after;
    assert a[0] == OrTop(|body|) && a[1] == body[0];
  }

  /** Five octets of contents: the first is taken for the length, and the contents start after it. */
  lemma ShiftedTag(body: Bytes, after: Bytes)
    requires |body| == 5 && body[0] < 8
    ensures var a := [OrTop(5)] + body + after;
            ReadTag(a, 0) == Returned(Tag(8, false, Value, Slice(a, 2, 2 + body[0]), 2 + body[0]))
  {
    hide FromBytes;
    var a := [OrTop(5)] + body + after;
    assert a[0] == OrTop(5) && a[1] == body[0];
  }

  lemma ShiftedContents(bits: seq<bool>, after: Bytes)
    requires 25 <= |bits| <= 32
    ensures DecodeBits(Slice([OrTop(5)] + BitBody(bits) + after, 2, 2 + (32 - |bits|))) != Returned(bits)
  {
    hide Packed, Without, AllBits, MaskSet;
    var octets := Packed(bits);
    PackedHolds(bits);
    var a := [OrTop(5)] + BitBody(bits) + after;
    var contents := Slice(a, 2, 2 + (32 - |bits|));
    if contents != [] {
      var later := contents[1..];
      assert contents[0] == a[2] == octets[0];
      forall i | 0 <= i < 3 && i < |later|
        ensures later[i] == octets[i + 1]
      {
        assert later[i] == a[3 + i];
      }
      ShiftedBits(octets, bits, later);
    }
  }

  lemma FewBits(body: Bytes)
    ensures DecodeBits(body).Returned? ==> |DecodeBits(body).value| <= 8 * |body| - 8
  {
    hide AllBits, Without;
    if body != [] {
      WithoutLength(body[1..], body[0]);
    }
  }

  /** For exactly the sizes that fit the tag the decoder gives back the bits, whatever follows. */
  lemma DecodeBitString(bits: seq<bool>, after: Bytes)
    requires ApplicationBitString(bits).Returned?
    ensures DecodeApplication(ApplicationBitString(bits).value + after) == Returned(BitList(bits)) <==> FitsTag(bits)
  {
    hide ReadTag, DecodeBits, Packed, OrTop;
    var body := BitBody(bits);
    BodyLength(bits);
    if FitsTag(bits) {
      BitTag(body, after);
      BitsRoundTrip(bits);
    } else if |body| == 5 {
      ShiftedTag(body, after);
      ShiftedContents(bits, after);
    } else {
      SpoiledTag(body, after);
      var t := ReadTag([OrTop(|body|)] + body + after, 0);
      if t.Returned? {
        FewBits(t.value.body);
      }
    }
  }

  // -- lists of primitives --------------------------------------------------------------------------

  function Concat(elements: seq<Bytes>): Bytes {
    if elements == [] then [] else elements[0] + Concat(elements[1..])
  }

  /** `e` is exactly one primitive. */
  predicate IsPrimitive(e: Bytes) {
    var t := ReadTag(e, 0);
    t.Returned? && t.value.kind == Value && t.value.next == |e|
  }

  predicate AllPrimitive(elements: seq<Bytes>) { forall i | 0 <= i < |elements| :: IsPrimitive(elements[i]) }

  /** Splitting a list of primitives gives exactly those primitives. */
  lemma {:induction false} ElementsOfList(elements: seq<Bytes>, a: Bytes, at: nat)
    requires AllPrimitive(elements) && Occurs(Concat(elements), a, at) && |a| == at + |Concat(elements)|
    ensures Elements(a, at) == Returned(elements)
    decreases |elements|
  {
    hide ReadTag;
    if elements != [] {
      var e, rest := elements[0], elements[1..];
      assert IsPrimitive(e);
      OccursSplit(e, Concat(rest), a, at);
      ReadTagLocal(e, a, at, 0);
      OccursSlice(e, a, at, 0, |e|);
      assert e[0..|e|] == e;
      ElementsOfList(rest, a, at + |e|);
      assert [e] + rest == elements;
    }
  }

  /** Conversely the elements of any octets, put together, are those octets. */
  lemma {:induction false} ElementsCover(octets: Bytes, position: nat)
    requires Elements(octets, position).Returned?
    ensures Concat(Elements(octets, position).value) == Slice(octets, position, |octets|)
    decreases Left(octets, position)
  {
    hide ReadTag;
    if position < |octets| {
      var t := ReadTag(octets, position).value;
      ElementsCover(octets, t.next);
      var rest := Elements(octets, t.next).value;
      var elements := Elements(octets, position).value;
      assert elements[1..] == rest;
      assert Slice(octets, position, t.next) + Slice(octets, t.next, |octets|) == Slice(octets, position, |octets|);
    }
  }

  lemma PrimitiveBalanced(e: Bytes)
    requires IsPrimitive(e)
    ensures Balanced(e)
  {
    hide ReadTag;
    assert Walk(e, |e|, 0);
  }

  lemma {:induction false} ListBalanced(elements: seq<Bytes>)
    requires AllPrimitive(elements)
    ensures Balanced(Concat(elements))
  {
    hide IsPrimitive, Balanced;
    if elements == [] {
      assert Balanced([]) by {
        NothingBalanced();
      }
    } else {
      PrimitiveBalanced(elements[0]);
      ListBalanced(elements[1..]);
      BalancedConcat(elements[0], Concat(elements[1..]));
    }
  }

  lemma NothingBalanced()
    ensures Balanced([])
  {
  }

  lemma ListFlat(elements: seq<Bytes>)
    requires AllPrimitive(elements) && |elements| < 0x1_0000_0000
    ensures Elements(Concat(elements), 0) == Returned(elements)
    ensures EndToEnd.Flat(Concat(elements)) && Balanced(Concat(elements))
    ensures forall i | 0 <= i < |elements| :: Balanced(elements[i])
  {
    hide Elements, Balanced, IsPrimitive, Concat;
    var value := Concat(elements);
    OccursIn([], value, []);
    assert [] + value + [] == value;
    ElementsOfList(elements, value, 0);
    ListBalanced(elements);
    forall i | 0 <= i < |elements|
      ensures Balanced(elements[i])
    {
      PrimitiveBalanced(elements[i]);
    }
  }

  // -- reads of an array the server stores ------------------------------------------------------------

  /** What the server serves of the property is these elements one after another, and reads of the object are
      answered, without a scripted failure. */
  predicate Stores(s: State, o: ObjectId, property: U32, elements: seq<Bytes>) {
    && Served(s.objects, o, property) == Some(Concat(elements))
    && AllPrimitive(elements) && |elements| < 0x1_0000_0000
    && s.script.mode != Offline && (s.script.mode == Online ==> o !in s.script.failures)
  }

  /** The server's answer to an encoded ReadProperty. */
  function ReadAnswer(s: State, invokeId: Octet, path: Path, o: ObjectId, property: U32, index: Option<U32>)
    : (State, Answer)
    requires WellFormed(s) && PathOk(path)
  {
    AnswerFrame(s, RequestFrame(ReadRequest(invokeId, o, property, index), path))
  }

  lemma ReadArrives(s: State, invokeId: Octet, path: Path, o: ObjectId, property: U32, index: Option<U32>)
    requires WellFormed(s) && PathOk(path) && o in s.objects
    requires s.script.mode != Offline && (s.script.mode == Online ==> o !in s.script.failures)
    ensures ReadAnswer(s, invokeId, path, o, property, index)
            == ReadListed(s, invokeId, o, property, Widen(index), None)
  {
    hide ParseRead, ParseIndexedRead, ReadRequest, ReadListed, ReadDevice, RequestFrame, RejectPdu, AbortPdu,
         WellFormed, FailureFor;
    EndToEnd.ReadFrame(invokeId, path, o, property, index);
    EndToEnd.FailureOfCall(s, RequestFrame(ReadRequest(invokeId, o, property, index), path), o);
  }

  /** Clause 15.5.1.1.3: served by element, element 0 is answered with the count, element k with the k-th, and
      one past the end with INVALID_ARRAY_INDEX; the server notes each such read. */
  lemma IndexedReads(s: State, invokeId: Octet, path: Path, o: ObjectId, property: U32, elements: seq<Bytes>,
                     index: U32)
    requires WellFormed(s) && PathOk(path) && Stores(s, o, property, elements) && s.config.arrayElements
    ensures var (t, r) := ReadAnswer(s, invokeId, path, o, property, Some(index));
            && r == Returned(Some(if index == 0 then
                                    ReadAck(invokeId, o, property, Some(0), ApplicationUnsigned(|elements|))
                                  else if index <= |elements| then
                                    ReadAck(invokeId, o, property, Some(index), elements[index - 1])
                                  else ReadError(invokeId, ERROR_CLASS_PROPERTY, ERROR_CODE_INVALID_ARRAY_INDEX)))
            && t.log.arrayReads == s.log.arrayReads + [(o, property as nat, index as nat)]
  {
    hide ReadAck, ReadError, Elements, AllPrimitive, Concat, ApplicationUnsigned, WellFormed, ReadAnswer;
    ReadArrives(s, invokeId, path, o, property, Some(index));
    ListFlat(elements);
  }

  /** Without an index the whole value is answered, or an Abort if it is not to be read whole. */
  lemma WholeRead(s: State, invokeId: Octet, path: Path, o: ObjectId, property: U32, elements: seq<Bytes>)
    requires WellFormed(s) && PathOk(path) && Stores(s, o, property, elements)
    ensures ReadAnswer(s, invokeId, path, o, property, None).1
            == Returned(Some(if (o, property) in s.script.wholeArraysRefused
                             then AbortPdu(invokeId, ABORT_REASON_SEGMENTATION_NOT_SUPPORTED)
                             else ReadAck(invokeId, o, property, None, Concat(elements))))
  {
    hide ReadAck, AbortPdu, AllPrimitive, Concat, WellFormed, ReadAnswer;
    ReadArrives(s, invokeId, path, o, property, None);
  }

  /** The value octets the client finds in the answer. */
  function ClientReads(s: State, invokeId: Octet, path: Path, o: ObjectId, property: U32, index: Option<U32>)
    : Option<Bytes>
    requires WellFormed(s) && PathOk(path)
  {
    var r := ReadAnswer(s, invokeId, path, o, property, index).1;
    if r.Raised? || r.value.None? then None else
    var value := ReadValue(r.value.value, 3);
    if value.Raised? then None else value.value
  }

  lemma ClientElement(s: State, invokeId: Octet, path: Path, o: ObjectId, property: U32, elements: seq<Bytes>,
                      index: U32)
    requires WellFormed(s) && PathOk(path) && Stores(s, o, property, elements) && s.config.arrayElements
    requires index <= |elements|
    ensures ClientReads(s, invokeId, path, o, property, Some(index))
            == Some(if index == 0 then ApplicationUnsigned(|elements|) else elements[index - 1])
  {
    hide ReadAnswer, ReadAck, ReadValue, AllPrimitive, Balanced, ApplicationUnsigned, WellFormed, Concat, ReadError,
         Stores;
    StoredList(s, o, property, elements);
    ListFlat(elements);
    IndexedReads(s, invokeId, path, o, property, elements, index);
    EndToEnd.CountBalanced(|elements|);
    ReadAckRoundTrip(invokeId, o, property, Some(index),
                     if index == 0 then ApplicationUnsigned(|elements|) else elements[index - 1]);
  }

  lemma ClientWhole(s: State, invokeId: Octet, path: Path, o: ObjectId, property: U32, elements: seq<Bytes>)
    requires WellFormed(s) && PathOk(path) && Stores(s, o, property, elements)
    requires (o, property) !in s.script.wholeArraysRefused
    ensures ClientReads(s, invokeId, path, o, property, None) == Some(Concat(elements))
  {
    hide ReadAnswer, ReadAck, ReadValue, AllPrimitive, Balanced, WellFormed, Concat, AbortPdu, Stores;
    StoredList(s, o, property, elements);
    ListFlat(elements);
    WholeRead(s, invokeId, path, o, property, elements);
    ReadAckRoundTrip(invokeId, o, property, None, Concat(elements));
  }

  /** Of a list stored in the server the client reads the count, each element, and without an index exactly the
      elements it reads one by one put together. */
  lemma ArrayReads(s: State, invokeId: Octet, path: Path, o: ObjectId, property: U32, elements: seq<Bytes>)
    requires WellFormed(s) && PathOk(path) && Stores(s, o, property, elements) && s.config.arrayElements
    ensures ClientReads(s, invokeId, path, o, property, Some(0)) == Some(ApplicationUnsigned(|elements|))
    ensures var replies := seq(|elements|, k requires 0 <= k < |elements| =>
                                             ClientReads(s, invokeId, path, o, property, Some(k + 1)));
            && (forall k | 0 <= k < |elements| :: replies[k] == Some(elements[k]))
            && ((o, property) !in s.script.wholeArraysRefused ==>
                  ClientReads(s, invokeId, path, o, property, None) == Joined(replies))
  {
    hide ClientReads, AllPrimitive, ApplicationUnsigned, WellFormed, Concat, Stores;
    StoredList(s, o, property, elements);
    ClientElement(s, invokeId, path, o, property, elements, 0);
    var replies := seq(|elements|, k requires 0 <= k < |elements| =>
                                     ClientReads(s, invokeId, path, o, property, Some(k + 1)));
    forall k | 0 <= k < |elements|
      ensures replies[k] == Some(elements[k])
    {
      ClientElement(s, invokeId, path, o, property, elements, k + 1);
    }
    if (o, property) !in s.script.wholeArraysRefused {
      ClientWhole(s, invokeId, path, o, property, elements);
    }
    JoinedAll(replies, elements);
  }

  lemma StoredList(s: State, o: ObjectId, property: U32, elements: seq<Bytes>)
    requires Stores(s, o, property, elements)
    ensures AllPrimitive(elements) && |elements| < 0x1_0000_0000
  {
  }

  /** All the replies put together, if each read something. */
  function Joined(replies: seq<Option<Bytes>>): Option<Bytes> {
    if replies == [] then Some([]) else
    var rest := Joined(replies[1..]);
    if replies[0].None? || rest.None? then None else Some(replies[0].value + rest.value)
  }

  lemma {:induction false} JoinedAll(replies: seq<Option<Bytes>>, elements: seq<Bytes>)
    requires |replies| == |elements| && forall k | 0 <= k < |elements| :: replies[k] == Some(elements[k])
    ensures Joined(replies) == Some(Concat(elements))
  {
    if replies != [] {
      JoinedAll(replies[1..], elements[1..]);
    }
  }
}
