/** Clause 20.2 tags: `read_tag`, the tag encoders, and what reading back an encoding gives. */
module Tags {
  import opened Octets

  datatype Kind = Open | Close | Value

  /** One tag as `read_tag` returns it; `next` may lie past the end of the data. */
  datatype Tag = Tag(number: nat, isContext: bool, kind: Kind, body: Bytes, next: nat)

  /** The length of a primitive's contents (clause 20.2.1.3) and where the contents start. */
  function ReadLength(data: Bytes, position: nat, lengthValue: nat): (r: Outcome<(nat, nat)>)
    ensures r.Returned? ==> position <= r.value.1
  {
    if lengthValue != 5 then Returned((lengthValue, position))
    else if position >= |data| then Raised(IndexError)
    else if data[position] == 254 then
      if position + 3 > |data| then Raised(StructError)
      else Returned((FromBytes(data[position + 1..position + 3]), position + 3))
    else if data[position] == 255 then
      if position + 5 > |data| then Raised(StructError)
      else Returned((FromBytes(data[position + 1..position + 5]), position + 5))
    else Returned((data[position], position + 1))
  }

  /** The initial octet and the extended tag number: number, class, length/value/type field, and
      where the rest of the tag starts. */
  datatype Head = Head(number: nat, isContext: bool, lengthValue: nat, after: nat)

  function ReadHead(data: Bytes, position: nat): (r: Outcome<Head>)
    ensures r.Returned? ==> position < r.value.after
  {
    if position >= |data| then Raised(IndexError) else
    var first := data[position];
    var isContext := first / 8 % 2 == 1;
    if first / 16 < 15 then Returned(Head(first / 16, isContext, first % 8, position + 1))
    else if position + 1 >= |data| then Raised(IndexError)
    else Returned(Head(data[position + 1], isContext, first % 8, position + 2))
  }

  function ReadRest(data: Bytes, h: Head): (r: Outcome<Tag>)
    ensures r.Returned? ==> h.after <= r.value.next
  {
    if h.isContext && h.lengthValue == 6 then Returned(Tag(h.number, true, Open, [], h.after))
    else if h.isContext && h.lengthValue == 7 then Returned(Tag(h.number, true, Close, [], h.after))
    else
      var (length, start) :- ReadLength(data, h.after, h.lengthValue);
      ReadContents(data, h, length, start)
  }

  function ReadContents(data: Bytes, h: Head, length: nat, start: nat): (r: Outcome<Tag>)
    ensures r.Returned? ==> start <= r.value.next
  {
    if !h.isContext && h.number == 1 then
      // application BOOLEAN: the value is the length, returned as bytes([length])
      if length > 255 then Raised(ValueError)
      else Returned(Tag(1, false, Value, [length], start))
    else Returned(Tag(h.number, h.isContext, Value, Slice(data, start, start + length), start + length))
  }

  function ReadTag(data: Bytes, position: nat): (r: Outcome<Tag>)
    ensures r.Returned? ==> position < |data| && position < r.value.next
  {
    var h :- ReadHead(data, position);
    ReadRest(data, h)
  }

  /** The tag seen from `shift` octets further on. */
  function Shifted(t: Tag, shift: nat): Tag {
    t.(next := t.next + shift)
  }

  /** `b` occurs in `a` from position `at` on. */
  predicate Occurs(b: Bytes, a: Bytes, at: nat) {
    at + |b| <= |a| && a[at..at + |b|] == b
  }

  lemma OccursIn(before: Bytes, b: Bytes, after: Bytes)
    ensures Occurs(b, before + b + after, |before|)
  {
    assert (before + b + after)[|before|..|before| + |b|] == b;
  }

  lemma OccursSplit(b: Bytes, c: Bytes, a: Bytes, at: nat)
    requires Occurs(b + c, a, at)
    ensures Occurs(b, a, at) && Occurs(c, a, at + |b|)
  {
    var d := b + c;
    assert a[at..at + |b|] == d[..|b|];
    assert a[at + |b|..at + |d|] == d[|b|..];
  }

  lemma OccursAt(b: Bytes, a: Bytes, at: nat, k: nat)
    requires Occurs(b, a, at) && k < |b|
    ensures a[at + k] == b[k]
  {
    assert a[at..at + |b|][k] == a[at + k];
  }

  lemma OccursSlice(b: Bytes, a: Bytes, at: nat, lo: nat, hi: nat)
    requires Occurs(b, a, at) && lo <= hi <= |b|
    ensures a[at + lo..at + hi] == b[lo..hi] == Slice(a, at + lo, at + hi) == Slice(b, lo, hi)
  {
    forall k | lo <= k < hi
      ensures a[at + k] == b[k]
    {
      OccursAt(b, a, at, k);
    }
  }

  /** A tag that ends within `b` reads the same wherever `b` occurs, and conversely a tag of the
      larger message that ends within the occurrence is a tag of `b`. */
  lemma ReadTagLocal(b: Bytes, a: Bytes, at: nat, i: nat)
    requires Occurs(b, a, at)
    ensures ReadTag(b, i).Returned? && ReadTag(b, i).value.next <= |b| ==>
              ReadTag(a, at + i) == Returned(Shifted(ReadTag(b, i).value, at))
    ensures ReadTag(a, at + i).Returned? && ReadTag(a, at + i).value.next <= at + |b| ==>
              ReadTag(b, i).Returned? && ReadTag(b, i).value.next <= |b|
  {
    hide ReadHead, ReadRest, Occurs;
    ReadHeadLocal(b, a, at, i);
    if ReadHead(b, i).Returned? {
      ReadRestLocal(b, a, at, ReadHead(b, i).value);
    }
  }

  lemma ReadHeadLocal(b: Bytes, a: Bytes, at: nat, i: nat)
    requires Occurs(b, a, at)
    ensures ReadHead(b, i).Returned? ==>
              ReadHead(b, i).value.after <= |b|
              && ReadHead(a, at + i)
                 == Returned(ReadHead(b, i).value.(after := at + ReadHead(b, i).value.after))
    ensures ReadHead(b, i).Raised? && ReadHead(a, at + i).Returned? ==>
              ReadHead(a, at + i).value.after > at + |b|
  {
    if i < |b| {
      OccursAt(b, a, at, i);
      if i + 1 < |b| {
        OccursAt(b, a, at, i + 1);
      }
    }
  }

  lemma ReadLengthLocal(b: Bytes, a: Bytes, at: nat, p: nat, lengthValue: nat)
    requires Occurs(b, a, at)
    ensures ReadLength(b, p, lengthValue).Returned? ==>
              ReadLength(a, at + p, lengthValue)
              == Returned((ReadLength(b, p, lengthValue).value.0, ReadLength(b, p, lengthValue).value.1 + at))
    ensures ReadLength(b, p, lengthValue).Raised? && ReadLength(a, at + p, lengthValue).Returned? ==>
              ReadLength(a, at + p, lengthValue).value.1 > at + |b|
  {
    hide Slice, FromBytes;
    if p < |b| {
      OccursAt(b, a, at, p);
      if p + 3 <= |b| {
        OccursSlice(b, a, at, p + 1, p + 3);
      }
      if p + 5 <= |b| {
        OccursSlice(b, a, at, p + 1, p + 5);
      }
    }
  }

  lemma ReadRestLocal(b: Bytes, a: Bytes, at: nat, h: Head)
    requires Occurs(b, a, at) && h.after <= |b|
    ensures var g := h.(after := at + h.after);
            && (ReadRest(b, h).Returned? && ReadRest(b, h).value.next <= |b| ==>
                  ReadRest(a, g) == Returned(Shifted(ReadRest(b, h).value, at)))
            && (ReadRest(a, g).Returned? && ReadRest(a, g).value.next <= at + |b| ==>
                  ReadRest(b, h).Returned? && ReadRest(b, h).value.next <= |b|)
  {
    hide ReadLength, ReadContents, Occurs;
    if h.isContext && (h.lengthValue == 6 || h.lengthValue == 7) {
      return;
    }
    ReadLengthLocal(b, a, at, h.after, h.lengthValue);
    var l := ReadLength(b, h.after, h.lengthValue);
    if l.Returned? {
      ReadContentsLocal(b, a, at, h, l.value.0, l.value.1);
    }
  }

  lemma ReadContentsLocal(b: Bytes, a: Bytes, at: nat, h: Head, length: nat, start: nat)
    requires Occurs(b, a, at)
    ensures var g := h.(after := at + h.after);
            var tb := ReadContents(b, h, length, start);
            var ta := ReadContents(a, g, length, at + start);
            && (tb.Returned? && tb.value.next <= |b| ==> ta == Returned(Shifted(tb.value, at)))
            && (ta.Returned? ==> tb.Returned? && ta.value.next == at + tb.value.next)
  {
    hide Occurs, Slice;
    if start + length <= |b| {
      OccursSlice(b, a, at, start, start + length);
    }
  }

  // -- encoders ------------------------------------------------------------

  type TagNumber = n: nat | n < 15

  function UnsignedOctets(v: U32): (b: Bytes)
    ensures 1 <= |b| <= 4
  {
    if v < 0x100 then [v]
    else if v < 0x1_0000 then [v / 256, v % 256]
    else if v < 0x100_0000 then [v / 256 / 256, v / 256 % 256, v % 256]
    else U32Bytes(v)
  }

  function Opening(tag: TagNumber): Bytes { [tag * 16 + 14] }

  function Closing(tag: TagNumber): Bytes { [tag * 16 + 15] }

  /** The header octets of a primitive whose contents have `length` octets: the short form, one
      extra octet, or 254 and two more (clause 20.2.1.3.1). */
  function Header(tag: TagNumber, isContext: bool, length: U16): (b: Bytes)
    ensures 1 <= |b| <= 4
  {
    var first := tag * 16 + if isContext then 8 else 0;
    if length < 5 then [first + length]
    else if length < 254 then [first + 5, length]
    else [first + 5, 254] + U16Bytes(length)
  }

  function Primitive(tag: TagNumber, isContext: bool, body: Bytes): Bytes
    requires |body| < 0x1_0000
  {
    Header(tag, isContext, |body|) + body
  }

  function ContextUnsigned(tag: TagNumber, v: U32): Bytes { Primitive(tag, true, UnsignedOctets(v)) }

  function ApplicationUnsigned(v: U32): Bytes { Primitive(2, false, UnsignedOctets(v)) }

  function ApplicationEnumerated(v: U32): Bytes { Primitive(9, false, UnsignedOctets(v)) }

  function ApplicationNull(): Bytes { [0] }

  function ApplicationBoolean(v: bool): Bytes { [if v then 0x11 else 0x10] }

  lemma UnsignedRoundTrip(v: U32)
    ensures FromBytes(UnsignedOctets(v)) == v
  {
    if v < 0x100 {
      FromBytes1(v);
    } else if v < 0x1_0000 {
      FromBytes2(v / 256, v % 256);
    } else if v < 0x100_0000 {
      FromBytes3(v / 256 / 256, v / 256 % 256, v % 256);
    } else {
      U32RoundTrip(v);
    }
  }

  /** Clause 20.2.4: no shorter string of octets has the same value. */
  lemma UnsignedShortest(v: U32, b: Bytes)
    requires b != [] && FromBytes(b) == v
    ensures |UnsignedOctets(v)| <= |b|
  {
    if |b| == 1 {
      assert b == [b[0]];
      FromBytes1(b[0]);
    } else if |b| == 2 {
      assert b == [b[0], b[1]];
      FromBytes2(b[0], b[1]);
    } else if |b| == 3 {
      assert b == [b[0], b[1], b[2]];
      FromBytes3(b[0], b[1], b[2]);
    }
  }

  /** Reading back an encoded primitive gives its tag number, class and contents, and ends exactly
      after it. An application BOOLEAN is the one primitive without contents octets. */
  lemma ReadPrimitive(tag: TagNumber, isContext: bool, body: Bytes)
    requires |body| < 0x1_0000 && (isContext || tag != 1)
    ensures ReadTag(Primitive(tag, isContext, body), 0)
            == Returned(Tag(tag, isContext, Value, body, |Primitive(tag, isContext, body)|))
  {
    var h := Header(tag, isContext, |body|);
    var p := h + body;
    var lengthValue := if |body| < 5 then |body| else 5;
    ReadHeader(tag, isContext, |body|, body);
    assert Slice(p, |h|, |h| + |body|) == body;
    assert ReadRest(p, Head(tag, isContext, lengthValue, 1)).Returned?;
  }

  lemma ReadHeader(tag: TagNumber, isContext: bool, length: U16, rest: Bytes)
    ensures var h := Header(tag, isContext, length);
            var lengthValue := if length < 5 then length else 5;
            && ReadHead(h + rest, 0) == Returned(Head(tag, isContext, lengthValue, 1))
            && ReadLength(h + rest, 1, lengthValue) == Returned((length as nat, |h|))
  {
    hide FromBytes;
    var h := Header(tag, isContext, length);
    assert (h + rest)[0] == h[0];
    if length >= 254 {
      assert (h + rest)[2..4] == U16Bytes(length);
      FromBytes2(length / 256, length % 256);
    }
  }

  /** The same, for a primitive that occurs anywhere in a message. */
  lemma ReadPrimitiveAt(tag: TagNumber, isContext: bool, body: Bytes, a: Bytes, at: nat)
    requires |body| < 0x1_0000 && (isContext || tag != 1)
    requires Occurs(Primitive(tag, isContext, body), a, at)
    ensures ReadTag(a, at)
            == Returned(Tag(tag, isContext, Value, body, at + |Primitive(tag, isContext, body)|))
  {
    ReadPrimitive(tag, isContext, body);
    ReadTagLocal(Primitive(tag, isContext, body), a, at, 0);
  }

  lemma ReadOpening(tag: TagNumber, a: Bytes, at: nat)
    requires at < |a| && a[at] == Opening(tag)[0]
    ensures ReadTag(a, at) == Returned(Tag(tag, true, Open, [], at + 1))
  {
    hide ReadLength, ReadContents;
  }

  lemma ReadClosing(tag: TagNumber, a: Bytes, at: nat)
    requires at < |a| && a[at] == Closing(tag)[0]
    ensures ReadTag(a, at) == Returned(Tag(tag, true, Close, [], at + 1))
  {
    hide ReadLength, ReadContents;
  }

  lemma ReadBoolean(v: bool, a: Bytes, at: nat)
    requires at < |a| && a[at] == ApplicationBoolean(v)[0]
    ensures ReadTag(a, at) == Returned(Tag(1, false, Value, [if v then 1 else 0], at + 1))
  {
  }

  // -- tags as other devices may write them ------------------------------------------

  /** The forms of a length (clause 20.2.1.3.1): in the initial octet, or in one, two or four more. */
  datatype Form = InTag | OneOctet | TwoOctets | FourOctets

  predicate Writable(number: Octet, extended: bool, form: Form, length: U32) {
    && (extended || number < 15)
    && match form
       case InTag => length < 5
       case OneOctet => length < 254
       case TwoOctets => length < 0x1_0000
       case FourOctets => true
  }

  /** The initial octet, the extended tag number if there is one, and the length. */
  function Written(number: Octet, extended: bool, isContext: bool, form: Form, length: U32): Bytes
    requires Writable(number, extended, form, length)
  {
    [(if extended then 240 else 16 * number) + (if isContext then 8 else 0) + if form.InTag? then length else 5]
    + (if extended then [number] else [])
    + match form
      case InTag => []
      case OneOctet => [length]
      case TwoOctets => [254] + U16Bytes(length)
      case FourOctets => [255] + U32Bytes(length)
  }

  lemma ReadWrittenHeader(number: Octet, extended: bool, isContext: bool, form: Form, length: U32, rest: Bytes)
    requires Writable(number, extended, form, length)
    ensures var h := Written(number, extended, isContext, form, length);
            var after := if extended then 2 else 1;
            var lengthValue := if form.InTag? then length else 5;
            && ReadHead(h + rest, 0) == Returned(Head(number, isContext, lengthValue, after))
            && ReadLength(h + rest, after, lengthValue) == Returned((length as nat, |h|))
  {
    hide FromBytes;
    var h := Written(number, extended, isContext, form, length);
    var a := h + rest;
    var after := if extended then 2 else 1;
    assert a[..|h|] == h;
    match form {
      case InTag =>
      case OneOctet =>
      case TwoOctets =>
        assert a[after + 1..after + 3] == U16Bytes(length);
        FromBytes2(length / 256, length % 256);
      case FourOctets =>
        assert a[after + 1..after + 5] == U32Bytes(length);
        U32RoundTrip(length);
    }
  }

  /** Whatever tag number and whatever form of the length a device writes, the tag is read back. */
  lemma ReadWritten(number: Octet, extended: bool, isContext: bool, form: Form, body: Bytes)
    requires |body| < 0x1_0000_0000 && Writable(number, extended, form, |body|) && (isContext || number != 1)
    ensures var a := Written(number, extended, isContext, form, |body|) + body;
            ReadTag(a, 0) == Returned(Tag(number, isContext, Value, body, |a|))
  {
    hide ReadHead, ReadLength, Written, Slice;
    var h := Written(number, extended, isContext, form, |body|);
    ReadWrittenHeader(number, extended, isContext, form, |body|, body);
    SliceAfter(h, body);
  }

  lemma SliceAfter(h: Bytes, body: Bytes)
    ensures Slice(h + body, |h|, |h| + |body|) == body
  {
  }

  /** Opening and closing tags with an extended number, and application BOOLEANs in every form: the value is the
      length, and one above 255 is no octet. */
  lemma ReadOtherWritten(number: Octet, extended: bool, form: Form, length: U32, rest: Bytes)
    ensures ReadTag([254, number] + rest, 0) == Returned(Tag(number, true, Open, [], 2))
    ensures ReadTag([255, number] + rest, 0) == Returned(Tag(number, true, Close, [], 2))
    ensures Writable(1, extended, form, length) ==>
              var h := Written(1, extended, false, form, length);
              ReadTag(h + rest, 0)
              == if length > 255 then Raised(ValueError) else Returned(Tag(1, false, Value, [length], |h|))
  {
    hide ReadLength, Written, Slice;
    if Writable(1, extended, form, length) {
      ReadWrittenHeader(1, extended, false, form, length, rest);
    }
  }
}
