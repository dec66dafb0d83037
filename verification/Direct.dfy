/** What the objects are, without a wire: plain property values, and for each commandable object a table of
    the priorities that are in use. Nothing is cached: a Present_Value is looked up when it is asked for. */
module Direct {
  import opened Octets
  import opened Tags
  import opened Requests
  import opened Multiple
  import opened Server

  /** `values` leaves out the Present_Value of commandable objects; `table` has the priorities 1..16 in use. */
  datatype Plain = Plain(config: Config, script: Script, values: Objects, table: map<ObjectId, map<nat, Bytes>>)

  predicate HasTable(p: Plain, o: ObjectId) { p.config.commandable.Some? && o in p.config.commandable.value }

  /** The value at the lowest priority number from `k` on. */
  function FirstFrom(table: map<nat, Bytes>, k: nat): Option<Bytes>
    decreases 17 - k
  {
    if k > 16 then None else if k in table then Some(table[k]) else FirstFrom(table, k + 1)
  }

  function PresentValue(p: Plain, o: ObjectId): Bytes {
    var first := FirstFrom(if o in p.table then p.table[o] else map[], 1);
    if first.Some? then first.value
    else if o in p.config.relinquishDefaults then p.config.relinquishDefaults[o]
    else []
  }

  /** Every property as a reader sees it. */
  function Visible(p: Plain): Objects {
    map o | o in p.values ::
      var properties: map<U32, Bytes> :=
        if HasTable(p, o) then p.values[o][PROPERTY_PRESENT_VALUE := PresentValue(p, o)] else p.values[o];
      properties
  }

  datatype Call =
    | ReadCall(target: ObjectId, property: U32, index: Option<U32>)
    | WriteCall(target: ObjectId, property: U32, value: Bytes, priority: Option<U32>, index: Option<U32>)
    | MultipleCall(specs: seq<Specification>)

  /** What a client can tell of an answer. */
  datatype Reply =
    | NoAnswer
    | Content(octets: Option<Bytes>)
    | Acked
    | Refused(error: Option<(nat, nat)>)
    | Rejected(reason: Option<Octet>)
    | Aborted(reason: Option<Octet>)
    | Properties(results: Option<Results>)

  function Refusal(errorClass: nat, errorCode: nat): Reply { Refused(Some((errorClass, errorCode))) }

  function DeviceReply(p: Plain, o: ObjectId, property: U32): Reply
    requires |p.config.objectName| < 253
  {
    var device := ObjectId(OBJECT_TYPE_DEVICE, p.config.deviceInstance);
    if o != device && o != ObjectId(OBJECT_TYPE_DEVICE, MAX_INSTANCE) then
      Refusal(ERROR_CLASS_OBJECT, ERROR_CODE_UNKNOWN_OBJECT)
    else if property == PROPERTY_OBJECT_NAME then Content(Some(CharacterString(p.config.objectName)))
    else if property == PROPERTY_OBJECT_IDENTIFIER then Content(Some(ApplicationObjectId(device)))
    else Refusal(ERROR_CLASS_PROPERTY, ERROR_CODE_UNKNOWN_PROPERTY)
  }

  function ElementReply(elements: seq<Bytes>, index: nat): Reply
    requires |elements| < 0x1_0000_0000
  {
    if index == 0 then Content(Some(ApplicationUnsigned(|elements|)))
    else if index <= |elements| then Content(Some(elements[index - 1]))
    else Refusal(ERROR_CLASS_PROPERTY, ERROR_CODE_INVALID_ARRAY_INDEX)
  }

  /** The elements of a stored value, if it is asked for by element. */
  function ElementsOf(value: Bytes): seq<Bytes> {
    var e := Elements(value, 0);
    if e.Returned? && |e.value| < 0x1_0000_0000 then e.value else []
  }

  function DirectRead(p: Plain, o: ObjectId, property: U32, index: Option<U32>, malformed: bool): Reply
    requires |p.config.objectName| < 253
  {
    var visible := Visible(p);
    if o !in visible then DeviceReply(p, o, property)
    else if malformed then Content(Some(ApplicationNull()))
    else if index.None? && (o, property) in p.script.wholeArraysRefused then
      Aborted(Some(ABORT_REASON_SEGMENTATION_NOT_SUPPORTED))
    else if property !in visible[o] then Refusal(ERROR_CLASS_PROPERTY, ERROR_CODE_UNKNOWN_PROPERTY)
    else if index.Some? && p.config.arrayElements then ElementReply(ElementsOf(visible[o][property]), index.value)
    else Content(Some(visible[o][property]))
  }

  function Priority(priority: Option<U32>): nat {
    if priority.None? || priority.value == 0 then 16 else priority.value
  }

  /** The value starts with the tag of an application NULL: number 0, plain or in an extended tag, no context. */
  predicate Relinquishes(value: Bytes) {
    value != []
    && (value[0] < 8 || (value[0] / 16 == 15 && value[0] / 8 % 2 == 0 && |value| > 1 && value[1] == 0))
  }

  /** That is what the server asks of a value it can read. */
  lemma NullOctets(value: Bytes)
    ensures IsNull(value).Returned? ==> IsNull(value).value == Relinquishes(value)
  {
    hide ReadLength, Slice;
  }

  predicate MayWrite(p: Plain, o: ObjectId, property: U32) {
    && o in p.values && p.script.mode != Refusing
    && if p.config.writable.None? then property in p.values[o] || (HasTable(p, o) && property == PROPERTY_PRESENT_VALUE)
       else (o, property) in p.config.writable.value
  }

  function DirectWrite(p: Plain, o: ObjectId, property: U32, value: Bytes, priority: Option<U32>): (r: (Plain, Reply))
    ensures r.0.config == p.config
  {
    var relinquish := Relinquishes(value);
    var commanded := HasTable(p, o) && property == PROPERTY_PRESENT_VALUE;
    if o in p.values && p.config.commandable.Some? && relinquish && !commanded && p.script.mode == Online
       && property in p.values[o] then (p, Acked)
    else if o !in p.values then (p, Refusal(ERROR_CLASS_OBJECT, ERROR_CODE_UNKNOWN_OBJECT))
    else if !MayWrite(p, o, property) then (p, Refusal(ERROR_CLASS_PROPERTY, ERROR_CODE_WRITE_ACCESS_DENIED))
    else if commanded then
      var row := if o in p.table then p.table[o] else map[];
      var changed: map<nat, Bytes> :=
        if relinquish then row - {Priority(priority)} else row[Priority(priority) := value];
      (p.(table := p.table[o := changed]), Acked)
    else
      var properties: map<U32, Bytes> := p.values[o][property := value];
      (p.(values := p.values[o := properties]), Acked)
  }

  /** The scripted failure for the object a ReadProperty or WriteProperty is about. */
  function Scripted(p: Plain, c: Call): Option<Failure> {
    if p.script.mode == Online && !c.MultipleCall? && c.target in p.script.failures
    then Some(p.script.failures[c.target]) else None
  }

  /** One call, made directly. */
  function Perform(p: Plain, c: Call): (r: (Plain, Reply))
    requires |p.config.objectName| < 253
    ensures r.0.config == p.config
  {
    var failure := Scripted(p, c);
    if failure == Some(FailReject) then (p, Rejected(Some(REJECT_REASON_UNRECOGNIZED_SERVICE)))
    else if failure == Some(FailAbort) then (p, Aborted(Some(ABORT_REASON_SEGMENTATION_NOT_SUPPORTED)))
    else if failure == Some(FailSilent) || p.script.mode == Offline then (p, NoAnswer)
    else
      match c
      case ReadCall(o, property, index) => (p, DirectRead(p, o, property, index, failure == Some(FailMalformed)))
      case WriteCall(o, property, value, priority, _) => DirectWrite(p, o, property, value, priority)
      case MultipleCall(specs) => (p, Properties(Some(Snapshot(Visible(p), specs, map[]))))
  }

  /** One turn of a session: a call, or a change of mode and scripted failures. */
  datatype Turn = Make(call: Call) | Configure(script: Script)

  /** A session: the replies to its calls, in order. */
  function Session(p: Plain, turns: seq<Turn>): (Plain, seq<Reply>)
    requires |p.config.objectName| < 253
    decreases |turns|
  {
    if turns == [] then (p, []) else
    match turns[0]
    case Configure(script) => Session(p.(script := script), turns[1..])
    case Make(c) =>
      var (q, reply) := Perform(p, c);
      var (r, replies) := Session(q, turns[1..]);
      (r, [reply] + replies)
  }
}
