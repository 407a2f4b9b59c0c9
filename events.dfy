/** The built-in dialogue event (FDlgEvent): a participant name, an event
    name, a payload of typed values, a delta flag and a tag that selects one
    of nine operations. Calling it validates the participant and then makes
    exactly one call chosen by the tag; it can be compared and serialised. */
module DlgEvents {
  import opened DlgCommon

  /** EDlgEventType, in declaration order. */
  datatype EventType =
    | Event
    | ModifyInt
    | ModifyFloat
    | ModifyBool
    | ModifyName
    | ModifyClassIntVariable
    | ModifyClassFloatVariable
    | ModifyClassBoolVariable
    | ModifyClassNameVariable

  datatype DlgEvent = DlgEvent(
    participantName: Name,
    eventName: Name,
    intValue: int32,
    floatValue: Float,
    nameValue: Name,
    delta: bool,
    boolValue: bool,
    eventType: EventType)

  // ---------------------------------------------------------------------------
  // Call

  const INVALID_PARTICIPANT_PREFIX := "Event failed: invalid participant! ParticipantName = "
  const EVENT_NAME_INFIX := ", EventName = "

  /** The error logged for an invalid participant: it carries the participant
      name and then the event name. */
  function InvalidParticipantMessage(participantName: Name, eventName: Name): (m: string)
    ensures |m| == |INVALID_PARTICIPANT_PREFIX| + |participantName| + |EVENT_NAME_INFIX| + |eventName|
    ensures m[..|INVALID_PARTICIPANT_PREFIX|] == INVALID_PARTICIPANT_PREFIX
    ensures m[|INVALID_PARTICIPANT_PREFIX|..|INVALID_PARTICIPANT_PREFIX| + |participantName|] == participantName
    ensures m[|INVALID_PARTICIPANT_PREFIX| + |participantName|..|m| - |eventName|] == EVENT_NAME_INFIX
    ensures m[|m| - |eventName|..] == eventName
  {
    var m := INVALID_PARTICIPANT_PREFIX + participantName + EVENT_NAME_INFIX + eventName;
    assert m[|INVALID_PARTICIPANT_PREFIX|..|INVALID_PARTICIPANT_PREFIX| + |participantName|] == participantName;
    assert m[|INVALID_PARTICIPANT_PREFIX| + |participantName|..|m| - |eventName|] == EVENT_NAME_INFIX;
    assert m[|m| - |eventName|..] == eventName;
    m
  }

  /** FDlgEvent::ValidateIsParticipantValid: the verdict, and the log it writes. */
  function ValidateIsParticipantValid(e: DlgEvent, participant: DlgObject?): (r: (bool, seq<LogEntry>))
    ensures r.0 <==> participant != null && !participant.pendingKill
    ensures r.0 ==> r.1 == []
    ensures !r.0 ==> r.1 == [Error(InvalidParticipantMessage(e.participantName, e.eventName))]
  {
    if IsValidObject(participant) then (true, [])
    else (false, [Error(InvalidParticipantMessage(e.participantName, e.eventName))])
  }

  /** The built-in event type an action performs, if any: the dispatch table
      read backwards. */
  function PerformedBy(a: Action): (t: Option<EventType>)
    ensures t.None? <==> a.EnterEvent?
  {
    match a
    case OnDialogueEvent(_, _) => Some(Event)
    case ModifyIntValue(_, _, _, _) => Some(ModifyInt)
    case ModifyFloatValue(_, _, _, _) => Some(ModifyFloat)
    case ModifyBoolValue(_, _, _) => Some(ModifyBool)
    case ModifyNameValue(_, _, _) => Some(ModifyName)
    case ModifyIntVariable(_, _, _, _) => Some(ModifyClassIntVariable)
    case ModifyFloatVariable(_, _, _, _) => Some(ModifyClassFloatVariable)
    case SetBoolVariable(_, _, _) => Some(ModifyClassBoolVariable)
    case SetNameVariable(_, _, _) => Some(ModifyClassNameVariable)
    case EnterEvent(_, _) => None
  }

  /** The one call a valid participant receives. The match is exhaustive, so
      the source's unreachable default branch has no counterpart. */
  function Dispatch(e: DlgEvent, participant: DlgObject): (a: Action)
    ensures PerformedBy(a) == Some(e.eventType)
    ensures a.participant == participant && a.name == e.eventName
    ensures e.eventType in {ModifyInt, ModifyClassIntVariable} ==>
      a.intValue == e.intValue && a.isDelta == e.delta
    ensures e.eventType in {ModifyFloat, ModifyClassFloatVariable} ==>
      a.floatValue == e.floatValue && a.isDelta == e.delta
    ensures e.eventType in {ModifyBool, ModifyClassBoolVariable} ==> a.boolValue == e.boolValue
    ensures e.eventType in {ModifyName, ModifyClassNameVariable} ==> a.nameValue == e.nameValue
  {
    match e.eventType
    case Event => OnDialogueEvent(participant, e.eventName)
    case ModifyInt => ModifyIntValue(participant, e.eventName, e.delta, e.intValue)
    case ModifyFloat => ModifyFloatValue(participant, e.eventName, e.delta, e.floatValue)
    case ModifyBool => ModifyBoolValue(participant, e.eventName, e.boolValue)
    case ModifyName => ModifyNameValue(participant, e.eventName, e.nameValue)
    case ModifyClassIntVariable => ModifyIntVariable(participant, e.eventName, e.intValue, e.delta)
    case ModifyClassFloatVariable => ModifyFloatVariable(participant, e.eventName, e.floatValue, e.delta)
    case ModifyClassBoolVariable => SetBoolVariable(participant, e.eventName, e.boolValue)
    case ModifyClassNameVariable => SetNameVariable(participant, e.eventName, e.nameValue)
  }

  /** FDlgEvent::Call. An invalid participant gets no call and one error that
      names the participant and the event; a valid one gets exactly one call,
      of the kind the event type selects, and nothing is logged. */
  function Call(e: DlgEvent, participant: DlgObject?): (r: Outcome)
    ensures !IsValidObject(participant) ==>
      r.actions == [] && |r.log| == 1 && r.log[0].Error? &&
      r.log[0].message == InvalidParticipantMessage(e.participantName, e.eventName)
    ensures IsValidObject(participant) ==>
      r.log == [] && |r.actions| == 1 &&
      PerformedBy(r.actions[0]) == Some(e.eventType) &&
      r.actions[0].participant == participant
    ensures IsValidObject(participant) ==> r.actions == [Dispatch(e, participant)]
  {
    var (valid, log) := ValidateIsParticipantValid(e, participant);
    if !valid then Outcome([], log)
    else Outcome([Dispatch(e, participant)], [])
  }

  // ---------------------------------------------------------------------------
  // Which payload fields each event type reads

  datatype Payload = IntPayload | FloatPayload | NamePayload | BoolPayload | DeltaPayload

  /** The payload fields an event type forwards: the numeric kinds read their
      value and the delta flag, the boolean and name kinds only their value. */
  function PayloadRead(t: EventType): set<Payload> {
    match t
    case Event => {}
    case ModifyInt => {IntPayload, DeltaPayload}
    case ModifyFloat => {FloatPayload, DeltaPayload}
    case ModifyBool => {BoolPayload}
    case ModifyName => {NamePayload}
    case ModifyClassIntVariable => {IntPayload, DeltaPayload}
    case ModifyClassFloatVariable => {FloatPayload, DeltaPayload}
    case ModifyClassBoolVariable => {BoolPayload}
    case ModifyClassNameVariable => {NamePayload}
  }

  predicate SamePayload(a: DlgEvent, b: DlgEvent, p: Payload) {
    match p
    case IntPayload => a.intValue == b.intValue
    case FloatPayload => a.floatValue == b.floatValue
    case NamePayload => a.nameValue == b.nameValue
    case BoolPayload => a.boolValue == b.boolValue
    case DeltaPayload => a.delta == b.delta
  }

  /** On a valid participant, two events of one type and name that agree on
      the payload their type reads make the same call, whatever their other
      payload fields and their participant names. */
  lemma CallReadsOnlyItsPayload(a: DlgEvent, b: DlgEvent, participant: DlgObject)
    requires IsValidObject(participant)
    requires a.eventType == b.eventType && a.eventName == b.eventName
    requires forall p :: p in PayloadRead(a.eventType) ==> SamePayload(a, b, p)
    ensures Call(a, participant) == Call(b, participant)
  {
    match a.eventType
    case Event =>
    case ModifyInt =>
      assert SamePayload(a, b, IntPayload) && SamePayload(a, b, DeltaPayload);
    case ModifyFloat =>
      assert SamePayload(a, b, FloatPayload) && SamePayload(a, b, DeltaPayload);
    case ModifyBool =>
      assert SamePayload(a, b, BoolPayload);
    case ModifyName =>
      assert SamePayload(a, b, NamePayload);
    case ModifyClassIntVariable =>
      assert SamePayload(a, b, IntPayload) && SamePayload(a, b, DeltaPayload);
    case ModifyClassFloatVariable =>
      assert SamePayload(a, b, FloatPayload) && SamePayload(a, b, DeltaPayload);
    case ModifyClassBoolVariable =>
      assert SamePayload(a, b, BoolPayload);
    case ModifyClassNameVariable =>
      assert SamePayload(a, b, NamePayload);
  }

  /** Conversely, every payload field a type reads reaches the call: events
      of one type that differ in such a field make different calls. */
  lemma CallDependsOnEveryPayloadRead(a: DlgEvent, b: DlgEvent, participant: DlgObject, p: Payload)
    requires IsValidObject(participant)
    requires a.eventType == b.eventType && p in PayloadRead(a.eventType)
    requires !SamePayload(a, b, p)
    ensures Call(a, participant) != Call(b, participant)
  {
  }

  /** A valid call always names the event's own event name, so events that
      differ there make different calls. */
  lemma CallDependsOnEventName(a: DlgEvent, b: DlgEvent, participant: DlgObject)
    requires IsValidObject(participant)
    requires a.eventName != b.eventName
    ensures Call(a, participant) != Call(b, participant)
  {
  }

  /** The boolean and name kinds never read the delta flag. */
  lemma DeltaIgnoredBySetters(e: DlgEvent, participant: DlgObject?, delta: bool)
    requires e.eventType in {ModifyBool, ModifyName, ModifyClassBoolVariable, ModifyClassNameVariable}
    ensures Call(e.(delta := delta), participant) == Call(e, participant)
  {
  }

  // ---------------------------------------------------------------------------
  // Equality

  /** KINDA_SMALL_NUMBER, the tolerance of the float comparison. */
  const KINDA_SMALL_NUMBER: real := 0.0001

  /** FMath::IsNearlyEqual: the distance is at most the tolerance. */
  predicate IsNearlyEqual(x: Float, y: Float, tolerance: real) {
    -tolerance <= x - y <= tolerance
  }

  /** FDlgEvent::operator==, as written: every field but the float is compared
      exactly, the float within KINDA_SMALL_NUMBER, and NameValue not at all. */
  function Equals(a: DlgEvent, b: DlgEvent): (r: bool)
    ensures r <==>
      a.(floatValue := b.floatValue, nameValue := b.nameValue) == b &&
      IsNearlyEqual(a.floatValue, b.floatValue, KINDA_SMALL_NUMBER)
  {
    a.participantName == b.participantName &&
    a.eventName == b.eventName &&
    a.intValue == b.intValue &&
    IsNearlyEqual(a.floatValue, b.floatValue, KINDA_SMALL_NUMBER) &&
    a.delta == b.delta &&
    a.boolValue == b.boolValue &&
    a.eventType == b.eventType
  }

  lemma EqualsReflexive(a: DlgEvent)
    ensures Equals(a, a)
  {
  }

  lemma EqualsSymmetric(a: DlgEvent, b: DlgEvent)
    ensures Equals(a, b) <==> Equals(b, a)
  {
  }

  /** Events that differ only in NameValue are equal. */
  lemma EqualsIgnoresNameValue(a: DlgEvent, nameValue: Name)
    ensures Equals(a, a.(nameValue := nameValue))
  {
  }

  /** The float tolerance makes the equality intransitive: 0, 0.0001 and
      0.0002 are each equal to the next but the ends are not. */
  lemma EqualsNotTransitive()
    ensures exists a, b, c :: Equals(a, b) && Equals(b, c) && !Equals(a, c)
  {
    var a := DlgEvent("P", "E", 0, 0.0, "", false, false, ModifyFloat);
    var b := a.(floatValue := 0.0001);
    var c := a.(floatValue := 0.0002);
    assert Equals(a, b) && Equals(b, c) && !Equals(a, c);
  }

  /** Because operator== skips NameValue, two equal events can make
      different calls: two ModifyName events that differ only in NameValue. */
  lemma EqualEventsCanCallDifferently(participant: DlgObject)
    requires IsValidObject(participant)
    ensures exists a, b :: Equals(a, b) && Call(a, participant) != Call(b, participant)
  {
    var a := DlgEvent("P", "Mood", 0, 0.0, "Happy", false, false, ModifyName);
    var b := a.(nameValue := "Angry");
    CallDependsOnEveryPayloadRead(a, b, participant, NamePayload);
    assert Equals(a, b) && Call(a, participant) != Call(b, participant);
  }

  /** operator== as evidently intended: NameValue compared exactly as well. */
  function EqualsIntended(a: DlgEvent, b: DlgEvent): (r: bool)
    ensures r <==>
      a.(floatValue := b.floatValue) == b &&
      IsNearlyEqual(a.floatValue, b.floatValue, KINDA_SMALL_NUMBER)
    ensures r ==> Equals(a, b)
  {
    Equals(a, b) && a.nameValue == b.nameValue
  }

  /** Two calls do the same thing up to the float tolerance. */
  predicate ActionsNearlyEqual(x: Action, y: Action) {
    if (x.ModifyFloatValue? && y.ModifyFloatValue?) ||
       (x.ModifyFloatVariable? && y.ModifyFloatVariable?) then
      x.(floatValue := y.floatValue) == y &&
      IsNearlyEqual(x.floatValue, y.floatValue, KINDA_SMALL_NUMBER)
    else x == y
  }

  predicate OutcomesNearlyEqual(r: Outcome, s: Outcome) {
    r.log == s.log &&
    |r.actions| == |s.actions| &&
    forall i :: 0 <= i < |r.actions| ==> ActionsNearlyEqual(r.actions[i], s.actions[i])
  }

  /** Events equal as intended behave alike on every participant. */
  lemma EqualsIntendedCallsAlike(a: DlgEvent, b: DlgEvent, participant: DlgObject?)
    requires EqualsIntended(a, b)
    ensures OutcomesNearlyEqual(Call(a, participant), Call(b, participant))
  {
  }

  /** The equality as written still implies alike behaviour for every event
      type that does not read NameValue. */
  lemma EqualsCallsAlikeUnlessNameRead(a: DlgEvent, b: DlgEvent, participant: DlgObject?)
    requires Equals(a, b) && NamePayload !in PayloadRead(a.eventType)
    ensures OutcomesNearlyEqual(Call(a, participant), Call(b, participant))
  {
  }

  // ---------------------------------------------------------------------------
  // Serialisation

  /** The enum as the byte the archive stores. */
  function EventTypeToByte(t: EventType): (b: uint8)
    ensures b < 9
    ensures EventTypeFromByte(b) == Some(t)
  {
    match t
    case Event => 0
    case ModifyInt => 1
    case ModifyFloat => 2
    case ModifyBool => 3
    case ModifyName => 4
    case ModifyClassIntVariable => 5
    case ModifyClassFloatVariable => 6
    case ModifyClassBoolVariable => 7
    case ModifyClassNameVariable => 8
  }

  /** The enum a stored byte denotes; bytes past the last enumerator denote none. */
  function EventTypeFromByte(b: uint8): (t: Option<EventType>)
    ensures t.Some? <==> b < 9
  {
    if b == 0 then Some(Event)
    else if b == 1 then Some(ModifyInt)
    else if b == 2 then Some(ModifyFloat)
    else if b == 3 then Some(ModifyBool)
    else if b == 4 then Some(ModifyName)
    else if b == 5 then Some(ModifyClassIntVariable)
    else if b == 6 then Some(ModifyClassFloatVariable)
    else if b == 7 then Some(ModifyClassBoolVariable)
    else if b == 8 then Some(ModifyClassNameVariable)
    else None
  }

  lemma EventTypeByteRoundTrip(b: uint8)
    requires b < 9
    ensures EventTypeToByte(EventTypeFromByte(b).value) == b
  {
  }

  /** The kinds of the fields an event occupies in an archive, in order:
      the compatibility contract of the record layout. */
  const EVENT_LAYOUT: seq<Field> := [
    NameField(""), NameField(""), IntField(0), FloatField(0.0),
    NameField(""), BoolField(false), BoolField(false), ByteField(0)]

  /** What saving an event writes, one field per statement of the operator. */
  function EncodeEvent(e: DlgEvent): (fs: seq<Field>)
    ensures |fs| == 8 && IsEventRecord(fs)
  {
    [NameField(e.participantName),
     NameField(e.eventName),
     IntField(e.intValue),
     FloatField(e.floatValue),
     NameField(e.nameValue),
     BoolField(e.delta),
     BoolField(e.boolValue),
     ByteField(EventTypeToByte(e.eventType))]
  }

  /** Every encoding follows the fixed layout, field by field. */
  lemma EncodeEventFollowsLayout(e: DlgEvent)
    ensures |EncodeEvent(e)| == |EVENT_LAYOUT|
    ensures forall i :: 0 <= i < |EVENT_LAYOUT| ==> SameKind(EncodeEvent(e)[i], EVENT_LAYOUT[i])
  {
  }

  /** Whether the first fields of a stream can be loaded as an event. */
  predicate IsEventRecord(fs: seq<Field>) {
    |fs| >= 8 &&
    fs[0].NameField? && fs[1].NameField? && fs[2].IntField? && fs[3].FloatField? &&
    fs[4].NameField? && fs[5].BoolField? && fs[6].BoolField? && fs[7].ByteField? &&
    fs[7].byteValue < 9
  }

  /** What loading an event reads from the front of a stream. */
  function DecodeEvent(fs: seq<Field>): (r: Option<DlgEvent>)
    ensures r.Some? <==> IsEventRecord(fs)
    ensures r.Some? ==> fs[..8] == EncodeEvent(r.value)
  {
    if IsEventRecord(fs) then
      var e := DlgEvent(fs[0].name, fs[1].name, fs[2].intValue, fs[3].floatValue,
                        fs[4].name, fs[5].boolValue, fs[6].boolValue,
                        EventTypeFromByte(fs[7].byteValue).value);
      assert fs[..8] == EncodeEvent(e);
      Some(e)
    else None
  }

  /** Loading reads back exactly what saving wrote, and no more. */
  lemma {:induction false} EventRoundTrip(e: DlgEvent, rest: seq<Field>)
    ensures DecodeEvent(EncodeEvent(e) + rest) == Some(e)
  {
  }
}
