# Dialogue events (DlgSystem) in Dafny

This project models the event-dispatch part of the DlgSystem dialogue plugin,
`Source/DlgSystem/Private/DlgEvent.cpp`. A dialogue node carries events and
calls them on participants. The file defines two kinds of event:

- **FDlgEvent** (`events.dfy`, module `DlgEvents`). It holds a participant
  name, an event name, an integer, a float, a name value, a delta flag, a
  boolean and an `EDlgEventType` tag with nine variants. `Call` first checks
  that the participant object is valid. If it is not, `Call` logs one error
  naming the participant and the event, and does nothing else. If it is,
  `Call` makes exactly one call: a participant-interface call or a
  reflection-helper call. The tag chooses the call, and the tag decides
  which payload fields are forwarded.
- **FDlgCustomEvent** (`custom_events.dfy`, module `DlgCustomEvents`). It is
  a participant name plus an owned user-defined event object. `Call` warns
  and stops when the event is not valid. Otherwise it enters the object once,
  with the participant.

Both kinds of event have an equality operator. Each also has a streaming
operator `<<`, which saves or loads through one bidirectional `FArchive`.

Shared values live in `common.dfy` (module `DlgCommon`): names, 32-bit and
8-bit integers, participant and custom-event objects, the calls an event
makes (`Action`), log lines, and archive fields. Calling an event is a pure
function. It returns an `Outcome`: the calls made, in order, and the lines
logged.

`archive.dfy` (module `DlgArchive`) models the archive as a class. The class
knows whether it loads or saves. Its state is a stream of typed fields plus
a read cursor that can fail. The two `<<` operators are methods that move one
field per statement, in the source's order. Each method is proved equal to a
functional description (`TransferEvent`, `TransferCustomEvent`). That
description is then related to `EncodeEvent`/`DecodeEvent` and to
`EncodeCustomEvent`/`DecodeCustomEvent`. Saving appends the encoding. Loading
yields the decoded value, or fails exactly when nothing can be decoded at
the cursor. Saving and then loading gives back the original, field for
field.

## Model

| member | source | states |
|---|---|---|
| DlgEvents.ValidateIsParticipantValid | Source/DlgSystem/Private/DlgEvent.cpp:53-65 | The verdict is true exactly when the participant is non-null and not pending kill. A valid participant logs nothing. An invalid one logs exactly one error with the invalid-participant message. |
| DlgEvents.InvalidParticipantMessage | Source/DlgSystem/Private/DlgEvent.cpp:60-63 | The error text is the fixed prefix, then the participant name at its fixed offset, then the separator, and it ends with the event name. Its length is the sum of the four parts. |
| DlgEvents.Call | Source/DlgSystem/Private/DlgEvent.cpp:9-51 | Invalid participant: no call, and exactly one error whose message carries the participant name and the event name. Valid participant: nothing logged and exactly one call. That call is of the kind the event type selects, it goes to the given participant, and it is the dispatch-table call for the event, so it carries the event name and the payload Dispatch states. |
| DlgEvents.Dispatch | Source/DlgSystem/Private/DlgEvent.cpp:16-50 | The call performs the event's own type and targets the participant with the event's name. The int kinds forward the integer and the delta flag; the float kinds forward the float and the delta flag. The bool kinds forward the boolean, the name kinds forward the name value. `Event` forwards no payload. No input reaches the unreachable default. |
| DlgEvents.PerformedBy | Source/DlgSystem/Private/DlgEvent.cpp:18-45 | Reads the dispatch table backwards. Exactly the nine built-in calls have an event type; entering a custom event has none. |
| DlgEvents.CallReadsOnlyItsPayload | Source/DlgSystem/Private/DlgEvent.cpp:16-46 | On a valid participant, two events with one type and one event name make the same call when they agree on the payload fields that type reads. Their other fields and their participant names do not matter. |
| DlgEvents.CallDependsOnEveryPayloadRead | Source/DlgSystem/Private/DlgEvent.cpp:22-46 | Each payload field a type reads reaches the call. Two events of that type that differ in that field make different calls. |
| DlgEvents.CallDependsOnEventName | Source/DlgSystem/Private/DlgEvent.cpp:18-45 | Every call carries the event name, so events with different event names make different calls. |
| DlgEvents.DeltaIgnoredBySetters | Source/DlgSystem/Private/DlgEvent.cpp:28-46 | For ModifyBool, ModifyName, ModifyClassBoolVariable and ModifyClassNameVariable, changing only the delta flag leaves the outcome unchanged, on every participant. |
| DlgEvents.Equals | Source/DlgSystem/Private/DlgEvent.cpp:80-89 | Equal exactly when every field other than the float and NameValue agrees exactly and the floats differ by at most KINDA_SMALL_NUMBER. NameValue is not compared. |
| DlgEvents.EqualsReflexive | Source/DlgSystem/Private/DlgEvent.cpp:80-89 | Every event equals itself. |
| DlgEvents.EqualsSymmetric | Source/DlgSystem/Private/DlgEvent.cpp:80-89 | The equality is symmetric. |
| DlgEvents.EqualsIgnoresNameValue | Source/DlgSystem/Private/DlgEvent.cpp:80-89 | Events that differ only in NameValue are equal. |
| DlgEvents.EqualsNotTransitive | Source/DlgSystem/Private/DlgEvent.cpp:85 | The float tolerance makes the equality intransitive: some a, b, c have a == b and b == c but not a == c. |
| DlgEvents.EqualEventsCanCallDifferently | Source/DlgSystem/Private/DlgEvent.cpp:80-89 | Two events that compare equal can make different calls on the same valid participant. |
| DlgEvents.EqualsIntended | Source/DlgSystem/Private/DlgEvent.cpp:80-89 | The corrected equality also compares NameValue exactly: events are equal exactly when all fields but the float agree and the floats are within tolerance. It implies the equality as written. |
| DlgEvents.EqualsIntendedCallsAlike | Source/DlgSystem/Private/DlgEvent.cpp:9-51 | Events equal under the corrected equality give the same log and the same calls on every participant, floats within tolerance. |
| DlgEvents.EqualsCallsAlikeUnlessNameRead | Source/DlgSystem/Private/DlgEvent.cpp:80-89 | The equality as written gives alike behaviour for every event type that does not read NameValue. |
| DlgEvents.EventTypeToByte | Source/DlgSystem/Private/DlgEvent.cpp:76 | The stored byte is below 9 and decodes back to the same event type. |
| DlgEvents.EventTypeFromByte | Source/DlgSystem/Private/DlgEvent.cpp:76 | A byte denotes an event type exactly when it is below 9. |
| DlgEvents.EventTypeByteRoundTrip | Source/DlgSystem/Private/DlgEvent.cpp:76 | Every byte below 9 survives decoding and re-encoding. |
| DlgEvents.EncodeEvent | Source/DlgSystem/Private/DlgEvent.cpp:67-78 | Saving writes eight fields, and together they form a loadable event record. |
| DlgEvents.EncodeEventFollowsLayout | Source/DlgSystem/Private/DlgEvent.cpp:69-76 | The fields follow the fixed order: name, name, int, float, name, bool, bool, byte. |
| DlgEvents.DecodeEvent | Source/DlgSystem/Private/DlgEvent.cpp:67-78 | Loading succeeds exactly on an event record. The eight fields it reads are the encoding of the event it yields. |
| DlgEvents.EventRoundTrip | Source/DlgSystem/Private/DlgEvent.cpp:67-78 | Decoding an encoded event, whatever follows it, gives back every field exactly. |
| DlgArchive.ReadField | Source/DlgSystem/Private/DlgEvent.cpp:69-76 | One load: a value of the right kind at the cursor is taken and the cursor advances. Otherwise the archive fails, the variable keeps its value and the cursor stays where it was. A failed archive reads nothing. |
| DlgArchive.TransferField | Source/DlgSystem/Private/DlgEvent.cpp:69-75 | `Ar << Value` on the archive's state. The value keeps its kind. Saving keeps the value and the cursor and appends exactly that value. Loading never changes the stream. A failure is never cleared. The cursor moves forward by at most one field. |
| DlgArchive.TransferEventType | Source/DlgSystem/Private/DlgEvent.cpp:76 | `Ar << EventType` on the archive's state. Saving keeps the type and appends its byte. Loading never changes the stream, and a failed archive leaves both the type and the archive as they were. A failure is never cleared. The cursor moves forward by at most one field. |
| DlgArchive.TransferEventHead | Source/DlgSystem/Private/DlgEvent.cpp:69-72 | The first four statements of the operator. Saving keeps the event and the cursor and appends the participant name, the event name, the integer and the float, in that order. Loading never changes the stream. A failure is never cleared. The cursor moves forward by at most four fields. |
| DlgArchive.TransferEventTail | Source/DlgSystem/Private/DlgEvent.cpp:73-76 | The last four statements of the operator. Saving keeps the event and the cursor and appends the name value, the delta flag, the boolean and the type's byte, in that order. Loading never changes the stream. A failure is never cleared. The cursor moves forward by at most four fields. |
| DlgArchive.TransferEvent | Source/DlgSystem/Private/DlgEvent.cpp:67-78 | operator<< for FDlgEvent on the archive's state. Saving keeps the event and the cursor and appends exactly the event's encoding to the stream it had. Loading never changes the stream. A failure is never cleared. The cursor moves forward by at most eight fields. |
| DlgArchive.TransferCustomEvent | Source/DlgSystem/Private/DlgEvent.cpp:103-109 | operator<< for FDlgCustomEvent on the archive's state. Saving keeps the custom event and the cursor and appends exactly its encoding, the name then the object reference, to the stream it had. Loading never changes the stream. A failure is never cleared. The cursor moves forward by at most two fields. |
| DlgArchive.Archive.Serialize | Source/DlgSystem/Private/DlgEvent.cpp:69-75 | One `Ar << Value` on the archive object: the new state and the value are those of the field transfer. |
| DlgArchive.Archive.SerializeEventType | Source/DlgSystem/Private/DlgEvent.cpp:76 | `Ar << EventType` through its byte. A loaded byte that names no type fails the archive. |
| DlgArchive.SerializeEventHead | Source/DlgSystem/Private/DlgEvent.cpp:69-72 | The first four statements of the operator, one field each. |
| DlgArchive.SerializeEventTail | Source/DlgSystem/Private/DlgEvent.cpp:73-76 | The last four statements of the operator, one field each. |
| DlgArchive.SerializeEvent | Source/DlgSystem/Private/DlgEvent.cpp:67-78 | Saving appends exactly the event's encoding, leaves the cursor alone and returns the event unchanged. Loading never changes the stream and does nothing on a failed archive. Otherwise the load fails exactly when no event can be decoded at the cursor. On success it yields the decoded event and moves past its eight fields. |
| DlgArchive.SaveEventAppendsEncoding | Source/DlgSystem/Private/DlgEvent.cpp:67-78 | Saving leaves the event as it is and appends exactly its encoding. |
| DlgArchive.LoadFromFailedArchive | Source/DlgSystem/Private/DlgEvent.cpp:67-78 | A failed archive loads nothing and stays as it is. |
| DlgArchive.LoadEventHead | Source/DlgSystem/Private/DlgEvent.cpp:69-72 | The first four fields of a record at the cursor load one by one, and the cursor moves four fields on. |
| DlgArchive.LoadEventTail | Source/DlgSystem/Private/DlgEvent.cpp:73-76 | The last four fields of a record at the cursor load one by one, including the event type from its byte, and the cursor moves four fields on. |
| DlgArchive.LoadEventRecord | Source/DlgSystem/Private/DlgEvent.cpp:67-78 | An event record at the cursor loads as the decoded event, and the cursor moves eight fields on. |
| DlgArchive.LoadSucceedsOnlyOnRecord | Source/DlgSystem/Private/DlgEvent.cpp:67-78 | A load that does not fail started on a live archive at an event record. |
| DlgArchive.LoadEventDecodes | Source/DlgSystem/Private/DlgEvent.cpp:67-78 | Loading keeps the stream. It fails exactly when nothing decodes at the cursor; on success it yields the decoded event and advances by eight. |
| DlgArchive.SaveThenLoadEvent | Source/DlgSystem/Private/DlgEvent.cpp:67-78 | Saving an event into a fresh archive and loading it into a default event succeeds and gives back the original. |
| DlgCustomEvents.Call | Source/DlgSystem/Private/DlgEvent.cpp:91-100 | An invalid custom event makes no call and logs exactly one warning with the fixed text. A valid one logs nothing and enters its own object exactly once, with the given participant. |
| DlgCustomEvents.CallIgnoresParticipantValidity | Source/DlgSystem/Private/DlgEvent.cpp:91-100 | What a custom event does depends on the event alone. The participant, valid or not, is passed on unchanged. |
| DlgCustomEvents.Equals | Source/DlgSystem/Private/DlgEvent.cpp:111-115 | Equal exactly when the participant names are equal and both hold the same object reference. |
| DlgCustomEvents.EncodeCustomEvent | Source/DlgSystem/Private/DlgEvent.cpp:103-109 | Saving writes two fields: the name, then the object reference. |
| DlgCustomEvents.DecodeCustomEvent | Source/DlgSystem/Private/DlgEvent.cpp:103-109 | Loading succeeds exactly on a name followed by an object reference. What it reads is the encoding of what it yields. |
| DlgCustomEvents.CustomEventRoundTrip | Source/DlgSystem/Private/DlgEvent.cpp:103-109 | Decoding an encoded custom event gives back the same name and the same object. |
| DlgArchive.SaveCustomEventAppendsEncoding | Source/DlgSystem/Private/DlgEvent.cpp:103-109 | Saving leaves the custom event as it is and appends exactly its encoding. |
| DlgArchive.LoadCustomEventDecodes | Source/DlgSystem/Private/DlgEvent.cpp:103-109 | Loading keeps the stream and does nothing on a failed archive. Otherwise it fails exactly when nothing decodes at the cursor; on success it yields the decoded custom event and advances by two. |
| DlgArchive.SerializeCustomEvent | Source/DlgSystem/Private/DlgEvent.cpp:103-109 | The same two directions as SerializeEvent, over the name and the object reference. |
| DlgArchive.SaveThenLoadCustomEvent | Source/DlgSystem/Private/DlgEvent.cpp:103-109 | Saving a custom event and loading it into an empty one succeeds and gives back the same name and object. |

## Left out

- Name comparison: engine names (FName) compare case-insensitively. The model compares them as exact strings.
- Float detail: FloatValue is a real number. Single-precision rounding and NaN are not modelled; with a NaN, the source's equality would not even be reflexive.
- `IsValid(UObject*)` is reduced to "non-null and not pending kill". The garbage collector's other liveness checks are not modelled.
- `FDlgCustomEvent::IsValid` is declared in the header, which is not part of this model. It is modelled as "an event object is held and that object reports itself valid". What the object reports is user code, taken as a fixed flag.
- What the calls do: how the participant interface applies a delta, and how the reflection helper finds and sets a class variable, including when it fails. The source only calls into this code, which is not part of this model. Each call is modelled as an `Action` value naming its arguments.
- `EnterEvent` on a custom event object is user code. It is recorded as an action and not modelled further.
- The logger sink: log lines are returned as a sequence. The `%s` formatting is modelled by concatenation.
- Archive internals: the byte layout, the name table and the resolution of object references on load are not modelled. The archive is a stream of typed fields, and an object reference loads as the same reference.
- `EventTypeFromByte`: the enum's byte values follow the declaration order of `EDlgEventType`, whose header is not part of this model. A loaded byte of 9 or more fails the load. The source would store that byte in the event and reach `checkNoEntry()` only later, in `Call`; the model rejects it at load instead.
- Default names: an event loaded into a default event (`DEFAULT_EVENT`, or a custom event with an empty name) starts with empty names. The empty string stands for the engine's `NAME_None`, which prints as "None". So a name left over from a failed load appears as "" in the invalid-participant message, where the engine would print "None".
- Version-dependent serialisation and archive errors other than a missing or ill-typed field are not modelled.
- `Source/DlgSystemEditor/Private/DialogueStyle.cpp` (editor style registration) is not part of this model.

## Findings

| source | as written | input that shows it | evidently intended | confidence | as-written member | corrected member |
|---|---|---|---|---|---|---|
| Source/DlgSystem/Private/DlgEvent.cpp:80-89 | operator== does not compare NameValue, yet Call forwards NameValue for ModifyName and ModifyClassNameVariable (lines 31-32, 44-45) | two ModifyName events on participant P with event name "Mood", identical except NameValue "Happy" vs "Angry": they compare equal, but one sets Mood to Happy and the other to Angry | NameValue compared like the other fields, so that equal events behave alike | not executed | DlgEvents.EqualEventsCanCallDifferently | DlgEvents.EqualsIntendedCallsAlike |
