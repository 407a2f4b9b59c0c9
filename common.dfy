/** Values shared by the built-in and the custom dialogue events: names and
    fixed-width numbers, the engine objects an event is given, the calls an
    event makes, the log lines it writes and the fields an archive carries. */
module DlgCommon {

  datatype Option<+T> = None | Some(value: T)

  /** An engine name (FName), compared as a value. */
  type Name = string

  /** A single-precision float payload, taken as the real number it denotes. */
  type Float = real

  newtype int32 = x: int | -0x8000_0000 <= x < 0x8000_0000

  newtype uint8 = x: int | 0 <= x < 0x100

  /** An engine object (UObject) that a dialogue hands to an event as its
      participant; `pendingKill` is the garbage collector's liveness flag. */
  class DlgObject {
    const pendingKill: bool

    constructor (pendingKill: bool)
      ensures this.pendingKill == pendingKill
    {
      this.pendingKill := pendingKill;
    }
  }

  /** The engine's IsValid(UObject*): a non-null object that is not pending kill. */
  predicate IsValidObject(o: DlgObject?) {
    o != null && !o.pendingKill
  }

  /** A user-defined custom event object; `reportsValid` is the answer of its
      own validity check, which is user code. */
  class CustomEventObject {
    const reportsValid: bool

    constructor (reportsValid: bool)
      ensures this.reportsValid == reportsValid
    {
      this.reportsValid := reportsValid;
    }
  }

  /** One call that an event makes on a collaborator. The first five go to the
      participant interface, the next four to the reflection helper acting on
      the participant object, the last to a custom event object. */
  datatype Action =
    | OnDialogueEvent(participant: DlgObject, name: Name)
    | ModifyIntValue(participant: DlgObject, name: Name, isDelta: bool, intValue: int32)
    | ModifyFloatValue(participant: DlgObject, name: Name, isDelta: bool, floatValue: Float)
    | ModifyBoolValue(participant: DlgObject, name: Name, boolValue: bool)
    | ModifyNameValue(participant: DlgObject, name: Name, nameValue: Name)
    | ModifyIntVariable(participant: DlgObject, name: Name, intValue: int32, isDelta: bool)
    | ModifyFloatVariable(participant: DlgObject, name: Name, floatValue: Float, isDelta: bool)
    | SetBoolVariable(participant: DlgObject, name: Name, boolValue: bool)
    | SetNameVariable(participant: DlgObject, name: Name, nameValue: Name)
    | EnterEvent(event: CustomEventObject, enteredBy: DlgObject?)

  /** A line written to the plugin's logger. */
  datatype LogEntry = Error(message: string) | Warning(message: string)

  /** Everything one call of an event does: the calls it makes, in order, and
      the lines it logs. */
  datatype Outcome = Outcome(actions: seq<Action>, log: seq<LogEntry>)

  /** One value written to or read from an archive. The archive is modelled
      as a stream of such values rather than as bytes. */
  datatype Field =
    | NameField(name: Name)
    | IntField(intValue: int32)
    | FloatField(floatValue: Float)
    | BoolField(boolValue: bool)
    | ByteField(byteValue: uint8)
    | ObjectField(obj: CustomEventObject?)

  /** Two fields hold values of the same type; a loading archive can read a
      field into a variable only when this holds. */
  predicate SameKind(f: Field, g: Field) {
    match f
    case NameField(_) => g.NameField?
    case IntField(_) => g.IntField?
    case FloatField(_) => g.FloatField?
    case BoolField(_) => g.BoolField?
    case ByteField(_) => g.ByteField?
    case ObjectField(_) => g.ObjectField?
  }
}
