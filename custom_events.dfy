/** The custom dialogue event (FDlgCustomEvent): a participant name and an
    owned reference to a user-defined event object. Calling it checks that it
    is valid and then hands the participant to that object; it can be
    compared and serialised. */
module DlgCustomEvents {
  import opened DlgCommon

  datatype CustomEvent = CustomEvent(participantName: Name, event: CustomEventObject?)

  /** FDlgCustomEvent::IsValid: an event object is held and that object
      reports itself valid. */
  predicate IsValid(c: CustomEvent) {
    c.event != null && c.event.reportsValid
  }

  const EMPTY_CUSTOM_EVENT_WARNING := "Custom Event is empty (not valid)"

  /** FDlgCustomEvent::Call. An invalid custom event logs one warning and calls
      nothing; a valid one enters its event object exactly once, with the
      participant it was given, and logs nothing. The participant itself is
      not checked. */
  function Call(c: CustomEvent, participant: DlgObject?): (r: Outcome)
    ensures !IsValid(c) ==> r.actions == [] && r.log == [Warning(EMPTY_CUSTOM_EVENT_WARNING)]
    ensures IsValid(c) ==>
      r.log == [] && |r.actions| == 1 && r.actions[0].EnterEvent? &&
      r.actions[0].event == c.event && r.actions[0].enteredBy == participant
  {
    if !IsValid(c) then Outcome([], [Warning(EMPTY_CUSTOM_EVENT_WARNING)])
    else Outcome([EnterEvent(c.event, participant)], [])
  }

  /** Whether a custom event forwards depends on the event alone, never on
      the participant's validity, and the participant is passed on unchanged. */
  lemma CallIgnoresParticipantValidity(c: CustomEvent, p: DlgObject?, q: DlgObject?)
    ensures Call(c, p).log == Call(c, q).log
    ensures |Call(c, p).actions| == |Call(c, q).actions|
    ensures IsValid(c) ==> Call(c, q).actions[0] == Call(c, p).actions[0].(enteredBy := q)
  {
  }

  /** FDlgCustomEvent::operator==: the participant names are equal and both
      hold the very same event object. This is exact equality of the value,
      hence an equivalence. */
  function Equals(a: CustomEvent, b: CustomEvent): (r: bool)
    ensures r <==> a == b
  {
    a.participantName == b.participantName && a.event == b.event
  }

  /** What saving a custom event writes: the participant name, then the
      object reference. */
  function EncodeCustomEvent(c: CustomEvent): (fs: seq<Field>)
    ensures |fs| == 2 && fs[0].NameField? && fs[1].ObjectField?
  {
    [NameField(c.participantName), ObjectField(c.event)]
  }

  /** What loading a custom event reads from the front of a stream. */
  function DecodeCustomEvent(fs: seq<Field>): (r: Option<CustomEvent>)
    ensures r.Some? <==> |fs| >= 2 && fs[0].NameField? && fs[1].ObjectField?
    ensures r.Some? ==> fs[..2] == EncodeCustomEvent(r.value)
  {
    if |fs| >= 2 && fs[0].NameField? && fs[1].ObjectField? then
      var c := CustomEvent(fs[0].name, fs[1].obj);
      assert fs[..2] == EncodeCustomEvent(c);
      Some(c)
    else None
  }

  /** Loading reads back exactly what saving wrote, and no more. */
  lemma {:induction false} CustomEventRoundTrip(c: CustomEvent, rest: seq<Field>)
    ensures DecodeCustomEvent(EncodeCustomEvent(c) + rest) == Some(c)
  {
  }
}
