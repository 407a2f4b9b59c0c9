/** Serialisation. One operator moves an event through an archive in both
    directions: a saving archive records each field it is handed, a loading
    archive overwrites each field with what it reads. */
module DlgArchive {
  import opened DlgCommon
  import opened DlgEvents
  import Custom = DlgCustomEvents

  /** How far a loading archive has read, and whether it has failed. */
  datatype Cursor = Cursor(pos: nat, failed: bool)

  /** What an archive holds, and how far a loading archive has read. */
  datatype ArchiveState = ArchiveState(stream: seq<Field>, cursor: Cursor)

  /** Loading one plain value whose variable holds `f`: the value the
      variable holds afterwards, and the new cursor. A value of the right kind
      at the cursor is taken; otherwise the archive fails and the variable
      keeps `f`. A failed archive reads nothing. */
  function ReadField(s: seq<Field>, c: Cursor, f: Field): (r: (Field, Cursor))
    ensures SameKind(f, r.0)
    ensures c.failed ==> r == (f, c)
    ensures !r.1.failed <==> !c.failed && c.pos < |s| && SameKind(f, s[c.pos])
    ensures !r.1.failed ==> r == (s[c.pos], Cursor(c.pos + 1, false))
    ensures r.1.failed ==> r.0 == f && r.1.pos == c.pos
  {
    if !c.failed && c.pos < |s| && SameKind(f, s[c.pos]) then (s[c.pos], Cursor(c.pos + 1, false))
    else (f, Cursor(c.pos, true))
  }

  /** `Ar << Value` for one plain value whose variable holds `f`: the value
      the variable holds afterwards, and the archive's new state. Saving
      appends the value; loading reads as ReadField says. */
  function TransferField(loading: bool, st: ArchiveState, f: Field): (r: (Field, ArchiveState))
    ensures SameKind(f, r.0)
    ensures !loading ==> r.0 == f && r.1 == st.(stream := st.stream + [f])
    ensures loading ==> r.1.stream == st.stream
    ensures st.cursor.failed ==> r.1.cursor.failed
    ensures st.cursor.pos <= r.1.cursor.pos <= st.cursor.pos + 1
  {
    if loading then
      var (g, c) := ReadField(st.stream, st.cursor, f);
      (g, st.(cursor := c))
    else (f, st.(stream := st.stream + [f]))
  }

  /** `Ar << EventType`: the enum travels as its byte; a loaded byte that
      names no enumerator fails the archive and leaves the variable as it
      was. */
  function TransferEventType(loading: bool, st: ArchiveState, t: EventType): (r: (EventType, ArchiveState))
    ensures !loading ==> r.0 == t && r.1 == st.(stream := st.stream + [ByteField(EventTypeToByte(t))])
    ensures loading ==> r.1.stream == st.stream
    ensures loading && st.cursor.failed ==> r == (t, st)
    ensures st.cursor.failed ==> r.1.cursor.failed
    ensures st.cursor.pos <= r.1.cursor.pos <= st.cursor.pos + 1
  {
    var (g, st1) := TransferField(loading, st, ByteField(EventTypeToByte(t)));
    var decoded := EventTypeFromByte(g.byteValue);
    if decoded.None? then (t, st1.(cursor := st1.cursor.(failed := true)))
    else (decoded.value, st1)
  }

  /** The first four fields of an event moved through the archive: the
      participant name, the event name, the integer and the float. */
  function TransferEventHead(loading: bool, st: ArchiveState, e: DlgEvent): (r: (DlgEvent, ArchiveState))
    ensures !loading ==>
      r.0 == e && r.1.cursor == st.cursor &&
      r.1.stream == st.stream + [NameField(e.participantName), NameField(e.eventName),
                                 IntField(e.intValue), FloatField(e.floatValue)]
    ensures loading ==> r.1.stream == st.stream
    ensures st.cursor.failed ==> r.1.cursor.failed
    ensures st.cursor.pos <= r.1.cursor.pos <= st.cursor.pos + 4
  {
    var (participantName, st1) := TransferField(loading, st, NameField(e.participantName));
    var (eventName, st2) := TransferField(loading, st1, NameField(e.eventName));
    var (intValue, st3) := TransferField(loading, st2, IntField(e.intValue));
    var (floatValue, st4) := TransferField(loading, st3, FloatField(e.floatValue));
    (e.(participantName := participantName.name, eventName := eventName.name,
        intValue := intValue.intValue, floatValue := floatValue.floatValue), st4)
  }

  /** The last four fields of an event moved through the archive: the name
      value, the delta flag, the boolean and the event type. */
  function TransferEventTail(loading: bool, st: ArchiveState, e: DlgEvent): (r: (DlgEvent, ArchiveState))
    ensures !loading ==>
      r.0 == e && r.1.cursor == st.cursor &&
      r.1.stream == st.stream + [NameField(e.nameValue), BoolField(e.delta),
                                 BoolField(e.boolValue), ByteField(EventTypeToByte(e.eventType))]
    ensures loading ==> r.1.stream == st.stream
    ensures st.cursor.failed ==> r.1.cursor.failed
    ensures st.cursor.pos <= r.1.cursor.pos <= st.cursor.pos + 4
  {
    var (nameValue, st1) := TransferField(loading, st, NameField(e.nameValue));
    var (delta, st2) := TransferField(loading, st1, BoolField(e.delta));
    var (boolValue, st3) := TransferField(loading, st2, BoolField(e.boolValue));
    var (eventType, st4) := TransferEventType(loading, st3, e.eventType);
    (e.(nameValue := nameValue.name, delta := delta.boolValue,
        boolValue := boolValue.boolValue, eventType := eventType), st4)
  }

  /** operator<<(FArchive&, FDlgEvent&) on the archive's state: the eight
      fields, in the operator's order. */
  function TransferEvent(loading: bool, st: ArchiveState, e: DlgEvent): (r: (DlgEvent, ArchiveState))
    ensures !loading ==> r == (e, st.(stream := st.stream + EncodeEvent(e)))
    ensures loading ==> r.1.stream == st.stream
    ensures st.cursor.failed ==> r.1.cursor.failed
    ensures st.cursor.pos <= r.1.cursor.pos <= st.cursor.pos + 8
  {
    var (head, st4) := TransferEventHead(loading, st, e);
    var r := TransferEventTail(loading, st4, head);
    assert !loading ==> r.1.stream == st.stream + EncodeEvent(e) by {
      if !loading {
        var front := [NameField(e.participantName), NameField(e.eventName),
                      IntField(e.intValue), FloatField(e.floatValue)];
        var back := [NameField(e.nameValue), BoolField(e.delta),
                     BoolField(e.boolValue), ByteField(EventTypeToByte(e.eventType))];
        assert front + back == EncodeEvent(e);
        assert st.stream + front + back == st.stream + (front + back);
      }
    }
    r
  }

  /** Saving leaves the event as it is and appends exactly its encoding. */
  lemma SaveEventAppendsEncoding(st: ArchiveState, e: DlgEvent)
    ensures TransferEvent(false, st, e) == (e, st.(stream := st.stream + EncodeEvent(e)))
  {
  }

  /** A failed archive loads nothing: the event and the archive stay as they are. */
  lemma LoadFromFailedArchive(st: ArchiveState, e: DlgEvent)
    requires st.cursor.failed
    ensures TransferEvent(true, st, e) == (e, st)
  {
  }

  /** The first half of an event record at the cursor loads field by field. */
  lemma LoadEventHead(st: ArchiveState, e: DlgEvent)
    requires !st.cursor.failed && st.cursor.pos + 4 <= |st.stream|
    requires st.stream[st.cursor.pos].NameField? && st.stream[st.cursor.pos + 1].NameField?
    requires st.stream[st.cursor.pos + 2].IntField? && st.stream[st.cursor.pos + 3].FloatField?
    ensures TransferEventHead(true, st, e) ==
      (e.(participantName := st.stream[st.cursor.pos].name,
          eventName := st.stream[st.cursor.pos + 1].name,
          intValue := st.stream[st.cursor.pos + 2].intValue,
          floatValue := st.stream[st.cursor.pos + 3].floatValue),
       st.(cursor := Cursor(st.cursor.pos + 4, false)))
  {
  }

  /** The second half of an event record at the cursor loads field by field;
      the byte names an enumerator. */
  lemma LoadEventTail(st: ArchiveState, e: DlgEvent)
    requires !st.cursor.failed && st.cursor.pos + 4 <= |st.stream|
    requires st.stream[st.cursor.pos].NameField? && st.stream[st.cursor.pos + 1].BoolField?
    requires st.stream[st.cursor.pos + 2].BoolField? && st.stream[st.cursor.pos + 3].ByteField?
    requires st.stream[st.cursor.pos + 3].byteValue < 9
    ensures TransferEventTail(true, st, e) ==
      (e.(nameValue := st.stream[st.cursor.pos].name,
          delta := st.stream[st.cursor.pos + 1].boolValue,
          boolValue := st.stream[st.cursor.pos + 2].boolValue,
          eventType := EventTypeFromByte(st.stream[st.cursor.pos + 3].byteValue).value),
       st.(cursor := Cursor(st.cursor.pos + 4, false)))
  {
  }

  /** An event record at the cursor loads as the decoded event, and the
      cursor moves past its eight fields. */
  lemma LoadEventRecord(st: ArchiveState, e: DlgEvent)
    requires !st.cursor.failed && st.cursor.pos <= |st.stream|
    requires IsEventRecord(st.stream[st.cursor.pos..])
    ensures TransferEvent(true, st, e) ==
      (DecodeEvent(st.stream[st.cursor.pos..]).value, st.(cursor := Cursor(st.cursor.pos + 8, false)))
  {
    var s, p := st.stream, st.cursor.pos;
    var rec := s[p..];
    assert rec[0] == s[p] && rec[1] == s[p + 1] && rec[2] == s[p + 2] && rec[3] == s[p + 3];
    assert rec[4] == s[p + 4] && rec[5] == s[p + 5] && rec[6] == s[p + 6] && rec[7] == s[p + 7];
    LoadEventHead(st, e);
    var (head, st4) := TransferEventHead(true, st, e);
    LoadEventTail(st4, head);
  }

  /** A load that does not fail has read an event record. */
  lemma LoadSucceedsOnlyOnRecord(st: ArchiveState, e: DlgEvent)
    requires st.cursor.pos <= |st.stream|
    requires !TransferEvent(true, st, e).1.cursor.failed
    ensures !st.cursor.failed && IsEventRecord(st.stream[st.cursor.pos..])
  {
  }

  /** Loading from a failed archive changes nothing. Otherwise loading fails
      exactly when no event can be decoded at the cursor, and when it does
      not fail it yields the decoded event and moves past its eight fields. */
  lemma LoadEventDecodes(st: ArchiveState, e: DlgEvent)
    requires st.cursor.pos <= |st.stream|
    ensures TransferEvent(true, st, e).1.stream == st.stream
    ensures st.cursor.failed ==> TransferEvent(true, st, e) == (e, st)
    ensures !st.cursor.failed ==>
      (TransferEvent(true, st, e).1.cursor.failed <==> DecodeEvent(st.stream[st.cursor.pos..]).None?)
    ensures !TransferEvent(true, st, e).1.cursor.failed ==>
      DecodeEvent(st.stream[st.cursor.pos..]) == Some(TransferEvent(true, st, e).0) &&
      TransferEvent(true, st, e).1.cursor.pos == st.cursor.pos + 8
  {
    if st.cursor.failed {
      LoadFromFailedArchive(st, e);
    } else if IsEventRecord(st.stream[st.cursor.pos..]) {
      LoadEventRecord(st, e);
    } else if !TransferEvent(true, st, e).1.cursor.failed {
      LoadSucceedsOnlyOnRecord(st, e);
    }
  }

  /** operator<<(FArchive&, FDlgCustomEvent&) on the archive's state: the
      participant name, then the event object reference. */
  function TransferCustomEvent(loading: bool, st: ArchiveState, c: Custom.CustomEvent): (r: (Custom.CustomEvent, ArchiveState))
    ensures !loading ==> r == (c, st.(stream := st.stream + Custom.EncodeCustomEvent(c)))
    ensures loading ==> r.1.stream == st.stream
    ensures st.cursor.failed ==> r.1.cursor.failed
    ensures st.cursor.pos <= r.1.cursor.pos <= st.cursor.pos + 2
  {
    var (participantName, st1) := TransferField(loading, st, NameField(c.participantName));
    var (event, st2) := TransferField(loading, st1, ObjectField(c.event));
    assert !loading ==> st2.stream == st.stream + Custom.EncodeCustomEvent(c) by {
      if !loading {
        assert st.stream + [NameField(c.participantName)] + [ObjectField(c.event)]
          == st.stream + Custom.EncodeCustomEvent(c);
      }
    }
    (Custom.CustomEvent(participantName.name, event.obj), st2)
  }

  /** Saving leaves the custom event as it is and appends exactly its encoding. */
  lemma SaveCustomEventAppendsEncoding(st: ArchiveState, c: Custom.CustomEvent)
    ensures TransferCustomEvent(false, st, c) == (c, st.(stream := st.stream + Custom.EncodeCustomEvent(c)))
  {
  }

  /** Loading a custom event behaves as LoadEventDecodes says of events,
      over two fields. */
  lemma LoadCustomEventDecodes(st: ArchiveState, c: Custom.CustomEvent)
    requires st.cursor.pos <= |st.stream|
    ensures TransferCustomEvent(true, st, c).1.stream == st.stream
    ensures st.cursor.failed ==> TransferCustomEvent(true, st, c) == (c, st)
    ensures !st.cursor.failed ==>
      (TransferCustomEvent(true, st, c).1.cursor.failed <==>
       Custom.DecodeCustomEvent(st.stream[st.cursor.pos..]).None?)
    ensures !TransferCustomEvent(true, st, c).1.cursor.failed ==>
      Custom.DecodeCustomEvent(st.stream[st.cursor.pos..]) == Some(TransferCustomEvent(true, st, c).0) &&
      TransferCustomEvent(true, st, c).1.cursor.pos == st.cursor.pos + 2
  {
  }

  /** An archive (FArchive): whether it loads or saves, and its state. */
  class Archive {
    const loading: bool
    var state: ArchiveState

    ghost predicate Valid()
      reads this
    {
      state.cursor.pos <= |state.stream|
    }

    constructor ForSaving()
      ensures Valid() && !loading && state == ArchiveState([], Cursor(0, false))
    {
      loading := false;
      state := ArchiveState([], Cursor(0, false));
    }

    constructor ForLoading(s: seq<Field>)
      ensures Valid() && loading && state == ArchiveState(s, Cursor(0, false))
    {
      loading := true;
      state := ArchiveState(s, Cursor(0, false));
    }

    /** `Ar << Value` for one plain value: returns the value the variable
        holds afterwards. */
    method Serialize(f: Field) returns (g: Field)
      requires Valid()
      modifies this
      ensures Valid() && (g, state) == TransferField(loading, old(state), f)
    {
      var s, c := state.stream, state.cursor;
      if !loading {
        state := state.(stream := s + [f]);
        g := f;
      } else if !c.failed && c.pos < |s| && SameKind(f, s[c.pos]) {
        g := s[c.pos];
        state := state.(cursor := Cursor(c.pos + 1, false));
      } else {
        g := f;
        state := state.(cursor := c.(failed := true));
      }
    }

    /** `Ar << EventType`. */
    method SerializeEventType(t: EventType) returns (r: EventType)
      requires Valid()
      modifies this
      ensures Valid() && (r, state) == TransferEventType(loading, old(state), t)
    {
      var g := Serialize(ByteField(EventTypeToByte(t)));
      var decoded := EventTypeFromByte(g.byteValue);
      if decoded.None? {
        state := state.(cursor := state.cursor.(failed := true));
        r := t;
      } else {
        r := decoded.value;
      }
    }
  }

  /** operator<<(FArchive&, FDlgEvent&): the eight fields in their fixed
      order. Saving appends the event's encoding and leaves the event as it
      is; loading yields the event decoded at the archive's position, or
      fails the archive exactly when no event can be decoded there. */
  method SerializeEvent(ar: Archive, e: DlgEvent) returns (r: DlgEvent)
    requires ar.Valid()
    modifies ar
    ensures ar.Valid() && (r, ar.state) == TransferEvent(ar.loading, old(ar.state), e)
    ensures !ar.loading ==>
      r == e && ar.state.stream == old(ar.state.stream) + EncodeEvent(e) &&
      ar.state.cursor == old(ar.state.cursor)
    ensures ar.loading ==> ar.state.stream == old(ar.state.stream)
    ensures ar.loading && old(ar.state.cursor.failed) ==> r == e && ar.state == old(ar.state)
    ensures ar.loading && !old(ar.state.cursor.failed) ==>
      (ar.state.cursor.failed <==> DecodeEvent(ar.state.stream[old(ar.state.cursor.pos)..]).None?)
    ensures ar.loading && !ar.state.cursor.failed ==>
      DecodeEvent(ar.state.stream[old(ar.state.cursor.pos)..]) == Some(r) &&
      ar.state.cursor.pos == old(ar.state.cursor.pos) + 8
  {
    ghost var st := ar.state;
    var head := SerializeEventHead(ar, e);
    r := SerializeEventTail(ar, head);
    if ar.loading {
      LoadEventDecodes(st, e);
    } else {
      SaveEventAppendsEncoding(st, e);
    }
  }

  /** The first four fields of operator<<(FArchive&, FDlgEvent&). */
  method SerializeEventHead(ar: Archive, e: DlgEvent) returns (r: DlgEvent)
    requires ar.Valid()
    modifies ar
    ensures ar.Valid() && (r, ar.state) == TransferEventHead(ar.loading, old(ar.state), e)
  {
    var participantName := ar.Serialize(NameField(e.participantName));
    var eventName := ar.Serialize(NameField(e.eventName));
    var intValue := ar.Serialize(IntField(e.intValue));
    var floatValue := ar.Serialize(FloatField(e.floatValue));
    r := e.(participantName := participantName.name, eventName := eventName.name,
            intValue := intValue.intValue, floatValue := floatValue.floatValue);
  }

  /** The last four fields of operator<<(FArchive&, FDlgEvent&). */
  method SerializeEventTail(ar: Archive, e: DlgEvent) returns (r: DlgEvent)
    requires ar.Valid()
    modifies ar
    ensures ar.Valid() && (r, ar.state) == TransferEventTail(ar.loading, old(ar.state), e)
  {
    var nameValue := ar.Serialize(NameField(e.nameValue));
    var delta := ar.Serialize(BoolField(e.delta));
    var boolValue := ar.Serialize(BoolField(e.boolValue));
    var eventType := ar.SerializeEventType(e.eventType);
    r := e.(nameValue := nameValue.name, delta := delta.boolValue,
            boolValue := boolValue.boolValue, eventType := eventType);
  }

  /** The default FDlgEvent a loaded event is read into; the empty string
      stands for the engine's NAME_None. */
  const DEFAULT_EVENT := DlgEvent("", "", 0, 0.0, "", false, false, Event)

  /** Saving an event and loading the result into a default event gives the
      original event back, every field exactly. */
  method SaveThenLoadEvent(e: DlgEvent) returns (r: DlgEvent, ok: bool)
    ensures ok && r == e
  {
    var writer := new Archive.ForSaving();
    var saved := SerializeEvent(writer, e);
    assert writer.state.stream == EncodeEvent(e);
    var reader := new Archive.ForLoading(writer.state.stream);
    EventRoundTrip(e, []);
    assert reader.state.stream[0..] == EncodeEvent(e) + [];
    assert DecodeEvent(reader.state.stream[0..]) == Some(e);
    r := SerializeEvent(reader, DEFAULT_EVENT);
    ok := !reader.state.cursor.failed;
  }

  /** operator<<(FArchive&, FDlgCustomEvent&): the participant name, then the
      event object reference, with the same two directions as SerializeEvent. */
  method SerializeCustomEvent(ar: Archive, c: Custom.CustomEvent) returns (r: Custom.CustomEvent)
    requires ar.Valid()
    modifies ar
    ensures ar.Valid() && (r, ar.state) == TransferCustomEvent(ar.loading, old(ar.state), c)
    ensures !ar.loading ==>
      r == c && ar.state.stream == old(ar.state.stream) + Custom.EncodeCustomEvent(c) &&
      ar.state.cursor == old(ar.state.cursor)
    ensures ar.loading ==> ar.state.stream == old(ar.state.stream)
    ensures ar.loading && old(ar.state.cursor.failed) ==> r == c && ar.state == old(ar.state)
    ensures ar.loading && !old(ar.state.cursor.failed) ==>
      (ar.state.cursor.failed <==> Custom.DecodeCustomEvent(ar.state.stream[old(ar.state.cursor.pos)..]).None?)
    ensures ar.loading && !ar.state.cursor.failed ==>
      Custom.DecodeCustomEvent(ar.state.stream[old(ar.state.cursor.pos)..]) == Some(r) && ar.state.cursor.pos == old(ar.state.cursor.pos) + 2
  {
    ghost var st := ar.state;
    var participantName := ar.Serialize(NameField(c.participantName));
    var event := ar.Serialize(ObjectField(c.event));
    r := Custom.CustomEvent(participantName.name, event.obj);
    if ar.loading {
      LoadCustomEventDecodes(st, c);
    } else {
      SaveCustomEventAppendsEncoding(st, c);
    }
  }

  /** Saving a custom event and loading the result into an empty one gives
      the original back: the same name and the same object. */
  method SaveThenLoadCustomEvent(c: Custom.CustomEvent) returns (r: Custom.CustomEvent, ok: bool)
    ensures ok && r == c
  {
    var writer := new Archive.ForSaving();
    var saved := SerializeCustomEvent(writer, c);
    var reader := new Archive.ForLoading(writer.state.stream);
    Custom.CustomEventRoundTrip(c, []);
    assert reader.state.stream[0..] == Custom.EncodeCustomEvent(c) + [];
    r := SerializeCustomEvent(reader, Custom.CustomEvent("", null));
    ok := !reader.state.cursor.failed;
  }
}
