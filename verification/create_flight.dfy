/** The create-flight form: a draft of five text fields plus a validity
    flag. The flag is not a field validator: focusing any input sets it, and
    only a failed submission clears it. */
module CreateFlight {
  import opened Values

  /** The editable fields, one per key of the form's label table. */
  datatype Field = FlightNumber | DepartureDate | ArrivalDate | DepartureAirport | ArrivalAirport

  datatype FormState = FormState(
    flightNumber: string,
    departureDate: string,
    arrivalDate: string,
    departureAirport: string,
    arrivalAirport: string,
    isValid: bool)

  /** The inputs the form renders, in the label table's order. */
  const Inputs: seq<Field> := [FlightNumber, DepartureDate, ArrivalDate, DepartureAirport, ArrivalAirport]

  /** The state key of a field. */
  function Key(f: Field): string
  {
    match f
    case FlightNumber => "flightNumber"
    case DepartureDate => "departureDate"
    case ArrivalDate => "arrivalDate"
    case DepartureAirport => "departureAirport"
    case ArrivalAirport => "arrivalAirport"
  }

  /** The label shown beside a field's input. */
  function Label(f: Field): string
  {
    match f
    case FlightNumber => "Número do Voo"
    case DepartureDate => "Data de Partida"
    case ArrivalDate => "Data de Chegada"
    case DepartureAirport => "Aeroporto de Partida"
    case ArrivalAirport => "Aeroporto de Chegada"
  }

  /** The editable field a state key names, if any; `isValid` names none. */
  function FieldOfKey(key: string): (r: Option<Field>)
    ensures r.Some? ==> Key(r.value) == key
    ensures r.None? ==> forall f :: Key(f) != key
  {
    if key == "flightNumber" then Some(FlightNumber)
    else if key == "departureDate" then Some(DepartureDate)
    else if key == "arrivalDate" then Some(ArrivalDate)
    else if key == "departureAirport" then Some(DepartureAirport)
    else if key == "arrivalAirport" then Some(ArrivalAirport)
    else None
  }

  /** Reading a field back from its key gives the field: keys identify
      fields, and the validity flag is not one of them. */
  lemma KeyRoundTrip(f: Field)
    ensures FieldOfKey(Key(f)) == Some(f)
    ensures Key(f) != "isValid"
    ensures FieldOfKey("isValid") == None
  {
  }

  /** The rendered inputs are exactly the five fields, each once, with
      pairwise different labels. */
  lemma InputsAreTheFields()
    ensures forall f: Field :: f in Inputs
    ensures forall i, j :: 0 <= i < j < |Inputs| ==> Inputs[i] != Inputs[j]
    ensures forall i, j :: 0 <= i < j < |Inputs| ==> Label(Inputs[i]) != Label(Inputs[j])
  {
    forall f: Field
      ensures f in Inputs
    {
      match f
      case FlightNumber => assert Inputs[0] == f;
      case DepartureDate => assert Inputs[1] == f;
      case ArrivalDate => assert Inputs[2] == f;
      case DepartureAirport => assert Inputs[3] == f;
      case ArrivalAirport => assert Inputs[4] == f;
    }
  }

  /** The value of one field. */
  function Get(s: FormState, f: Field): string
  {
    match f
    case FlightNumber => s.flightNumber
    case DepartureDate => s.departureDate
    case ArrivalDate => s.arrivalDate
    case DepartureAirport => s.departureAirport
    case ArrivalAirport => s.arrivalAirport
  }

  /** Two states hold the same five field values. */
  predicate SameFields(a: FormState, b: FormState)
  {
    forall f :: Get(a, f) == Get(b, f)
  }

  /** The state when the form mounts: every field empty, flag set. */
  function Initial(): (r: FormState)
    ensures forall f :: Get(r, f) == ""
    ensures r.isValid
  {
    FormState("", "", "", "", "", true)
  }

  /** `handleChange`: the field takes the typed value and nothing else
      changes. */
  function Change(s: FormState, f: Field, value: string): (r: FormState)
    ensures Get(r, f) == value
    ensures forall g :: g != f ==> Get(r, g) == Get(s, g)
    ensures r.isValid == s.isValid
  {
    match f
    case FlightNumber => s.(flightNumber := value)
    case DepartureDate => s.(departureDate := value)
    case ArrivalDate => s.(arrivalDate := value)
    case DepartureAirport => s.(departureAirport := value)
    case ArrivalAirport => s.(arrivalAirport := value)
  }

  /** Two states agreeing on the flag and on every field are equal. */
  lemma Extensionality(a: FormState, b: FormState)
    requires SameFields(a, b) && a.isValid == b.isValid
    ensures a == b
  {
    assert Get(a, FlightNumber) == Get(b, FlightNumber);
    assert Get(a, DepartureDate) == Get(b, DepartureDate);
    assert Get(a, ArrivalDate) == Get(b, ArrivalDate);
    assert Get(a, DepartureAirport) == Get(b, DepartureAirport);
    assert Get(a, ArrivalAirport) == Get(b, ArrivalAirport);
  }

  /** Typing a field's current value back into it changes nothing. */
  lemma ChangeToSameValue(s: FormState, f: Field)
    ensures Change(s, f, Get(s, f)) == s
  {
    Extensionality(Change(s, f, Get(s, f)), s);
  }

  /** The last edit of a field wins. */
  lemma ChangeLastWins(s: FormState, f: Field, v: string, w: string)
    ensures Change(Change(s, f, v), f, w) == Change(s, f, w)
  {
    Extensionality(Change(Change(s, f, v), f, w), Change(s, f, w));
  }

  /** Edits of different fields do not interfere. */
  lemma ChangeCommutes(s: FormState, f: Field, v: string, g: Field, w: string)
    requires f != g
    ensures Change(Change(s, f, v), g, w) == Change(Change(s, g, w), f, v)
  {
    Extensionality(Change(Change(s, f, v), g, w), Change(Change(s, g, w), f, v));
  }

  /** The `onFocus` of any input: the flag is set and the fields stay. */
  function Focus(s: FormState): (r: FormState)
    ensures r.isValid
    ensures SameFields(r, s)
  {
    s.(isValid := true)
  }

  /** Focusing twice is focusing once, and focusing a valid form changes
      nothing. */
  lemma FocusIdempotent(s: FormState)
    ensures Focus(Focus(s)) == Focus(s)
    ensures Focus(s) == s <==> s.isValid
  {
    if s.isValid {
      Extensionality(Focus(s), s);
    }
  }

  /** What a submit produces: the state afterwards, and the payload of the
      `createFlight` call it issues, if it issues one. */
  datatype Submission = Submission(form: FormState, call: Option<FormState>)

  /** `handleSubmit`: with the flag set, exactly one create call carrying the
      whole current state; with it cleared, no call. The state is unchanged
      either way. */
  function Submit(s: FormState): (r: Submission)
    ensures r.form == s
    ensures r.call.Some? <==> s.isValid
    ensures r.call.Some? ==> SameFields(r.call.value, s) && r.call.value.isValid
  {
    if s.isValid then Submission(s, Some(s)) else Submission(s, None)
  }

  /** The continuation of the create call. `submitted` is the state the
      submit handler saw, `current` the state when the call settles. A
      failure clears the flag over the submitted state, so edits made while
      the call was pending are dropped; a success leaves the state alone. */
  function SubmitSettled(submitted: FormState, current: FormState, ack: Settled<()>): (r: FormState)
    ensures ack.Rejected? ==> !r.isValid && SameFields(r, submitted)
    ensures ack.Fulfilled? ==> r == current
  {
    match ack
    case Fulfilled(_) => current
    case Rejected => submitted.(isValid := false)
  }

  /** After a failed create, submitting again issues nothing until an input
      is focused; then it re-sends the very same fields without retyping. */
  lemma RetryAfterFailure(s: FormState)
    requires s.isValid
    ensures var failed := SubmitSettled(s, s, Rejected);
            && Submit(failed).call.None?
            && Submit(Focus(failed)).call == Some(s)
  {
    var failed := SubmitSettled(s, s, Rejected);
    Extensionality(Focus(failed), s);
  }

  /** A field edited while the create call was pending is lost if the call
      fails: the form goes back to the submitted value. */
  lemma FailureDropsPendingEdit(s: FormState, f: Field, v: string)
    requires s.isValid && v != Get(s, f)
    ensures var current := Change(s, f, v);
            Get(SubmitSettled(s, current, Rejected), f) == Get(s, f) != Get(current, f)
  {
  }

  /** A form filled in with flight AA1 from JFK to GRU is sent as is; when
      the call fails the flag clears and the fields stay. */
  lemma CreateScenario()
    ensures var s := FormState("AA1", "2024-01-01", "2024-01-02", "JFK", "GRU", true);
            && Submit(s).call == Some(s)
            && SubmitSettled(s, s, Rejected) == FormState("AA1", "2024-01-01", "2024-01-02", "JFK", "GRU", false)
  {
  }

  /** Filling the fields from the initial form, one edit each, and submitting
      sends exactly the typed values. */
  lemma FillAndSubmit(v: seq<string>)
    requires |v| == |Inputs|
    ensures var s := Change(Change(Change(Change(Change(Initial(),
                       Inputs[0], v[0]), Inputs[1], v[1]), Inputs[2], v[2]), Inputs[3], v[3]), Inputs[4], v[4]);
            && Submit(s).call.Some?
            && forall i :: 0 <= i < |Inputs| ==> Get(Submit(s).call.value, Inputs[i]) == v[i]
  {
  }
}
