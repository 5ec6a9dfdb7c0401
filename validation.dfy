/**
 * The request-body schema of the booking endpoint (backend/src/utils/validation.ts).
 *
 * Every field is checked on its own: the body is accepted exactly when all five
 * field checks pass, and every failing field contributes one issue. There is no
 * rule that relates two fields, so an end date before the start date is accepted.
 */
module Validation {
  import opened Wrappers

  /** One field of the JSON body: a string, or anything else (absent, a number, an object, ...). */
  datatype Field = Str(text: string) | NotString

  /** The JSON body of a booking request, as far as the schema looks at it. */
  datatype BookingBody = BookingBody(
    firstName: Field,
    lastName: Field,
    vehicleId: Field,
    startDate: Field,
    endDate: Field)

  datatype FieldName = FirstName | LastName | VehicleId | StartDate | EndDate

  /** Why a field was refused: not a string, shorter than the minimum, not a UUID, or a failed refinement. */
  datatype IssueKind = ExpectedString | TooSmall(minimum: nat) | InvalidUuid | Custom(message: string)

  datatype Issue = Issue(path: FieldName, kind: IssueKind)

  /**
   * The two library predicates the schema relies on and that are not modelled:
   * the UUID text-format test, and date parsing, which yields a day number or
   * None where the runtime's parser yields NaN.
   */
  datatype Runtime = Runtime(isUuid: string -> bool, parseDate: string -> Option<int>)

  /** A body that passed the schema; its fields are the body's strings, unchanged. */
  datatype BookingRequest = BookingRequest(
    firstName: string,
    lastName: string,
    vehicleId: string,
    startDate: string,
    endDate: string)

  const InvalidStartDate: string := "Invalid start date"
  const InvalidEndDate: string := "Invalid end date"

  // ---- The per-field rules, as independent predicates ----

  /** A string of at least one character. */
  predicate NonEmptyString(f: Field) {
    f.Str? && |f.text| >= 1
  }

  predicate UuidString(rt: Runtime, f: Field) {
    f.Str? && rt.isUuid(f.text)
  }

  /** A string the date parser accepts. */
  predicate DateString(rt: Runtime, f: Field) {
    f.Str? && rt.parseDate(f.text).Some?
  }

  predicate FieldValid(rt: Runtime, body: BookingBody, name: FieldName) {
    match name
    case FirstName => NonEmptyString(body.firstName)
    case LastName => NonEmptyString(body.lastName)
    case VehicleId => UuidString(rt, body.vehicleId)
    case StartDate => DateString(rt, body.startDate)
    case EndDate => DateString(rt, body.endDate)
  }

  /** The schema accepts a body exactly when each of the five field rules holds. */
  predicate Accepts(rt: Runtime, body: BookingBody) {
    FieldValid(rt, body, FirstName) && FieldValid(rt, body, LastName) &&
    FieldValid(rt, body, VehicleId) && FieldValid(rt, body, StartDate) &&
    FieldValid(rt, body, EndDate)
  }

  // ---- The checks as the schema runs them, each producing at most one issue ----

  /** `z.string().min(1)`: the type test first, the length test only on a string. */
  function CheckMinOne(name: FieldName, f: Field): Option<Issue> {
    match f
    case NotString => Some(Issue(name, ExpectedString))
    case Str(s) => if |s| < 1 then Some(Issue(name, TooSmall(1))) else None
  }

  /** `z.string().uuid()`. */
  function CheckUuid(rt: Runtime, name: FieldName, f: Field): Option<Issue> {
    match f
    case NotString => Some(Issue(name, ExpectedString))
    case Str(s) => if !rt.isUuid(s) then Some(Issue(name, InvalidUuid)) else None
  }

  /** `z.string().refine(date => !isNaN(Date.parse(date)), { message })`. */
  function CheckDate(rt: Runtime, name: FieldName, f: Field, message: string): Option<Issue> {
    match f
    case NotString => Some(Issue(name, ExpectedString))
    case Str(s) => if rt.parseDate(s).None? then Some(Issue(name, Custom(message))) else None
  }

  function AsSeq(o: Option<Issue>): seq<Issue> {
    if o.Some? then [o.value] else []
  }

  /** The check the schema runs on one field. */
  function CheckField(rt: Runtime, body: BookingBody, name: FieldName): Option<Issue> {
    match name
    case FirstName => CheckMinOne(FirstName, body.firstName)
    case LastName => CheckMinOne(LastName, body.lastName)
    case VehicleId => CheckUuid(rt, VehicleId, body.vehicleId)
    case StartDate => CheckDate(rt, StartDate, body.startDate, InvalidStartDate)
    case EndDate => CheckDate(rt, EndDate, body.endDate, InvalidEndDate)
  }

  /** The issues of all five fields, in the order the schema declares them. */
  function Issues(rt: Runtime, body: BookingBody): seq<Issue> {
    AsSeq(CheckField(rt, body, FirstName)) +
    AsSeq(CheckField(rt, body, LastName)) +
    AsSeq(CheckField(rt, body, VehicleId)) +
    AsSeq(CheckField(rt, body, StartDate)) +
    AsSeq(CheckField(rt, body, EndDate))
  }

  /** Each check reports an issue on its own field, and exactly when that field's rule fails. */
  lemma CheckFieldMatchesRule(rt: Runtime, body: BookingBody, name: FieldName)
    ensures CheckField(rt, body, name).Some? <==> !FieldValid(rt, body, name)
    ensures CheckField(rt, body, name).Some? ==> CheckField(rt, body, name).value.path == name
  {
  }

  /** The issue list names a field exactly when that field's check reported an issue. */
  lemma IssuesNameFailingFields(rt: Runtime, body: BookingBody, name: FieldName)
    ensures (exists i :: 0 <= i < |Issues(rt, body)| && Issues(rt, body)[i].path == name) <==>
            !FieldValid(rt, body, name)
  {
    var issues := Issues(rt, body);
    var names := [FirstName, LastName, VehicleId, StartDate, EndDate];
    forall n | n in names
      ensures CheckField(rt, body, n).Some? <==> !FieldValid(rt, body, n)
      ensures CheckField(rt, body, n).Some? ==> CheckField(rt, body, n).value.path == n
    {
      CheckFieldMatchesRule(rt, body, n);
    }
    if !FieldValid(rt, body, name) {
      var k := CheckField(rt, body, name).value;
      assert k in issues;
    } else {
      forall i | 0 <= i < |issues| ensures issues[i].path != name {
        assert issues[i] in issues;
      }
    }
  }

  lemma IssuesNameFailingFieldsAll(rt: Runtime, body: BookingBody)
    ensures forall name: FieldName ::
      (exists i :: 0 <= i < |Issues(rt, body)| && Issues(rt, body)[i].path == name) <==>
      !FieldValid(rt, body, name)
  {
    forall name: FieldName
      ensures (exists i :: 0 <= i < |Issues(rt, body)| && Issues(rt, body)[i].path == name) <==>
              !FieldValid(rt, body, name)
    {
      IssuesNameFailingFields(rt, body, name);
    }
  }

  /**
   * `bookingSchema.safeParse(body)`: the request when no field has an issue,
   * otherwise every issue found. An issue is reported for a field exactly when
   * that field's rule fails, and the date refinements carry their own messages.
   */
  function SafeParse(rt: Runtime, body: BookingBody): (r: Result<BookingRequest, seq<Issue>>)
    ensures r.Ok? <==> Accepts(rt, body)
    ensures r.Ok? ==>
      r.value == BookingRequest(body.firstName.text, body.lastName.text, body.vehicleId.text,
                                body.startDate.text, body.endDate.text)
    ensures r.Err? ==> r.error != []
    ensures r.Err? ==> forall name: FieldName ::
      (exists i :: 0 <= i < |r.error| && r.error[i].path == name) <==> !FieldValid(rt, body, name)
    ensures r.Err? ==>
      (Issue(StartDate, Custom(InvalidStartDate)) in r.error <==>
        body.startDate.Str? && rt.parseDate(body.startDate.text).None?)
    ensures r.Err? ==>
      (Issue(EndDate, Custom(InvalidEndDate)) in r.error <==>
        body.endDate.Str? && rt.parseDate(body.endDate.text).None?)
  {
    var issues := Issues(rt, body);
    IssuesNameFailingFieldsAll(rt, body);
    if issues == [] then
      Ok(BookingRequest(body.firstName.text, body.lastName.text, body.vehicleId.text,
                        body.startDate.text, body.endDate.text))
    else
      Err(issues)
  }

  /**
   * There is no rule across fields: exchanging the two dates never changes
   * whether the body is accepted, so an end date before the start date passes.
   */
  lemma NoCrossFieldRule(rt: Runtime, body: BookingBody)
    ensures SafeParse(rt, body).Ok? ==
            SafeParse(rt, body.(startDate := body.endDate, endDate := body.startDate)).Ok?
  {
  }

  /** A concrete body whose end date precedes its start date, accepted by the schema. */
  lemma ReversedRangeAccepted()
    ensures var rt := Runtime(s => true, s => if s == "2025-06-15" then Some(15) else if s == "2025-06-10" then Some(10) else None);
            var body := BookingBody(Str("Ada"), Str("Lovelace"), Str("9b2e1c3a-5d4f-4a6b-8c7d-0e1f2a3b4c5d"),
                                    Str("2025-06-15"), Str("2025-06-10"));
            SafeParse(rt, body).Ok? &&
            rt.parseDate(body.endDate.text).value < rt.parseDate(body.startDate.text).value
  {
  }
}
