/**
 * The new-sobremesa form's checks, run before any request is sent:
 * required fields, then the capacity range, then the date against the
 * current time. The first failing check is the one reported.
 */
module NuevaForm {
  import opened Outcomes
  import opened SobremesaRoutes

  const MinCapacity := 4
  const MaxCapacity := 15

  /**
   * The form as entered. `date` and `time` are the two input strings;
   * `dateTime` is the instant they denote together and `participants` the
   * parsed capacity.
   */
  datatype NuevaForm = NuevaForm(
    title: string,
    description: string,
    date: string,
    time: string,
    participants: int,
    dateTime: int)

  datatype FormError = FieldsRequired | CapacityOutOfRange | DateInPast

  /** What submitting the form does: show an error, or send a create request. */
  datatype FormOutcome = Rejected(error: FormError) | Send(body: CreateRequest)

  predicate FieldsPresent(f: NuevaForm)
  {
    f.title != "" && f.description != "" && f.date != "" && f.time != ""
  }

  predicate CapacityInRange(n: int)
  {
    MinCapacity <= n <= MaxCapacity
  }

  function ValidateNueva(f: NuevaForm, now: int): (r: FormOutcome)
    ensures r == Rejected(FieldsRequired) <==> !FieldsPresent(f)
    ensures r == Rejected(CapacityOutOfRange) <==> FieldsPresent(f) && !CapacityInRange(f.participants)
    ensures r == Rejected(DateInPast) <==>
              FieldsPresent(f) && CapacityInRange(f.participants) && f.dateTime < now
    ensures r.Send? ==> r.body == CreateRequest(f.title, f.description, Some(f.dateTime), Some(f.participants))
  {
    if !FieldsPresent(f) then Rejected(FieldsRequired)
    else if f.participants < MinCapacity || f.participants > MaxCapacity then Rejected(CapacityOutOfRange)
    else if f.dateTime < now then Rejected(DateInPast)
    else Send(CreateRequest(f.title, f.description, Some(f.dateTime), Some(f.participants)))
  }

  /**
   * A request the form sends passes the server's required-fields check, and
   * the server, which has no range or date check of its own, stores the
   * capacity as sent.
   */
  lemma SentFormPassesServerCheck(f: NuevaForm, now: int)
    requires ValidateNueva(f, now).Send?
    ensures !CreateFieldsMissing(ValidateNueva(f, now).body)
    ensures CapacityInRange(ValidateNueva(f, now).body.max_participants.value)
    ensures ValidateNueva(f, now).body.date_time.value >= now
  {
  }

  /** A date exactly at the current time is accepted. */
  lemma DateAtNowAccepted(f: NuevaForm, now: int)
    requires FieldsPresent(f) && CapacityInRange(f.participants) && f.dateTime == now
    ensures ValidateNueva(f, now).Send?
  {
  }
}
