/**
 * The sobremesa detail page as an applicant sees it: the carta form's
 * word-count check, the displayed word count, whether the form shows, and
 * the banner for a carta already sent.
 */
module DetallePage {
  import opened Outcomes
  import opened Models
  import opened Words
  import opened Store
  import opened CartaRoutes

  datatype CartaFormError = TooFewWords | TooManyWords

  /** The form's check before sending: too few words first, then too many. */
  function CartaFormCheck(text: string): (r: Option<CartaFormError>)
    ensures r == Some(TooFewWords) <==> SubmitWordCount(text) < MinWords
    ensures r == Some(TooManyWords) <==> SubmitWordCount(text) > MaxWords
    ensures r.None? <==> WithinWordWindow(text)
  {
    var n := SubmitWordCount(text);
    if n < MinWords then Some(TooFewWords)
    else if n > MaxWords then Some(TooManyWords)
    else None
  }

  /**
   * A text the form lets through passes the server's word-count check, and
   * a text the form blocks would fail it: the two use the same count. The
   * check classes an empty text as too few words, though on the page the
   * required textarea stops an empty submit before the check runs.
   */
  lemma FormAgreesWithServer(text: string)
    ensures CartaFormCheck(text).None? <==> WithinWordWindow(text)
    ensures text == "" ==> CartaFormCheck(text) == Some(TooFewWords)
  {
    if text == "" {
      SubmitWordCountIsWords(text);
    }
  }

  /** The carta as the check endpoint returns it, its status a plain string. */
  datatype ClientCarta = ClientCarta(text: string, status: string)

  /** The check response as the page holds it. */
  datatype ClientCheck = ClientCheck(has_carta: bool, carta: Option<ClientCarta>)

  /** The check response a server check produces. */
  function FromServer(c: CartaCheck): (r: ClientCheck)
    ensures r.has_carta == c.has_carta && r.carta.Some? == c.carta.Some?
    ensures r.carta.Some? ==> r.carta.value.status == CartaStatusName(c.carta.value.status)
                              && r.carta.value.text == c.carta.value.text
  {
    ClientCheck(c.has_carta, match c.carta
                             case Some(k) => Some(ClientCarta(k.text, CartaStatusName(k.status)))
                             case None => None)
  }

  /** The form shows unless the check has come back saying a carta exists. */
  predicate ShowCartaForm(check: Option<ClientCheck>)
  {
    !(check.Some? && check.value.has_carta)
  }

  datatype Banner = PendingReview | AcceptedWelcome | RejectedElsewhere

  /** The banner for the applicant's carta, if any: one per known status, none otherwise. */
  function StatusBanner(check: Option<ClientCheck>): (r: Option<Banner>)
    ensures r.Some? ==> check.Some? && check.value.has_carta && check.value.carta.Some?
    ensures r == Some(PendingReview) <==>
              check.Some? && check.value.has_carta && check.value.carta.Some? && check.value.carta.value.status == "pending"
    ensures r == Some(AcceptedWelcome) <==>
              check.Some? && check.value.has_carta && check.value.carta.Some? && check.value.carta.value.status == "accepted"
    ensures r == Some(RejectedElsewhere) <==>
              check.Some? && check.value.has_carta && check.value.carta.Some? && check.value.carta.value.status == "rejected"
  {
    if !(check.Some? && check.value.has_carta) then None
    else if check.value.carta.None? then None
    else
      var status := check.value.carta.value.status;
      if status == "pending" then Some(PendingReview)
      else if status == "accepted" then Some(AcceptedWelcome)
      else if status == "rejected" then Some(RejectedElsewhere)
      else None
  }

  /** The form and the banner never show together. */
  lemma FormAndBannerExclusive(check: Option<ClientCheck>)
    ensures StatusBanner(check).Some? ==> !ShowCartaForm(check)
  {
  }

  function BannerFor(st: CartaStatus): Banner
  {
    match st
    case Pending => PendingReview
    case Accepted => AcceptedWelcome
    case Rejected => RejectedElsewhere
  }

  /**
   * For a check answered by the server, the form shows exactly when the
   * applicant has no carta for the sobremesa, and otherwise the banner is
   * the one for that carta's status.
   */
  lemma ServerCheckDrivesPage(cs: seq<Carta>, sobremesaId: Id, requester: Id)
    ensures var check := Some(FromServer(CheckCarta(cs, sobremesaId, requester)));
            && (ShowCartaForm(check) <==> !HasCartaFor(cs, sobremesaId, requester))
            && (StatusBanner(check).Some? <==> HasCartaFor(cs, sobremesaId, requester))
            && (HasCartaFor(cs, sobremesaId, requester) ==>
                  StatusBanner(check) == Some(BannerFor(CheckCarta(cs, sobremesaId, requester).carta.value.status)))
  {
    var c := CheckCarta(cs, sobremesaId, requester);
    if c.carta.Some? {
      match c.carta.value.status
      case Pending =>
      case Accepted =>
      case Rejected =>
    }
  }
}
