/**
 * Result values shared by the server route handlers: an Option type for
 * optional fields and lookups, and a Result type whose error side names the
 * failure each handler answers with.
 */
module Outcomes {

  datatype Option<+T> = None | Some(value: T)

  /** Every failure a route handler reports, one per distinct error response. */
  datatype Failure =
    | CartaFieldsRequired      // submit without a sobremesa id or without text
    | WordCountOutOfRange      // submit whose text is outside the word window
    | SobremesaNotFound
    | ApplicationsClosed       // submit to a sobremesa no longer proposed
    | ConvocanteCannotApply    // submit by the sobremesa's own convocante
    | DuplicateCarta           // second carta for the same (sobremesa, user)
    | NotConvocante            // list, decide, status or link by someone else
    | InvalidDecision          // decide with a status other than accepted/rejected
    | CartaNotFound
    | SobremesaFieldsRequired  // create with a missing field
    | StatusRejectedBySchema   // status update whose value the schema enum refuses
    | ListingFailed            // mis-sobremesas entry whose sobremesa is gone
    | NotOwnProfile            // profile update of another user's id
    | UserNotFound

  /** The HTTP status code the handler sends for a failure. */
  function HttpStatus(f: Failure): (code: int)
    ensures code == 400 || code == 403 || code == 404 || code == 500
    ensures code == 404 <==> f in {SobremesaNotFound, CartaNotFound, UserNotFound}
    ensures code == 403 <==> f in {NotConvocante, NotOwnProfile}
    ensures code == 500 <==> f in {StatusRejectedBySchema, ListingFailed}
  {
    match f
    case SobremesaNotFound | CartaNotFound | UserNotFound => 404
    case NotConvocante | NotOwnProfile => 403
    case StatusRejectedBySchema | ListingFailed => 500
    case _ => 400
  }

  /** The codes the sobremesa handlers send for their own failures. */
  lemma SobremesaFailureCodes()
    ensures HttpStatus(SobremesaFieldsRequired) == 400
    ensures HttpStatus(SobremesaNotFound) == 404 && HttpStatus(NotConvocante) == 403
    ensures HttpStatus(StatusRejectedBySchema) == 500 && HttpStatus(ListingFailed) == 500
  {
  }

  /** The codes the profile handler sends for its own failures. */
  lemma ProfileFailureCodes()
    ensures HttpStatus(NotOwnProfile) == 403 && HttpStatus(UserNotFound) == 404
  {
  }

  datatype Result<+T> = Ok(value: T) | Err(failure: Failure)
}
