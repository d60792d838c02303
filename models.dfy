/**
 * The three persisted collections (sobremesas, cartas de intención and the
 * participation ledger) and the user record they refer to, as the schemas
 * declare them: the status and role enums, their defaults, and which fields
 * are required. Ids are integers and timestamps are integers.
 */
module Models {
  import opened Outcomes

  type Id = nat

  datatype SobremesaStatus = Proposed | Confirmed | Completed | Cancelled
  datatype CartaStatus = Pending | Accepted | Rejected
  datatype Role = Convocante | Participant

  /** Schema defaults; the participation role has none and is always given. */
  const DefaultSobremesaStatus: SobremesaStatus := Proposed
  const DefaultCartaStatus: CartaStatus := Pending

  /** The string a sobremesa status is stored and sent as. */
  function SobremesaStatusName(s: SobremesaStatus): string
  {
    match s
    case Proposed => "proposed"
    case Confirmed => "confirmed"
    case Completed => "completed"
    case Cancelled => "cancelled"
  }

  /** The schema's enum check: which strings may be stored as a sobremesa status. */
  function ParseSobremesaStatus(name: string): (r: Option<SobremesaStatus>)
    ensures r.Some? ==> SobremesaStatusName(r.value) == name
    ensures r.None? ==> forall s :: SobremesaStatusName(s) != name
  {
    if name == "proposed" then Some(Proposed)
    else if name == "confirmed" then Some(Confirmed)
    else if name == "completed" then Some(Completed)
    else if name == "cancelled" then Some(Cancelled)
    else None
  }

  function CartaStatusName(s: CartaStatus): string
  {
    match s
    case Pending => "pending"
    case Accepted => "accepted"
    case Rejected => "rejected"
  }

  /** The schema's enum check for a carta status. */
  function ParseCartaStatus(name: string): (r: Option<CartaStatus>)
    ensures r.Some? ==> CartaStatusName(r.value) == name
    ensures r.None? ==> forall s :: CartaStatusName(s) != name
  {
    if name == "pending" then Some(Pending)
    else if name == "accepted" then Some(Accepted)
    else if name == "rejected" then Some(Rejected)
    else None
  }

  /** Every status's stored name parses back to that status, for both enums. */
  lemma StatusNamesRoundTrip(s: SobremesaStatus, c: CartaStatus)
    ensures ParseSobremesaStatus(SobremesaStatusName(s)) == Some(s)
    ensures ParseCartaStatus(CartaStatusName(c)) == Some(c)
  {
  }

  /**
   * A proposed meeting. `meeting_link` is the only optional field and
   * `max_participants` carries no bounds at schema level.
   */
  datatype Sobremesa = Sobremesa(
    id: Id,
    title: string,
    description: string,
    date_time: int,
    max_participants: int,
    convocante_id: Id,
    status: SobremesaStatus,
    meeting_link: Option<string>,
    created_at: int)

  /** A required string field refuses the empty string. */
  predicate SobremesaSchemaValid(s: Sobremesa)
  {
    s.title != "" && s.description != ""
  }

  /** A fresh sobremesa record: the status takes the schema default. */
  function NewSobremesa(id: Id, title: string, description: string, date_time: int,
                        max_participants: int, convocante_id: Id, now: int): Sobremesa
  {
    Sobremesa(id, title, description, date_time, max_participants, convocante_id,
              DefaultSobremesaStatus, None, now)
  }

  /**
   * A carta de intención. The schema declares no unique index on
   * (sobremesa_id, user_id): one carta per pair is kept only by the submit
   * handler.
   */
  datatype Carta = Carta(
    id: Id,
    sobremesa_id: Id,
    user_id: Id,
    text: string,
    status: CartaStatus,
    created_at: int)

  predicate CartaSchemaValid(c: Carta)
  {
    c.text != ""
  }

  function NewCarta(id: Id, sobremesa_id: Id, user_id: Id, text: string, now: int): Carta
  {
    Carta(id, sobremesa_id, user_id, text, DefaultCartaStatus, now)
  }

  /**
   * A participation ledger entry. The ledger has no unique index and no
   * update timestamp: entries are only ever appended, and the same
   * (sobremesa, user) pair may appear more than once.
   */
  datatype Participacion = Participacion(
    id: Id,
    sobremesa_id: Id,
    user_id: Id,
    role: Role,
    created_at: int)

  datatype User = User(
    id: Id,
    email: string,
    password: Option<string>,
    name: string,
    context: string,
    bio: Option<string>,
    photo: Option<string>,
    googleId: Option<string>)

  predicate UserSchemaValid(u: User)
  {
    u.email != "" && u.name != "" && u.context != ""
  }

  /**
   * The public fields of a user that a join exposes: never the email,
   * the password hash or the external identity.
   */
  datatype PublicProfile = PublicProfile(
    id: Id,
    name: string,
    context: string,
    bio: Option<string>,
    photo: Option<string>)

  /**
   * The profile a join attaches for user `id`; absent when no such user
   * exists. `withBio` says whether the join selects the bio field.
   */
  function ProfileOf(users: map<Id, User>, id: Id, withBio: bool): (r: Option<PublicProfile>)
    ensures r.Some? <==> id in users
    ensures r.Some? ==> r.value.id == id && r.value.name == users[id].name && r.value.context == users[id].context
                        && r.value.photo == users[id].photo
                        && r.value.bio == (if withBio then users[id].bio else None)
  {
    if id in users then
      var u := users[id];
      Some(PublicProfile(id, u.name, u.context, if withBio then u.bio else None, u.photo))
    else None
  }
}
