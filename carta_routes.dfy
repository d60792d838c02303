/**
 * The carta de intención handlers: submit, the convocante's listing, the
 * accept/reject decision and the requester's own check. The authenticated
 * requester is a user id parameter; `now` is the clock reading a new
 * document is stamped with.
 */
module CartaRoutes {
  import opened Outcomes
  import opened Models
  import opened Seqs
  import opened Store
  import opened Words

  /** The guard chain of submit, in the order the handler runs it. */
  function SubmitGuard(ss: seq<Sobremesa>, cs: seq<Carta>, requester: Id,
                       sobremesaId: Option<Id>, text: string): (r: Option<Failure>)
    ensures r == Some(CartaFieldsRequired) <==> sobremesaId.None? || text == ""
    ensures r == Some(WordCountOutOfRange) <==>
              sobremesaId.Some? && text != "" && !WithinWordWindow(text)
    ensures r == Some(SobremesaNotFound) <==>
              sobremesaId.Some? && text != "" && WithinWordWindow(text)
              && !SobremesaExists(ss, sobremesaId.value)
    ensures r == Some(ApplicationsClosed) <==>
              && sobremesaId.Some? && text != "" && WithinWordWindow(text)
              && FindSobremesa(ss, sobremesaId.value).Some?
              && ss[FindSobremesa(ss, sobremesaId.value).value].status != Proposed
    ensures r == Some(ConvocanteCannotApply) <==>
              && sobremesaId.Some? && text != "" && WithinWordWindow(text)
              && FindSobremesa(ss, sobremesaId.value).Some?
              && ss[FindSobremesa(ss, sobremesaId.value).value].status == Proposed
              && ss[FindSobremesa(ss, sobremesaId.value).value].convocante_id == requester
    ensures r == Some(DuplicateCarta) <==>
              && sobremesaId.Some? && text != "" && WithinWordWindow(text)
              && FindSobremesa(ss, sobremesaId.value).Some?
              && ss[FindSobremesa(ss, sobremesaId.value).value].status == Proposed
              && ss[FindSobremesa(ss, sobremesaId.value).value].convocante_id != requester
              && HasCartaFor(cs, sobremesaId.value, requester)
    ensures r.None? <==>
              && sobremesaId.Some? && text != "" && WithinWordWindow(text)
              && FindSobremesa(ss, sobremesaId.value).Some?
              && ss[FindSobremesa(ss, sobremesaId.value).value].status == Proposed
              && ss[FindSobremesa(ss, sobremesaId.value).value].convocante_id != requester
              && !HasCartaFor(cs, sobremesaId.value, requester)
  {
    if sobremesaId.None? || text == "" then Some(CartaFieldsRequired)
    else if !WithinWordWindow(text) then Some(WordCountOutOfRange)
    else match FindSobremesa(ss, sobremesaId.value)
      case None => Some(SobremesaNotFound)
      case Some(k) =>
        if ss[k].status != Proposed then Some(ApplicationsClosed)
        else if ss[k].convocante_id == requester then Some(ConvocanteCannotApply)
        else if FindCartaFor(cs, sobremesaId.value, requester).Some? then Some(DuplicateCarta)
        else None
  }

  /**
   * POST a carta. On any failure the store is unchanged; on success exactly
   * one pending carta with the given sobremesa, author and text is added.
   */
  method SubmitCarta(db: Db, requester: Id, sobremesaId: Option<Id>, text: string, now: int)
    returns (r: Result<Carta>)
    requires db.Valid()
    modifies db
    ensures db.Valid()
    ensures r.Err? <==> SubmitGuard(old(db.sobremesas), old(db.cartas), requester, sobremesaId, text).Some?
    ensures r.Err? ==> Some(r.failure) == SubmitGuard(old(db.sobremesas), old(db.cartas), requester, sobremesaId, text)
                       && unchanged(db)
    ensures r.Ok? ==> && r.value == NewCarta(old(db.nextId), sobremesaId.value, requester, text, now)
                      && r.value.status == Pending
                      && db.cartas == old(db.cartas) + [r.value]
                      && db.nextId == old(db.nextId) + 1
                      && db.sobremesas == old(db.sobremesas) && db.ledger == old(db.ledger)
                      && db.users == old(db.users)
  {
    if sobremesaId.None? || text == "" {
      return Err(CartaFieldsRequired);
    }
    var sid := sobremesaId.value;
    var wordCount := SubmitWordCount(text);
    if wordCount < MinWords || wordCount > MaxWords {
      return Err(WordCountOutOfRange);
    }
    var k := FindSobremesa(db.sobremesas, sid);
    if k.None? {
      return Err(SobremesaNotFound);
    }
    var s := db.sobremesas[k.value];
    if s.status != Proposed {
      return Err(ApplicationsClosed);
    }
    if s.convocante_id == requester {
      return Err(ConvocanteCannotApply);
    }
    var existing := FindCartaFor(db.cartas, sid, requester);
    if existing.Some? {
      return Err(DuplicateCarta);
    }
    var c := NewCarta(db.nextId, sid, requester, text, now);
    AppendCartaKeepsConsistent(db.sobremesas, db.cartas, db.ledger, db.nextId, c);
    db.cartas := db.cartas + [c];
    db.nextId := db.nextId + 1;
    return Ok(c);
  }

  /** A carta as the convocante's listing sends it, with the author's public profile. */
  datatype CartaView = CartaView(id: Id, text: string, status: CartaStatus, author: Option<PublicProfile>)

  function ViewOf(c: Carta, users: map<Id, User>): CartaView
  {
    CartaView(c.id, c.text, c.status, ProfileOf(users, c.user_id, true))
  }

  function CartaForSobremesa(sobremesaId: Id): Carta -> bool
  {
    (c: Carta) => c.sobremesa_id == sobremesaId
  }

  /**
   * GET the cartas of a sobremesa: 404 when it is absent, 403 unless the
   * requester is its convocante, otherwise one view per carta of that
   * sobremesa, in store order and whatever its status.
   */
  function ListCartas(ss: seq<Sobremesa>, cs: seq<Carta>, users: map<Id, User>,
                      sobremesaId: Id, requester: Id): (r: Result<seq<CartaView>>)
    ensures r == Err(SobremesaNotFound) <==> !SobremesaExists(ss, sobremesaId)
    ensures r == Err(NotConvocante) <==>
              FindSobremesa(ss, sobremesaId).Some?
              && ss[FindSobremesa(ss, sobremesaId).value].convocante_id != requester
    ensures r.Ok? <==>
              FindSobremesa(ss, sobremesaId).Some?
              && ss[FindSobremesa(ss, sobremesaId).value].convocante_id == requester
    ensures r.Ok? ==> |r.value| == Count(cs, CartaForSobremesa(sobremesaId))
    ensures r.Ok? ==> forall i :: 0 <= i < |cs| && cs[i].sobremesa_id == sobremesaId ==>
                        ViewOf(cs[i], users) in r.value
    ensures r.Ok? ==> forall k :: 0 <= k < |r.value| ==>
                        exists i :: 0 <= i < |cs| && cs[i].sobremesa_id == sobremesaId
                                    && r.value[k] == ViewOf(cs[i], users)
  {
    match FindSobremesa(ss, sobremesaId)
    case None => Err(SobremesaNotFound)
    case Some(k) =>
      if ss[k].convocante_id != requester then Err(NotConvocante)
      else
        var mine := Filter(cs, CartaForSobremesa(sobremesaId));
        var views := seq(|mine|, m requires 0 <= m < |mine| => ViewOf(mine[m], users));
        assert forall i :: 0 <= i < |cs| && cs[i].sobremesa_id == sobremesaId ==>
                 ViewOf(cs[i], users) in views by {
          forall i | 0 <= i < |cs| && cs[i].sobremesa_id == sobremesaId
            ensures ViewOf(cs[i], users) in views
          {
            assert CartaForSobremesa(sobremesaId)(cs[i]);
            assert cs[i] in mine;
            var m :| 0 <= m < |mine| && mine[m] == cs[i];
            assert views[m] == ViewOf(cs[i], users);
          }
        }
        assert forall m :: 0 <= m < |views| ==>
                 exists i :: 0 <= i < |cs| && cs[i].sobremesa_id == sobremesaId
                             && views[m] == ViewOf(cs[i], users) by {
          forall m | 0 <= m < |views|
            ensures exists i :: 0 <= i < |cs| && cs[i].sobremesa_id == sobremesaId
                                && views[m] == ViewOf(cs[i], users)
          {
            assert mine[m] in cs && CartaForSobremesa(sobremesaId)(mine[m]);
            var i :| 0 <= i < |cs| && cs[i] == mine[m];
          }
        }
        Ok(views)
  }

  /** The decision values the handler admits: accepted and rejected, never pending. */
  function ParseDecision(status: string): (r: Option<CartaStatus>)
    ensures r.Some? <==> status == "accepted" || status == "rejected"
    ensures r.Some? ==> CartaStatusName(r.value) == status && r.value != Pending
  {
    if status == "accepted" then Some(Accepted)
    else if status == "rejected" then Some(Rejected)
    else None
  }

  /** The convocante of the sobremesa a carta belongs to, when both exist. */
  function ConvocanteOfCarta(ss: seq<Sobremesa>, cs: seq<Carta>, cartaId: Id): Option<Id>
  {
    match FindCarta(cs, cartaId)
    case None => None
    case Some(k) =>
      match FindSobremesa(ss, cs[k].sobremesa_id)
      case None => None
      case Some(j) => Some(ss[j].convocante_id)
  }

  /** The guard chain of decide, in the order the handler runs it. */
  function DecideGuard(ss: seq<Sobremesa>, cs: seq<Carta>, requester: Id,
                       cartaId: Id, status: string): (r: Option<Failure>)
    ensures r == Some(InvalidDecision) <==> ParseDecision(status).None?
    ensures r == Some(CartaNotFound) <==>
              ParseDecision(status).Some? && FindCarta(cs, cartaId).None?
    ensures r == Some(SobremesaNotFound) <==>
              ParseDecision(status).Some? && FindCarta(cs, cartaId).Some?
              && ConvocanteOfCarta(ss, cs, cartaId).None?
    ensures r == Some(NotConvocante) <==>
              ParseDecision(status).Some? && ConvocanteOfCarta(ss, cs, cartaId).Some?
              && ConvocanteOfCarta(ss, cs, cartaId).value != requester
    ensures r.None? <==> ParseDecision(status).Some? && ConvocanteOfCarta(ss, cs, cartaId) == Some(requester)
    ensures r.None? ==> FindCarta(cs, cartaId).Some?
  {
    if ParseDecision(status).None? then Some(InvalidDecision)
    else match FindCarta(cs, cartaId)
      case None => Some(CartaNotFound)
      case Some(k) =>
        match FindSobremesa(ss, cs[k].sobremesa_id)
        case None => Some(SobremesaNotFound)
        case Some(j) =>
          if ss[j].convocante_id != requester then Some(NotConvocante) else None
  }

  /**
   * PATCH a carta's status. On any failure cartas and ledger are unchanged.
   * On success the carta takes the decision; an acceptance appends exactly
   * one participant entry for the carta's sobremesa and author, a rejection
   * leaves the ledger as it was. Nothing checks that the carta is still
   * pending, so accepting it again appends another entry.
   */
  method DecideCarta(db: Db, requester: Id, cartaId: Id, status: string, now: int)
    returns (r: Result<Carta>)
    requires db.Valid()
    modifies db
    ensures db.Valid()
    ensures r.Err? <==> DecideGuard(old(db.sobremesas), old(db.cartas), requester, cartaId, status).Some?
    ensures r.Err? ==> Some(r.failure) == DecideGuard(old(db.sobremesas), old(db.cartas), requester, cartaId, status)
                       && unchanged(db)
    ensures r.Ok? ==>
              var k := FindCarta(old(db.cartas), cartaId).value;
              var c := old(db.cartas)[k];
              var d := ParseDecision(status).value;
              && r.value == c.(status := d)
              && db.cartas == old(db.cartas)[k := r.value]
              && db.ledger == DecidedLedger(old(db.ledger), old(db.nextId), c, d, now)
              && db.nextId == DecidedNextId(old(db.nextId), d)
              && db.sobremesas == old(db.sobremesas) && db.users == old(db.users)
  {
    var decision := ParseDecision(status);
    if decision.None? {
      return Err(InvalidDecision);
    }
    var k := FindCarta(db.cartas, cartaId);
    if k.None? {
      return Err(CartaNotFound);
    }
    var carta := db.cartas[k.value];
    var j := FindSobremesa(db.sobremesas, carta.sobremesa_id);
    if j.None? {
      return Err(SobremesaNotFound);
    }
    if db.sobremesas[j.value].convocante_id != requester {
      return Err(NotConvocante);
    }
    DecideKeepsConsistent(db.sobremesas, db.cartas, db.ledger, db.nextId, k.value, decision.value, now);
    var decided := carta.(status := decision.value);
    db.cartas := db.cartas[k.value := decided];
    if decision.value == Accepted {
      var participacion := Participacion(db.nextId, carta.sobremesa_id, carta.user_id, Participant, now);
      db.ledger := db.ledger + [participacion];
      db.nextId := db.nextId + 1;
    }
    return Ok(decided);
  }

  /** What the check handler answers: whether the requester has a carta, and which. */
  datatype CartaCheck = CartaCheck(has_carta: bool, carta: Option<Carta>)

  /**
   * GET the requester's carta for a sobremesa. It always succeeds, even for
   * an unknown sobremesa, and reads nothing but the carta collection.
   */
  function CheckCarta(cs: seq<Carta>, sobremesaId: Id, requester: Id): (r: CartaCheck)
    ensures r.has_carta <==> HasCartaFor(cs, sobremesaId, requester)
    ensures r.has_carta <==> r.carta.Some?
    ensures r.carta.Some? ==> r.carta.value in cs && r.carta.value.sobremesa_id == sobremesaId
                              && r.carta.value.user_id == requester
  {
    match FindCartaFor(cs, sobremesaId, requester)
    case None => CartaCheck(false, None)
    case Some(k) => CartaCheck(true, Some(cs[k]))
  }

  /** Under one carta per pair, the check returns the requester's one carta. */
  lemma CheckReturnsTheCarta(cs: seq<Carta>, sobremesaId: Id, requester: Id, i: nat)
    requires OneCartaPerPair(cs)
    requires i < |cs| && cs[i].sobremesa_id == sobremesaId && cs[i].user_id == requester
    ensures CheckCarta(cs, sobremesaId, requester) == CartaCheck(true, Some(cs[i]))
  {
    var k := FindCartaFor(cs, sobremesaId, requester);
    assert k == Some(i);
  }

  /**
   * The convocante of a sobremesa never gets a carta into it, whatever the
   * sobremesa's status: submit fails either because applications are
   * closed or because the requester is the convocante.
   */
  lemma ConvocanteNeverSubmits(ss: seq<Sobremesa>, cs: seq<Carta>, sobremesaId: Id, text: string, j: nat)
    requires forall a, b :: 0 <= a < b < |ss| ==> ss[a].id != ss[b].id
    requires j < |ss| && ss[j].id == sobremesaId
    ensures SubmitGuard(ss, cs, ss[j].convocante_id, Some(sobremesaId), text).Some?
  {
    assert FindSobremesa(ss, sobremesaId) == Some(j);
  }
}
