/**
 * The persistence store the route handlers share: the user records, the
 * sobremesa and carta collections in insertion order, the append-only
 * participation ledger, and the id counter new documents draw from. The
 * invariant `Consistent` gathers what the handlers keep true of the three
 * collections when requests run one after another.
 */
module Store {
  import opened Outcomes
  import opened Models
  import opened Seqs

  function SobremesaWithId(id: Id): Sobremesa -> bool
  {
    (s: Sobremesa) => s.id == id
  }

  function CartaWithId(id: Id): Carta -> bool
  {
    (c: Carta) => c.id == id
  }

  function CartaOfPair(sobremesaId: Id, userId: Id): Carta -> bool
  {
    (c: Carta) => c.sobremesa_id == sobremesaId && c.user_id == userId
  }

  /** findById on the sobremesa collection: the position of the sobremesa with `id`. */
  function FindSobremesa(ss: seq<Sobremesa>, id: Id): (r: Option<nat>)
    ensures r.Some? ==> r.value < |ss| && ss[r.value].id == id
    ensures r.None? ==> forall i :: 0 <= i < |ss| ==> ss[i].id != id
  {
    IndexWhere(ss, SobremesaWithId(id))
  }

  /** findById on the carta collection. */
  function FindCarta(cs: seq<Carta>, id: Id): (r: Option<nat>)
    ensures r.Some? ==> r.value < |cs| && cs[r.value].id == id
    ensures r.None? ==> forall i :: 0 <= i < |cs| ==> cs[i].id != id
  {
    IndexWhere(cs, CartaWithId(id))
  }

  /** findOne({sobremesa_id, user_id}) on the carta collection: the first match. */
  function FindCartaFor(cs: seq<Carta>, sobremesaId: Id, userId: Id): (r: Option<nat>)
    ensures r.Some? ==> r.value < |cs| && cs[r.value].sobremesa_id == sobremesaId
                        && cs[r.value].user_id == userId
    ensures r.None? <==> !HasCartaFor(cs, sobremesaId, userId)
  {
    IndexWhere(cs, CartaOfPair(sobremesaId, userId))
  }

  predicate SobremesaExists(ss: seq<Sobremesa>, id: Id)
  {
    exists i :: 0 <= i < |ss| && ss[i].id == id
  }

  predicate HasCartaFor(cs: seq<Carta>, sobremesaId: Id, userId: Id)
  {
    exists i :: 0 <= i < |cs| && cs[i].sobremesa_id == sobremesaId && cs[i].user_id == userId
  }

  predicate HasEntry(ledger: seq<Participacion>, sobremesaId: Id, userId: Id, role: Role)
  {
    exists i :: 0 <= i < |ledger| && ledger[i].sobremesa_id == sobremesaId
                && ledger[i].user_id == userId && ledger[i].role == role
  }

  predicate UniqueIds(ss: seq<Sobremesa>, cs: seq<Carta>, ledger: seq<Participacion>)
  {
    && (forall i, j :: 0 <= i < j < |ss| ==> ss[i].id != ss[j].id)
    && (forall i, j :: 0 <= i < j < |cs| ==> cs[i].id != cs[j].id)
    && (forall i, j :: 0 <= i < j < |ledger| ==> ledger[i].id != ledger[j].id)
  }

  /** Every stored id was drawn from the counter before `next`. */
  predicate IdsBelow(ss: seq<Sobremesa>, cs: seq<Carta>, ledger: seq<Participacion>, next: Id)
  {
    && (forall i :: 0 <= i < |ss| ==> ss[i].id < next)
    && (forall i :: 0 <= i < |cs| ==> cs[i].id < next)
    && (forall i :: 0 <= i < |ledger| ==> ledger[i].id < next)
  }

  /** At most one carta per (sobremesa, user) pair. */
  predicate OneCartaPerPair(cs: seq<Carta>)
  {
    forall i, j :: 0 <= i < j < |cs| ==>
      cs[i].sobremesa_id != cs[j].sobremesa_id || cs[i].user_id != cs[j].user_id
  }

  /** No convocante has a carta for their own sobremesa. */
  predicate NoSelfApplication(ss: seq<Sobremesa>, cs: seq<Carta>)
  {
    forall i, j :: 0 <= i < |cs| && 0 <= j < |ss| && cs[i].sobremesa_id == ss[j].id ==>
      cs[i].user_id != ss[j].convocante_id
  }

  predicate References(ss: seq<Sobremesa>, cs: seq<Carta>, ledger: seq<Participacion>)
  {
    && (forall i :: 0 <= i < |cs| ==> SobremesaExists(ss, cs[i].sobremesa_id))
    && (forall i :: 0 <= i < |ledger| ==> SobremesaExists(ss, ledger[i].sobremesa_id))
  }

  /** Every sobremesa's convocante holds a convocante entry in the ledger. */
  predicate ConvocantesInLedger(ss: seq<Sobremesa>, ledger: seq<Participacion>)
  {
    forall j :: 0 <= j < |ss| ==> HasEntry(ledger, ss[j].id, ss[j].convocante_id, Convocante)
  }

  /** Every author of an accepted carta holds a participant entry in the ledger. */
  predicate AcceptedInLedger(cs: seq<Carta>, ledger: seq<Participacion>)
  {
    forall i :: 0 <= i < |cs| && cs[i].status == Accepted ==>
      HasEntry(ledger, cs[i].sobremesa_id, cs[i].user_id, Participant)
  }

  predicate SchemaValid(ss: seq<Sobremesa>, cs: seq<Carta>)
  {
    && (forall j :: 0 <= j < |ss| ==> SobremesaSchemaValid(ss[j]))
    && (forall i :: 0 <= i < |cs| ==> CartaSchemaValid(cs[i]))
  }

  predicate Consistent(ss: seq<Sobremesa>, cs: seq<Carta>, ledger: seq<Participacion>, next: Id)
  {
    && UniqueIds(ss, cs, ledger)
    && IdsBelow(ss, cs, ledger, next)
    && References(ss, cs, ledger)
    && SchemaValid(ss, cs)
    && OneCartaPerPair(cs)
    && NoSelfApplication(ss, cs)
    && ConvocantesInLedger(ss, ledger)
    && AcceptedInLedger(cs, ledger)
  }

  predicate UsersValid(users: map<Id, User>)
  {
    forall k :: k in users ==> users[k].id == k && UserSchemaValid(users[k])
  }

  class Db {
    var users: map<Id, User>
    var sobremesas: seq<Sobremesa>
    var cartas: seq<Carta>
    var ledger: seq<Participacion>
    var nextId: Id

    ghost predicate Valid()
      reads this
    {
      Consistent(sobremesas, cartas, ledger, nextId) && UsersValid(users)
    }

    constructor (users: map<Id, User>)
      requires UsersValid(users)
      ensures Valid()
      ensures this.users == users && sobremesas == [] && cartas == [] && ledger == []
    {
      this.users := users;
      sobremesas, cartas, ledger := [], [], [];
      nextId := 0;
    }
  }

  /** Inserting a pending carta that passed the submit guards keeps the invariant. */
  lemma AppendCartaKeepsConsistent(ss: seq<Sobremesa>, cs: seq<Carta>, ledger: seq<Participacion>,
                                   next: Id, c: Carta)
    requires Consistent(ss, cs, ledger, next)
    requires c.id == next && c.status == Pending && CartaSchemaValid(c)
    requires SobremesaExists(ss, c.sobremesa_id)
    requires forall j :: 0 <= j < |ss| && ss[j].id == c.sobremesa_id ==> ss[j].convocante_id != c.user_id
    requires !HasCartaFor(cs, c.sobremesa_id, c.user_id)
    ensures Consistent(ss, cs + [c], ledger, next + 1)
  {
    var cs' := cs + [c];
    assert forall i :: 0 <= i < |cs| ==> cs'[i] == cs[i];
    assert cs'[|cs|] == c;
  }

  /** Inserting a new sobremesa together with its convocante's entry keeps the invariant. */
  lemma AppendSobremesaKeepsConsistent(ss: seq<Sobremesa>, cs: seq<Carta>, ledger: seq<Participacion>,
                                       next: Id, s: Sobremesa, e: Participacion)
    requires Consistent(ss, cs, ledger, next)
    requires s.id == next && SobremesaSchemaValid(s)
    requires e == Participacion(next + 1, s.id, s.convocante_id, Convocante, e.created_at)
    ensures Consistent(ss + [s], cs, ledger + [e], next + 2)
  {
    var ss', ledger' := ss + [s], ledger + [e];
    assert forall j :: 0 <= j < |ss| ==> ss'[j] == ss[j];
    assert forall i :: 0 <= i < |ledger| ==> ledger'[i] == ledger[i];
    assert ss'[|ss|] == s && ledger'[|ledger|] == e;
    forall i | 0 <= i < |cs| ensures cs[i].sobremesa_id != s.id {
      var m :| 0 <= m < |ss| && ss[m].id == cs[i].sobremesa_id;
    }
    AppendSobremesaKeepsReferences(ss, cs, ledger, s, e);
    AppendSobremesaKeepsLedgerFacts(ss, cs, ledger, s, e);
  }

  lemma AppendSobremesaKeepsReferences(ss: seq<Sobremesa>, cs: seq<Carta>, ledger: seq<Participacion>,
                                       s: Sobremesa, e: Participacion)
    requires References(ss, cs, ledger)
    requires e.sobremesa_id == s.id
    ensures References(ss + [s], cs, ledger + [e])
  {
    var ss', ledger' := ss + [s], ledger + [e];
    forall i | 0 <= i < |cs| ensures SobremesaExists(ss', cs[i].sobremesa_id) {
      var j :| 0 <= j < |ss| && ss[j].id == cs[i].sobremesa_id;
      assert ss'[j] == ss[j];
    }
    forall i | 0 <= i < |ledger'| ensures SobremesaExists(ss', ledger'[i].sobremesa_id) {
      if i < |ledger| {
        assert ledger'[i] == ledger[i];
        var j :| 0 <= j < |ss| && ss[j].id == ledger[i].sobremesa_id;
        assert ss'[j] == ss[j];
      } else {
        assert ss'[|ss|].id == ledger'[i].sobremesa_id;
      }
    }
  }

  lemma AppendSobremesaKeepsLedgerFacts(ss: seq<Sobremesa>, cs: seq<Carta>, ledger: seq<Participacion>,
                                        s: Sobremesa, e: Participacion)
    requires ConvocantesInLedger(ss, ledger) && AcceptedInLedger(cs, ledger)
    requires e.sobremesa_id == s.id && e.user_id == s.convocante_id && e.role == Convocante
    ensures ConvocantesInLedger(ss + [s], ledger + [e]) && AcceptedInLedger(cs, ledger + [e])
  {
    var ss', ledger' := ss + [s], ledger + [e];
    forall j | 0 <= j < |ss'| ensures HasEntry(ledger', ss'[j].id, ss'[j].convocante_id, Convocante) {
      if j < |ss| {
        assert ss'[j] == ss[j];
        HasEntryAfterAppend(ledger, e, ss[j].id, ss[j].convocante_id, Convocante);
      } else {
        assert ledger'[|ledger|] == e;
      }
    }
    forall i | 0 <= i < |cs| && cs[i].status == Accepted
      ensures HasEntry(ledger', cs[i].sobremesa_id, cs[i].user_id, Participant)
    {
      HasEntryAfterAppend(ledger, e, cs[i].sobremesa_id, cs[i].user_id, Participant);
    }
  }

  /** Appending to the ledger keeps every entry it already held. */
  lemma HasEntryAfterAppend(ledger: seq<Participacion>, e: Participacion, sobremesaId: Id, userId: Id, role: Role)
    requires HasEntry(ledger, sobremesaId, userId, role)
    ensures HasEntry(ledger + [e], sobremesaId, userId, role)
  {
    var i :| 0 <= i < |ledger| && ledger[i].sobremesa_id == sobremesaId
             && ledger[i].user_id == userId && ledger[i].role == role;
    assert (ledger + [e])[i] == ledger[i];
  }

  /** Changing only a carta's status keeps every invariant about pairs, ids and texts. */
  lemma SetStatusKeepsCartaFacts(ss: seq<Sobremesa>, cs: seq<Carta>, ledger: seq<Participacion>,
                                 next: Id, k: nat, d: CartaStatus)
    requires Consistent(ss, cs, ledger, next)
    requires k < |cs|
    ensures var cs' := cs[k := cs[k].(status := d)];
            && UniqueIds(ss, cs', ledger) && IdsBelow(ss, cs', ledger, next)
            && References(ss, cs', ledger) && SchemaValid(ss, cs')
            && OneCartaPerPair(cs') && NoSelfApplication(ss, cs')
  {
  }

  /** The ledger after a decision on carta `c`: an acceptance appends the author's entry. */
  function DecidedLedger(ledger: seq<Participacion>, next: Id, c: Carta, d: CartaStatus, now: int): seq<Participacion>
  {
    if d == Accepted then ledger + [Participacion(next, c.sobremesa_id, c.user_id, Participant, now)]
    else ledger
  }

  function DecidedNextId(next: Id, d: CartaStatus): Id
  {
    if d == Accepted then next + 1 else next
  }

  function EntryFor(sobremesaId: Id, userId: Id, role: Role): Participacion -> bool
  {
    (e: Participacion) => e.sobremesa_id == sobremesaId && e.user_id == userId && e.role == role
  }

  /**
   * Every acceptance adds one more participant entry for the carta's pair,
   * whatever the carta's status was before: nothing stops a second
   * acceptance of the same carta from duplicating the entry. A rejection
   * adds none.
   */
  lemma DecisionCountsEntries(ledger: seq<Participacion>, next: Id, c: Carta, d: CartaStatus, now: int)
    ensures var p := EntryFor(c.sobremesa_id, c.user_id, Participant);
            Count(DecidedLedger(ledger, next, c, d, now), p) == Count(ledger, p) + (if d == Accepted then 1 else 0)
  {
    if d == Accepted {
      var e := Participacion(next, c.sobremesa_id, c.user_id, Participant, now);
      var p := EntryFor(c.sobremesa_id, c.user_id, Participant);
      FilterAppend(ledger, [e], p);
      assert [e][1..] == [];
      assert Filter([e], p) == [e];
    }
  }

  /**
   * Setting a carta's status to a decision keeps the invariant, provided an
   * acceptance appends the author's participant entry.
   */
  lemma DecideKeepsConsistent(ss: seq<Sobremesa>, cs: seq<Carta>, ledger: seq<Participacion>,
                              next: Id, k: nat, d: CartaStatus, now: int)
    requires Consistent(ss, cs, ledger, next)
    requires k < |cs|
    ensures Consistent(ss, cs[k := cs[k].(status := d)], DecidedLedger(ledger, next, cs[k], d, now),
                       DecidedNextId(next, d))
  {
    var c := cs[k];
    var cs' := cs[k := c.(status := d)];
    SetStatusKeepsCartaFacts(ss, cs, ledger, next, k, d);
    if d == Accepted {
      var e := Participacion(next, c.sobremesa_id, c.user_id, Participant, now);
      AppendAcceptanceKeepsConsistent(ss, cs', ledger, next, k, e);
    } else {
      forall i | 0 <= i < |cs'| && cs'[i].status == Accepted
        ensures HasEntry(ledger, cs'[i].sobremesa_id, cs'[i].user_id, Participant)
      {
        assert i != k && cs'[i] == cs[i];
      }
    }
  }

  /** The ledger half of an acceptance: the new entry is fresh and names the carta's pair. */
  lemma AppendAcceptanceKeepsConsistent(ss: seq<Sobremesa>, cs: seq<Carta>, ledger: seq<Participacion>,
                                        next: Id, k: nat, e: Participacion)
    requires UniqueIds(ss, cs, ledger) && IdsBelow(ss, cs, ledger, next)
    requires References(ss, cs, ledger) && SchemaValid(ss, cs)
    requires OneCartaPerPair(cs) && NoSelfApplication(ss, cs)
    requires ConvocantesInLedger(ss, ledger)
    requires k < |cs| && cs[k].status == Accepted
    requires forall i :: 0 <= i < |cs| && i != k && cs[i].status == Accepted ==>
               HasEntry(ledger, cs[i].sobremesa_id, cs[i].user_id, Participant)
    requires e.id == next && e.sobremesa_id == cs[k].sobremesa_id && e.user_id == cs[k].user_id
             && e.role == Participant
    ensures Consistent(ss, cs, ledger + [e], next + 1)
  {
    var ledger' := ledger + [e];
    assert ledger'[|ledger|] == e;
    forall j | 0 <= j < |ss| ensures HasEntry(ledger', ss[j].id, ss[j].convocante_id, Convocante) {
      HasEntryAfterAppend(ledger, e, ss[j].id, ss[j].convocante_id, Convocante);
    }
    forall i | 0 <= i < |cs| && cs[i].status == Accepted
      ensures HasEntry(ledger', cs[i].sobremesa_id, cs[i].user_id, Participant)
    {
      if i != k {
        HasEntryAfterAppend(ledger, e, cs[i].sobremesa_id, cs[i].user_id, Participant);
      }
    }
    assert forall i :: 0 <= i < |ledger| ==> ledger'[i] == ledger[i];
  }

  /**
   * Replacing a sobremesa by one with the same id and the same convocante
   * (a status or meeting-link update) keeps the invariant.
   */
  lemma ReplaceSobremesaKeepsConsistent(ss: seq<Sobremesa>, cs: seq<Carta>, ledger: seq<Participacion>,
                                        next: Id, k: nat, s: Sobremesa)
    requires Consistent(ss, cs, ledger, next)
    requires k < |ss| && s.id == ss[k].id && s.convocante_id == ss[k].convocante_id
    requires SobremesaSchemaValid(s)
    ensures Consistent(ss[k := s], cs, ledger, next)
  {
    var ss' := ss[k := s];
    forall i | 0 <= i < |cs| ensures SobremesaExists(ss', cs[i].sobremesa_id) {
      var j :| 0 <= j < |ss| && ss[j].id == cs[i].sobremesa_id;
      assert ss'[j].id == ss[j].id;
    }
    forall i | 0 <= i < |ledger| ensures SobremesaExists(ss', ledger[i].sobremesa_id) {
      var j :| 0 <= j < |ss| && ss[j].id == ledger[i].sobremesa_id;
      assert ss'[j].id == ss[j].id;
    }
  }
}
