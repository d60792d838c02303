/**
 * The sobremesa handlers: the public cartelera, lookup by id, creation
 * (which also writes the convocante's ledger entry), the requester's
 * "mis sobremesas" built from the participation ledger, and the
 * convocante-only status and meeting-link updates.
 */
module SobremesaRoutes {
  import opened Outcomes
  import opened Models
  import opened Seqs
  import opened Store

  /** A sobremesa as sent to clients, with its convocante's public profile joined in. */
  datatype SobremesaView = SobremesaView(sobremesa: Sobremesa, convocante: Option<PublicProfile>)

  function IsProposed(s: Sobremesa): bool
  {
    s.status == Proposed
  }

  function SobremesaCreatedAt(s: Sobremesa): int
  {
    s.created_at
  }

  /** The cartelera's sobremesas: the proposed ones, most recently created first. */
  function CarteleraOrder(ss: seq<Sobremesa>): (r: seq<Sobremesa>)
    ensures multiset(r) == multiset(Filter(ss, IsProposed))
    ensures SortedDesc(r, SobremesaCreatedAt)
    ensures forall i :: 0 <= i < |r| ==> r[i].status == Proposed && r[i] in ss
    ensures forall i :: 0 <= i < |ss| && ss[i].status == Proposed ==> ss[i] in r
  {
    var proposed := Filter(ss, IsProposed);
    var r := SortDesc(proposed, SobremesaCreatedAt);
    assert forall i :: 0 <= i < |r| ==> r[i] in proposed by {
      forall i | 0 <= i < |r| ensures r[i] in proposed {
        assert r[i] in multiset(r);
      }
    }
    assert forall i :: 0 <= i < |ss| && ss[i].status == Proposed ==> ss[i] in r by {
      forall i | 0 <= i < |ss| && ss[i].status == Proposed ensures ss[i] in r {
        assert IsProposed(ss[i]);
        assert ss[i] in multiset(proposed);
      }
    }
    r
  }

  /** Joins each sobremesa with its convocante's public profile (without the bio). */
  function ViewsOf(order: seq<Sobremesa>, users: map<Id, User>): (r: seq<SobremesaView>)
    ensures |r| == |order|
    ensures forall i :: 0 <= i < |r| ==>
              r[i].sobremesa == order[i] && r[i].convocante == ProfileOf(users, order[i].convocante_id, false)
  {
    seq(|order|, k requires 0 <= k < |order| =>
        SobremesaView(order[k], ProfileOf(users, order[k].convocante_id, false)))
  }

  /**
   * GET the cartelera: exactly the proposed sobremesas, ordered by creation
   * time descending, each with its convocante's name, context and photo.
   */
  function Cartelera(ss: seq<Sobremesa>, users: map<Id, User>): (r: seq<SobremesaView>)
    ensures |r| == Count(ss, IsProposed)
    ensures forall i :: 0 <= i < |r| ==>
              r[i].sobremesa.status == Proposed && r[i].sobremesa in ss
              && r[i].convocante == ProfileOf(users, r[i].sobremesa.convocante_id, false)
    ensures forall i, j :: 0 <= i < j < |r| ==> r[i].sobremesa.created_at >= r[j].sobremesa.created_at
    ensures forall i :: 0 <= i < |ss| && ss[i].status == Proposed ==>
              exists k :: 0 <= k < |r| && r[k].sobremesa == ss[i]
  {
    var order := CarteleraOrder(ss);
    CarteleraOrderLength(ss);
    var r := ViewsOf(order, users);
    CarteleraViewsSorted(order, r);
    CarteleraViewsComplete(ss, order, r);
    r
  }

  lemma CarteleraOrderLength(ss: seq<Sobremesa>)
    ensures |CarteleraOrder(ss)| == Count(ss, IsProposed)
  {
    assert |multiset(CarteleraOrder(ss))| == |multiset(Filter(ss, IsProposed))|;
  }

  lemma CarteleraViewsSorted(order: seq<Sobremesa>, r: seq<SobremesaView>)
    requires SortedDesc(order, SobremesaCreatedAt)
    requires |r| == |order| && forall i :: 0 <= i < |r| ==> r[i].sobremesa == order[i]
    ensures forall i, j :: 0 <= i < j < |r| ==> r[i].sobremesa.created_at >= r[j].sobremesa.created_at
  {
    forall i, j | 0 <= i < j < |r| ensures r[i].sobremesa.created_at >= r[j].sobremesa.created_at {
      assert SobremesaCreatedAt(order[i]) >= SobremesaCreatedAt(order[j]);
    }
  }

  lemma CarteleraViewsComplete(ss: seq<Sobremesa>, order: seq<Sobremesa>, r: seq<SobremesaView>)
    requires forall i :: 0 <= i < |ss| && ss[i].status == Proposed ==> ss[i] in order
    requires |r| == |order| && forall i :: 0 <= i < |r| ==> r[i].sobremesa == order[i]
    ensures forall i :: 0 <= i < |ss| && ss[i].status == Proposed ==>
              exists k :: 0 <= k < |r| && r[k].sobremesa == ss[i]
  {
    forall i | 0 <= i < |ss| && ss[i].status == Proposed
      ensures exists k :: 0 <= k < |r| && r[k].sobremesa == ss[i]
    {
      var k :| 0 <= k < |order| && order[k] == ss[i];
      assert r[k].sobremesa == ss[i];
    }
  }

  /** GET one sobremesa, with its convocante's profile including the bio; 404 when absent. */
  function GetSobremesa(ss: seq<Sobremesa>, users: map<Id, User>, id: Id): (r: Result<SobremesaView>)
    ensures r.Err? <==> !SobremesaExists(ss, id)
    ensures r.Err? ==> r.failure == SobremesaNotFound
    ensures r.Ok? ==> r.value.sobremesa in ss && r.value.sobremesa.id == id
                      && r.value.convocante == ProfileOf(users, r.value.sobremesa.convocante_id, true)
  {
    match FindSobremesa(ss, id)
    case None => Err(SobremesaNotFound)
    case Some(k) => Ok(SobremesaView(ss[k], ProfileOf(users, ss[k].convocante_id, true)))
  }

  /**
   * The body of a create request. A missing date or capacity is None; a
   * missing title or description is the empty string.
   */
  datatype CreateRequest = CreateRequest(
    title: string,
    description: string,
    date_time: Option<int>,
    max_participants: Option<int>)

  /**
   * The create handler's required-fields check: a field is missing when it
   * is absent or falsy, so a capacity of 0 counts as missing. There is no
   * range check on the capacity and no check that the date is ahead.
   */
  predicate CreateFieldsMissing(req: CreateRequest)
  {
    || req.title == ""
    || req.description == ""
    || req.date_time.None?
    || req.max_participants.None?
    || req.max_participants == Some(0)
  }

  /**
   * With title, description and date present, every capacity other than 0
   * passes the check, negative ones included.
   */
  lemma AnyNonzeroCapacityPasses(req: CreateRequest)
    requires req.title != "" && req.description != "" && req.date_time.Some?
    ensures !CreateFieldsMissing(req) <==> req.max_participants.Some? && req.max_participants.value != 0
  {
  }

  /**
   * POST a new sobremesa. A missing field fails with nothing stored.
   * Otherwise the sobremesa is stored as proposed with the requester as
   * convocante, and exactly one convocante entry for the requester is
   * appended to the ledger.
   */
  method CreateSobremesa(db: Db, requester: Id, req: CreateRequest, now: int) returns (r: Result<Sobremesa>)
    requires db.Valid()
    modifies db
    ensures db.Valid()
    ensures r.Err? <==> CreateFieldsMissing(req)
    ensures r.Err? ==> r.failure == SobremesaFieldsRequired && unchanged(db)
    ensures r.Ok? ==> && r.value.status == Proposed && r.value.convocante_id == requester
                      && r.value == NewSobremesa(old(db.nextId), req.title, req.description,
                                                 req.date_time.value, req.max_participants.value,
                                                 requester, now)
                      && db.sobremesas == old(db.sobremesas) + [r.value]
                      && db.ledger == old(db.ledger)
                                      + [Participacion(old(db.nextId) + 1, r.value.id, requester, Convocante, now)]
                      && db.nextId == old(db.nextId) + 2
                      && db.cartas == old(db.cartas) && db.users == old(db.users)
  {
    if CreateFieldsMissing(req) {
      return Err(SobremesaFieldsRequired);
    }
    var s := NewSobremesa(db.nextId, req.title, req.description, req.date_time.value,
                          req.max_participants.value, requester, now);
    var participacion := Participacion(db.nextId + 1, s.id, requester, Convocante, now);
    AppendSobremesaKeepsConsistent(db.sobremesas, db.cartas, db.ledger, db.nextId, s, participacion);
    db.sobremesas := db.sobremesas + [s];
    db.ledger := db.ledger + [participacion];
    db.nextId := db.nextId + 2;
    return Ok(s);
  }

  function EntryOfUser(userId: Id): Participacion -> bool
  {
    (e: Participacion) => e.user_id == userId
  }

  function EntryCreatedAt(e: Participacion): int
  {
    e.created_at
  }

  /** The requester's ledger entries, most recent first. */
  function MyEntries(ledger: seq<Participacion>, userId: Id): (r: seq<Participacion>)
    ensures multiset(r) == multiset(Filter(ledger, EntryOfUser(userId)))
    ensures SortedDesc(r, EntryCreatedAt)
    ensures forall i :: 0 <= i < |r| ==> r[i].user_id == userId && r[i] in ledger
    ensures forall i :: 0 <= i < |ledger| && ledger[i].user_id == userId ==> ledger[i] in r
  {
    var mine := Filter(ledger, EntryOfUser(userId));
    var r := SortDesc(mine, EntryCreatedAt);
    assert forall i :: 0 <= i < |r| ==> r[i] in mine by {
      forall i | 0 <= i < |r| ensures r[i] in mine {
        assert r[i] in multiset(r);
      }
    }
    assert forall i :: 0 <= i < |ledger| && ledger[i].user_id == userId ==> ledger[i] in r by {
      forall i | 0 <= i < |ledger| && ledger[i].user_id == userId ensures ledger[i] in r {
        assert EntryOfUser(userId)(ledger[i]);
        assert ledger[i] in multiset(mine);
      }
    }
    r
  }

  /** One item of "mis sobremesas": the sobremesa, its convocante and the requester's role. */
  datatype MiSobremesa = MiSobremesa(sobremesa: Sobremesa, convocante: Option<PublicProfile>, my_role: Role)

  /**
   * Joins each entry with its sobremesa. An entry whose sobremesa is gone
   * makes the whole listing fail, as the handler's join does.
   */
  function JoinEntries(es: seq<Participacion>, ss: seq<Sobremesa>, users: map<Id, User>): (r: Result<seq<MiSobremesa>>)
    ensures r.Ok? <==> forall i :: 0 <= i < |es| ==> SobremesaExists(ss, es[i].sobremesa_id)
    ensures r.Err? ==> r.failure == ListingFailed
    ensures r.Ok? ==> |r.value| == |es|
    ensures r.Ok? ==> forall i :: 0 <= i < |es| ==>
              && r.value[i].sobremesa.id == es[i].sobremesa_id && r.value[i].sobremesa in ss
              && r.value[i].my_role == es[i].role
              && r.value[i].convocante == ProfileOf(users, r.value[i].sobremesa.convocante_id, false)
  {
    if es == [] then Ok([])
    else
      match FindSobremesa(ss, es[0].sobremesa_id)
      case None => Err(ListingFailed)
      case Some(k) =>
        var s := ss[k];
        var item := MiSobremesa(s, ProfileOf(users, s.convocante_id, false), es[0].role);
        match JoinEntries(es[1..], ss, users)
        case Err(f) =>
          assert !SobremesaExists(ss, es[1..][0].sobremesa_id) || exists i :: 1 <= i < |es| && !SobremesaExists(ss, es[i].sobremesa_id) by {
            var i :| 0 <= i < |es[1..]| && !SobremesaExists(ss, es[1..][i].sobremesa_id);
            assert es[1..][i] == es[i + 1];
          }
          Err(f)
        case Ok(rest) => Ok([item] + rest)
  }

  /**
   * GET "mis sobremesas": one item per ledger entry of the requester,
   * ordered by the entry's creation time descending, each carrying that
   * entry's role.
   */
  function MisSobremesas(ss: seq<Sobremesa>, ledger: seq<Participacion>, users: map<Id, User>,
                         requester: Id): (r: Result<seq<MiSobremesa>>)
    ensures r.Ok? ==> |r.value| == Count(ledger, EntryOfUser(requester))
    ensures r.Ok? <==> forall i :: 0 <= i < |MyEntries(ledger, requester)| ==>
                         SobremesaExists(ss, MyEntries(ledger, requester)[i].sobremesa_id)
    ensures r.Err? ==> r.failure == ListingFailed
    ensures r.Ok? ==> forall i :: 0 <= i < |r.value| ==>
              && r.value[i].sobremesa.id == MyEntries(ledger, requester)[i].sobremesa_id
              && r.value[i].sobremesa in ss
              && r.value[i].my_role == MyEntries(ledger, requester)[i].role
              && r.value[i].convocante == ProfileOf(users, r.value[i].sobremesa.convocante_id, false)
  {
    var es := MyEntries(ledger, requester);
    assert |es| == Count(ledger, EntryOfUser(requester)) by {
      assert |multiset(es)| == |multiset(Filter(ledger, EntryOfUser(requester)))|;
    }
    JoinEntries(es, ss, users)
  }

  /** Under the store invariant every ledger entry's sobremesa exists, so the listing never fails. */
  lemma MisSobremesasSucceeds(ss: seq<Sobremesa>, cs: seq<Carta>, ledger: seq<Participacion>, next: Id,
                              users: map<Id, User>, requester: Id)
    requires Consistent(ss, cs, ledger, next)
    ensures MisSobremesas(ss, ledger, users, requester).Ok?
  {
    var es := MyEntries(ledger, requester);
    forall i | 0 <= i < |es| ensures SobremesaExists(ss, es[i].sobremesa_id) {
      var m :| 0 <= m < |ledger| && ledger[m] == es[i];
    }
  }

  /**
   * The role a user holds in a sobremesa is derived from the ledger:
   * "mis sobremesas" lists the sobremesa with a role exactly when the
   * ledger holds an entry for that sobremesa, user and role.
   */
  lemma RoleDerivedFromLedger(ss: seq<Sobremesa>, cs: seq<Carta>, ledger: seq<Participacion>, next: Id,
                              users: map<Id, User>, requester: Id, sobremesaId: Id, role: Role)
    requires Consistent(ss, cs, ledger, next)
    ensures MisSobremesas(ss, ledger, users, requester).Ok?
    ensures var items := MisSobremesas(ss, ledger, users, requester).value;
            (exists k :: 0 <= k < |items| && items[k].sobremesa.id == sobremesaId && items[k].my_role == role)
            <==> HasEntry(ledger, sobremesaId, requester, role)
  {
    MisSobremesasSucceeds(ss, cs, ledger, next, users, requester);
    ListedIffEntry(ss, ledger, users, requester, sobremesaId, role);
  }

  lemma ListedIffEntry(ss: seq<Sobremesa>, ledger: seq<Participacion>, users: map<Id, User>,
                       requester: Id, sobremesaId: Id, role: Role)
    requires MisSobremesas(ss, ledger, users, requester).Ok?
    ensures var items := MisSobremesas(ss, ledger, users, requester).value;
            (exists k :: 0 <= k < |items| && items[k].sobremesa.id == sobremesaId && items[k].my_role == role)
            <==> HasEntry(ledger, sobremesaId, requester, role)
  {
    var items := MisSobremesas(ss, ledger, users, requester).value;
    var es := MyEntries(ledger, requester);
    assert |items| == |es| by {
      assert |es| == Count(ledger, EntryOfUser(requester)) by {
        assert |multiset(es)| == |multiset(Filter(ledger, EntryOfUser(requester)))|;
      }
    }
    if exists k :: 0 <= k < |items| && items[k].sobremesa.id == sobremesaId && items[k].my_role == role {
      var k :| 0 <= k < |items| && items[k].sobremesa.id == sobremesaId && items[k].my_role == role;
      assert es[k] in ledger;
      var m :| 0 <= m < |ledger| && ledger[m] == es[k];
      assert ledger[m].sobremesa_id == sobremesaId && ledger[m].user_id == requester && ledger[m].role == role;
    }
    if HasEntry(ledger, sobremesaId, requester, role) {
      var m :| 0 <= m < |ledger| && ledger[m].sobremesa_id == sobremesaId
               && ledger[m].user_id == requester && ledger[m].role == role;
      assert ledger[m] in es;
      var k :| 0 <= k < |es| && es[k] == ledger[m];
      assert items[k].sobremesa.id == sobremesaId && items[k].my_role == role;
    }
  }

  /**
   * The shared guard of the convocante-only updates: 404 when the sobremesa
   * is absent, 403 when the requester is not its convocante, otherwise its
   * position in the collection.
   */
  function OwnedSobremesa(ss: seq<Sobremesa>, id: Id, requester: Id): (r: Result<nat>)
    ensures r == Err(SobremesaNotFound) <==> !SobremesaExists(ss, id)
    ensures r == Err(NotConvocante) <==>
              FindSobremesa(ss, id).Some? && ss[FindSobremesa(ss, id).value].convocante_id != requester
    ensures r.Ok? <==>
              FindSobremesa(ss, id).Some? && ss[FindSobremesa(ss, id).value].convocante_id == requester
    ensures r.Ok? ==> r.value < |ss| && ss[r.value].id == id && ss[r.value].convocante_id == requester
                      && r == Ok(FindSobremesa(ss, id).value)
  {
    match FindSobremesa(ss, id)
    case None => Err(SobremesaNotFound)
    case Some(k) => if ss[k].convocante_id != requester then Err(NotConvocante) else Ok(k)
  }

  /**
   * PATCH a sobremesa's status. After the 404/403 guards any value of the
   * enum is stored, whatever the current status; a value outside the enum
   * fails schema validation on save and nothing is stored. No other field
   * changes.
   */
  method UpdateStatus(db: Db, requester: Id, id: Id, status: string) returns (r: Result<Sobremesa>)
    requires db.Valid()
    modifies db
    ensures db.Valid()
    ensures OwnedSobremesa(old(db.sobremesas), id, requester).Err? ==>
              r == Err(OwnedSobremesa(old(db.sobremesas), id, requester).failure)
    ensures OwnedSobremesa(old(db.sobremesas), id, requester).Ok? && ParseSobremesaStatus(status).None? ==>
              r == Err(StatusRejectedBySchema)
    ensures r.Ok? <==> OwnedSobremesa(old(db.sobremesas), id, requester).Ok?
                       && ParseSobremesaStatus(status).Some?
    ensures r.Err? ==> unchanged(db)
    ensures r.Ok? ==> && OwnedSobremesa(old(db.sobremesas), id, requester).Ok?
                      && ParseSobremesaStatus(status).Some?
                      && var k := OwnedSobremesa(old(db.sobremesas), id, requester).value;
                         && r.value == old(db.sobremesas)[k].(status := ParseSobremesaStatus(status).value)
                         && SobremesaStatusName(r.value.status) == status
                         && db.sobremesas == old(db.sobremesas)[k := r.value]
    ensures r.Ok? ==> db.cartas == old(db.cartas) && db.ledger == old(db.ledger)
                      && db.nextId == old(db.nextId) && db.users == old(db.users)
  {
    var owned := OwnedSobremesa(db.sobremesas, id, requester);
    if owned.Err? {
      return Err(owned.failure);
    }
    var k := owned.value;
    var parsed := ParseSobremesaStatus(status);
    if parsed.None? {
      return Err(StatusRejectedBySchema);
    }
    var s := db.sobremesas[k].(status := parsed.value);
    ReplaceSobremesaKeepsConsistent(db.sobremesas, db.cartas, db.ledger, db.nextId, k, s);
    db.sobremesas := db.sobremesas[k := s];
    return Ok(s);
  }

  /**
   * PATCH a sobremesa's meeting link. After the 404/403 guards the link is
   * stored as given, with no format check (an absent link unsets the
   * field); the convocante and every other field are untouched.
   */
  method UpdateMeetingLink(db: Db, requester: Id, id: Id, link: Option<string>) returns (r: Result<Sobremesa>)
    requires db.Valid()
    modifies db
    ensures db.Valid()
    ensures r.Err? <==> OwnedSobremesa(old(db.sobremesas), id, requester).Err?
    ensures r.Err? ==> r.failure == OwnedSobremesa(old(db.sobremesas), id, requester).failure && unchanged(db)
    ensures r.Ok? ==> var k := OwnedSobremesa(old(db.sobremesas), id, requester).value;
                      && r.value == old(db.sobremesas)[k].(meeting_link := link)
                      && r.value.convocante_id == old(db.sobremesas)[k].convocante_id
                      && db.sobremesas == old(db.sobremesas)[k := r.value]
    ensures r.Ok? ==> db.cartas == old(db.cartas) && db.ledger == old(db.ledger)
                      && db.nextId == old(db.nextId) && db.users == old(db.users)
  {
    var owned := OwnedSobremesa(db.sobremesas, id, requester);
    if owned.Err? {
      return Err(owned.failure);
    }
    var k := owned.value;
    var s := db.sobremesas[k].(meeting_link := link);
    ReplaceSobremesaKeepsConsistent(db.sobremesas, db.cartas, db.ledger, db.nextId, k, s);
    db.sobremesas := db.sobremesas[k := s];
    return Ok(s);
  }
}
