/**
 * The "mis sobremesas" page: the upcoming/past grouping of the listed
 * items, the Spanish status label and when the "Gestionar" action shows.
 */
module MisSobremesasPage {
  import opened Models
  import opened Seqs
  import opened SobremesaRoutes
  import opened Store

  /** A date is past when it is strictly before the current time. */
  predicate IsPast(dateTime: int, now: int)
  {
    dateTime < now
  }

  function IsUpcomingItem(now: int): MiSobremesa -> bool
  {
    (m: MiSobremesa) => !IsPast(m.sobremesa.date_time, now) && m.sobremesa.status != Cancelled
  }

  function IsPastItem(now: int): MiSobremesa -> bool
  {
    (m: MiSobremesa) => IsPast(m.sobremesa.date_time, now) || m.sobremesa.status == Completed
  }

  /** The items not yet past and not cancelled, in listing order. */
  function Upcoming(items: seq<MiSobremesa>, now: int): (r: seq<MiSobremesa>)
    ensures forall i :: 0 <= i < |r| ==> r[i] in items
    ensures multiset(r) <= multiset(items)
    ensures forall i :: 0 <= i < |items| ==>
              (items[i] in r <==> !IsPast(items[i].sobremesa.date_time, now) && items[i].sobremesa.status != Cancelled)
  {
    var r := Filter(items, IsUpcomingItem(now));
    assert forall i :: 0 <= i < |items| && items[i] in r ==> IsUpcomingItem(now)(items[i]) by {
      forall i | 0 <= i < |items| && items[i] in r ensures IsUpcomingItem(now)(items[i]) {
        var j :| 0 <= j < |r| && r[j] == items[i];
      }
    }
    r
  }

  /** The items already past or completed, in listing order. */
  function Past(items: seq<MiSobremesa>, now: int): (r: seq<MiSobremesa>)
    ensures forall i :: 0 <= i < |r| ==> r[i] in items
    ensures multiset(r) <= multiset(items)
    ensures forall i :: 0 <= i < |items| ==>
              (items[i] in r <==> IsPast(items[i].sobremesa.date_time, now) || items[i].sobremesa.status == Completed)
  {
    var r := Filter(items, IsPastItem(now));
    assert forall i :: 0 <= i < |items| && items[i] in r ==> IsPastItem(now)(items[i]) by {
      forall i | 0 <= i < |items| && items[i] in r ensures IsPastItem(now)(items[i]) {
        var j :| 0 <= j < |r| && r[j] == items[i];
      }
    }
    r
  }

  /** Both groups keep the listing order: grouping a concatenation concatenates the groups. */
  lemma GroupsKeepOrder(xs: seq<MiSobremesa>, ys: seq<MiSobremesa>, now: int)
    ensures Upcoming(xs + ys, now) == Upcoming(xs, now) + Upcoming(ys, now)
    ensures Past(xs + ys, now) == Past(xs, now) + Past(ys, now)
  {
    FilterAppend(xs, ys, IsUpcomingItem(now));
    FilterAppend(xs, ys, IsPastItem(now));
  }

  /**
   * The groups overlap and leave gaps: a completed sobremesa with a date
   * ahead is in both, a cancelled one with a date ahead in neither, and
   * every other item in exactly one.
   */
  lemma GroupsOverlapAndGaps(items: seq<MiSobremesa>, now: int, i: nat)
    requires i < |items|
    ensures var m := items[i];
            && (m.sobremesa.status == Completed && !IsPast(m.sobremesa.date_time, now) ==>
                  m in Upcoming(items, now) && m in Past(items, now))
            && (m.sobremesa.status == Cancelled && !IsPast(m.sobremesa.date_time, now) ==>
                  m !in Upcoming(items, now) && m !in Past(items, now))
            && (m.sobremesa.status != Completed && m.sobremesa.status != Cancelled ==>
                  (m in Upcoming(items, now) <==> m !in Past(items, now)))
  {
  }

  /** The Spanish label of each status. */
  function SpanishLabel(st: SobremesaStatus): string
  {
    match st
    case Proposed => "Propuesta"
    case Confirmed => "Confirmada"
    case Completed => "Completada"
    case Cancelled => "Cancelada"
  }

  /** The label shown for a status string: its Spanish label, or the string itself when unknown. */
  function StatusLabel(status: string): (r: string)
    ensures ParseSobremesaStatus(status).Some? ==> r == SpanishLabel(ParseSobremesaStatus(status).value)
    ensures ParseSobremesaStatus(status).None? ==> r == status
  {
    match ParseSobremesaStatus(status)
    case Some(st) => SpanishLabel(st)
    case None => status
  }

  /** Each status has its own label, and the label of a status name is that status's label. */
  lemma LabelsDistinct(a: SobremesaStatus, b: SobremesaStatus)
    ensures StatusLabel(SobremesaStatusName(a)) == SpanishLabel(a)
    ensures a != b ==> SpanishLabel(a) != SpanishLabel(b)
  {
  }

  /**
   * "Gestionar" is drawn only in the upcoming group, and there only for
   * the convocante of a sobremesa that is still proposed.
   */
  predicate OffersGestionar(m: MiSobremesa, now: int)
  {
    !IsPast(m.sobremesa.date_time, now) && m.my_role == Convocante && m.sobremesa.status == Proposed
  }

  /**
   * An item offering "Gestionar" sits in the upcoming group and not in the
   * past one; within the upcoming group the offer is exactly the role and
   * status condition.
   */
  lemma GestionarOnlyUpcoming(items: seq<MiSobremesa>, now: int, i: nat)
    requires i < |items|
    ensures OffersGestionar(items[i], now) ==> items[i] in Upcoming(items, now) && items[i] !in Past(items, now)
    ensures items[i] in Upcoming(items, now) ==>
              (OffersGestionar(items[i], now) <==> items[i].my_role == Convocante && items[i].sobremesa.status == Proposed)
  {
  }

  /**
   * On the listing the server returns, "Gestionar" is offered on an item
   * only when the ledger records the requester as that sobremesa's
   * convocante.
   */
  lemma GestionarNeedsConvocanteEntry(ss: seq<Sobremesa>, ledger: seq<Participacion>, users: map<Id, User>,
                                      requester: Id, k: nat, now: int)
    requires MisSobremesas(ss, ledger, users, requester).Ok?
    requires k < |MisSobremesas(ss, ledger, users, requester).value|
    ensures var m := MisSobremesas(ss, ledger, users, requester).value[k];
            OffersGestionar(m, now) ==> HasEntry(ledger, m.sobremesa.id, requester, Convocante)
  {
    var m := MisSobremesas(ss, ledger, users, requester).value[k];
    ListedIffEntry(ss, ledger, users, requester, m.sobremesa.id, Convocante);
  }
}
