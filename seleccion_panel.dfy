/**
 * The convocante's selection page: the counts over the loaded cartas, the
 * spots left against the capacity, the full-capacity warning, which cartas
 * offer accept/reject, and the local update after a decision.
 */
module SeleccionPanel {
  import opened Outcomes
  import opened Models
  import opened Seqs
  import opened CartaRoutes

  function HasStatus(st: CartaStatus): CartaView -> bool
  {
    (c: CartaView) => c.status == st
  }

  /** How many of the loaded cartas are in the given status. */
  function StatusCount(cs: seq<CartaView>, st: CartaStatus): nat
  {
    Count(cs, HasStatus(st))
  }

  function AcceptedCount(cs: seq<CartaView>): nat
  {
    StatusCount(cs, Accepted)
  }

  function PendingCount(cs: seq<CartaView>): nat
  {
    StatusCount(cs, Pending)
  }

  /** Every loaded carta is counted in exactly one of the three statuses. */
  lemma {:induction false} CountsPartition(cs: seq<CartaView>)
    ensures StatusCount(cs, Pending) + StatusCount(cs, Accepted) + StatusCount(cs, Rejected) == |cs|
  {
    if cs != [] {
      assert cs == [cs[0]] + cs[1..];
      CountCons(cs[0], cs[1..], HasStatus(Pending));
      CountCons(cs[0], cs[1..], HasStatus(Accepted));
      CountCons(cs[0], cs[1..], HasStatus(Rejected));
      CountsPartition(cs[1..]);
    }
  }

  /**
   * The capacity minus the accepted cartas, with a capacity of 0 while the
   * sobremesa is not loaded. It is not clamped: accepting past the capacity
   * makes it negative.
   */
  function SpotsLeft(capacity: Option<int>, cs: seq<CartaView>): (r: int)
    ensures capacity.None? ==> r + AcceptedCount(cs) == 0
    ensures capacity.Some? ==> r + AcceptedCount(cs) == capacity.value
  {
    (if capacity.Some? then capacity.value else 0) - AcceptedCount(cs)
  }

  /** More cartas accepted than the capacity leaves a negative number of spots. */
  lemma SpotsLeftCanBeNegative(n: int, cs: seq<CartaView>)
    requires AcceptedCount(cs) > n
    ensures SpotsLeft(Some(n), cs) < 0
  {
  }

  /** The warning shows when no spot is left and some carta still waits for a decision. */
  predicate ShowFullWarning(capacity: Option<int>, cs: seq<CartaView>)
  {
    SpotsLeft(capacity, cs) == 0 && PendingCount(cs) > 0
  }

  /**
   * The warning means the accepted cartas fill the loaded capacity exactly
   * while some carta is pending; before the sobremesa loads it shows only
   * when nothing is accepted yet.
   */
  lemma FullWarningMeansCapacityMet(capacity: Option<int>, cs: seq<CartaView>)
    ensures ShowFullWarning(capacity, cs) <==>
              && PendingCount(cs) > 0
              && AcceptedCount(cs) == (if capacity.Some? then capacity.value else 0)
  {
  }

  /** Accept and reject are offered only on a pending carta. */
  predicate ShowsDecisionActions(c: CartaView)
  {
    c.status == Pending
  }

  /** Sets the status of every loaded carta with the given id, leaving the rest as they are. */
  function Relabel(cs: seq<CartaView>, cartaId: Id, st: CartaStatus): (r: seq<CartaView>)
    ensures |r| == |cs|
    ensures forall i :: 0 <= i < |cs| ==>
              r[i] == (if cs[i].id == cartaId then cs[i].(status := st) else cs[i])
  {
    if cs == [] then []
    else [if cs[0].id == cartaId then cs[0].(status := st) else cs[0]] + Relabel(cs[1..], cartaId, st)
  }

  /**
   * The page's state after a decision request: on success only the
   * matching carta takes the decision, and on failure nothing changes.
   */
  function LocalDecision(cs: seq<CartaView>, cartaId: Id, st: CartaStatus, ok: bool): (r: seq<CartaView>)
    requires st == Accepted || st == Rejected
    ensures |r| == |cs|
    ensures !ok ==> r == cs
    ensures ok ==> forall i :: 0 <= i < |cs| && cs[i].id != cartaId ==> r[i] == cs[i]
    ensures ok ==> forall i :: 0 <= i < |cs| && cs[i].id == cartaId ==>
                     r[i].status == st && !ShowsDecisionActions(r[i])
                     && r[i].id == cs[i].id && r[i].text == cs[i].text && r[i].author == cs[i].author
  {
    if ok then Relabel(cs, cartaId, st) else cs
  }

  lemma RelabelAbsent(cs: seq<CartaView>, cartaId: Id, st: CartaStatus)
    requires forall i :: 0 <= i < |cs| ==> cs[i].id != cartaId
    ensures Relabel(cs, cartaId, st) == cs
  {
  }

  /** Relabelling a sequence whose first carta is the only one with the id. */
  lemma RelabelMovesCountAtHead(cs: seq<CartaView>, cartaId: Id, st: CartaStatus, x: CartaStatus)
    requires |cs| > 0 && cs[0].id == cartaId
    requires forall i :: 0 < i < |cs| ==> cs[i].id != cartaId
    ensures StatusCount(Relabel(cs, cartaId, st), x) + (if cs[0].status == x then 1 else 0)
            == StatusCount(cs, x) + (if st == x then 1 else 0)
  {
    var head := cs[0].(status := st);
    RelabelAbsent(cs[1..], cartaId, st);
    assert Relabel(cs, cartaId, st) == [head] + cs[1..];
    assert cs == [cs[0]] + cs[1..];
    CountCons(cs[0], cs[1..], HasStatus(x));
    CountCons(head, cs[1..], HasStatus(x));
  }

  /**
   * Relabelling the one carta with the id moves it from its old status's
   * count to the new status's count.
   */
  lemma {:induction false} RelabelMovesCount(cs: seq<CartaView>, k: nat, cartaId: Id, st: CartaStatus, x: CartaStatus)
    requires k < |cs| && cs[k].id == cartaId
    requires forall i :: 0 <= i < |cs| && i != k ==> cs[i].id != cartaId
    ensures StatusCount(Relabel(cs, cartaId, st), x) + (if cs[k].status == x then 1 else 0)
            == StatusCount(cs, x) + (if st == x then 1 else 0)
  {
    if k == 0 {
      RelabelMovesCountAtHead(cs, cartaId, st, x);
    } else {
      var tail := cs[1..];
      forall i | 0 <= i < |tail| && i != k - 1 ensures tail[i].id != cartaId {
        assert tail[i] == cs[i + 1];
      }
      RelabelMovesCount(tail, k - 1, cartaId, st, x);
      assert Relabel(cs, cartaId, st) == [cs[0]] + Relabel(tail, cartaId, st);
      assert cs == [cs[0]] + tail;
      CountCons(cs[0], tail, HasStatus(x));
      CountCons(cs[0], Relabel(tail, cartaId, st), HasStatus(x));
    }
  }

  /**
   * Accepting a pending carta whose id is unique among the loaded ones
   * raises the accepted count by one, lowers the pending count by one,
   * keeps the rejected count, and takes one spot.
   */
  lemma LocalAcceptShiftsCounts(cs: seq<CartaView>, k: nat, capacity: Option<int>)
    requires k < |cs| && cs[k].status == Pending
    requires forall i :: 0 <= i < |cs| && i != k ==> cs[i].id != cs[k].id
    ensures var r := LocalDecision(cs, cs[k].id, Accepted, true);
            && AcceptedCount(r) == AcceptedCount(cs) + 1
            && PendingCount(r) + 1 == PendingCount(cs)
            && StatusCount(r, Rejected) == StatusCount(cs, Rejected)
            && SpotsLeft(capacity, r) == SpotsLeft(capacity, cs) - 1
  {
    RelabelMovesCount(cs, k, cs[k].id, Accepted, Accepted);
    RelabelMovesCount(cs, k, cs[k].id, Accepted, Pending);
    RelabelMovesCount(cs, k, cs[k].id, Accepted, Rejected);
  }

  /**
   * Rejecting a pending carta whose id is unique lowers the pending count
   * by one and leaves the accepted count, hence the spots left, as they were.
   */
  lemma LocalRejectKeepsSpots(cs: seq<CartaView>, k: nat, capacity: Option<int>)
    requires k < |cs| && cs[k].status == Pending
    requires forall i :: 0 <= i < |cs| && i != k ==> cs[i].id != cs[k].id
    ensures var r := LocalDecision(cs, cs[k].id, Rejected, true);
            && AcceptedCount(r) == AcceptedCount(cs)
            && PendingCount(r) + 1 == PendingCount(cs)
            && SpotsLeft(capacity, r) == SpotsLeft(capacity, cs)
  {
    RelabelMovesCount(cs, k, cs[k].id, Rejected, Accepted);
    RelabelMovesCount(cs, k, cs[k].id, Rejected, Pending);
  }
}
