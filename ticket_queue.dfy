/**
 * The ticket table and the queue actions over it: persisting a ticket
 * through the model's `save`, peeking at the next pending ticket of a
 * service (`next_ticket`) and promoting it to serving (`serve_next`).
 * A ticket is identified by its position in the table.
 */
module TicketQueue {
  import opened Wrappers
  import opened TicketModel

  predicate IsPendingOf(t: Ticket, service: nat) {
    t.service == service && t.status == Pending
  }

  predicate HasPending(ts: seq<Ticket>, service: nat) {
    exists j :: 0 <= j < |ts| && IsPendingOf(ts[j], service)
  }

  /**
   * Ticket `i` heads the service's queue: it is pending, no pending ticket
   * of the service was created earlier, and among those created at the same
   * instant it comes first in the table.
   */
  predicate IsNextInQueue(ts: seq<Ticket>, service: nat, i: nat) {
    && i < |ts|
    && IsPendingOf(ts[i], service)
    && (forall j :: 0 <= j < |ts| && IsPendingOf(ts[j], service) ==> ts[i].createdAt <= ts[j].createdAt)
    && (forall j :: 0 <= j < i && IsPendingOf(ts[j], service) ==> ts[i].createdAt < ts[j].createdAt)
  }

  /** `filter(service=..., status='pending').order_by('created_at').first()`, ties going to the lowest position. */
  function EarliestPending(ts: seq<Ticket>, service: nat): (r: Option<nat>)
    ensures r.Some? <==> HasPending(ts, service)
    ensures r.Some? ==> IsNextInQueue(ts, service, r.value)
  {
    if |ts| == 0 then None
    else
      var init := ts[..|ts| - 1];
      var last := |ts| - 1;
      var r := EarliestPending(init, service);
      assert forall j :: 0 <= j < |init| ==> init[j] == ts[j];
      if IsPendingOf(ts[last], service) && (r.None? || ts[last].createdAt < ts[r.value].createdAt) then Some(last)
      else r
  }

  /** The head of the queue is unique: exactly one position satisfies IsNextInQueue when any ticket is pending. */
  lemma NextInQueueUnique(ts: seq<Ticket>, service: nat, i: nat)
    ensures IsNextInQueue(ts, service, i) <==> EarliestPending(ts, service) == Some(i)
  {
    if IsNextInQueue(ts, service, i) {
      var k := EarliestPending(ts, service).value;
      assert ts[i].createdAt == ts[k].createdAt;
      assert !(k < i) && !(i < k);
    }
  }

  /** Outcomes of the queue actions; the status codes are 200, 204, 400, 404 and 500. */
  datatype DispatchResult =
    | Found(index: nat, ticket: Ticket)
    | NoContent
    | ServiceRequired
    | ServiceNotFound
    | ServerError

  class TicketStore {
    /** The ticket table, in insertion order. */
    var tickets: seq<Ticket>
    /** The ids of the existing services; the queue actions only read them. */
    const services: set<nat>

    constructor(services: set<nat>)
      ensures this.services == services && tickets == []
    {
      this.services := services;
      tickets := [];
    }

    /** `Ticket.save` on a new ticket: assign the number if it is unset, then insert the record. */
    method Save(t: Ticket, now: int, today: int) returns (saved: Ticket)
      modifies this
      ensures saved == Assigned(old(tickets), t, now, today)
      ensures tickets == old(tickets) + [saved]
    {
      var number := t.number;
      if number == 0 {
        number := DailyNumber(tickets, t.service, today);
      }
      saved := t.(number := number, createdAt := now, day := today);
      tickets := tickets + [saved];
    }

    /** `next_ticket`: validate the service parameter, then return the head of its queue without changing anything. */
    function NextTicket(serviceId: Option<nat>): (r: DispatchResult)
      reads this
      ensures serviceId.None? ==> r == ServiceRequired
      ensures serviceId.Some? && serviceId.value !in services ==> r == ServiceNotFound
      ensures serviceId.Some? && serviceId.value in services ==>
        && (r.Found? || r.NoContent?)
        && (r.NoContent? <==> !HasPending(tickets, serviceId.value))
        && (r.Found? ==> IsNextInQueue(tickets, serviceId.value, r.index) && r.ticket == tickets[r.index])
    {
      match serviceId
      case None => ServiceRequired
      case Some(s) =>
        if s !in services then ServiceNotFound
        else
          match EarliestPending(tickets, s)
          case None => NoContent
          case Some(i) => Found(i, tickets[i])
    }

    /**
     * `serve_next` as it is meant to work: the ticket `next_ticket` would
     * return goes from pending to serving; nothing else changes, and every
     * other outcome leaves the table alone.
     */
    method ServeNext(serviceId: Option<nat>) returns (r: DispatchResult)
      modifies this
      ensures !r.Found? ==> r == old(NextTicket(serviceId)) && tickets == old(tickets)
      ensures r.Found? ==>
        && r.index < |old(tickets)|
        && old(NextTicket(serviceId)) == Found(r.index, old(tickets)[r.index])
        && old(tickets)[r.index].status == Pending
        && tickets == old(tickets)[r.index := old(tickets)[r.index].(status := Serving)]
        && r.ticket == tickets[r.index]
    {
      r := NextTicket(serviceId);
      if r.Found? {
        var served := r.ticket.(status := Serving);
        tickets := tickets[r.index := served];
        r := Found(r.index, served);
      }
    }

    /**
     * `serve_next` as written: the final `save(update_fields=['status',
     * 'updated_at'])` names a field the model does not have, so it fails, the
     * transaction is rolled back and the broad handler answers 500 whenever
     * a ticket was selected.
     */
    method ServeNextAsWritten(serviceId: Option<nat>) returns (r: DispatchResult)
      ensures r == ServerError <==> NextTicket(serviceId).Found?
      ensures r != ServerError ==> r == NextTicket(serviceId)
    {
      r := NextTicket(serviceId);
      if r.Found? {
        r := ServerError;
      }
    }
  }

  /** A freshly created ticket is pending and so is eligible for dispatch in its service. */
  lemma NewTicketIsQueued(ts: seq<Ticket>, citizen: nat, service: nat, now: int, today: int)
    ensures HasPending(ts + [Assigned(ts, NewTicket(citizen, service), now, today)], service)
  {
    var us := ts + [Assigned(ts, NewTicket(citizen, service), now, today)];
    assert IsPendingOf(us[|ts|], service);
  }

  /** Saving an unnumbered ticket into a gap-free scope of k tickets numbers it k + 1 and keeps the scope gap-free. */
  method SaveIntoGapFreeScope(store: TicketStore, t: Ticket, now: int, today: int) returns (saved: Ticket)
    requires t.number == 0 && Contiguous(ScopeNumbers(store.tickets, t.service, today))
    modifies store
    ensures store.tickets == old(store.tickets) + [saved]
    ensures saved == t.(number := |ScopeNumbers(old(store.tickets), t.service, today)| + 1, createdAt := now, day := today)
    ensures Contiguous(ScopeNumbers(store.tickets, t.service, today))
    ensures |ScopeNumbers(store.tickets, t.service, today)| == |ScopeNumbers(old(store.tickets), t.service, today)| + 1
  {
    ContiguousNext(store.tickets, t.service, today);
    SequentialSavesGapFree(store.tickets, t, now, today);
    saved := store.Save(t, now, today);
  }

  /** Three tickets created for an empty service on one day are numbered 1, 2, 3. */
  method NumberingScenario() returns (store: TicketStore)
    ensures fresh(store) && store.services == {7}
    ensures |store.tickets| == 3
    ensures store.tickets[0].number == 1 && store.tickets[1].number == 2 && store.tickets[2].number == 3
    ensures IsPendingOf(store.tickets[0], 7) && IsPendingOf(store.tickets[1], 7) && IsPendingOf(store.tickets[2], 7)
    ensures store.tickets[0].createdAt < store.tickets[1].createdAt < store.tickets[2].createdAt
  {
    store := new TicketStore({7});
    var a := SaveIntoGapFreeScope(store, NewTicket(1, 7), 100, 5);
    var b := SaveIntoGapFreeScope(store, NewTicket(2, 7), 200, 5);
    var c := SaveIntoGapFreeScope(store, NewTicket(3, 7), 300, 5);
    assert store.tickets == [a, b, c];
  }

  /** The three tickets are served in creation order; a fourth call finds none. */
  method DispatchScenario()
  {
    var store := NumberingScenario();
    var peek := store.NextTicket(Some(7));
    assert IsNextInQueue(store.tickets, 7, 0);
    NextInQueueUnique(store.tickets, 7, 0);
    assert peek == Found(0, store.tickets[0]);
    var r1 := store.ServeNext(Some(7));
    assert r1.index == 0;
    assert IsNextInQueue(store.tickets, 7, 1);
    NextInQueueUnique(store.tickets, 7, 1);
    var r2 := store.ServeNext(Some(7));
    assert r2.index == 1;
    assert IsNextInQueue(store.tickets, 7, 2);
    NextInQueueUnique(store.tickets, 7, 2);
    var r3 := store.ServeNext(Some(7));
    assert r3.index == 2;
    assert !HasPending(store.tickets, 7);
    var r4 := store.ServeNext(Some(7));
    assert r4 == NoContent;
    var missing := store.ServeNext(None);
    assert missing == ServiceRequired;
    var unknown := store.ServeNext(Some(8));
    assert unknown == ServiceNotFound;
  }

  /** With the source's final save, serving the only pending ticket fails and leaves it pending. */
  method AsWrittenServeNextFails()
  {
    var store := new TicketStore({7});
    var a := store.Save(NewTicket(1, 7), 100, 5);
    var r := store.ServeNextAsWritten(Some(7));
    assert store.NextTicket(Some(7)).Found?;
    assert r == ServerError && store.tickets[0].status == Pending;
  }
}
