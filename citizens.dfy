/**
 * The citizen registry behind the citizen view: guarded create, update and
 * destroy actions over the citizen table, and the per-citizen ticket listing.
 * Citizens are keyed by their primary key; the registry hands out increasing
 * keys the way an auto-increment column does.
 */
module Citizens {
  import opened Wrappers
  import opened TicketModel

  datatype Citizen = Citizen(firstName: string, lastName: string, nationalId: string, phoneNumber: string, createdAt: int)

  /** A request payload: an absent key is `None`. */
  datatype CitizenInput = CitizenInput(firstName: Option<string>, lastName: Option<string>, nationalId: Option<string>, phoneNumber: Option<string>)

  /** Outcomes of the registry actions. */
  datatype Outcome =
    | Done(id: nat)              // 201 or 200
    | DuplicateNationalId        // 409
    | Invalid                    // ValidationError, 400
    | TicketsExist(count: nat)   // 400, deletion refused
    | ServerError                // 500, including a missing citizen caught by the broad handler

  /** The ticket listing of `citizen_tickets`. */
  datatype TicketListing = Listing(citizen: Citizen, tickets: seq<Ticket>, ticketCount: nat) | ListingFailed

  /** A required, non-blank text field of at most `maxLength` characters. */
  predicate FieldOk(v: string, maxLength: nat) {
    0 < |v| <= maxLength
  }

  /** The Citizen field declarations: names of at most 100 characters, national id and phone of at most 20. */
  predicate FieldsValid(c: Citizen) {
    FieldOk(c.firstName, 100) && FieldOk(c.lastName, 100) && FieldOk(c.nationalId, 20) && FieldOk(c.phoneNumber, 20)
  }

  predicate NationalIdTaken(m: map<nat, Citizen>, nid: string) {
    exists k :: k in m && m[k].nationalId == nid
  }

  /** No two citizens share a national id (the `unique=True` of the model). */
  predicate UniqueNationalIds(m: map<nat, Citizen>) {
    forall a, b :: a in m && b in m && a != b ==> m[a].nationalId != m[b].nationalId
  }

  /** The create guard: a non-empty national id that some citizen already holds. */
  predicate CreateIsDuplicate(m: map<nat, Citizen>, nid: Option<string>) {
    nid.Some? && nid.value != "" && NationalIdTaken(m, nid.value)
  }

  /** The update guard: a non-empty national id, different from the citizen's own, that some citizen already holds. */
  predicate UpdateIsDuplicate(m: map<nat, Citizen>, current: Citizen, nid: Option<string>) {
    nid.Some? && nid.value != "" && nid.value != current.nationalId && NationalIdTaken(m, nid.value)
  }

  /** The serializer's validation of a record about to be stored as key `self` (`None` for a new one). */
  predicate Accepts(m: map<nat, Citizen>, c: Citizen, self: Option<nat>) {
    FieldsValid(c) && forall k :: k in m && Some(k) != self ==> m[k].nationalId != c.nationalId
  }

  predicate AllPresent(input: CitizenInput) {
    input.firstName.Some? && input.lastName.Some? && input.nationalId.Some? && input.phoneNumber.Some?
  }

  /** The record a full payload describes, created at `now`; `None` when a required key is absent. */
  function FromInput(input: CitizenInput, now: int): (c: Option<Citizen>)
    ensures c.Some? <==> AllPresent(input)
    ensures c.Some? ==>
      && c.value.firstName == input.firstName.value
      && c.value.lastName == input.lastName.value
      && c.value.nationalId == input.nationalId.value
      && c.value.phoneNumber == input.phoneNumber.value
      && c.value.createdAt == now
  {
    if AllPresent(input) then
      Some(Citizen(input.firstName.value, input.lastName.value, input.nationalId.value, input.phoneNumber.value, now))
    else None
  }

  /** The record after an update: each present key replaces its field, the others and the creation time stay. */
  function Merge(c: Citizen, input: CitizenInput): (u: Citizen)
    ensures u.createdAt == c.createdAt
    ensures u.firstName == input.firstName.GetOr(c.firstName)
    ensures u.lastName == input.lastName.GetOr(c.lastName)
    ensures u.nationalId == input.nationalId.GetOr(c.nationalId)
    ensures u.phoneNumber == input.phoneNumber.GetOr(c.phoneNumber)
  {
    Citizen(input.firstName.GetOr(c.firstName), input.lastName.GetOr(c.lastName),
            input.nationalId.GetOr(c.nationalId), input.phoneNumber.GetOr(c.phoneNumber), c.createdAt)
  }

  /**
   * The tickets of a citizen, in table order: each of the citizen's tickets
   * occurs as often as in the table, and no other ticket occurs.
   */
  function TicketsOf(ts: seq<Ticket>, citizen: nat): (r: seq<Ticket>)
    ensures |r| <= |ts|
    ensures forall x :: x in r ==> x in ts && x.citizen == citizen
    ensures forall j :: 0 <= j < |ts| && ts[j].citizen == citizen ==> ts[j] in r
    ensures forall x :: multiset(r)[x] == if x.citizen == citizen then multiset(ts)[x] else 0
  {
    if |ts| == 0 then []
    else
      var init := ts[..|ts| - 1];
      var last := ts[|ts| - 1];
      var rest := TicketsOf(init, citizen);
      assert forall j :: 0 <= j < |init| ==> init[j] == ts[j];
      assert ts == init + [last];
      assert multiset(ts) == multiset(init) + multiset{last};
      if last.citizen == citizen then
        assert multiset(rest + [last]) == multiset(rest) + multiset{last};
        rest + [last]
      else rest
  }

  predicate HasTickets(ts: seq<Ticket>, citizen: nat) {
    exists j :: 0 <= j < |ts| && ts[j].citizen == citizen
  }

  /**
   * The destroy guard `hasattr(citizen, 'ticket_set') and citizen.ticket_set.exists()`.
   * `relationPresent` says whether the citizen has a `ticket_set` attribute;
   * the ticket model names the reverse relation `tickets`, so in the
   * source it is false.
   */
  predicate DeletionRefused(relationPresent: bool, ts: seq<Ticket>, citizen: nat) {
    relationPresent && HasTickets(ts, citizen)
  }

  /** As written, the guard never fires: a citizen with tickets is deleted. */
  lemma GuardIgnoresTicketsAsWritten(ts: seq<Ticket>, citizen: nat)
    ensures HasTickets(ts, citizen) ==> !DeletionRefused(false, ts, citizen)
  {
  }

  /** With the relation present the guard refuses exactly the citizens that have tickets. */
  lemma GuardWithRelation(ts: seq<Ticket>, citizen: nat)
    ensures DeletionRefused(true, ts, citizen) <==> |TicketsOf(ts, citizen)| > 0
  {
    if HasTickets(ts, citizen) {
      var j :| 0 <= j < |ts| && ts[j].citizen == citizen;
      assert ts[j] in TicketsOf(ts, citizen);
    }
    if |TicketsOf(ts, citizen)| > 0 {
      var x := TicketsOf(ts, citizen)[0];
      assert x in ts;
      var j :| 0 <= j < |ts| && ts[j] == x;
      assert ts[j].citizen == citizen;
    }
  }

  lemma InsertKeepsUnique(m: map<nat, Citizen>, k: nat, c: Citizen)
    requires UniqueNationalIds(m) && k !in m
    requires Accepts(m, c, None)
    ensures UniqueNationalIds(m[k := c])
  {
  }

  lemma ReplaceKeepsUnique(m: map<nat, Citizen>, k: nat, c: Citizen)
    requires UniqueNationalIds(m) && k in m
    requires Accepts(m, c, Some(k))
    ensures UniqueNationalIds(m[k := c])
  {
  }

  class CitizenRegistry {
    /** The citizen table, by primary key. */
    var citizens: map<nat, Citizen>
    /** The next primary key to hand out. */
    var nextId: nat

    /** Keys below `nextId`, every record passes the field declarations, and national ids are unique. */
    ghost predicate Valid()
      reads this
    {
      && (forall k :: k in citizens ==> k < nextId && FieldsValid(citizens[k]))
      && UniqueNationalIds(citizens)
    }

    constructor()
      ensures Valid() && citizens == map[] && nextId == 0
    {
      citizens := map[];
      nextId := 0;
    }

    /** `create`: refuse a national id already on record, otherwise validate and insert. */
    method Create(input: CitizenInput, now: int) returns (r: Outcome)
      requires Valid()
      modifies this
      ensures Valid()
      ensures r == DuplicateNationalId <==> CreateIsDuplicate(old(citizens), input.nationalId)
      ensures r.Done? <==>
        && !CreateIsDuplicate(old(citizens), input.nationalId)
        && FromInput(input, now).Some?
        && Accepts(old(citizens), FromInput(input, now).value, None)
      ensures r.Done? ==>
        && r.id == old(nextId) && r.id !in old(citizens)
        && citizens == old(citizens)[r.id := FromInput(input, now).value]
        && nextId == old(nextId) + 1
      ensures !r.Done? ==> (r == DuplicateNationalId || r == Invalid) && citizens == old(citizens) && nextId == old(nextId)
    {
      if CreateIsDuplicate(citizens, input.nationalId) {
        return DuplicateNationalId;
      }
      var c := FromInput(input, now);
      if c.None? || !Accepts(citizens, c.value, None) {
        return Invalid;
      }
      InsertKeepsUnique(citizens, nextId, c.value);
      citizens := citizens[nextId := c.value];
      r := Done(nextId);
      nextId := nextId + 1;
    }

    /**
     * `update` (and `partial_update`, which routes through it with
     * `partial` set): a missing citizen ends in the broad handler, a national
     * id taken by another citizen is refused, otherwise the merged record is
     * validated and stored.
     */
    method Update(pk: nat, input: CitizenInput, partial: bool) returns (r: Outcome)
      requires Valid()
      modifies this
      ensures Valid() && nextId == old(nextId)
      ensures pk !in old(citizens) ==> r == ServerError
      ensures pk in old(citizens) ==>
        (r == DuplicateNationalId <==> UpdateIsDuplicate(old(citizens), old(citizens)[pk], input.nationalId))
      ensures pk in old(citizens) && !r.Done? && r != DuplicateNationalId ==> r == Invalid
      ensures r.Done? <==>
        && pk in old(citizens)
        && !UpdateIsDuplicate(old(citizens), old(citizens)[pk], input.nationalId)
        && (partial || AllPresent(input))
        && Accepts(old(citizens), Merge(old(citizens)[pk], input), Some(pk))
      ensures r.Done? ==> r.id == pk && citizens == old(citizens)[pk := Merge(old(citizens)[pk], input)]
      ensures !r.Done? ==> citizens == old(citizens)
    {
      if pk !in citizens {
        return ServerError;
      }
      var current := citizens[pk];
      if UpdateIsDuplicate(citizens, current, input.nationalId) {
        return DuplicateNationalId;
      }
      var u := Merge(current, input);
      if !(partial || AllPresent(input)) || !Accepts(citizens, u, Some(pk)) {
        return Invalid;
      }
      ReplaceKeepsUnique(citizens, pk, u);
      citizens := citizens[pk := u];
      r := Done(pk);
    }

    /**
     * `destroy`: a missing citizen ends in the broad handler; the ticket
     * guard refuses with the citizen's ticket count; otherwise the citizen
     * is removed.
     */
    method Destroy(pk: nat, ts: seq<Ticket>, relationPresent: bool) returns (r: Outcome)
      requires Valid()
      modifies this
      ensures Valid() && nextId == old(nextId)
      ensures pk !in old(citizens) ==> r == ServerError && citizens == old(citizens)
      ensures pk in old(citizens) && DeletionRefused(relationPresent, ts, pk) ==>
        r == TicketsExist(|TicketsOf(ts, pk)|) && citizens == old(citizens)
      ensures pk in old(citizens) && !DeletionRefused(relationPresent, ts, pk) ==>
        r == Done(pk) && citizens == old(citizens) - {pk}
    {
      if pk !in citizens {
        return ServerError;
      }
      if DeletionRefused(relationPresent, ts, pk) {
        return TicketsExist(|TicketsOf(ts, pk)|);
      }
      citizens := citizens - {pk};
      r := Done(pk);
    }

    /**
     * `citizen_tickets`: the citizen with its tickets and their count. A
     * missing citizen, or a missing `ticket_set` relation, ends in the broad
     * handler.
     */
    function CitizenTickets(pk: nat, ts: seq<Ticket>, relationPresent: bool): (r: TicketListing)
      reads this
      ensures r.Listing? <==> pk in citizens && relationPresent
      ensures r.Listing? ==> r.citizen == citizens[pk] && r.tickets == TicketsOf(ts, pk) && r.ticketCount == |r.tickets|
      ensures r.Listing? ==> forall x :: x in r.tickets ==> x in ts && x.citizen == pk
      ensures r.Listing? ==> forall j :: 0 <= j < |ts| && ts[j].citizen == pk ==> ts[j] in r.tickets
    {
      if pk !in citizens || !relationPresent then ListingFailed
      else
        var tickets := TicketsOf(ts, pk);
        Listing(citizens[pk], tickets, |tickets|)
    }
  }
}
