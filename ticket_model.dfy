/**
 * The Ticket model: its status choices, and the per-service, per-day integer
 * numbering that `save` applies to a ticket whose number is not yet set.
 * Days are abstract integers; a ticket's `number` is a natural number where
 * 0 stands for "unset" (the null and 0 values, both of which `save` treats
 * as missing).
 */
module TicketModel {
  import opened Wrappers

  /** The four values of STATUS_CHOICES; a ticket can hold no other status. */
  datatype Status = Pending | Serving | Completed | Cancelled

  /** The stored value of each choice. */
  function StatusValue(s: Status): string
  {
    match s
    case Pending => "pending"
    case Serving => "serving"
    case Completed => "completed"
    case Cancelled => "cancelled"
  }

  /** The choices check of model validation: a stored string maps back to its status, or is rejected. */
  function ParseStatus(v: string): (r: Option<Status>)
    ensures r.Some? ==> StatusValue(r.value) == v
    ensures r.None? ==> forall s: Status :: StatusValue(s) != v
  {
    if v == "pending" then Some(Pending)
    else if v == "serving" then Some(Serving)
    else if v == "completed" then Some(Completed)
    else if v == "cancelled" then Some(Cancelled)
    else None
  }

  lemma StatusRoundTrip(s: Status)
    ensures ParseStatus(StatusValue(s)) == Some(s)
  {
  }

  /**
   * A ticket record. `day` is the calendar date of `createdAt`, kept as its
   * own abstract integer.
   */
  datatype Ticket = Ticket(citizen: nat, service: nat, number: nat, status: Status, createdAt: int, day: int)

  /** A ticket as constructed before it is saved: no number yet, and the field default status. */
  function NewTicket(citizen: nat, service: nat): (t: Ticket)
    ensures t.citizen == citizen && t.service == service
    ensures t.number == 0 && ParseStatus("pending") == Some(t.status)
  {
    Ticket(citizen, service, 0, Pending, 0, 0)
  }

  /** The numbering scope of `save`: same service, created on the given day. */
  predicate InScope(t: Ticket, service: nat, day: int) {
    t.service == service && t.day == day
  }

  predicate HasScope(ts: seq<Ticket>, service: nat, day: int) {
    exists j :: 0 <= j < |ts| && InScope(ts[j], service, day)
  }

  /** The numbers of the tickets in a scope, in store order. */
  function ScopeNumbers(ts: seq<Ticket>, service: nat, day: int): (ns: seq<nat>)
    ensures |ns| <= |ts|
    ensures |ns| == 0 <==> !HasScope(ts, service, day)
    ensures forall j :: 0 <= j < |ts| && InScope(ts[j], service, day) ==> ts[j].number in ns
    ensures forall x :: x in ns ==> exists j :: 0 <= j < |ts| && InScope(ts[j], service, day) && ts[j].number == x
  {
    if |ts| == 0 then []
    else
      var init := ts[..|ts| - 1];
      var rest := ScopeNumbers(init, service, day);
      assert forall j :: 0 <= j < |init| ==> init[j] == ts[j];
      if InScope(ts[|ts| - 1], service, day) then rest + [ts[|ts| - 1].number] else rest
  }

  /** The largest element of a non-empty sequence. */
  function SeqMax(ns: seq<nat>): (m: nat)
    requires |ns| > 0
    ensures m in ns && forall x :: x in ns ==> x <= m
  {
    if |ns| == 1 then ns[0]
    else
      var init := ns[..|ns| - 1];
      var m := SeqMax(init);
      assert ns == init + [ns[|ns| - 1]];
      if ns[|ns| - 1] > m then ns[|ns| - 1] else m
  }

  /**
   * The number `save` assigns: one more than the highest number among the
   * service's tickets of that day (`order_by('-number').first()`), or 1 when
   * there is none.
   */
  function DailyNumber(ts: seq<Ticket>, service: nat, today: int): (n: nat)
    ensures n >= 1
    ensures !HasScope(ts, service, today) ==> n == 1
    ensures HasScope(ts, service, today) ==>
      exists j :: 0 <= j < |ts| && InScope(ts[j], service, today) && ts[j].number + 1 == n
    ensures forall j :: 0 <= j < |ts| && InScope(ts[j], service, today) ==> ts[j].number < n
  {
    var ns := ScopeNumbers(ts, service, today);
    if |ns| == 0 then 1 else SeqMax(ns) + 1
  }

  /**
   * The record `save` persists: the number is assigned only when it is unset,
   * and the creation time and day are the current ones (`auto_now_add`);
   * nothing else changes.
   */
  function Assigned(ts: seq<Ticket>, t: Ticket, now: int, today: int): (saved: Ticket)
    ensures t.number != 0 ==> saved.number == t.number
    ensures t.number == 0 ==> saved.number == DailyNumber(ts, t.service, today)
    ensures saved.citizen == t.citizen && saved.service == t.service && saved.status == t.status
    ensures saved.createdAt == now && saved.day == today
  {
    var number := if t.number == 0 then DailyNumber(ts, t.service, today) else t.number;
    t.(number := number, createdAt := now, day := today)
  }

  /** Scope numbers of a concatenation are the concatenation of the scope numbers. */
  lemma {:induction false} ScopeNumbersAppend(a: seq<Ticket>, b: seq<Ticket>, service: nat, day: int)
    ensures ScopeNumbers(a + b, service, day) == ScopeNumbers(a, service, day) + ScopeNumbers(b, service, day)
    decreases |b|
  {
    if |b| == 0 {
      assert a + b == a;
    } else {
      var b' := b[..|b| - 1];
      assert (a + b)[..|a + b| - 1] == a + b';
      ScopeNumbersAppend(a, b', service, day);
    }
  }

  /** Tickets of other services, or of other days, do not influence the assigned number wherever they sit in the store. */
  lemma OtherScopesIrrelevant(a: seq<Ticket>, x: Ticket, b: seq<Ticket>, service: nat, today: int)
    requires !InScope(x, service, today)
    ensures DailyNumber(a + [x] + b, service, today) == DailyNumber(a + b, service, today)
  {
    ScopeNumbersAppend(a + [x], b, service, today);
    ScopeNumbersAppend(a, [x], service, today);
    ScopeNumbersAppend(a, b, service, today);
    assert ScopeNumbers([x], service, today) == [];
  }

  /** A scope is gap-free when its numbers, in store order, are 1, 2, ..., k. */
  predicate Contiguous(ns: seq<nat>) {
    forall i :: 0 <= i < |ns| ==> ns[i] == i + 1
  }

  /** In a gap-free scope of k tickets the next assigned number is k + 1. */
  lemma ContiguousNext(ts: seq<Ticket>, service: nat, today: int)
    requires Contiguous(ScopeNumbers(ts, service, today))
    ensures DailyNumber(ts, service, today) == |ScopeNumbers(ts, service, today)| + 1
  {
    var ns := ScopeNumbers(ts, service, today);
    if |ns| > 0 {
      var m := SeqMax(ns);
      assert ns[|ns| - 1] == |ns|;
      assert m <= |ns|;
      assert m >= |ns| by {
        assert ns[|ns| - 1] in ns;
      }
    }
  }

  /** Saving an unnumbered ticket extends a gap-free scope by the next number, and leaves every other scope as it was. */
  lemma SaveExtendsScope(ts: seq<Ticket>, t: Ticket, now: int, today: int, service: nat, day: int)
    requires t.number == 0
    ensures var saved := Assigned(ts, t, now, today);
      if service == t.service && day == today then
        ScopeNumbers(ts + [saved], service, day) == ScopeNumbers(ts, service, day) + [saved.number]
      else
        ScopeNumbers(ts + [saved], service, day) == ScopeNumbers(ts, service, day)
  {
    var saved := Assigned(ts, t, now, today);
    ScopeNumbersAppend(ts, [saved], service, day);
    assert [saved][..0] == [];
  }

  /** Sequential saves into a gap-free scope keep it gap-free: the numbers run 1, 2, 3, ... */
  lemma {:induction false} SequentialSavesGapFree(ts: seq<Ticket>, t: Ticket, now: int, today: int)
    requires t.number == 0
    requires Contiguous(ScopeNumbers(ts, t.service, today))
    ensures var after := ScopeNumbers(ts + [Assigned(ts, t, now, today)], t.service, today);
      Contiguous(after) && |after| == |ScopeNumbers(ts, t.service, today)| + 1
  {
    var ns := ScopeNumbers(ts, t.service, today);
    var saved := Assigned(ts, t, now, today);
    SaveExtendsScope(ts, t, now, today, t.service, today);
    ContiguousNext(ts, t.service, today);
  }

  predicate Distinct(ns: seq<nat>) {
    forall i, j :: 0 <= i < j < |ns| ==> ns[i] != ns[j]
  }

  /** The assigned number is new in its scope, so sequential saves never duplicate a number within it. */
  lemma SaveKeepsScopeDistinct(ts: seq<Ticket>, t: Ticket, now: int, today: int)
    requires t.number == 0
    requires Distinct(ScopeNumbers(ts, t.service, today))
    ensures Assigned(ts, t, now, today).number !in ScopeNumbers(ts, t.service, today)
    ensures Distinct(ScopeNumbers(ts + [Assigned(ts, t, now, today)], t.service, today))
  {
    var ns := ScopeNumbers(ts, t.service, today);
    var saved := Assigned(ts, t, now, today);
    SaveExtendsScope(ts, t, now, today, t.service, today);
    assert forall x :: x in ns ==> x < saved.number;
  }

  /** Changing one ticket's status leaves every scope's numbers as they were. */
  lemma StatusChangeKeepsNumbers(ts: seq<Ticket>, i: nat, st: Status, service: nat, day: int)
    requires i < |ts|
    ensures ScopeNumbers(ts[i := ts[i].(status := st)], service, day) == ScopeNumbers(ts, service, day)
  {
    var a, b := ts[..i], ts[i + 1..];
    var x := ts[i];
    assert ts == a + [x] + b;
    assert ts[i := x.(status := st)] == a + [x.(status := st)] + b;
    ScopeNumbersAppend(a + [x], b, service, day);
    ScopeNumbersAppend(a, [x], service, day);
    ScopeNumbersAppend(a + [x.(status := st)], b, service, day);
    ScopeNumbersAppend(a, [x.(status := st)], service, day);
    assert ScopeNumbers([x], service, day) == ScopeNumbers([x.(status := st)], service, day);
  }
}
