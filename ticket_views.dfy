/**
 * The ticket view's request-level rules that are not queue dispatch: which
 * actions need an admin user, and how the create action validates its
 * service parameter before numbering the new ticket.
 */
module TicketViews {
  import opened Wrappers
  import opened TicketNumbering

  /** The permission class `get_permissions` picks for an action. */
  datatype Permission = IsAdminUser | AllowAny

  /** The actions that modify tickets or drive the queue. */
  const AdminActions: set<string> := {"create", "update", "partial_update", "destroy", "serve_next", "next_ticket"}

  /** `get_permissions`, for the action name of the request (`None` when the router set none). */
  function PermissionFor(action: Option<string>): (p: Permission)
    ensures p == IsAdminUser <==> action.Some? && action.value in AdminActions
  {
    if action.Some? && action.value in AdminActions then IsAdminUser else AllowAny
  }

  /** Whether a permission class admits a user; `IsAdminUser` admits only staff users. */
  predicate Grants(p: Permission, isStaff: bool) {
    match p
    case IsAdminUser => isStaff
    case AllowAny => true
  }

  /** Every admin-only action is open exactly to staff users, whatever else holds. */
  lemma AdminActionsNeedStaff(action: string, isStaff: bool)
    requires action in AdminActions
    ensures Grants(PermissionFor(Some(action)), isStaff) <==> isStaff
  {
  }

  /** Every other action, the listing and retrieval actions included, is open to anyone. */
  lemma OtherActionsAreOpen(action: Option<string>, isStaff: bool)
    requires action.None? || action.value !in AdminActions
    ensures Grants(PermissionFor(action), isStaff)
  {
  }

  /** Outcomes of the create action before the serializer persists the ticket. */
  datatype CreateOutcome =
    | ServiceRequired          // ValidationError, 400
    | ServiceNotFound          // 404
    | Numbered(number: string) // the number handed to the serializer

  /**
   * The create action: a missing service id is a validation error, an
   * unknown one is 404, and only then is the number computed from `latest`,
   * the number of the service's most recent ticket. `code` is the service's
   * number prefix.
   */
  function PlanCreate(serviceId: Option<nat>, services: set<nat>, code: string, latest: Option<string>): (r: CreateOutcome)
    ensures r == ServiceRequired <==> serviceId.None?
    ensures r == ServiceNotFound <==> serviceId.Some? && serviceId.value !in services
    ensures r.Numbered? ==> r.number == NextFormattedNumber(code, latest)
    ensures r.Numbered? ==> r.number[..|code| + 1] == code + "-" && ParseNat(LastSegment(r.number)).Some?
  {
    match serviceId
    case None => ServiceRequired
    case Some(s) =>
      if s !in services then ServiceNotFound
      else
        var number := NextFormattedNumber(code, latest);
        assert number[..|code| + 1] == code + "-" by {
          var k := if PreviousSuffix(latest).Some? then PreviousSuffix(latest).value + 1 else 1;
          assert number == code + "-" + Pad4(k);
        }
        Numbered(number)
  }
}
