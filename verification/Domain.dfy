// The rows, enumerations and errors that every other module shares.
//
// Ids are opaque in the program.  Incident and assignment ids are modelled as row numbers (rows
// are only ever appended), resource ids as numbers in the order that localeCompare gives them.

module Domain {

  type Id = nat

  datatype Option<+T> = None | Some(value: T)

  datatype Role = Admin | Coordinator | Operator | Citizen

  datatype IncidentStatus = Pending | Approved | Rejected | Assigned | InProgress | Completed | Cancelled

  datatype ResourceStatus = Available | Busy | Unavailable | Maintenance | Failed

  datatype AssignmentStatus = Pending | Active | Completed | Cancelled

  datatype Incident = Incident(
    status: IncidentStatus,
    createdBy: Id,
    creatorRole: Role,
    affectedPeople: int,
    requirements: seq<string>)

  datatype Resource = Resource(status: ResourceStatus, kind: string, capacity: int, operatorId: Option<Id>)

  datatype Assignment = Assignment(incidentId: Id, resourceId: Id, status: AssignmentStatus, released: bool)

  datatype Trigger =
    ResourceFailure | ResourceUnavailable | ResourceMaintenance | AccessConditionChange | HigherPriorityIncident
    | CapacityChange

  // The domain events, with the part of their payload that somebody reads.
  // RESOURCE_FAILURE_DETECTED carries no status.
  datatype Event =
    | IncidentCreated(incidentId: Id)
    | IncidentUpdated(incidentId: Id)
    | PriorityCalculated(incidentId: Id)
    | ResourceStatusChanged(resourceId: Id, newStatus: ResourceStatus)
    | ResourceFailureDetected(resourceId: Id, activeAssignmentId: Option<Id>)
    | AssignmentCreated(assignmentId: Id, incidentId: Id, resourceId: Id)
    | AssignmentCompleted(assignmentId: Id, incidentId: Id, resourceId: Id)
    | AssignmentCancelled(assignmentId: Id, incidentId: Id, resourceId: Id)
    | ReoptimizationRequested(incidentId: Id, assignmentId: Id, trigger: Trigger)
    | ReoptimizationCompleted(incidentId: Id, assignmentId: Id)
    | Unsupported

  datatype Error =
    | NotFound
    | IncidentNotEligible
    | ResourceNotAvailable
    | ResourceTypeMismatch
    | ResourceCapacityInsufficient
    | ResourceAlreadyAssigned
    | IncidentAlreadyAssigned
    | InvalidAssignmentState
    | AssignmentNotActive
    | IncidentNotActive
    | ReoptimizationConflict
    | InvalidTransition
    | Forbidden
    | EventNotWritten
  {
    function Http(): int {
      match this
      case NotFound => 404
      case InvalidAssignmentState => 400
      case InvalidTransition => 400
      case Forbidden => 403
      case EventNotWritten => 500
      case _ => 409
    }
  }

  datatype Result<+T> = Ok(value: T) | Err(error: Error)

  // findFirst({ resourceId, status: 'ACTIVE' }): the first such row at or after row k.
  function FirstActive(rows: seq<Assignment>, r: Id, k: nat): (found: Option<Id>)
    requires k <= |rows|
    ensures found.Some? ==>
              k <= found.value < |rows| && rows[found.value].status.Active? && rows[found.value].resourceId == r
    ensures found.None? ==> forall j | k <= j < |rows| :: !(rows[j].status.Active? && rows[j].resourceId == r)
    decreases |rows| - k
  {
    if k == |rows| then None
    else if rows[k].status.Active? && rows[k].resourceId == r then Some(k)
    else FirstActive(rows, r, k + 1)
  }

  lemma {:induction false} FirstActiveIsFirst(rows: seq<Assignment>, r: Id, k: nat)
    requires k <= |rows|
    ensures var a := FirstActive(rows, r, k);
      a.Some? ==> forall j | k <= j < a.value :: !(rows[j].status.Active? && rows[j].resourceId == r)
    decreases |rows| - k
  {
    if k < |rows| { FirstActiveIsFirst(rows, r, k + 1); }
  }

  // Math.round: halves go up.
  function Round(x: real): int { (x + 0.5).Floor }

  lemma RoundMonotone(x: real, y: real)
    requires x <= y
    ensures Round(x) <= Round(y)
  {}

  // ASCII upper-casing, one character at a time.
  function Upper(s: string): string {
    seq(|s|, i requires 0 <= i < |s| =>
      if 'a' <= s[i] <= 'z' then (s[i] as int - 32) as char else s[i])
  }

  // An incident without requirements accepts every type; otherwise the type must be listed,
  // whatever the letter case.
  predicate TypeMatches(kind: string, requirements: seq<string>) {
    |requirements| == 0 || exists k | 0 <= k < |requirements| :: Upper(requirements[k]) == Upper(kind)
  }
}
