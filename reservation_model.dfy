/** The reservation row: its two enumerations, its columns with their
    nullability, and the defaults the database fills in on insert. */
module ReservationModel {
  import opened Common

  /** Workflow status of a reservation. */
  datatype ReservationStatus = Pending | Approved | Rejected | Cancelled | CancellationRequested

  /** How much a reservation shows on the public calendar. */
  datatype ReservationVisibility = Public | Anonymous

  predicate IsLiteralChar(c: char) {
    ('a' <= c <= 'z') || c == '_'
  }

  /** The JSON value of a status: a distinct lower-case
      snake_case literal per status. */
  function StatusValue(s: ReservationStatus): (v: string)
    ensures v != [] && forall i :: 0 <= i < |v| ==> IsLiteralChar(v[i])
  {
    match s
    case Pending => "pending"
    case Approved => "approved"
    case Rejected => "rejected"
    case Cancelled => "cancelled"
    case CancellationRequested => "cancellation_requested"
  }

  /** The JSON value of a visibility: a distinct lower-case
      literal per visibility. */
  function VisibilityValue(v: ReservationVisibility): (w: string)
    ensures w != [] && forall i :: 0 <= i < |w| ==> IsLiteralChar(w[i])
  {
    match v
    case Public => "public"
    case Anonymous => "anonymous"
  }

  /** The literals of the two enumerations, in declaration order. */
  const StatusLiterals: seq<string> := ["pending", "approved", "rejected", "cancelled", "cancellation_requested"]
  const VisibilityLiterals: seq<string> := ["public", "anonymous"]

  /** Every status has its literal among the five, and the five are distinct,
      so no two statuses share a literal; likewise for the two visibility
      literals. */
  lemma EnumerationsExact()
    ensures forall s, t :: StatusValue(s) == StatusValue(t) ==> s == t
    ensures forall v, u :: VisibilityValue(v) == VisibilityValue(u) ==> v == u
    ensures forall s :: StatusValue(s) in StatusLiterals
    ensures forall i, j :: 0 <= i < j < |StatusLiterals| ==> StatusLiterals[i] != StatusLiterals[j]
    ensures forall v :: VisibilityValue(v) in VisibilityLiterals
    ensures VisibilityLiterals[0] != VisibilityLiterals[1]
  {
  }

  /** One row of the `reservations` table. Optional columns are `Option`s.
      `createdAt` and `updatedAt` are filled in by the database when the row
      is flushed; they are `None` on an object that has not been flushed. */
  datatype Reservation = Reservation(
    id: int,
    userId: int,
    status: ReservationStatus,
    visibility: ReservationVisibility,
    purpose: string,
    displayMessage: Option<string>,
    description: Option<string>,
    cancellationReason: Option<string>,
    rejectionReason: Option<string>,
    approvalMessage: Option<string>,
    attendeeCount: int,
    allowAdditionalMembers: bool,
    startTime: Timestamp,
    endTime: Timestamp,
    isNotificationSent: bool,
    createdAt: Option<Timestamp>,
    updatedAt: Option<Timestamp>)

  /** Column defaults applied on insert. */
  const DefaultStatus: ReservationStatus := Pending
  const DefaultVisibility: ReservationVisibility := Public
  const DefaultAttendeeCount: int := 1
  const DefaultAllowAdditionalMembers: bool := false
  const DefaultNotificationSent: bool := false

  /** The row that an insert produces when it supplies only the mandatory
      columns (`user_id`, `purpose`, `start_time`, `end_time`) and the database
      fills every other column with its default at time `now`. */
  function InsertedWithDefaults(id: int, userId: int, purpose: string, start: Timestamp, end: Timestamp, now: Timestamp): (r: Reservation)
    ensures r.id == id && r.userId == userId && r.purpose == purpose
    ensures r.startTime == start && r.endTime == end
    ensures r.status == Pending && r.visibility == Public
    ensures r.attendeeCount == 1 && !r.allowAdditionalMembers && !r.isNotificationSent
    ensures r.displayMessage.None? && r.description.None? && r.cancellationReason.None?
    ensures r.rejectionReason.None? && r.approvalMessage.None?
    ensures r.createdAt == Some(now) && r.updatedAt == Some(now)
  {
    Reservation(id, userId, DefaultStatus, DefaultVisibility, purpose, None, None, None, None, None,
                DefaultAttendeeCount, DefaultAllowAdditionalMembers, start, end, DefaultNotificationSent,
                Some(now), Some(now))
  }
}
