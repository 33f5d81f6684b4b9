/** The JSON projection of a reservation and its redaction of the private
    fields. */
module ReservationSchema {
  import opened Common
  import opened ReservationModel

  /** The JSON object of a serialized reservation: one field per key, named
      after the key, in the key order of the response; `None` is JSON null.
      The display message and the three reason and message columns have no
      key. */
  datatype ReservationJson = ReservationJson(
    id: int,
    userId: int,
    status: string,
    visibility: string,
    purpose: Option<string>,
    description: Option<string>,
    attendeeCount: int,
    allowAdditionalMembers: bool,
    startTime: Timestamp,
    endTime: Timestamp,
    createdAt: Option<Timestamp>,
    updatedAt: Option<Timestamp>)

  /** `serialize_reservation(reservation, include_private=...)`. The purpose
      is withheld unless the caller may see private fields or the reservation
      is public; the description is shown only to such callers and only when
      it is a non-empty string; every other field is copied whatever
      `includePrivate` is, status and visibility as their literals. */
  function SerializeReservation(r: Reservation, includePrivate: bool): (d: ReservationJson)
    ensures d.purpose.Some? <==> (includePrivate || r.visibility == Public)
    ensures d.purpose.Some? ==> d.purpose.value == r.purpose
    ensures d.description.Some? <==> (includePrivate && r.description.Some? && r.description.value != "")
    ensures d.description.Some? ==> d.description == r.description
    ensures d.id == r.id && d.userId == r.userId
    ensures d.status == StatusValue(r.status) && d.visibility == VisibilityValue(r.visibility)
    ensures d.attendeeCount == r.attendeeCount && d.allowAdditionalMembers == r.allowAdditionalMembers
    ensures d.startTime == r.startTime && d.endTime == r.endTime
    ensures d.createdAt == r.createdAt && d.updatedAt == r.updatedAt
  {
    ReservationJson(
      r.id,
      r.userId,
      StatusValue(r.status),
      VisibilityValue(r.visibility),
      if includePrivate || r.visibility == Public then Some(r.purpose) else None,
      if includePrivate && r.description.Some? && r.description.value != "" then r.description else None,
      r.attendeeCount,
      r.allowAdditionalMembers,
      r.startTime,
      r.endTime,
      r.createdAt,
      r.updatedAt)
  }

  /** The redacted view is the private view with at most the purpose and the
      description replaced by null: it never shows a value the private view
      does not, and it agrees with it on every other key. */
  lemma RedactionOnlyNullsPrivateFields(r: Reservation)
    ensures var open := SerializeReservation(r, true);
            var redacted := SerializeReservation(r, false);
            redacted == open.(purpose := redacted.purpose, description := None)
            && (redacted.purpose == open.purpose || redacted.purpose.None?)
            && open.purpose == Some(r.purpose)
  {
  }

  /** Of two reservations that differ only in their private fields, the
      redacted views of anonymous ones cannot be told apart. */
  lemma AnonymousRedactionHidesPurpose(r: Reservation, purpose: string, description: Option<string>)
    requires r.visibility == Anonymous
    ensures SerializeReservation(r, false) == SerializeReservation(r.(purpose := purpose, description := description), false)
  {
  }
}
