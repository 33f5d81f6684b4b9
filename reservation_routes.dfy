/** The reservation endpoints: payload parsing, creation with collected
    validation errors, the role- and filter-dependent listings, the calendar
    projection and the admin status overwrite. */
module ReservationRoutes {
  import opened Common
  import opened Text
  import opened Tables
  import opened ReservationModel
  import opened ReservationSchema

  // ---------------------------------------------------------------------
  // Parsing request values
  // ---------------------------------------------------------------------

  /** `_parse_datetime`: a missing or empty value is no time; any other value
      is handed to the ISO 8601 parser `iso`, whose failure is no time. */
  function ParseDateTime(iso: string -> Option<Timestamp>, value: Option<string>): (t: Option<Timestamp>)
    ensures (value.None? || value.value == "") ==> t.None?
    ensures value.Some? && value.value != "" ==> t == iso(value.value)
  {
    match value
    case None => None
    case Some(s) => if s == "" then None else iso(s)
  }

  /** `_visibility_from_payload`: a visibility exactly when the value is one of
      the two literals, and then the one whose literal it is. */
  function ParseVisibility(value: Option<string>): (v: Option<ReservationVisibility>)
    ensures v.Some? <==> value.Some? && value.value in VisibilityLiterals
    ensures v.Some? ==> VisibilityValue(v.value) == value.value
  {
    match value
    case None => None
    case Some(s) =>
      if s == "public" then Some(Public)
      else if s == "anonymous" then Some(Anonymous)
      else None
  }

  /** `_status_from_payload`: a status exactly when the value is one of the
      five literals, and then the one whose literal it is. */
  function ParseStatus(value: Option<string>): (s: Option<ReservationStatus>)
    ensures s.Some? <==> value.Some? && value.value in StatusLiterals
    ensures s.Some? ==> StatusValue(s.value) == value.value
  {
    match value
    case None => None
    case Some(x) =>
      if x == "pending" then Some(Pending)
      else if x == "approved" then Some(Approved)
      else if x == "rejected" then Some(Rejected)
      else if x == "cancelled" then Some(Cancelled)
      else if x == "cancellation_requested" then Some(CancellationRequested)
      else None
  }

  /** Parsing is the inverse of the literal each enumeration serialises to, so
      the `status` and `visibility` fields of a serialized reservation parse
      back to the row's own values. */
  lemma {:induction false} LiteralsRoundTrip(r: Reservation, includePrivate: bool)
    ensures forall s :: ParseStatus(Some(StatusValue(s))) == Some(s)
    ensures forall v :: ParseVisibility(Some(VisibilityValue(v))) == Some(v)
    ensures var d := SerializeReservation(r, includePrivate);
            ParseStatus(Some(d.status)) == Some(r.status)
            && ParseVisibility(Some(d.visibility)) == Some(r.visibility)
  {
    EnumerationsExact();
  }

  /** `_is_admin`: the caller has claims and their `is_admin` claim is set. */
  predicate IsAdmin(claims: Option<Claims>)
    ensures IsAdmin(claims) ==> claims.Some?
    ensures claims.Some? ==> (IsAdmin(claims) <==> claims.value.isAdmin)
  {
    claims.Some? && claims.value.isAdmin
  }

  // ---------------------------------------------------------------------
  // Filters and listings
  // ---------------------------------------------------------------------

  /** The `start`, `end` and `visibility` query parameters. */
  datatype FilterParams = FilterParams(start: Option<string>, end: Option<string>, visibility: Option<string>)

  /** `_apply_filters` as a WHERE clause: a parsed `start` keeps the rows
      ending at or after it, a parsed `end` keeps the rows starting at or
      before it, a parsed visibility keeps the rows with that visibility, and
      a parameter that is missing or does not parse keeps everything. */
  predicate KeptByFilters(iso: string -> Option<Timestamp>, params: FilterParams, r: Reservation)
    ensures params == FilterParams(None, None, None) ==> KeptByFilters(iso, params, r)
    ensures KeptByFilters(iso, params, r) && ParseVisibility(params.visibility).Some? ==>
              r.visibility == ParseVisibility(params.visibility).value
  {
    var start := ParseDateTime(iso, params.start);
    var end := ParseDateTime(iso, params.end);
    var visibility := ParseVisibility(params.visibility);
    (start.None? || r.endTime >= start.value)
    && (end.None? || r.startTime <= end.value)
    && (visibility.None? || r.visibility == visibility.value)
  }

  /** The instant `t` lies in the closed interval `[lo, hi]`. */
  predicate Within(t: int, lo: int, hi: int) {
    lo <= t <= hi
  }

  /** With both dates given, the date filters keep exactly the reservations
      that share an instant with the closed window `[start, end]`; the
      visibility filter then decides alone. */
  lemma DateFiltersKeepOverlapping(iso: string -> Option<Timestamp>, params: FilterParams, r: Reservation,
                                   start: Timestamp, end: Timestamp)
    requires ParseDateTime(iso, params.start) == Some(start) && ParseDateTime(iso, params.end) == Some(end)
    requires start <= end && r.startTime <= r.endTime
    ensures KeptByFilters(iso, params, r) <==>
              (exists t :: Within(t, start, end) && Within(t, r.startTime, r.endTime))
              && (ParseVisibility(params.visibility).None? || r.visibility == ParseVisibility(params.visibility).value)
  {
    if r.endTime >= start && r.startTime <= end {
      var t := if start <= r.startTime then r.startTime else start;
      assert Within(t, start, end) && Within(t, r.startTime, r.endTime);
    }
  }

  /** The role rule of the general listings: admins get every status, anyone
      else only approved reservations, their own included. */
  predicate ListedForRole(includeAll: bool, r: Reservation)
    ensures includeAll ==> ListedForRole(includeAll, r)
    ensures !includeAll ==> (ListedForRole(includeAll, r) <==> r.status == Approved)
  {
    includeAll || r.status == Approved
  }

  /** The sort key of the general listings. */
  function ByStart(r: Reservation): int {
    r.startTime
  }

  /** The WHERE clause of the general listings: the role rule and the
      filters. */
  function ListingFilter(viewer: Option<Claims>, iso: string -> Option<Timestamp>, params: FilterParams): Reservation -> bool {
    (r: Reservation) => ListedForRole(IsAdmin(viewer), r) && KeptByFilters(iso, params, r)
  }

  /** The query behind `list_reservations` and `calendar_reservations`:
      sorted by ascending start time, holding exactly the rows the role rule
      and the filters keep, each row once. */
  function ListingQuery(rows: map<int, Reservation>, limit: int, viewer: Option<Claims>,
                        iso: string -> Option<Timestamp>, params: FilterParams): (rs: seq<Reservation>)
    ensures SortedBy(rs, (r: Reservation) => r.startTime, false)
    ensures forall x :: x in rs ==> ListedForRole(IsAdmin(viewer), x) && KeptByFilters(iso, params, x)
    ensures forall x :: x in rs ==> exists id :: 1 <= id < limit && id in rows && rows[id] == x
    ensures forall id :: 1 <= id < limit && id in rows ==>
              (rows[id] in rs <==> ListedForRole(IsAdmin(viewer), rows[id]) && KeptByFilters(iso, params, rows[id]))
    ensures !IsAdmin(viewer) ==> forall x :: x in rs ==> x.status == Approved
    ensures Injective(rows) ==> Distinct(rs)
  {
    Select(rows, 1, limit, ListingFilter(viewer, iso, params), ByStart, false)
  }

  /** Filter parameters that are absent or do not parse give the listing that
      no parameters give. */
  lemma UnparseableFiltersAreIgnored(rows: map<int, Reservation>, limit: int, viewer: Option<Claims>,
                                     iso: string -> Option<Timestamp>, params: FilterParams)
    requires ParseDateTime(iso, params.start).None? && ParseDateTime(iso, params.end).None?
    requires ParseVisibility(params.visibility).None?
    ensures ListingQuery(rows, limit, viewer, iso, params)
            == ListingQuery(rows, limit, viewer, iso, FilterParams(None, None, None))
  {
    SelectAgree(rows, 1, limit, ListingFilter(viewer, iso, params),
                ListingFilter(viewer, iso, FilterParams(None, None, None)), ByStart, false);
  }

  /** The query behind `list_my_reservations`: the caller's rows, every status,
      sorted by descending start time, each row once. */
  function OwnReservations(rows: map<int, Reservation>, limit: int, userId: int): (rs: seq<Reservation>)
    ensures SortedBy(rs, (r: Reservation) => r.startTime, true)
    ensures forall x :: x in rs ==> x.userId == userId && exists id :: 1 <= id < limit && id in rows && rows[id] == x
    ensures forall id :: 1 <= id < limit && id in rows ==> (rows[id] in rs <==> rows[id].userId == userId)
    ensures Injective(rows) ==> Distinct(rs)
  {
    Select(rows, 1, limit, (r: Reservation) => r.userId == userId, (r: Reservation) => r.startTime, true)
  }

  /** `include_private` of the general listing: the viewer is an admin or owns
      the reservation. */
  predicate IncludePrivate(viewer: Option<Claims>, r: Reservation)
    ensures viewer.None? ==> !IncludePrivate(viewer, r)
    ensures IsAdmin(viewer) ==> IncludePrivate(viewer, r)
    ensures viewer.Some? ==> (IncludePrivate(viewer, r) <==> viewer.value.isAdmin || viewer.value.identity == r.userId)
  {
    IsAdmin(viewer) || (viewer.Some? && viewer.value.identity == r.userId)
  }

  /** `include_purpose` of the calendar: as `IncludePrivate`, or the
      reservation is public. */
  predicate IncludePurpose(viewer: Option<Claims>, r: Reservation)
    ensures r.visibility == Public ==> IncludePurpose(viewer, r)
    ensures IncludePrivate(viewer, r) ==> IncludePurpose(viewer, r)
    ensures viewer.None? ==> (IncludePurpose(viewer, r) <==> r.visibility == Public)
  {
    IncludePrivate(viewer, r) || r.visibility == Public
  }

  /** The JSON object of a calendar event, one field per key. */
  datatype CalendarEvent = CalendarEvent(
    id: int,
    start: Timestamp,
    end: Timestamp,
    visibility: string,
    status: string,
    title: Option<string>)

  /** `_calendar_payload`: id, times, visibility and status always; the title
      is the purpose when `includePurpose` holds and null otherwise. */
  function CalendarPayload(r: Reservation, includePurpose: bool): (e: CalendarEvent)
    ensures e.id == r.id && e.start == r.startTime && e.end == r.endTime
    ensures e.visibility == VisibilityValue(r.visibility) && e.status == StatusValue(r.status)
    ensures e.title.Some? <==> includePurpose
    ensures includePurpose ==> e.title == Some(r.purpose)
  {
    CalendarEvent(r.id, r.startTime, r.endTime, VisibilityValue(r.visibility), StatusValue(r.status),
                  if includePurpose then Some(r.purpose) else None)
  }

  /** A calendar event shows the purpose to exactly the viewers to whom the
      general listing shows it: the calendar title and the listed purpose are
      the same value. */
  lemma CalendarTitleIsListedPurpose(viewer: Option<Claims>, r: Reservation)
    ensures CalendarPayload(r, IncludePurpose(viewer, r)).title == SerializeReservation(r, IncludePrivate(viewer, r)).purpose
  {
  }

  // ---------------------------------------------------------------------
  // Creation and status changes
  // ---------------------------------------------------------------------

  const TimeFormatError: string := "startTime と endTime はISO8601形式で指定してください"
  const TimeOrderError: string := "endTime は startTime より後である必要があります"
  const PurposeRequiredError: string := "purpose は必須です"
  const StatusRequiredMessage: string := "status は必須です"
  const ReservationNotFoundMessage: string := "予約が見つかりません"

  /** The errors creation reports, in order: at most one time error (missing
      or unparseable times, else a non-positive range), then the purpose
      error when the stripped purpose is empty. No errors exactly when both
      times parse, the end is after the start and the purpose is non-empty. */
  function ValidationErrors(start: Option<Timestamp>, end: Option<Timestamp>, purpose: string): (errs: seq<string>)
    ensures (TimeFormatError in errs) <==> (start.None? || end.None?)
    ensures (TimeOrderError in errs) <==> (start.Some? && end.Some? && end.value <= start.value)
    ensures !(TimeFormatError in errs && TimeOrderError in errs)
    ensures (PurposeRequiredError in errs) <==> purpose == ""
    ensures |errs| <= 2 && (|errs| == 2 ==> errs[0] != PurposeRequiredError && errs[1] == PurposeRequiredError)
    ensures forall e :: e in errs ==> e == TimeFormatError || e == TimeOrderError || e == PurposeRequiredError
    ensures errs == [] <==> (start.Some? && end.Some? && start.value < end.value && purpose != "")
  {
    var timeErrors :=
      if start.None? || end.None? then [TimeFormatError]
      else if end.value <= start.value then [TimeOrderError]
      else [];
    timeErrors + (if purpose == "" then [PurposeRequiredError] else [])
  }

  /** The validation step of `create_reservation`, appending to the error
      list one check at a time. */
  method CollectErrors(start: Option<Timestamp>, end: Option<Timestamp>, purpose: string) returns (errors: seq<string>)
    ensures errors == ValidationErrors(start, end, purpose)
  {
    errors := [];
    if start.None? || end.None? {
      errors := errors + [TimeFormatError];
    } else if end.value <= start.value {
      errors := errors + [TimeOrderError];
    }
    if purpose == "" {
      errors := errors + [PurposeRequiredError];
    }
  }

  /** The JSON body of `POST /api/reservations`. */
  datatype ReservationPayload = ReservationPayload(
    startTime: Option<string>,
    endTime: Option<string>,
    visibility: Option<string>,
    purpose: Option<string>,
    description: Option<string>,
    attendeeCount: Option<int>,
    allowAdditionalMembers: Option<bool>)

  /** The row `create_reservation` inserts: the mandatory columns from the
      request, the visibility, description, attendee count and flag it
      passes explicitly (public, as given, 1 and false when absent), and the
      database defaults for the rest. */
  function NewReservation(id: int, userId: int, payload: ReservationPayload, purpose: string,
                          start: Timestamp, end: Timestamp, now: Timestamp): (r: Reservation)
    ensures r.id == id && r.userId == userId && r.purpose == purpose
    ensures r.startTime == start && r.endTime == end
    ensures r.status == Pending && r.visibility == ParseVisibility(payload.visibility).GetOr(Public)
    ensures r.description == payload.description
    ensures r.attendeeCount == payload.attendeeCount.GetOr(1)
    ensures r.allowAdditionalMembers == payload.allowAdditionalMembers.GetOr(false)
    ensures !r.isNotificationSent && r.displayMessage.None? && r.cancellationReason.None?
    ensures r.rejectionReason.None? && r.approvalMessage.None?
    ensures r.createdAt == Some(now) && r.updatedAt == Some(now)
  {
    InsertedWithDefaults(id, userId, purpose, start, end, now)
      .(visibility := ParseVisibility(payload.visibility).GetOr(Public),
        description := payload.description,
        attendeeCount := payload.attendeeCount.GetOr(1),
        allowAdditionalMembers := payload.allowAdditionalMembers.GetOr(false))
  }

  /** The admin status overwrite of one row: the new status whatever the old
      one was, the new visibility when one was given, `updated_at` set to
      `now`, and every other column as it was. */
  function ApplyStatusUpdate(r: Reservation, status: ReservationStatus, visibility: Option<ReservationVisibility>,
                             now: Timestamp): (u: Reservation)
    ensures u.status == status && u.updatedAt == Some(now)
    ensures u.visibility == (if visibility.Some? then visibility.value else r.visibility)
    ensures u.(status := r.status, visibility := r.visibility, updatedAt := r.updatedAt) == r
  {
    r.(status := status,
       visibility := if visibility.Some? then visibility.value else r.visibility,
       updatedAt := Some(now))
  }

  /** No transition graph: the last overwrite wins, so any status can be set
      from any status and an overwrite can be undone by another. */
  lemma StatusOverwriteLastWins(r: Reservation, s1: ReservationStatus, v1: Option<ReservationVisibility>, t1: Timestamp,
                                s2: ReservationStatus, v2: Option<ReservationVisibility>, t2: Timestamp)
    ensures ApplyStatusUpdate(ApplyStatusUpdate(r, s1, v1, t1), s2, v2, t2)
            == ApplyStatusUpdate(r, s2, if v2.Some? then v2 else v1, t2)
    ensures ApplyStatusUpdate(ApplyStatusUpdate(r, s1, None, t1), r.status, None, t2) == r.(updatedAt := Some(t2))
  {
  }

  /** The loop of `list_reservations` over the queried rows: one serialized
      row per row, in order, with private fields exactly when the viewer may
      see them. */
  method SerializeForViewer(rs: seq<Reservation>, viewer: Option<Claims>) returns (serialized: seq<ReservationJson>)
    ensures |serialized| == |rs|
    ensures forall k :: 0 <= k < |rs| ==> serialized[k] == SerializeReservation(rs[k], IncludePrivate(viewer, rs[k]))
  {
    serialized := [];
    var i := 0;
    while i < |rs|
      invariant 0 <= i <= |rs|
      invariant |serialized| == i
      invariant forall k :: 0 <= k < i ==> serialized[k] == SerializeReservation(rs[k], IncludePrivate(viewer, rs[k]))
    {
      serialized := serialized + [SerializeReservation(rs[i], IncludePrivate(viewer, rs[i]))];
      i := i + 1;
    }
  }

  /** The loop of `calendar_reservations` over the queried rows: one event
      per row, in order, titled exactly when the viewer may see the purpose. */
  method CalendarEventsFor(rs: seq<Reservation>, viewer: Option<Claims>) returns (events: seq<CalendarEvent>)
    ensures |events| == |rs|
    ensures forall k :: 0 <= k < |rs| ==> events[k] == CalendarPayload(rs[k], IncludePurpose(viewer, rs[k]))
  {
    events := [];
    var i := 0;
    while i < |rs|
      invariant 0 <= i <= |rs|
      invariant |events| == i
      invariant forall k :: 0 <= k < i ==> events[k] == CalendarPayload(rs[k], IncludePurpose(viewer, rs[k]))
    {
      events := events + [CalendarPayload(rs[i], IncludePurpose(viewer, rs[i]))];
      i := i + 1;
    }
  }

  /** Once an admin approves a reservation and makes it anonymous, a viewer
      without a token finds it exactly once in the general listing of the
      keyed table, provided the filters keep it, with its purpose
      withheld. */
  lemma ApprovedAnonymousListedWithoutPurpose(rows: map<int, Reservation>, limit: int, id: int, now: Timestamp,
                                              iso: string -> Option<Timestamp>, params: FilterParams)
    requires Keyed(rows, limit, (r: Reservation) => r.id) && id in rows
    requires KeptByFilters(iso, params, rows[id].(visibility := Anonymous))
    ensures var u := ApplyStatusUpdate(rows[id], Approved, Some(Anonymous), now);
            multiset(ListingQuery(rows[id := u], limit, None, iso, params))[u] == 1
            && SerializeReservation(u, IncludePrivate(None, u)).purpose.None?
  {
    var u := ApplyStatusUpdate(rows[id], Approved, Some(Anonymous), now);
    var after := rows[id := u];
    assert KeptByFilters(iso, params, u);
    assert after[id] == u;
    KeyedInjective(after, limit, (r: Reservation) => r.id);
    var listing := ListingQuery(after, limit, None, iso, params);
    assert u in listing;
  }

  /** The `reservations` table. Rows are keyed by their id; ids are handed
      out in increasing order starting at 1. */
  class ReservationStore {
    var rows: map<int, Reservation>
    var nextId: int

    ghost predicate Valid()
      reads this
    {
      Keyed(rows, nextId, (r: Reservation) => r.id)
      && forall id :: id in rows ==> rows[id].startTime < rows[id].endTime
    }

    constructor ()
      ensures Valid() && rows == map[] && nextId == 1
    {
      rows := map[];
      nextId := 1;
    }

    /** `create_reservation` for the authenticated caller `claims`. Invalid
        input gets 400 with every error joined by "; " and changes nothing;
        valid input inserts one row, owned by the caller, with status
        pending, the parsed visibility or public, the stripped purpose, the
        given description, the given attendee count or 1 (not range-checked),
        the given flag or false, and replies 201 with its private view. */
    method CreateReservation(claims: Claims, payload: ReservationPayload, iso: string -> Option<Timestamp>, now: Timestamp)
      returns (reply: Reply<ReservationJson>)
      requires Valid()
      modifies this
      ensures Valid()
      ensures var start := ParseDateTime(iso, payload.startTime);
              var end := ParseDateTime(iso, payload.endTime);
              var purpose := Strip(payload.purpose.GetOr(""));
              var errs := ValidationErrors(start, end, purpose);
              errs != [] ==>
                reply == Err(BAD_REQUEST, Join(errs, "; ")) && rows == old(rows) && nextId == old(nextId)
      ensures var start := ParseDateTime(iso, payload.startTime);
              var end := ParseDateTime(iso, payload.endTime);
              var purpose := Strip(payload.purpose.GetOr(""));
              ValidationErrors(start, end, purpose) == [] ==>
                var r := NewReservation(old(nextId), claims.identity, payload, purpose, start.value, end.value, now);
                old(nextId) !in old(rows) && start.value < end.value
                && rows == old(rows)[old(nextId) := r] && nextId == old(nextId) + 1
                && reply == Ok(CREATED, SerializeReservation(r, true))
    {
      var start := ParseDateTime(iso, payload.startTime);
      var end := ParseDateTime(iso, payload.endTime);
      var purpose := Strip(payload.purpose.GetOr(""));

      var errors := CollectErrors(start, end, purpose);
      if errors != [] {
        reply := Err(BAD_REQUEST, Join(errors, "; "));
        return;
      }

      var id := nextId;
      var r := NewReservation(id, claims.identity, payload, purpose, start.value, end.value, now);
      InsertKeyed(rows, nextId, (r: Reservation) => r.id, r);
      rows := rows[id := r];
      nextId := nextId + 1;
      reply := Ok(CREATED, SerializeReservation(r, true));
    }

    /** `list_reservations`: the listing query's rows in order, each
        serialized with private fields exactly when the viewer is an admin or
        its owner. */
    method ListReservations(viewer: Option<Claims>, params: FilterParams, iso: string -> Option<Timestamp>)
      returns (serialized: seq<ReservationJson>)
      requires Valid()
      ensures var rs := ListingQuery(rows, nextId, viewer, iso, params);
              |serialized| == |rs|
              && forall k :: 0 <= k < |rs| ==> serialized[k] == SerializeReservation(rs[k], IncludePrivate(viewer, rs[k]))
      ensures !IsAdmin(viewer) ==> forall k :: 0 <= k < |serialized| ==> serialized[k].status == "approved"
    {
      var rs := ListingQuery(rows, nextId, viewer, iso, params);
      serialized := SerializeForViewer(rs, viewer);
      assert !IsAdmin(viewer) ==> forall k :: 0 <= k < |rs| ==> rs[k].status == Approved by {
        if !IsAdmin(viewer) {
          forall k | 0 <= k < |rs| ensures rs[k].status == Approved {
            assert rs[k] in rs;
          }
        }
      }
    }

    /** `calendar_reservations`: the listing query's rows in order, each as a
        calendar event whose title is the purpose exactly when the viewer is
        an admin or the owner, or the reservation is public. */
    method CalendarReservations(viewer: Option<Claims>, params: FilterParams, iso: string -> Option<Timestamp>)
      returns (events: seq<CalendarEvent>)
      requires Valid()
      ensures var rs := ListingQuery(rows, nextId, viewer, iso, params);
              |events| == |rs|
              && forall k :: 0 <= k < |rs| ==> events[k] == CalendarPayload(rs[k], IncludePurpose(viewer, rs[k]))
    {
      var rs := ListingQuery(rows, nextId, viewer, iso, params);
      events := CalendarEventsFor(rs, viewer);
    }

    /** `list_my_reservations`: the caller's rows, newest start first, each
        with its private fields. */
    method ListMyReservations(claims: Claims) returns (serialized: seq<ReservationJson>)
      requires Valid()
      ensures var rs := OwnReservations(rows, nextId, claims.identity);
              |serialized| == |rs|
              && forall k :: 0 <= k < |rs| ==> serialized[k] == SerializeReservation(rs[k], true)
      ensures forall k :: 0 <= k < |serialized| ==> serialized[k].userId == claims.identity
    {
      var rs := OwnReservations(rows, nextId, claims.identity);
      serialized := seq(|rs|, k requires 0 <= k < |rs| => SerializeReservation(rs[k], true));
      assert forall k :: 0 <= k < |rs| ==> rs[k].userId == claims.identity by {
        forall k | 0 <= k < |rs| ensures rs[k].userId == claims.identity {
          assert rs[k] in rs;
        }
      }
    }

    /** `update_reservation_status`: 403 for a non-admin, else 400 for a
        missing or unknown status, else 404 for an unknown id, each changing
        nothing; otherwise the row is overwritten by `ApplyStatusUpdate`
        whatever its current status, and the reply is its private view. */
    method UpdateReservationStatus(claims: Claims, reservationId: int, status: Option<string>,
                                   visibility: Option<string>, now: Timestamp)
      returns (reply: Reply<ReservationJson>)
      requires Valid()
      modifies this
      ensures Valid() && nextId == old(nextId)
      ensures !IsAdmin(Some(claims)) ==> reply == Err(FORBIDDEN, AdminRequiredMessage) && rows == old(rows)
      ensures IsAdmin(Some(claims)) && ParseStatus(status).None? ==>
                reply == Err(BAD_REQUEST, StatusRequiredMessage) && rows == old(rows)
      ensures IsAdmin(Some(claims)) && ParseStatus(status).Some? && reservationId !in old(rows) ==>
                reply == Err(NOT_FOUND, ReservationNotFoundMessage) && rows == old(rows)
      ensures IsAdmin(Some(claims)) && ParseStatus(status).Some? && reservationId in old(rows) ==>
                var u := ApplyStatusUpdate(old(rows)[reservationId], ParseStatus(status).value, ParseVisibility(visibility), now);
                rows == old(rows)[reservationId := u] && reply == Ok(OK, SerializeReservation(u, true))
    {
      if !IsAdmin(Some(claims)) {
        return Err(FORBIDDEN, AdminRequiredMessage);
      }
      var newStatus := ParseStatus(status);
      var newVisibility := ParseVisibility(visibility);
      if newStatus.None? {
        return Err(BAD_REQUEST, StatusRequiredMessage);
      }
      if reservationId !in rows {
        return Err(NOT_FOUND, ReservationNotFoundMessage);
      }
      var u := ApplyStatusUpdate(rows[reservationId], newStatus.value, newVisibility, now);
      rows := rows[reservationId := u];
      reply := Ok(OK, SerializeReservation(u, true));
    }
  }
}
