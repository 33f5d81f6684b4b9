# Hut reservation backend: a Dafny model

This project models the Flask backend of a mountain-hut reservation service.
Members register with an e-mail address that an admin has put on a whitelist,
log in, and request reservations of the hut. Admins approve or reject them.
A public calendar and listing show only approved reservations to anyone who
is not an admin. They hide the purpose of anonymous ones from anyone who is
neither an admin nor the owner. The owner sees their own purpose and private
fields on approved rows, and all of their own reservations in their own
listing. One system setting, the URL of the
front-page video, is read with lazy initialisation and overwritten by admins.

The database is modelled as maps from primary key to row. "Next id" counters
hand out autoincrement keys. A query is a scan of the table in key order, a
WHERE predicate and an ORDER BY (`Tables`). Timestamps are integers. Each
request handler is a method of a class that holds its tables: the
`ReservationStore`, `AccountStore` and `SettingStore`. Every method keeps the
class invariant `Valid()`: rows keyed by their id, and unique, non-empty
e-mail addresses. Each method is stated against pure functions of the old
tables, and the properties of those functions are proved as lemmas.

Modules, in dependency order:

- `Common` (common.dfy): `Option`, the `Claims` of an access token, HTTP
  replies and status codes.
- `Text` (text.dfy): Python's `str.strip()`, `str.lower()` and `sep.join()`.
- `Tables` (tables.dfy): scan, WHERE, ORDER BY (a stable insertion sort),
  `.first()`, and the key and UNIQUE invariants.
- `ReservationModel` (reservation_model.dfy): the two enums, the row, and the
  column defaults.
- `ReservationSchema` (reservation_schema.dfy): `serialize_reservation` and
  its redaction.
- `ReservationRoutes` (reservation_routes.dfy): the reservation endpoints.
- `Auth` (auth.dfy): e-mail normalisation, tokens, the admin gate,
  registration, login and the whitelist endpoints.
- `SystemSettings` (system_settings.dfy): the video URL setting.

Foreign calls are parameters of the members that make them:

- `datetime.fromisoformat` is `iso: string -> Option<Timestamp>`, with
  `None` for a `ValueError`.
- Password hashing is `hash: string -> string`.
- Hash checking is `check: (string, string) -> bool`.
- `datetime.utcnow()` is `now: Timestamp`.

An access token is modelled by its claims: the identity (the user's id) and
`is_admin`. A JSON request body is a datatype with one `Option` field per
key; `None` stands for both an absent key and JSON null. A JSON response is a
datatype with one field per key.

Behaviour of the code that a reader might not expect, and that the model
keeps:

- The general listing and the calendar show a non-admin only approved
  reservations. A caller's own pending reservations appear there only for
  an admin; the caller sees them in their own listing.
- The calendar title is the purpose or null. No display message is used.
- The admin status update stores no rejection or approval text. It enforces
  no transition graph.
- No endpoint rotates refresh tokens. None lets an owner cancel or edit a
  reservation, counts pending reservations, or deletes a reservation.
- `attendee_count` is not range-checked.
- A listing whose `start` filter is later than its `end` filter is not
  empty. It keeps every reservation that covers the whole of [end, start].
  `DateFiltersKeepOverlapping` states the overlap reading only for
  `start <= end`.

## Model

| member | source | states |
|---|---|---|
| `Text.Strip` | backend/app/routes/reservations.py:85 | the result is a slice of the input, starting where its leading whitespace ends; only whitespace follows it; it has no whitespace at either end |
| `Text.StripEmpty` | backend/app/routes/reservations.py:93-94 | a string strips to empty exactly when every character is whitespace, so a purpose made only of whitespace is missing |
| `Text.StripIdempotent` | backend/app/routes/auth.py:22 | stripping twice is stripping once |
| `Text.StripAt` | backend/app/routes/reservations.py:85 | the strip is determined by its contract: a slice with no whitespace at either end and only whitespace around it is what strip returns |
| `Text.StripIgnoresPadding` | backend/app/routes/auth.py:22 | whitespace added at either end of a string does not change its strip |
| `Text.StripDropsLeading` | backend/app/routes/auth.py:22 | a string whose first n characters are whitespace strips like the rest of it |
| `Text.StripDropsTrailing` | backend/app/routes/auth.py:22 | a string whose characters from n on are whitespace strips like its first n characters |
| `Text.StripKeepsCaseEquality` | backend/app/routes/auth.py:22 | strings equal up to letter case strip to strings equal up to letter case |
| `Text.Lower` | backend/app/routes/auth.py:22 | same length; every upper-case letter becomes the letter 0x20 code points above it and every other character stays as it is, so no upper-case letter is left and whitespace stays where it was |
| `Text.LowerIdempotent` | backend/app/routes/auth.py:22 | lower-casing twice is lower-casing once |
| `Text.Join` | backend/app/routes/reservations.py:97 | joining no messages gives "", one message gives that message, and two give both around the separator |
| `Tables.OrderBy` | backend/app/routes/reservations.py:132 | ORDER BY returns a permutation of its input, sorted ascending or descending by the key |
| `Tables.Select` | backend/app/routes/reservations.py:132-138 | the query result is sorted; every row in it satisfies the WHERE clause and comes from the table; every row of the table that satisfies the clause is in it; when no two keys hold the same row, each row appears at most once |
| `Tables.First` | backend/app/routes/auth.py:53 | `.first()` finds a matching row, and none with a smaller key; `None` exactly when no row matches |
| `Tables.FirstAfterInsert` | backend/app/routes/auth.py:88 | a lookup that found nothing finds a matching row inserted under the next key |
| `Tables.InsertKeyed` | backend/app/routes/reservations.py:110-112 | inserting under the next autoincrement key keeps every row under its own key, and the key was free |
| `ReservationModel.StatusValue` | backend/app/models/reservation.py:14-21 | each status has a non-empty literal of lower-case letters and underscores |
| `ReservationModel.VisibilityValue` | backend/app/models/reservation.py:24-28 | each visibility has a non-empty literal of lower-case letters |
| `ReservationModel.EnumerationsExact` | backend/app/models/reservation.py:14-28 | the five status literals and the two visibility literals are distinct, and each value's literal is among them, so no two values share a literal |
| `ReservationModel.InsertedWithDefaults` | backend/app/models/reservation.py:37-59 | an insert that gives only the mandatory columns gets status pending, visibility public, attendee count 1, both flags false, no optional text, and both timestamps set to the insert time |
| `ReservationSchema.SerializeReservation` | backend/app/schemas/reservation.py:8-24 | the purpose is shown iff private fields are included or the reservation is public; the description iff private fields are included and it is non-empty; id, owner, literals, count, flag and times are copied unconditionally; a missing timestamp is null |
| `ReservationSchema.RedactionOnlyNullsPrivateFields` | backend/app/schemas/reservation.py:15-16 | the redacted view equals the private view except that the description is null and the purpose is either equal or null |
| `ReservationSchema.AnonymousRedactionHidesPurpose` | backend/app/schemas/reservation.py:15-16 | two anonymous reservations that differ only in purpose and description have the same redacted view |
| `ReservationRoutes.ParseDateTime` | backend/app/routes/reservations.py:31-37 | missing or empty gives no time; anything else is the ISO parser's answer |
| `ReservationRoutes.ParseVisibility` | backend/app/routes/reservations.py:40-46 | a visibility iff the value is exactly one of the two literals, and then the one it names |
| `ReservationRoutes.ParseStatus` | backend/app/routes/reservations.py:49-55 | a status iff the value is exactly one of the five literals, and then the one it names |
| `ReservationRoutes.LiteralsRoundTrip` | backend/app/routes/reservations.py:40-55 | parsing each enum's literal gives the value back, so the serialized status and visibility parse back to the row's own |
| `ReservationRoutes.IsAdmin` | backend/app/routes/reservations.py:58-59 | a viewer without a token is never an admin; a viewer with one is an admin exactly when its admin claim is set |
| `ReservationRoutes.KeptByFilters` | backend/app/routes/reservations.py:62-73 | a request without parameters keeps every reservation; a parsed visibility keeps only reservations with that visibility |
| `ReservationRoutes.DateFiltersKeepOverlapping` | backend/app/routes/reservations.py:62-73 | with both dates parsed, a well-formed window and reservation, the filters keep a reservation exactly when it shares some instant with the closed window and matches the visibility filter if one parsed |
| `ReservationRoutes.UnparseableFiltersAreIgnored` | backend/app/routes/reservations.py:62-73 | parameters that are absent or do not parse give the same listing, in the same order, as a request with no parameters |
| `ReservationRoutes.ListedForRole` | backend/app/routes/reservations.py:133-134 | an admin's listing keeps every status; anyone else's keeps a reservation exactly when it is approved |
| `ReservationRoutes.ListingQuery` | backend/app/routes/reservations.py:131-138 | ascending by start time; holds exactly the table's rows that the role rule and the filters keep, each once when the table is keyed; a non-admin gets approved rows only |
| `ReservationRoutes.OwnReservations` | backend/app/routes/reservations.py:185-190 | descending by start time; holds exactly the caller's rows, whatever their status, each once when the table is keyed |
| `ReservationRoutes.IncludePrivate` | backend/app/routes/reservations.py:141 | a viewer without a token never gets private fields; an admin always does; any other viewer exactly for their own reservations |
| `ReservationRoutes.IncludePurpose` | backend/app/routes/reservations.py:170-174 | the calendar shows the purpose of every public reservation and of every reservation whose private fields the viewer may see; a viewer without a token sees it exactly for public ones |
| `ReservationRoutes.CalendarPayload` | backend/app/routes/reservations.py:20-28 | id, times, visibility and status are always present; the title is the purpose iff the purpose may be shown, and null otherwise |
| `ReservationRoutes.CalendarTitleIsListedPurpose` | backend/app/routes/reservations.py:141-175 | the calendar title and the listing's purpose field are the same value for every viewer |
| `ReservationRoutes.ValidationErrors` | backend/app/routes/reservations.py:87-94 | at most one time error: format, else order; the purpose error is present iff the stripped purpose is empty; at most two errors, a time error first and the purpose error last, so the purpose error appears once; none iff both times parse, end is after start and the purpose is non-empty |
| `ReservationRoutes.CollectErrors` | backend/app/routes/reservations.py:87-94 | appending the checks one by one produces exactly `ValidationErrors` |
| `ReservationRoutes.NewReservation` | backend/app/routes/reservations.py:99-108 | the new row is pending and owned by the caller; visibility is parsed, else public; the stripped purpose; description as given; attendee count as given or 1; flag as given or false; the other columns at their defaults |
| `ReservationRoutes.ApplyStatusUpdate` | backend/app/routes/reservations.py:214-218 | the new status from any old status; the new visibility only when one was given; `updated_at` set; every other column unchanged |
| `ReservationRoutes.StatusOverwriteLastWins` | backend/app/routes/reservations.py:214-218 | two overwrites equal the last one, and an overwrite can be undone, so there is no transition graph |
| `ReservationRoutes.SerializeForViewer` | backend/app/routes/reservations.py:139-142 | the loop gives one serialized row per row, in order, with private fields exactly for an admin or the owner |
| `ReservationRoutes.CalendarEventsFor` | backend/app/routes/reservations.py:167-175 | the loop gives one event per row, in order, titled exactly for an admin, the owner, or a public reservation |
| `ReservationRoutes.ApprovedAnonymousListedWithoutPurpose` | backend/app/routes/reservations.py:214-218 | after approval with visibility anonymous, a viewer without a token finds the reservation exactly once in the listing of the keyed table, without its purpose |
| `ReservationRoutes.ReservationStore.CreateReservation` | backend/app/routes/reservations.py:76-115 | invalid input gives 400 with every error joined by "; " and no change; valid input inserts exactly `NewReservation` under the next id and replies 201 with its private view; every stored reservation still ends after it starts |
| `ReservationRoutes.ReservationStore.ListReservations` | backend/app/routes/reservations.py:118-144 | the listing query's rows, each serialized with private fields iff the viewer is an admin or the owner; a non-admin sees only status "approved" |
| `ReservationRoutes.ReservationStore.CalendarReservations` | backend/app/routes/reservations.py:147-177 | the listing query's rows as calendar events, in order |
| `ReservationRoutes.ReservationStore.ListMyReservations` | backend/app/routes/reservations.py:180-192 | the caller's rows, newest start first, all with private fields and all owned by the caller |
| `ReservationRoutes.ReservationStore.UpdateReservationStatus` | backend/app/routes/reservations.py:195-222 | 403 for a non-admin, else 400 for a missing or unknown status, else 404 for an unknown id, each with no change; otherwise exactly that row is overwritten by `ApplyStatusUpdate` and the reply is its private view; every stored reservation still ends after it starts |
| `Auth.NormalizeEmail` | backend/app/routes/auth.py:21-22 | missing gives ""; the result has no edge whitespace and no upper-case letter, and is no longer than the input; it is empty iff the input is all whitespace |
| `Auth.NormalizeIdempotent` | backend/app/routes/auth.py:21-22 | normalising a normalised address changes nothing |
| `Auth.NormalizedCharacters` | backend/app/routes/auth.py:21-22 | the normalised address is, character by character, the lower-cased run of the raw address that starts where its leading whitespace ends, and only whitespace follows that run |
| `Auth.NormalizeIgnoresCaseAndPadding` | backend/app/routes/auth.py:21-22 | two addresses that differ only in letter case and in surrounding whitespace normalise to the same address |
| `Auth.IssueToken` | backend/app/routes/auth.py:25-26 | the token's identity is the user's id and its admin claim is the user's flag |
| `Auth.AdminGate` | backend/app/routes/auth.py:29-40 | the wrapped view is stopped with 403 and the admin message exactly when the admin claim is not set |
| `Auth.Blank` | backend/app/routes/auth.py:49 | `not password` holds exactly when the value is missing, null or the empty string |
| `Auth.UserWithEmail` | backend/app/routes/auth.py:88 | a user with that address, or `None` exactly when no user has it |
| `Auth.EntryWithEmail` | backend/app/routes/auth.py:53 | a whitelist entry with that address, or `None` exactly when no entry has it |
| `Auth.LoginReply` | backend/app/routes/auth.py:78-95 | 400 iff the address or password is blank; else 401 iff the address is unknown or the password is wrong; else 403 iff the account is inactive; else, exactly when the user exists, the password checks and the account is active, 200 with that user and their token |
| `Auth.RegisterResult` | backend/app/routes/auth.py:43-75 | 400 iff blank; else 403 iff no entry has the address; else 409 iff a user has it; errors change nothing; success exactly when the address is non-blank, whitelisted and new, and then exactly one active user under the next id, admin iff its entry says so, with the hashed password, both timestamps `now`, and a token carrying that flag |
| `Auth.LoginAfterRegister` | backend/app/routes/auth.py:78-95 | whoever registers can log in with the same address and password and gets the same user and token |
| `Auth.WhitelistListing` | backend/app/routes/auth.py:134-140 | every entry, newest `created_at` first, nothing else, and each entry once when no two ids hold the same entry |
| `Auth.DeletedEmailNotListed` | backend/app/routes/auth.py:174-183 | after a deletion the listing holds no entry with the deleted address |
| `Auth.InsertUserValid` | backend/app/routes/auth.py:61-68 | adding a user under the next id, with an address no user has, keeps the users table keyed and its addresses unique |
| `Auth.RegisterKeepsUsersValid` | backend/app/routes/auth.py:43-75 | every registration outcome leaves the users table keyed with unique addresses, the next id advanced exactly when a user was added |
| `Auth.InsertEntryValid` | backend/app/routes/auth.py:161-169 | adding an entry under the next id, with an address no entry has, keeps the whitelist keyed and its addresses unique |
| `Auth.RemoveEntryValid` | backend/app/routes/auth.py:182 | removing an entry keeps the whitelist invariant |
| `Auth.NoEntryWithEmail` | backend/app/routes/auth.py:124-126 | in a valid whitelist a failed lookup means that no entry at all has the address |
| `Auth.AccountStore.Register` | backend/app/routes/auth.py:43-75 | the reply and the new users table are those of `RegisterResult`; the id counter advances only on success; the whitelist is unchanged |
| `Auth.AccountStore.Login` | backend/app/routes/auth.py:78-95 | the reply is `LoginReply` of the users table, and nothing changes |
| `Auth.AccountStore.Me` | backend/app/routes/auth.py:98-114 | 404 iff the caller's row is gone; otherwise 200 with the row and the admin claim of the token, not the row's flag |
| `Auth.AccountStore.WhitelistCheck` | backend/app/routes/auth.py:117-128 | 400 with allowed false for a blank address; otherwise allowed iff some entry has the normalised address; `defaultAdmin` is present iff allowed and is then that entry's flag |
| `Auth.AccountStore.ListWhitelist` | backend/app/routes/auth.py:131-140 | 403 for a non-admin; otherwise `WhitelistListing`, which holds every entry |
| `Auth.AccountStore.AddWhitelistEntry` | backend/app/routes/auth.py:143-171 | 403, then 400 for a blank address, then 409 for a duplicate, each with no change; otherwise exactly one entry with the normalised address, the given flag or false, added by the caller at `now`; users unchanged |
| `Auth.AccountStore.DeleteWhitelistEntry` | backend/app/routes/auth.py:174-183 | 403, then 404 for an unknown id, each with no change; otherwise exactly that entry is removed and the reply is 204 |
| `SystemSettings.VideoUrlOf` | backend/app/routes/system_settings.py:13-20 | a read returns the stored value when the key is present and the default URL otherwise |
| `SystemSettings.AfterRead` | backend/app/routes/system_settings.py:13-18 | after a read the key is present with the value returned; a present key leaves the table as it was; no other key is added or changed |
| `SystemSettings.ReadsAgree` | backend/app/routes/system_settings.py:11-20 | a second read changes nothing and returns what the first returned |
| `SystemSettings.ReadAfterUpdate` | backend/app/routes/system_settings.py:31-40 | after an overwrite a read returns the new URL and changes nothing |
| `SystemSettings.SettingStore.GetVideoUrl` | backend/app/routes/system_settings.py:10-20 | returns `VideoUrlOf` of the old table, which is non-empty, and leaves `AfterRead` of it |
| `SystemSettings.SettingStore.UpdateVideoUrl` | backend/app/routes/system_settings.py:22-40 | 403 for a non-admin, 400 for a missing or empty URL, each with no change; otherwise the key is created or overwritten and the reply echoes the URL |
| `SystemSettings.SettingStore.UpdateThenRead` | backend/app/routes/system_settings.py:22-40 | an admin's update followed by a read returns the new URL |

## Left out

- Request bodies with wrong JSON types are out of scope: a non-string
  e-mail, purpose or URL; a non-integer `attendeeCount`; a non-boolean flag.
  So are the 500 replies they cause. This includes `int(None)` on an explicit
  null `attendeeCount`, which the model treats as absent (default 1), and
  `request.get_json()` returning nothing in `update_video_url`.
- `bool(...)` on an arbitrary JSON value is not modelled. `isAdminDefault`
  and `allowAdditionalMembers` are booleans or absent.
- Comparing naive with aware datetimes, which raises in Python, is not
  modelled. Timestamps are plain integers.
- ISO 8601 parsing and formatting are the `iso` parameter, and a
  serialized timestamp is the integer itself. Password hashing and checking
  are parameters. Token signing, expiry and the framework's 401 for a
  missing or invalid token are left out. Methods that need a token take
  `Claims`; the listings take `Option<Claims>`.
- Refresh tokens, e-mail notifications and the other routes are left out.
  None of them holds logic the core above depends on.
- `serialize_user` and `serialize_whitelist_entry` are left out.
  `serialize_user` reads a display name and a whitelist entry that the user
  model does not define, so register, login and me return the `User` row
  itself. `serialize_whitelist_entry` copies the fields, so the listing
  returns the entries.
- `String(255)` and `String(50)` column limits are not enforced.
- ReservationRoutes.ReservationStore.CreateReservation: `attendee_count` is
  an `Integer` column. An `attendeeCount` outside the database's integer
  range fails at flush with a server error; the model stores any integer.
- ReservationModel.InsertedWithDefaults: one `now` fills both `created_at`
  and `updated_at`. The source's column defaults call `datetime.utcnow`
  once per column, so the two may differ by a few microseconds.
- Auth.AccountStore.AddWhitelistEntry: every entry gets a key never used
  before. The tables are declared without SQLite's `AUTOINCREMENT`, so after
  the entry with the largest id is deleted, SQLite hands that id out again.
  The model does not capture that reuse.
- Text.Lower: only the upper-case letters whose lower-case form lies
  0x20 code points above are lowered (ASCII, Latin-1, Greek, basic Cyrillic,
  fullwidth Latin). Python's Unicode case mapping for other scripts is not
  modelled. Nor is its context rule for Greek: Python lowers a capital sigma
  at the end of a word to the final form ς (U+03C2), and the model always
  gives σ (U+03C3).
- Tables.OrderBy: rows with equal sort keys keep their key order. SQL leaves
  that order unspecified, so the model picks one of the orders the database
  may return.
- `.first()` is modelled as the matching row with the smallest key. Because
  addresses are unique, at most one row ever matches.
- Each `session_scope` runs as one atomic update. Concurrent requests and
  transaction rollback are not modelled.
- SystemSettings.SettingStore.UpdateVideoUrl: the 400 body carries its text
  under `error`, not `message`, and the 200 body also carries a fixed
  success message. The model keeps only the status and the text.
