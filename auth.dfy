/** Accounts and the registration whitelist: e-mail normalisation, the claims
    of an access token, the admin gate, registration seeded from the
    whitelist, login, and the admin's management of the whitelist. */
module Auth {
  import opened Common
  import opened Text
  import opened Tables

  // ---------------------------------------------------------------------
  // E-mail addresses and tokens
  // ---------------------------------------------------------------------

  /** `_normalize_email`: a missing address is the empty one; otherwise the
      address with the whitespace at both ends cut off, lower-cased. */
  function NormalizeEmail(raw: Option<string>): (e: string)
    ensures e == [] || (!IsSpace(e[0]) && !IsSpace(e[|e| - 1]))
    ensures forall i :: 0 <= i < |e| ==> !IsUpper(e[i])
    ensures raw.None? ==> e == ""
    ensures |e| <= |raw.GetOr("")|
    ensures e == "" <==> forall i :: 0 <= i < |raw.GetOr("")| ==> IsSpace(raw.GetOr("")[i])
  {
    var s := Strip(raw.GetOr(""));
    StripEmpty(raw.GetOr(""));
    Lower(s)
  }

  /** Character by character: the normalised address is the lower-cased
      run of the raw one that starts where its leading whitespace ends, and
      only whitespace follows that run. */
  lemma NormalizedCharacters(raw: Option<string>)
    ensures var s := raw.GetOr("");
            var e := NormalizeEmail(raw);
            var k := LeadingSpace(s);
            k + |e| <= |s|
            && (forall i :: 0 <= i < |e| ==> e[i] == LowerChar(s[k + i]))
            && forall i :: k + |e| <= i < |s| ==> IsSpace(s[i])
  {
    var s := raw.GetOr("");
    var r := Strip(s);
    var k := LeadingSpace(s);
    forall i | 0 <= i < |r| ensures Lower(r)[i] == LowerChar(s[k + i]) {
      assert r[i] == s[k + i];
    }
  }

  /** Two addresses that differ only in letter case and in whitespace around
      them normalise to the same address. */
  lemma NormalizeIgnoresCaseAndPadding(pre: string, a: string, b: string, post: string)
    requires SpaceBetween(pre, 0, |pre|) && SpaceBetween(post, 0, |post|)
    requires Lower(a) == Lower(b)
    ensures NormalizeEmail(Some(pre + a + post)) == NormalizeEmail(Some(b))
  {
    StripIgnoresPadding(pre, a, post);
    StripKeepsCaseEquality(a, b);
  }

  /** Normalising a normalised address changes nothing. */
  lemma NormalizeIdempotent(raw: Option<string>)
    ensures NormalizeEmail(Some(NormalizeEmail(raw))) == NormalizeEmail(raw)
  {
    var s := Strip(raw.GetOr(""));
    StripUnchanged(Lower(s));
    LowerIdempotent(s);
  }

  /** One row of the `users` table (`hashedPassword` is the output of the
      password hasher). */
  datatype User = User(
    id: int,
    email: string,
    hashedPassword: string,
    isAdmin: bool,
    isActive: bool,
    createdAt: Timestamp,
    updatedAt: Timestamp)

  /** One row of the `whitelist_entries` table. */
  datatype WhitelistEntry = WhitelistEntry(
    id: int,
    email: string,
    displayName: Option<string>,
    isAdminDefault: bool,
    addedByUserId: Option<int>,
    createdAt: Timestamp)

  /** `_issue_token`: the claims signed into the access token, whose identity
      is the user's id and whose `is_admin` claim is the user's flag. */
  function IssueToken(u: User): (c: Claims)
    ensures c.identity == u.id && c.isAdmin == u.isAdmin
  {
    Claims(u.id, u.isAdmin)
  }

  /** `admin_required`: the 403 reply that stops a caller whose `is_admin`
      claim is not set before the wrapped view runs, or `None` when the view
      may run. */
  function AdminGate<T>(claims: Claims): (denied: Option<Reply<T>>)
    ensures denied.Some? <==> !claims.isAdmin
    ensures denied.Some? ==> denied.value == Err(FORBIDDEN, AdminRequiredMessage)
  {
    if claims.isAdmin then None else Some(Err(FORBIDDEN, AdminRequiredMessage))
  }

  // ---------------------------------------------------------------------
  // Lookups and replies
  // ---------------------------------------------------------------------

  const CredentialsRequiredMessage: string := "email と password は必須です"
  const NotWhitelistedMessage: string := "ホワイトリストに登録されていません"
  const UserExistsMessage: string := "既にユーザーが存在します"
  const BadCredentialsMessage: string := "メールアドレスまたはパスワードが違います"
  const InactiveMessage: string := "アカウントが無効化されています"
  const UserNotFoundMessage: string := "ユーザーが存在しません"
  const EmailQueryRequiredMessage: string := "email クエリパラメータが必要です"
  const EmailRequiredMessage: string := "email は必須です"
  const AlreadyWhitelistedMessage: string := "既にホワイトリストに登録されています"
  const EntryNotFoundMessage: string := "指定されたIDが見つかりません"

  /** A password that `not password` rejects: missing, null or empty. */
  predicate Blank(password: Option<string>)
    ensures Blank(password) <==> password.GetOr("") == ""
  {
    password.None? || password.value == ""
  }

  /** The user whose address is `email`, among the ids below `limit`. */
  function UserWithEmail(users: map<int, User>, limit: int, email: string): (r: Option<int>)
    ensures r.Some? ==> r.value in users && users[r.value].email == email
    ensures r.None? <==> forall id :: 1 <= id < limit && id in users ==> users[id].email != email
  {
    First(users, 1, limit, (u: User) => u.email == email)
  }

  /** The whitelist entry whose address is `email`, among the ids below
      `limit`. */
  function EntryWithEmail(whitelist: map<int, WhitelistEntry>, limit: int, email: string): (r: Option<int>)
    ensures r.Some? ==> r.value in whitelist && whitelist[r.value].email == email
    ensures r.None? <==> forall id :: 1 <= id < limit && id in whitelist ==> whitelist[id].email != email
  {
    First(whitelist, 1, limit, (w: WhitelistEntry) => w.email == email)
  }

  /** The body of a successful register or login: the user and the claims of
      the access token issued for them. */
  datatype AuthBody = AuthBody(user: User, accessToken: Claims)

  /** The reply of `login` against the `users` table, with `check` the
      password hash check: 400 for a blank address or password, else 401 for
      an unknown address or a wrong password alike, else 403 for an inactive
      account, else 200 with that user's token. */
  function LoginReply(users: map<int, User>, limit: int, rawEmail: Option<string>, password: Option<string>,
                      check: (string, string) -> bool): (reply: Reply<AuthBody>)
    ensures (reply == Err(BAD_REQUEST, CredentialsRequiredMessage)) <==> (NormalizeEmail(rawEmail) == "" || Blank(password))
    ensures reply.Err? ==> reply.code in {BAD_REQUEST, UNAUTHORIZED, FORBIDDEN}
    ensures NormalizeEmail(rawEmail) != "" && !Blank(password) ==>
              var found := UserWithEmail(users, limit, NormalizeEmail(rawEmail));
              ((reply == Err(UNAUTHORIZED, BadCredentialsMessage))
                 <==> (found.None? || !check(users[found.value].hashedPassword, password.value)))
              && ((reply == Err(FORBIDDEN, InactiveMessage))
                 <==> (found.Some? && check(users[found.value].hashedPassword, password.value)
                       && !users[found.value].isActive))
              && (reply.Ok? <==> (found.Some? && check(users[found.value].hashedPassword, password.value)
                                  && users[found.value].isActive))
              && (reply.Ok? ==> found.Some? && reply == Ok(OK, AuthBody(users[found.value], IssueToken(users[found.value]))))
    ensures reply.Ok? ==> reply.value.user.email == NormalizeEmail(rawEmail) && reply.value.user.isActive
                          && check(reply.value.user.hashedPassword, password.value)
                          && reply.value.accessToken.isAdmin == reply.value.user.isAdmin
  {
    var email := NormalizeEmail(rawEmail);
    if email == "" || Blank(password) then Err(BAD_REQUEST, CredentialsRequiredMessage)
    else
      match UserWithEmail(users, limit, email)
      case None => Err(UNAUTHORIZED, BadCredentialsMessage)
      case Some(id) =>
        if !check(users[id].hashedPassword, password.value) then Err(UNAUTHORIZED, BadCredentialsMessage)
        else if !users[id].isActive then Err(FORBIDDEN, InactiveMessage)
        else Ok(OK, AuthBody(users[id], IssueToken(users[id])))
  }

  /** What `register` does to the `users` table: the reply, and the table
      after it. */
  datatype Registration = Registration(reply: Reply<AuthBody>, users: map<int, User>)

  /** `register` against the two tables, with `hash` the password hasher and
      `next` the id the next user receives. 400 for a blank address or
      password, else 403 when no whitelist entry has the normalised address,
      else 409 when a user has it, each leaving the table as it was.
      Otherwise one user is added under `next`: the normalised address, the
      hashed password, active, admin exactly when its whitelist entry says
      so; the reply is 201 with the token issued for that user. */
  function RegisterResult(users: map<int, User>, next: int, whitelist: map<int, WhitelistEntry>, limit: int,
                          rawEmail: Option<string>, password: Option<string>, hash: string -> string,
                          now: Timestamp): (out: Registration)
    ensures out.reply.Err? ==> out.users == users
    ensures (out.reply == Err(BAD_REQUEST, CredentialsRequiredMessage)) <==> (NormalizeEmail(rawEmail) == "" || Blank(password))
    ensures (out.reply == Err(FORBIDDEN, NotWhitelistedMessage)) <==>
              (NormalizeEmail(rawEmail) != "" && !Blank(password)
               && forall id :: 1 <= id < limit && id in whitelist ==> whitelist[id].email != NormalizeEmail(rawEmail))
    ensures (out.reply == Err(CONFLICT, UserExistsMessage)) <==>
              (NormalizeEmail(rawEmail) != "" && !Blank(password)
               && EntryWithEmail(whitelist, limit, NormalizeEmail(rawEmail)).Some?
               && UserWithEmail(users, next, NormalizeEmail(rawEmail)).Some?)
    ensures out.reply.Ok? <==>
              (NormalizeEmail(rawEmail) != "" && !Blank(password)
               && EntryWithEmail(whitelist, limit, NormalizeEmail(rawEmail)).Some?
               && UserWithEmail(users, next, NormalizeEmail(rawEmail)).None?)
    ensures out.reply.Ok? ==>
              var u := out.reply.value.user;
              var entry := EntryWithEmail(whitelist, limit, NormalizeEmail(rawEmail));
              out.reply.code == CREATED && out.reply.value.accessToken == IssueToken(u)
              && u.id == next && u.email == NormalizeEmail(rawEmail) && u.email != ""
              && u.hashedPassword == hash(password.value) && u.isActive
              && u.createdAt == now && u.updatedAt == now
              && entry.Some? && u.isAdmin == whitelist[entry.value].isAdminDefault
              && UserWithEmail(users, next, u.email).None? && out.users == users[next := u]
  {
    var email := NormalizeEmail(rawEmail);
    if email == "" || Blank(password) then Registration(Err(BAD_REQUEST, CredentialsRequiredMessage), users)
    else
      match EntryWithEmail(whitelist, limit, email)
      case None => Registration(Err(FORBIDDEN, NotWhitelistedMessage), users)
      case Some(e) =>
        if UserWithEmail(users, next, email).Some? then Registration(Err(CONFLICT, UserExistsMessage), users)
        else
          var u := User(next, email, hash(password.value), whitelist[e].isAdminDefault, true, now, now);
          Registration(Ok(CREATED, AuthBody(u, IssueToken(u))), users[next := u])
  }

  /** Whoever registers can then log in with the same address and password,
      given a password check that accepts the hash of the password, and gets
      the same user and token back. */
  lemma LoginAfterRegister(users: map<int, User>, next: int, whitelist: map<int, WhitelistEntry>, limit: int,
                           rawEmail: Option<string>, password: Option<string>, hash: string -> string,
                           check: (string, string) -> bool, now: Timestamp)
    requires 1 <= next
    requires RegisterResult(users, next, whitelist, limit, rawEmail, password, hash, now).reply.Ok?
    requires check(hash(password.value), password.value)
    ensures var out := RegisterResult(users, next, whitelist, limit, rawEmail, password, hash, now);
            LoginReply(out.users, next + 1, rawEmail, password, check) == Ok(OK, out.reply.value)
  {
    var out := RegisterResult(users, next, whitelist, limit, rawEmail, password, hash, now);
    var u := out.reply.value.user;
    FirstAfterInsert(users, 1, next, (x: User) => x.email == u.email, u);
  }

  /** The body of `whitelist_check`. `defaultAdmin` and `message` are the
      optional keys; `code` is the status of the reply. */
  datatype CheckBody = CheckBody(code: int, allowed: bool, defaultAdmin: Option<bool>, message: Option<string>)

  /** The whitelist listing: every entry, newest `created_at` first, each
      entry once. */
  function WhitelistListing(whitelist: map<int, WhitelistEntry>, limit: int): (es: seq<WhitelistEntry>)
    ensures SortedBy(es, (w: WhitelistEntry) => w.createdAt, true)
    ensures forall id :: 1 <= id < limit && id in whitelist ==> whitelist[id] in es
    ensures forall x :: x in es ==> exists id :: 1 <= id < limit && id in whitelist && whitelist[id] == x
    ensures Injective(whitelist) ==> Distinct(es)
  {
    Select(whitelist, 1, limit, (w: WhitelistEntry) => true, (w: WhitelistEntry) => w.createdAt, true)
  }

  /** Once the entry `id` is deleted, the listing shows no entry with its
      address, since the address was on no other entry. */
  lemma DeletedEmailNotListed(whitelist: map<int, WhitelistEntry>, limit: int, id: int)
    requires id in whitelist && Unique(whitelist, (w: WhitelistEntry) => w.email)
    ensures forall x :: x in WhitelistListing(whitelist - {id}, limit) ==> x.email != whitelist[id].email
  {
    var rest := whitelist - {id};
    forall x | x in WhitelistListing(rest, limit) ensures x.email != whitelist[id].email {
      var j :| 1 <= j < limit && j in rest && rest[j] == x;
      assert whitelist[j] == x;
    }
  }

  /** The invariant of the `users` table: keyed by id below `next`, one
      user per address, and no empty address. */
  ghost predicate UsersValid(users: map<int, User>, next: int) {
    Keyed(users, next, (u: User) => u.id)
    && Unique(users, (u: User) => u.email)
    && forall id :: id in users ==> users[id].email != ""
  }

  /** The invariant of the `whitelist_entries` table, of the same shape. */
  ghost predicate EntriesValid(whitelist: map<int, WhitelistEntry>, next: int) {
    Keyed(whitelist, next, (w: WhitelistEntry) => w.id)
    && Unique(whitelist, (w: WhitelistEntry) => w.email)
    && forall id :: id in whitelist ==> whitelist[id].email != ""
  }

  /** Adding, under the next id, a user whose address no user has keeps the
      table valid. */
  lemma InsertUserValid(users: map<int, User>, next: int, u: User)
    requires UsersValid(users, next) && u.id == next && u.email != ""
    requires UserWithEmail(users, next, u.email).None?
    ensures next !in users && UsersValid(users[next := u], next + 1)
  {
    InsertKeyed(users, next, (u: User) => u.id, u);
  }

  /** A registration keeps the user table valid, with the next id moved on
      exactly when a user was added. */
  lemma RegisterKeepsUsersValid(users: map<int, User>, next: int, whitelist: map<int, WhitelistEntry>, limit: int,
                                rawEmail: Option<string>, password: Option<string>, hash: string -> string,
                                now: Timestamp)
    requires UsersValid(users, next)
    ensures var out := RegisterResult(users, next, whitelist, limit, rawEmail, password, hash, now);
            UsersValid(out.users, if out.reply.Ok? then next + 1 else next)
  {
    var out := RegisterResult(users, next, whitelist, limit, rawEmail, password, hash, now);
    if out.reply.Ok? {
      InsertUserValid(users, next, out.reply.value.user);
    }
  }

  /** Adding, under the next id, an entry whose address no entry has keeps
      the table valid. */
  lemma InsertEntryValid(whitelist: map<int, WhitelistEntry>, next: int, e: WhitelistEntry)
    requires EntriesValid(whitelist, next) && e.id == next && e.email != ""
    requires EntryWithEmail(whitelist, next, e.email).None?
    ensures next !in whitelist && EntriesValid(whitelist[next := e], next + 1)
  {
    InsertKeyed(whitelist, next, (w: WhitelistEntry) => w.id, e);
  }

  /** Removing an entry keeps the table valid. */
  lemma RemoveEntryValid(whitelist: map<int, WhitelistEntry>, next: int, id: int)
    requires EntriesValid(whitelist, next)
    ensures EntriesValid(whitelist - {id}, next)
  {
  }

  /** With the table valid, a failed lookup means no entry at all has the
      address. */
  lemma NoEntryWithEmail(whitelist: map<int, WhitelistEntry>, next: int, email: string)
    requires EntriesValid(whitelist, next) && EntryWithEmail(whitelist, next, email).None?
    ensures forall id :: id in whitelist ==> whitelist[id].email != email
  {
  }

  // ---------------------------------------------------------------------
  // The two tables
  // ---------------------------------------------------------------------

  /** The `users` and `whitelist_entries` tables. Each is keyed by its id,
      handed out in increasing order from 1, has a unique address column, and
      stores no empty address. */
  class AccountStore {
    var users: map<int, User>
    var nextUserId: int
    var whitelist: map<int, WhitelistEntry>
    var nextEntryId: int

    ghost predicate Valid()
      reads this
    {
      UsersValid(users, nextUserId) && EntriesValid(whitelist, nextEntryId)
    }

    constructor ()
      ensures Valid() && users == map[] && whitelist == map[] && nextUserId == 1 && nextEntryId == 1
    {
      users := map[];
      nextUserId := 1;
      whitelist := map[];
      nextEntryId := 1;
    }

    /** `register`, with `hash` the password hasher: as `RegisterResult`,
        on the user table only. */
    method Register(rawEmail: Option<string>, password: Option<string>, hash: string -> string, now: Timestamp)
      returns (reply: Reply<AuthBody>)
      requires Valid()
      modifies this
      ensures Valid() && whitelist == old(whitelist) && nextEntryId == old(nextEntryId)
      ensures reply == RegisterResult(old(users), old(nextUserId), old(whitelist), old(nextEntryId), rawEmail, password, hash, now).reply
      ensures users == RegisterResult(old(users), old(nextUserId), old(whitelist), old(nextEntryId), rawEmail, password, hash, now).users
      ensures nextUserId == if reply.Ok? then old(nextUserId) + 1 else old(nextUserId)
    {
      var out := RegisterResult(users, nextUserId, whitelist, nextEntryId, rawEmail, password, hash, now);
      RegisterKeepsUsersValid(users, nextUserId, whitelist, nextEntryId, rawEmail, password, hash, now);
      reply := out.reply;
      if reply.Ok? {
        users := out.users;
        nextUserId := nextUserId + 1;
      }
    }

    /** `login`, with `check` the password hash check. Changes nothing. */
    method Login(rawEmail: Option<string>, password: Option<string>, check: (string, string) -> bool)
      returns (reply: Reply<AuthBody>)
      requires Valid()
      ensures reply == LoginReply(users, nextUserId, rawEmail, password, check)
    {
      var email := NormalizeEmail(rawEmail);
      if email == "" || Blank(password) {
        return Err(BAD_REQUEST, CredentialsRequiredMessage);
      }
      var found := UserWithEmail(users, nextUserId, email);
      if found.None? || !check(users[found.value].hashedPassword, password.value) {
        return Err(UNAUTHORIZED, BadCredentialsMessage);
      }
      var user := users[found.value];
      if !user.isActive {
        return Err(FORBIDDEN, InactiveMessage);
      }
      reply := Ok(OK, AuthBody(user, IssueToken(user)));
    }

    /** `me`: the caller's row, and the admin claim of the caller's token,
        which is the flag the token was issued with and not necessarily the
        row's current flag. 404 when the row is gone. Changes nothing. */
    method Me(claims: Claims) returns (reply: Reply<(User, bool)>)
      requires Valid()
      ensures claims.identity !in users <==> reply == Err(NOT_FOUND, UserNotFoundMessage)
      ensures claims.identity in users ==> reply == Ok(OK, (users[claims.identity], claims.isAdmin))
      ensures reply.Ok? ==> reply == Ok(OK, (users[claims.identity], claims.isAdmin))
                            && reply.value.0.id == claims.identity
    {
      if claims.identity !in users {
        return Err(NOT_FOUND, UserNotFoundMessage);
      }
      reply := Ok(OK, (users[claims.identity], claims.isAdmin));
    }

    /** `whitelist_check`: 400 with `allowed` false for a blank address;
        otherwise 200, allowed exactly when an entry has the normalised
        address, and `defaultAdmin`, that entry's flag, only when allowed.
        Changes nothing. */
    method WhitelistCheck(rawEmail: Option<string>) returns (body: CheckBody)
      requires Valid()
      ensures NormalizeEmail(rawEmail) == "" ==>
                body == CheckBody(BAD_REQUEST, false, None, Some(EmailQueryRequiredMessage))
      ensures NormalizeEmail(rawEmail) != "" ==> body.code == OK && body.message.None?
      ensures NormalizeEmail(rawEmail) != "" ==>
                (!body.allowed <==> forall id :: id in whitelist ==> whitelist[id].email != NormalizeEmail(rawEmail))
      ensures body.defaultAdmin.Some? <==> body.allowed
      ensures body.allowed ==>
                exists id :: id in whitelist && whitelist[id].email == NormalizeEmail(rawEmail)
                             && body.defaultAdmin == Some(whitelist[id].isAdminDefault)
    {
      var email := NormalizeEmail(rawEmail);
      if email == "" {
        return CheckBody(BAD_REQUEST, false, None, Some(EmailQueryRequiredMessage));
      }
      var entry := EntryWithEmail(whitelist, nextEntryId, email);
      if entry.None? {
        NoEntryWithEmail(whitelist, nextEntryId, email);
        return CheckBody(OK, false, None, None);
      }
      body := CheckBody(OK, true, Some(whitelist[entry.value].isAdminDefault), None);
    }

    /** `list_whitelist`: admin only; every entry, newest first. Changes
        nothing. */
    method ListWhitelist(claims: Claims) returns (reply: Reply<seq<WhitelistEntry>>)
      requires Valid()
      ensures !claims.isAdmin ==> reply == Err(FORBIDDEN, AdminRequiredMessage)
      ensures claims.isAdmin ==> reply == Ok(OK, WhitelistListing(whitelist, nextEntryId))
      ensures reply.Ok? ==> forall id :: id in whitelist ==> whitelist[id] in reply.value
    {
      var denied := AdminGate<seq<WhitelistEntry>>(claims);
      if denied.Some? {
        return denied.value;
      }
      reply := Ok(OK, WhitelistListing(whitelist, nextEntryId));
    }

    /** `add_whitelist_entry`: admin only; 400 for a blank address, 409 when an
        entry already has the normalised address, each changing nothing;
        otherwise exactly one entry, with the normalised address, the given
        display name, the given admin flag or false, the caller as the one
        who added it, created at `now`. The users table is never changed. */
    method AddWhitelistEntry(claims: Claims, rawEmail: Option<string>, displayName: Option<string>,
                             isAdminDefault: Option<bool>, now: Timestamp)
      returns (reply: Reply<WhitelistEntry>)
      requires Valid()
      modifies this
      ensures Valid() && users == old(users) && nextUserId == old(nextUserId)
      ensures reply.Err? ==> whitelist == old(whitelist) && nextEntryId == old(nextEntryId)
      ensures !claims.isAdmin ==> reply == Err(FORBIDDEN, AdminRequiredMessage)
      ensures claims.isAdmin && NormalizeEmail(rawEmail) == "" ==> reply == Err(BAD_REQUEST, EmailRequiredMessage)
      ensures claims.isAdmin && NormalizeEmail(rawEmail) != ""
              && EntryWithEmail(old(whitelist), old(nextEntryId), NormalizeEmail(rawEmail)).Some? ==>
                reply == Err(CONFLICT, AlreadyWhitelistedMessage)
      ensures claims.isAdmin && NormalizeEmail(rawEmail) != ""
              && EntryWithEmail(old(whitelist), old(nextEntryId), NormalizeEmail(rawEmail)).None? ==>
                var e := WhitelistEntry(old(nextEntryId), NormalizeEmail(rawEmail), displayName,
                                        isAdminDefault.GetOr(false), Some(claims.identity), now);
                old(nextEntryId) !in old(whitelist)
                && whitelist == old(whitelist)[old(nextEntryId) := e] && nextEntryId == old(nextEntryId) + 1
                && reply == Ok(CREATED, e)
    {
      var denied := AdminGate<WhitelistEntry>(claims);
      if denied.Some? {
        return denied.value;
      }
      var email := NormalizeEmail(rawEmail);
      if email == "" {
        return Err(BAD_REQUEST, EmailRequiredMessage);
      }
      var existing := EntryWithEmail(whitelist, nextEntryId, email);
      if existing.Some? {
        return Err(CONFLICT, AlreadyWhitelistedMessage);
      }
      var entry := WhitelistEntry(nextEntryId, email, displayName, isAdminDefault.GetOr(false), Some(claims.identity), now);
      InsertEntryValid(whitelist, nextEntryId, entry);
      whitelist := whitelist[nextEntryId := entry];
      nextEntryId := nextEntryId + 1;
      reply := Ok(CREATED, entry);
    }

    /** `delete_whitelist_entry`: admin only; 404 for an unknown id, changing
        nothing; otherwise exactly that entry is removed. Users registered
        through it keep their accounts. */
    method DeleteWhitelistEntry(claims: Claims, entryId: int) returns (reply: Reply<()>)
      requires Valid()
      modifies this
      ensures Valid() && users == old(users) && nextUserId == old(nextUserId) && nextEntryId == old(nextEntryId)
      ensures !claims.isAdmin ==> reply == Err(FORBIDDEN, AdminRequiredMessage) && whitelist == old(whitelist)
      ensures claims.isAdmin && entryId !in old(whitelist) ==>
                reply == Err(NOT_FOUND, EntryNotFoundMessage) && whitelist == old(whitelist)
      ensures claims.isAdmin && entryId in old(whitelist) ==>
                reply == Ok(NO_CONTENT, ()) && whitelist == old(whitelist) - {entryId}
    {
      var denied := AdminGate<()>(claims);
      if denied.Some? {
        return denied.value;
      }
      if entryId !in whitelist {
        return Err(NOT_FOUND, EntryNotFoundMessage);
      }
      RemoveEntryValid(whitelist, nextEntryId, entryId);
      whitelist := whitelist - {entryId};
      reply := Ok(NO_CONTENT, ());
    }
  }
}
