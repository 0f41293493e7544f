/** Guest upgrade and password reset: changes that span a database and a session store and are undone by hand when the second fails. */
module Account {
  import opened Text
  import opened Numerals
  import opened OneTimeTokens

  datatype UserStatus = ActiveUser | SuspendedUser | DeletedUser

  datatype User = User(name: string, email: string, password: string, guest: bool, emailVerifiedAt: Option<int>, status: UserStatus, updatedAt: int) {
    function UpgradeGuest(name: string, email: string, password: string, now: int): User {
      this.(name := name, email := email, password := password, guest := false, emailVerifiedAt := None, updatedAt := now)
    }

    function SoftDelete(id: int, now: int): User {
      User("deleted-user-" + PrintInt(id), "", "", false, None, DeletedUser, now)
    }
  }

  datatype MailRequested = MailRequested(user: int, email: string, hash: string, expiresAt: int)

  type Sessions = set<(int, string)>

  /** Which calls fail.  A failed call has no effect, and a transaction with a failed call leaves nothing behind. */
  datatype Faults = Faults(
    hash: bool, lookup: bool, issue: bool, save: bool, transaction: bool,
    deleteCurrent: bool, deleteCandidate: bool, deleteByUser: bool, restore: bool
  )

  predicate KnownUser(users: map<int, User>, id: int) { id in users && users[id].status != DeletedUser }

  /** Names and addresses are unique over all rows. */
  predicate Taken(users: map<int, User>, id: int, name: string, email: string) {
    exists other :: other in users && other != id && (users[other].name == name || (email != "" && users[other].email == email))
  }

  function WithoutUser(tokens: map<string, Token>, user: int): map<string, Token> {
    map h | h in tokens && tokens[h].user != user :: tokens[h]
  }

  function WithoutSessions(sessions: Sessions, user: int): Sessions { set s | s in sessions && s.0 != user }

  /** Everything but the sessions, as one database. */
  datatype Tables = Tables(users: map<int, User>, verifications: map<string, Token>, resets: map<string, Token>, outbox: seq<MailRequested>)

  /** What one upgrade transaction commits, field by field: the row with the new name, address and password, one new unusable
      token in place of the user's old ones, one mail request; `from` and `to` are the clock before and after. */
  ghost predicate UpgradeCommitted(before: Tables, after: Tables, id: int, name: string, email: string, password: string, hash: string,
                                   ttl: int, from: int, to: int) {
    && id in before.users && before.users[id].guest && before.users[id].status != DeletedUser
    && id in after.users && from <= after.users[id].updatedAt <= to
    && after.users == before.users[id := User(name, email, password, false, None, before.users[id].status, after.users[id].updatedAt)]
    && IssuedIn(before.verifications, after.verifications, id, hash, ttl, from, to)
    && after.resets == before.resets
    && after.outbox == before.outbox + [MailRequested(id, email, hash, after.verifications[hash].expiresAt)]
  }

  /** The user's tokens are gone and one new one is there, consumed and undelivered; other users' tokens are as before. */
  ghost predicate IssuedIn(before: map<string, Token>, after: map<string, Token>, id: int, hash: string, ttl: int, from: int, to: int) {
    && hash in after && after[hash].user == id && from + ttl <= after[hash].expiresAt <= to + ttl
    && after[hash].consumedAt.Some? && from <= after[hash].consumedAt.value <= to && after[hash].deliveredAt.None?
    && (forall h :: h in after && h != hash ==> h in before && before[h].user != id && after[h] == before[h])
    && (forall h :: h in before && before[h].user != id ==> h in after)
  }

  /** The condition on which the upgrade transaction succeeds. */
  predicate CanUpgrade(t: Tables, id: int, name: string, email: string, faults: Faults) {
    && !faults.transaction && id in t.users && t.users[id].status != DeletedUser && t.users[id].guest
    && forall other :: other in t.users && other != id ==> t.users[other].name != name && (email == "" || t.users[other].email != email)
  }

  /** The condition on which the reset transaction succeeds at a time. */
  predicate CanReset(t: Tables, hash: string, now: int, faults: Faults) {
    && !faults.transaction && hash in t.resets && t.resets[hash].consumedAt.None? && now < t.resets[hash].expiresAt
    && var id := t.resets[hash].user; id in t.users && t.users[id].status != DeletedUser && !t.users[id].guest
  }

  /** What one reset transaction commits: the password and the consumption of the token, at times of the call. */
  ghost predicate ResetCommitted(before: Tables, after: Tables, hash: string, password: string, from: int, to: int) {
    hash in before.resets &&
    var id := before.resets[hash].user;
    && id in before.users && id in after.users && hash in after.resets
    && after == before.(
         users := before.users[id := before.users[id].(password := password, updatedAt := after.users[id].updatedAt)],
         resets := before.resets[hash := before.resets[hash].(consumedAt := after.resets[hash].consumedAt)])
    && from <= after.users[id].updatedAt <= to
    && after.resets[hash].consumedAt.Some? && from <= after.resets[hash].consumedAt.value <= to
  }

  const DEFAULT_TOKEN_TTL := 30 * 60

  class AccountService {
    var tables: Tables
    var sessions: Sessions
    var clock: int
    const tokenTTL: int

    constructor (tables: Tables, sessions: Sessions, start: int, tokenTTL: int)
      ensures this.tables == tables && this.sessions == sessions && clock == start
      ensures this.tokenTTL == if tokenTTL <= 0 then 1800 else tokenTTL
    {
      this.tables, this.sessions, clock := tables, sessions, start;
      this.tokenTTL := if tokenTTL <= 0 then DEFAULT_TOKEN_TTL else tokenTTL;
    }

    method Now() returns (t: int)
      modifies this`clock
      ensures t == clock >= old(clock)
    {
      var passed: int := *;
      if passed > 0 { clock := clock + passed; }
      t := clock;
    }

    method UpdateUser(id: int, row: User) returns (r: Result<()>)
      requires id in tables.users
      modifies this`tables
      ensures r.Ok? <==> !Taken(old(tables).users, id, row.name, row.email)
      ensures tables == if r.Ok? then old(tables).(users := old(tables).users[id := row]) else old(tables)
    {
      if other :| other in tables.users && other != id && (tables.users[other].name == row.name || (row.email != "" && tables.users[other].email == row.email)) {
        return Err(AlreadyExists);
      }
      tables := tables.(users := tables.users[id := row]);
      return Ok(());
    }

    /** The user's earlier tokens are removed and a new one is stored, consumed until its mail has gone out; a user without
        an address, or with a verified one, gets none. */
    method IssueEmailVerificationToken(id: int, user: User, hash: string) returns (expiresAt: Option<int>)
      modifies this`tables, this`clock
      ensures clock >= old(clock)
      ensures expiresAt.Some? <==> user.email != "" && user.emailVerifiedAt.None?
      ensures expiresAt.None? ==> tables == old(tables)
      ensures expiresAt.Some? ==>
        && tables == old(tables).(verifications := tables.verifications)
        && IssuedIn(old(tables).verifications, tables.verifications, id, hash, tokenTTL, old(clock), clock)
        && tables.verifications[hash].expiresAt == expiresAt.value
    {
      if user.email == "" || user.emailVerifiedAt.Some? { return None; }
      var now := Now();
      expiresAt := Some(now + tokenTTL);
      var token := Token(id, now + tokenTTL, None, None);
      now := Now();
      token := token.Consume(now);
      tables := tables.(verifications := WithoutUser(tables.verifications, id));
      tables := tables.(verifications := tables.verifications[hash := token]);
    }

    method ApplyGuestUpgrade(id: int, name: string, email: string, password: string, hash: string, faults: Faults) returns (r: Result<User>)
      requires email != ""
      modifies this`tables, this`clock
      ensures clock >= old(clock)
      ensures r.Ok? <==> CanUpgrade(old(tables), id, name, email, faults)
      ensures r.Err? ==> tables == old(tables)
      ensures r.Ok? ==> UpgradeCommitted(old(tables), tables, id, name, email, password, hash, tokenTTL, old(clock), clock) && r.value == old(tables).users[id]
    {
      var saved := tables;
      if !KnownUser(tables.users, id) { return Err(NotFound); }
      var existing := tables.users[id];
      if !existing.guest { return Err(InvalidInput); }
      var now := Now();
      var upgraded := existing.UpgradeGuest(name, email, password, now);
      var updated := UpdateUser(id, upgraded);
      if updated.Err? { return Err(updated.error); }
      var expiresAt := IssueEmailVerificationToken(id, upgraded, hash);
      if expiresAt.Some? { tables := tables.(outbox := tables.outbox + [MailRequested(id, email, hash, expiresAt.value)]); }
      if faults.transaction {
        tables := saved;
        return Err(RepositoryFailure);
      }
      return Ok(existing);
    }

    method RestoreUserState(id: int, user: User, faults: Faults) returns (ok: bool)
      requires id in tables.users && !Taken(tables.users, id, user.name, user.email)
      modifies this`tables
      ensures ok <==> !faults.restore
      ensures tables == if ok then old(tables).(users := old(tables).users[id := user]) else old(tables)
    {
      if faults.restore { return false; }
      var updated := UpdateUser(id, user);
      return true;
    }

    /** For every pattern of failures: either the guest is upgraded and holds the new session in place of the old one, or
        sessions and user row are as before, except for what a failed compensating call could not take back.  `candidate` and
        `hash` are freshly drawn.  A token and a mail request that were committed stay. */
    method UpgradeGuestAccount(id: int, currentToken: string, username: string, email: string, password: string,
                               passwordHash: string, candidate: string, hash: string, faults: Faults) returns (r: Result<string>)
      requires (id, candidate) !in sessions
      requires id in tables.users ==> !Taken(tables.users, id, tables.users[id].name, tables.users[id].email)
      modifies this
      ensures r.Ok? <==> var name, mail, current := TrimSpace(username), TrimSpace(email), TrimSpace(currentToken);
        && name != "" && mail != "" && !IsBlank(password) && current != ""
        && !faults.hash && !faults.lookup && (id, current) in old(sessions) && !faults.issue && !faults.save
        && CanUpgrade(old(tables), id, name, mail, faults) && !faults.deleteCurrent
      ensures r.Ok? ==> r.value == candidate && sessions == old(sessions) - {(id, TrimSpace(currentToken))} + {(id, candidate)}
      ensures r.Ok? ==> UpgradeCommitted(old(tables), tables, id, TrimSpace(username), TrimSpace(email), passwordHash, hash, tokenTTL, old(clock), clock)
      ensures r.Err? && !faults.deleteCandidate ==> sessions == old(sessions)
      ensures r.Err? ==> sessions == old(sessions) || sessions == old(sessions) + {(id, candidate)}
      ensures r.Err? && !faults.restore ==> tables.users == old(tables).users
      ensures r.Err? && !faults.deleteCurrent ==> tables == old(tables)
      ensures r.Err? && tables != old(tables) ==> exists committed: Tables ::
        && UpgradeCommitted(old(tables), committed, id, TrimSpace(username), TrimSpace(email), passwordHash, hash, tokenTTL, old(clock), clock)
        && tables == committed.(users := if faults.restore then committed.users else old(tables).users)
    {
      var name, mail, current := TrimSpace(username), TrimSpace(email), TrimSpace(currentToken);
      if name == "" || mail == "" || IsBlank(password) || current == "" { return Err(InvalidInput); }
      if faults.hash { return Err(InternalFailure); }
      if faults.lookup { return Err(RepositoryFailure); }
      if (id, current) !in sessions { return Err(InvalidToken); }
      if faults.issue { return Err(TokenFailure); }
      if faults.save { return Err(RepositoryFailure); }
      sessions := sessions + {(id, candidate)};
      var original := ApplyGuestUpgrade(id, name, mail, passwordHash, hash, faults);
      if original.Err? {
        if !faults.deleteCandidate { sessions := sessions - {(id, candidate)}; }
        assert !faults.deleteCandidate ==> sessions == old(sessions);
        return Err(original.error);
      }
      ghost var committed := tables;
      if faults.deleteCurrent {
        if !faults.deleteCandidate { sessions := sessions - {(id, candidate)}; }
        assert !faults.deleteCandidate ==> sessions == old(sessions);
        var restored := RestoreUserState(id, original.value, faults);
        assert restored ==> tables.users == old(tables).users;
        assert tables == committed.(users := if faults.restore then committed.users else old(tables).users);
        return Err(RepositoryFailure);
      }
      sessions := sessions - {(id, current)};
      return Ok(candidate);
    }

    method ResetTransaction(hash: string, password: string, faults: Faults) returns (r: Result<(int, User, Token)>)
      modifies this`tables, this`clock
      ensures clock >= old(clock)
      ensures r.Err? ==> tables == old(tables)
      ensures r.Ok? ==> ResetCommitted(old(tables), tables, hash, password, old(clock), clock)
      ensures r.Ok? ==> exists now :: old(clock) <= now <= clock && CanReset(old(tables), hash, now, faults)
      ensures r.Err? ==> exists now :: old(clock) <= now <= clock && !CanReset(old(tables), hash, now, faults)
      ensures r.Ok? ==> r.value == (old(tables).resets[hash].user, old(tables).users[old(tables).resets[hash].user], old(tables).resets[hash])
    {
      var now := Now();
      if faults.transaction { assert !CanReset(tables, hash, now, faults); return Err(RepositoryFailure); }
      if hash !in tables.resets || !tables.resets[hash].IsUsable(now) { assert !CanReset(tables, hash, now, faults); return Err(InvalidToken); }
      var token := tables.resets[hash];
      if !KnownUser(tables.users, token.user) || tables.users[token.user].guest {
        assert !CanReset(tables, hash, now, faults);
        return Err(InvalidToken);
      }
      assert CanReset(tables, hash, now, faults);
      var user := tables.users[token.user];
      var later := Now();
      tables := tables.(users := tables.users[token.user := user.(password := password, updatedAt := later)]);
      later := Now();
      tables := tables.(resets := tables.resets[hash := token.Consume(later)]);
      return Ok((token.user, user, token));
    }

    /** Puts the copied originals back, both or neither. */
    method RestorePasswordResetState(id: int, user: User, hash: string, token: Token, faults: Faults) returns (ok: bool)
      modifies this`tables
      ensures ok <==> !faults.restore && id in old(tables).users
      ensures tables == if ok then old(tables).(users := old(tables).users[id := user], resets := old(tables).resets[hash := token]) else old(tables)
    {
      if faults.restore || id !in tables.users { return false; }
      tables := tables.(users := tables.users[id := user], resets := tables.resets[hash := token]);
      return true;
    }

    /** For every pattern of failures: either the password is new, the token consumed and the user signed out everywhere, or
        sessions are untouched and both rows are the originals unless the restore itself failed. */
    method ConfirmPasswordReset(token: string, hash: string, newPassword: string, passwordHash: string, faults: Faults) returns (r: Result<()>)
      modifies this
      ensures clock >= old(clock)
      ensures r.Ok? ==> ResetCommitted(old(tables), tables, hash, passwordHash, old(clock), clock)
      ensures r.Ok? ==> sessions == set s | s in old(sessions) && s.0 != old(tables).resets[hash].user
      ensures r.Ok? ==> forall t :: !tables.resets[hash].IsUsable(t)
      ensures r.Err? ==> sessions == old(sessions)
      ensures r.Err? && (!faults.restore || !faults.deleteByUser) ==> tables == old(tables)
      ensures r.Err? && tables != old(tables) ==> ResetCommitted(old(tables), tables, hash, passwordHash, old(clock), clock)
      ensures !IsBlank(token) && !IsBlank(newPassword) && !faults.lookup && !faults.hash && !faults.deleteByUser ==>
        (forall now :: old(clock) <= now <= clock ==> CanReset(old(tables), hash, now, faults)) ==> r.Ok?
      ensures r.Ok? ==> !IsBlank(token) && !IsBlank(newPassword) && !faults.lookup && !faults.hash && !faults.deleteByUser
      ensures r.Ok? ==> exists now :: old(clock) <= now <= clock && CanReset(old(tables), hash, now, faults)
    {
      if IsBlank(token) || IsBlank(newPassword) { return Err(InvalidInput); }
      if faults.lookup { return Err(RepositoryFailure); }
      if hash !in tables.resets {
        assert !CanReset(tables, hash, clock, faults);
        return Err(InvalidToken);
      }
      var id := tables.resets[hash].user;
      if faults.hash { return Err(InternalFailure); }
      var originals := ResetTransaction(hash, passwordHash, faults);
      if originals.Err? { return Err(originals.error); }
      if faults.deleteByUser {
        var restored := RestorePasswordResetState(id, originals.value.1, hash, originals.value.2, faults);
        assert restored ==> tables.users == old(tables).users && tables.resets == old(tables).resets;
        return Err(RepositoryFailure);
      }
      sessions := WithoutSessions(sessions, id);
      return Ok(());
    }
  }
}
