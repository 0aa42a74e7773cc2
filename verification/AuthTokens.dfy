/** Refresh tokens and sessions as the repositories and `AuthService` keep them
  * (backend/src/modules/auth/auth.service.ts:122-162, 318-362, 387-489,
  * backend/src/modules/auth/session.repository.ts:36-135,
  * backend/src/modules/auth/refresh-token.repository.ts:21-66). A refresh token is known by its hash,
  * and each operation is one step. */
module AuthTokens {
  import opened JsonValues
  import VerificationTokens

  datatype Session = Session(userId: string, organizationId: string, lastActiveAt: int, revokedAt: Option<int>, createdAt: int)

  datatype Token = Token(userId: string, tokenHash: string, expiresAt: int, revokedAt: Option<int>, createdAt: int,
                         sessionId: Option<string>)

  datatype Db = Db(sessions: map<string, Session>, tokens: map<string, Token>)

  const REFRESH_TOKEN_LIFETIME_MS := 30 * 24 * 3600000

  /** What a new token row needs: an id and a hash nothing has used. */
  datatype Fresh = Fresh(id: string, hash: string)

  predicate Unused(db: Db, f: Fresh) {
    f.id !in db.tokens && forall t | t in db.tokens :: db.tokens[t].tokenHash != f.hash
  }

  /** `findValidByTokenHash` would answer with row `id`. */
  predicate Finds(db: Db, id: string, hash: string, now: int) {
    id in db.tokens && db.tokens[id].tokenHash == hash && db.tokens[id].revokedAt.None? && db.tokens[id].expiresAt > now
  }

  predicate Accepts(db: Db, hash: string, now: int) {
    exists id | id in db.tokens :: Finds(db, id, hash, now)
  }

  predicate UnderSession(t: Token, session: string) {
    t.sessionId == Some(session)
  }

  // ---------------------------------------------------------------- the invariant

  ghost predicate HashesDiffer(db: Db) {
    forall i, j | i in db.tokens && j in db.tokens && db.tokens[i].tokenHash == db.tokens[j].tokenHash :: i == j
  }

  /** A token's session exists and is the same user's; while the token is unrevoked, so is the session. */
  ghost predicate SessionsBack(db: Db) {
    forall i | i in db.tokens && db.tokens[i].sessionId.Some? ::
      var session := db.tokens[i].sessionId.value;
      session in db.sessions && db.sessions[session].userId == db.tokens[i].userId &&
      (db.tokens[i].revokedAt.None? ==> db.sessions[session].revokedAt.None?)
  }

  ghost predicate OneTokenPerSession(db: Db) {
    forall i, j | i in db.tokens && j in db.tokens && db.tokens[i].sessionId.Some? &&
      db.tokens[i].sessionId == db.tokens[j].sessionId &&
      db.tokens[i].revokedAt.None? && db.tokens[j].revokedAt.None? :: i == j
  }

  ghost predicate Inv(db: Db) {
    HashesDiffer(db) && SessionsBack(db) && OneTokenPerSession(db)
  }

  // ---------------------------------------------------------------- what each operation does

  function Issued(db: Db, userId: string, session: Option<string>, f: Fresh, now: int): Db {
    db.(tokens := db.tokens[f.id := Token(userId, f.hash, now + REFRESH_TOKEN_LIFETIME_MS, None, now, session)])
  }

  function LoggedIn(db: Db, userId: string, org: string, session: string, f: Fresh, now: int): Db {
    Issued(db.(sessions := db.sessions[session := Session(userId, org, now, None, now)]), userId, Some(session), f, now)
  }

  function Revoked(db: Db, id: string, now: int): Db
    requires id in db.tokens
  {
    db.(tokens := db.tokens[id := db.tokens[id].(revokedAt := Some(now))])
  }

  function Touched(db: Db, session: string, now: int): Db {
    if session in db.sessions && db.sessions[session].revokedAt.None?
    then db.(sessions := db.sessions[session := db.sessions[session].(lastActiveAt := now)])
    else db
  }

  /** Refresh of row `id`: it is revoked whatever happens next; without an active membership that is
    * all, otherwise its successor carries the same session on. */
  function Rotated(db: Db, id: string, member: bool, f: Fresh, now: int): Db
    requires id in db.tokens
  {
    var t := db.tokens[id];
    var spent := Revoked(db, id, now);
    if !member then spent
    else Issued(if t.sessionId.Some? then Touched(spent, t.sessionId.value, now) else spent, t.userId, t.sessionId, f, now)
  }

  function SessionRevoked(db: Db, session: string, now: int): Db
    requires session in db.sessions
  {
    Db(db.sessions[session := db.sessions[session].(revokedAt := Some(now))],
       map i | i in db.tokens ::
         if UnderSession(db.tokens[i], session) && db.tokens[i].revokedAt.None? then db.tokens[i].(revokedAt := Some(now))
         else db.tokens[i])
  }

  predicate ActiveIn(s: Session, userId: string, org: string) {
    s.userId == userId && s.organizationId == org && s.revokedAt.None?
  }

  /** Revoking every session of a user in an organization; their tokens are stamped again even when
    * already revoked. */
  function AllRevoked(db: Db, userId: string, org: string, now: int): Db {
    Db(map s | s in db.sessions ::
         if ActiveIn(db.sessions[s], userId, org) then db.sessions[s].(revokedAt := Some(now)) else db.sessions[s],
       map i | i in db.tokens ::
         if db.tokens[i].sessionId.Some? && db.tokens[i].sessionId.value in db.sessions &&
            ActiveIn(db.sessions[db.tokens[i].sessionId.value], userId, org)
         then db.tokens[i].(revokedAt := Some(now))
         else db.tokens[i])
  }

  function UserRevoked(db: Db, userId: string, now: int): Db {
    db.(tokens := map i | i in db.tokens ::
      if db.tokens[i].userId == userId && db.tokens[i].revokedAt.None? then db.tokens[i].(revokedAt := Some(now))
      else db.tokens[i])
  }

  // ---------------------------------------------------------------- what every operation keeps

  lemma IssueKeeps(db: Db, userId: string, session: Option<string>, f: Fresh, now: int)
    requires Inv(db) && Unused(db, f)
    requires session.Some? ==>
      session.value in db.sessions && db.sessions[session.value].userId == userId &&
      db.sessions[session.value].revokedAt.None? &&
      forall i | i in db.tokens && UnderSession(db.tokens[i], session.value) :: db.tokens[i].revokedAt.Some?
    ensures Inv(Issued(db, userId, session, f, now))
  {}

  lemma LoginKeeps(db: Db, userId: string, org: string, session: string, f: Fresh, now: int)
    requires Inv(db) && Unused(db, f) && session !in db.sessions
    ensures Inv(LoggedIn(db, userId, org, session, f, now))
  {
    var begun := db.(sessions := db.sessions[session := Session(userId, org, now, None, now)]);
    assert Inv(begun) && Unused(begun, f);
    IssueKeeps(begun, userId, Some(session), f, now);
  }

  lemma RevokeKeeps(db: Db, id: string, now: int)
    requires Inv(db) && id in db.tokens
    ensures Inv(Revoked(db, id, now))
  {}

  lemma TouchKeeps(db: Db, session: string, now: int)
    requires Inv(db)
    ensures Inv(Touched(db, session, now))
  {}

  lemma RotateKeeps(db: Db, id: string, member: bool, f: Fresh, hash: string, now: int)
    requires Inv(db) && Unused(db, f) && Finds(db, id, hash, now)
    ensures Inv(Rotated(db, id, member, f, now))
  {
    var t, spent := db.tokens[id], Revoked(db, id, now);
    RevokeKeeps(db, id, now);
    if member {
      var touched := if t.sessionId.Some? then Touched(spent, t.sessionId.value, now) else spent;
      if t.sessionId.Some? { TouchKeeps(spent, t.sessionId.value, now); }
      IssueKeeps(touched, t.userId, t.sessionId, f, now);
    }
  }

  lemma SessionRevokeKeeps(db: Db, session: string, now: int)
    requires Inv(db) && session in db.sessions
    ensures Inv(SessionRevoked(db, session, now))
  {}

  lemma RevokeAllKeeps(db: Db, userId: string, org: string, now: int)
    requires Inv(db)
    ensures Inv(AllRevoked(db, userId, org, now))
  {}

  lemma UserRevokeKeeps(db: Db, userId: string, now: int)
    requires Inv(db)
    ensures Inv(UserRevoked(db, userId, now))
  {}

  /** Revoking all stamps exactly the user's active sessions in the organization, and every token under one of them,
    * even one already revoked. */
  lemma AllRevokedRows(db: Db, userId: string, org: string, now: int)
    requires Inv(db)
    ensures var db' := AllRevoked(db, userId, org, now);
      db'.sessions.Keys == db.sessions.Keys && db'.tokens.Keys == db.tokens.Keys &&
      (forall s | s in db'.sessions ::
         var was := db.sessions[s];
         db'.sessions[s] ==
         if was.userId == userId && was.organizationId == org && was.revokedAt.None? then was.(revokedAt := Some(now)) else was) &&
      (forall i | i in db'.tokens && db.tokens[i].sessionId.Some? :: db.tokens[i].sessionId.value in db.sessions) &&
      forall i | i in db'.tokens ::
        var was := db.tokens[i];
        db'.tokens[i] ==
        if was.sessionId.Some? && ActiveIn(db.sessions[was.sessionId.value], userId, org) then was.(revokedAt := Some(now))
        else was
  {}

  // ---------------------------------------------------------------- the service

  datatype LoginOutcome = Tokens(hash: string) | UserNotFound
  datatype RefreshOutcome = Refreshed(hash: string) | InvalidToken | NoMembership
  datatype RevokeOutcome = SessionGone | NotFound | AlreadyRevoked

  class AuthService {
    var sessions: map<string, Session>
    var tokens: map<string, Token>
    var passwords: map<string, string>
    const verification: VerificationTokens.VerificationTokenService

    function State(): Db
      reads this
    {
      Db(sessions, tokens)
    }

    ghost predicate Valid()
      reads this, verification
    {
      Inv(State()) && VerificationTokens.HashesDiffer(verification.rows)
    }

    constructor ()
      ensures Valid() && State() == Db(map[], map[]) && fresh(verification)
    {
      sessions := map[];
      tokens := map[];
      passwords := map[];
      verification := new VerificationTokens.VerificationTokenService();
    }

    method IssueTokens(userId: string, session: Option<string>, f: Fresh, now: int)
      modifies this`tokens
      ensures State() == Issued(old(State()), userId, session, f, now)
    {
      tokens := tokens[f.id := Token(userId, f.hash, now + REFRESH_TOKEN_LIFETIME_MS, None, now, session)];
    }

    /** The end of `login`, once password, membership and second factor are settled. The tokens exist
      * even when the profile turns out to be missing. */
    method Login(userId: string, org: string, session: string, f: Fresh, profileFound: bool, now: int)
      returns (outcome: LoginOutcome)
      requires Valid() && Unused(State(), f) && session !in sessions
      modifies this`sessions, this`tokens
      ensures Valid()
      ensures State() == LoggedIn(old(State()), userId, org, session, f, now)
      ensures outcome == if profileFound then Tokens(f.hash) else UserNotFound
      ensures sessions == old(sessions)[session := Session(userId, org, now, None, now)]
      ensures tokens == old(tokens)[f.id := Token(userId, f.hash, now + 2592000000, None, now, Some(session))]
      ensures Accepts(State(), f.hash, now)
    {
      LoginKeeps(State(), userId, org, session, f, now);
      sessions := sessions[session := Session(userId, org, now, None, now)];
      IssueTokens(userId, Some(session), f, now);
      assert Finds(State(), f.id, f.hash, now);
      return if profileFound then Tokens(f.hash) else UserNotFound;
    }

    /** A presented token works once: it is spent even when the refresh then fails. */
    method Refresh(hash: string, member: bool, f: Fresh, now: int) returns (outcome: RefreshOutcome)
      requires Valid() && Unused(State(), f)
      modifies this`sessions, this`tokens
      ensures Valid()
      ensures outcome == InvalidToken <==> !Accepts(old(State()), hash, now)
      ensures outcome == NoMembership <==> Accepts(old(State()), hash, now) && !member
      ensures outcome.Refreshed? ==> outcome.hash == f.hash && Accepts(State(), f.hash, now)
      ensures outcome == InvalidToken ==> State() == old(State())
      ensures forall id | Finds(old(State()), id, hash, now) ::
        State() == Rotated(old(State()), id, member, f, now) &&
        var t := old(tokens)[id];
        var spent := old(tokens)[id := t.(revokedAt := Some(now))];
        tokens == (if member then spent[f.id := Token(t.userId, f.hash, now + 2592000000, None, now, t.sessionId)] else spent) &&
        sessions ==
          (if member && t.sessionId.Some?
           then old(sessions)[t.sessionId.value := old(sessions)[t.sessionId.value].(lastActiveAt := now)]
           else old(sessions))
      ensures !Accepts(State(), hash, now)
    {
      if id :| id in tokens && Finds(State(), id, hash, now) {
        RotateKeeps(State(), id, member, f, hash, now);
        var stored := tokens[id];
        tokens := tokens[id := stored.(revokedAt := Some(now))];
        if !member { return NoMembership; }
        if stored.sessionId.Some? { TouchLastActiveAt(stored.sessionId.value, now); }
        IssueTokens(stored.userId, stored.sessionId, f, now);
        assert Finds(State(), f.id, f.hash, now);
        return Refreshed(f.hash);
      }
      return InvalidToken;
    }

    method TouchLastActiveAt(session: string, now: int)
      modifies this`sessions
      ensures State() == Touched(old(State()), session, now)
    {
      if session in sessions && sessions[session].revokedAt.None? {
        sessions := sessions[session := sessions[session].(lastActiveAt := now)];
      }
    }

    /** A token of another user is refused and stays as it was. */
    method Logout(userId: string, hash: string, now: int) returns (ok: bool)
      requires Valid()
      modifies this`tokens
      ensures Valid()
      ensures ok <==> exists id :: Finds(old(State()), id, hash, now) && old(tokens)[id].userId == userId
      ensures !ok ==> State() == old(State())
      ensures ok ==> !Accepts(State(), hash, now)
      ensures ok ==>
        forall id | Finds(old(State()), id, hash, now) ::
          State() == Revoked(old(State()), id, now) && tokens == old(tokens)[id := old(tokens)[id].(revokedAt := Some(now))]
    {
      if id :| id in tokens && Finds(State(), id, hash, now) {
        if tokens[id].userId != userId { return false; }
        RevokeKeeps(State(), id, now);
        tokens := tokens[id := tokens[id].(revokedAt := Some(now))];
        return true;
      }
      return false;
    }

    method SwitchOrganization(userId: string, member: bool, f: Fresh, now: int) returns (ok: bool)
      requires Valid() && Unused(State(), f)
      modifies this`tokens
      ensures Valid() && ok == member
      ensures State() == if member then Issued(old(State()), userId, None, f, now) else old(State())
      ensures member ==> tokens == old(tokens)[f.id := Token(userId, f.hash, now + 2592000000, None, now, None)]
    {
      if !member { return false; }
      IssueKeeps(State(), userId, None, f, now);
      IssueTokens(userId, None, f, now);
      return true;
    }

    /** `SessionsService.revoke` (backend/src/modules/security/sessions.service.ts:57-77) with the
      * repository transaction it calls. */
    method RevokeSession(session: string, userId: string, org: string, now: int) returns (outcome: RevokeOutcome)
      requires Valid()
      modifies this`sessions, this`tokens
      ensures Valid()
      ensures outcome == NotFound <==>
        !(session in old(sessions) && old(sessions)[session].userId == userId && old(sessions)[session].organizationId == org)
      ensures outcome == AlreadyRevoked ==> session in old(sessions) && old(sessions)[session].revokedAt.Some?
      ensures outcome == SessionGone ==>
        session in old(sessions) && ActiveIn(old(sessions)[session], userId, org) &&
        State() == SessionRevoked(old(State()), session, now) &&
        sessions == old(sessions)[session := old(sessions)[session].(revokedAt := Some(now))] &&
        tokens.Keys == old(tokens).Keys &&
        forall i | i in tokens ::
          tokens[i] ==
          if old(tokens)[i].sessionId == Some(session) && old(tokens)[i].revokedAt.None?
          then old(tokens)[i].(revokedAt := Some(now))
          else old(tokens)[i]
      ensures outcome != SessionGone ==> State() == old(State())
    {
      if session !in sessions || sessions[session].userId != userId || sessions[session].organizationId != org {
        return NotFound;
      }
      if sessions[session].revokedAt.Some? { return AlreadyRevoked; }
      SessionRevokeKeeps(State(), session, now);
      sessions := sessions[session := sessions[session].(revokedAt := Some(now))];
      tokens := map i | i in tokens ::
        if UnderSession(tokens[i], session) && tokens[i].revokedAt.None? then tokens[i].(revokedAt := Some(now)) else tokens[i];
      return SessionGone;
    }

    method RevokeAllForUserInOrganization(userId: string, org: string, now: int)
      requires Valid()
      modifies this`sessions, this`tokens
      ensures Valid()
      ensures State() == AllRevoked(old(State()), userId, org, now)
    {
      hide Inv;
      ghost var revoked := AllRevoked(State(), userId, org, now);
      RevokeAllKeeps(State(), userId, org, now);
      var activeSessions := set s | s in sessions && ActiveIn(sessions[s], userId, org);
      sessions := map s | s in sessions ::
        if ActiveIn(sessions[s], userId, org) then sessions[s].(revokedAt := Some(now)) else sessions[s];
      assert sessions == revoked.sessions;
      tokens := map i | i in tokens ::
        if tokens[i].sessionId.Some? && tokens[i].sessionId.value in activeSessions
        then tokens[i].(revokedAt := Some(now))
        else tokens[i];
      assert tokens == revoked.tokens;
      assert State() == revoked;
    }

    /** The one-time token decides whose password changes; all that user's refresh tokens go with it. */
    method ResetPassword(resetHash: string, passwordHash: string, now: int) returns (userId: Option<string>)
      requires Valid()
      modifies this`tokens, this`passwords, verification
      ensures Valid()
      ensures userId.Some? <==>
        VerificationTokens.Accepts(old(verification.rows), resetHash, VerificationTokens.PasswordReset, now)
      ensures !VerificationTokens.Accepts(verification.rows, resetHash, VerificationTokens.PasswordReset, now)
      ensures userId.None? ==> State() == old(State()) && passwords == old(passwords)
      ensures userId.Some? ==>
        State() == UserRevoked(old(State()), userId.value, now) &&
        tokens.Keys == old(tokens).Keys &&
        (forall i | i in tokens ::
           tokens[i] ==
           if old(tokens)[i].userId == userId.value && old(tokens)[i].revokedAt.None? then old(tokens)[i].(revokedAt := Some(now))
           else old(tokens)[i]) &&
        passwords == old(passwords)[userId.value := passwordHash]
    {
      userId := verification.ConsumeToken(resetHash, VerificationTokens.PasswordReset, now);
      if userId.None? { return; }
      var user := userId.value;
      UserRevokeKeeps(State(), user, now);
      passwords := passwords[user := passwordHash];
      tokens := map i | i in tokens ::
        if tokens[i].userId == user && tokens[i].revokedAt.None? then tokens[i].(revokedAt := Some(now)) else tokens[i];
    }
  }
}
