/** What holds of refresh tokens and sessions over whole runs of logins, refreshes, logouts,
  * revocations, organization switches and password resets
  * (backend/src/modules/auth/auth.service.ts:318-362, 387-445 and
  * backend/src/modules/auth/session.repository.ts:102-135). */
module AuthRuns {
  import opened JsonValues
  import opened AuthTokens

  /** `Switch` stands for every issue of tokens without a session. */
  datatype Action =
    | Login(userId: string, org: string, session: string, f: Fresh, now: int)
    | Refresh(hash: string, member: bool, f: Fresh, now: int)
    | Logout(userId: string, hash: string, now: int)
    | RevokeSession(session: string, now: int)
    | RevokeAll(userId: string, org: string, now: int)
    | Switch(userId: string, f: Fresh, now: int)
    | ResetPassword(userId: string, now: int)

  ghost function Found(db: Db, hash: string, now: int): Option<string> {
    if id :| Finds(db, id, hash, now) then Some(id) else None
  }

  predicate Enabled(db: Db, a: Action) {
    match a
    case Login(_, _, session, f, _) => Unused(db, f) && session !in db.sessions
    case Refresh(_, _, f, _) => Unused(db, f)
    case RevokeSession(session, _) => session in db.sessions
    case Switch(_, f, _) => Unused(db, f)
    case _ => true
  }

  ghost function Next(db: Db, a: Action): Db
    requires Enabled(db, a)
  {
    match a
    case Login(userId, org, session, f, now) => LoggedIn(db, userId, org, session, f, now)
    case Refresh(hash, member, f, now) =>
      var id := Found(db, hash, now);
      if id.Some? then Rotated(db, id.value, member, f, now) else db
    case Logout(userId, hash, now) =>
      var id := Found(db, hash, now);
      if id.Some? && db.tokens[id.value].userId == userId then Revoked(db, id.value, now) else db
    case RevokeSession(session, now) => SessionRevoked(db, session, now)
    case RevokeAll(userId, org, now) => AllRevoked(db, userId, org, now)
    case Switch(userId, f, now) => Issued(db, userId, None, f, now)
    case ResetPassword(userId, now) => UserRevoked(db, userId, now)
  }

  datatype Run = Run(acts: seq<Action>, states: seq<Db>)

  ghost predicate IsRun(run: Run) {
    |run.states| == |run.acts| + 1 && Inv(run.states[0]) &&
    forall i | 0 <= i < |run.acts| ::
      Enabled(run.states[i], run.acts[i]) && run.states[i + 1] == Next(run.states[i], run.acts[i])
  }

  lemma StepKeeps(db: Db, a: Action)
    requires Inv(db) && Enabled(db, a)
    ensures Inv(Next(db, a))
  {
    hide Inv, LoggedIn, Rotated, Revoked, SessionRevoked, AllRevoked, Issued, UserRevoked;
    match a
    case Login(userId, org, session, f, now) => LoginKeeps(db, userId, org, session, f, now);
    case Refresh(hash, member, f, now) =>
      var id := Found(db, hash, now);
      if id.Some? { RotateKeeps(db, id.value, member, f, hash, now); }
    case Logout(userId, hash, now) =>
      var id := Found(db, hash, now);
      if id.Some? { RevokeKeeps(db, id.value, now); }
    case RevokeSession(session, now) => SessionRevokeKeeps(db, session, now);
    case RevokeAll(userId, org, now) => RevokeAllKeeps(db, userId, org, now);
    case Switch(userId, f, now) => IssueKeeps(db, userId, None, f, now);
    case ResetPassword(userId, now) => UserRevokeKeeps(db, userId, now);
  }

  /** In every reachable state an unrevoked token's session is unrevoked, and no session has two
    * unrevoked tokens. */
  lemma {:induction false} RunKeeps(run: Run, n: nat)
    requires IsRun(run) && n <= |run.acts|
    ensures Inv(run.states[n])
  {
    if n > 0 {
      hide Inv, Next, Enabled;
      RunKeeps(run, n - 1);
      StepKeeps(run.states[n - 1], run.acts[n - 1]);
    }
  }

  // ---------------------------------------------------------------- rows only ever get revoked

  /** Each token row stays, keeps its owner, hash, session and expiry, and never loses its revocation; nor does a session. */
  ghost predicate RowsGrow(before: Db, after: Db) {
    (forall i | i in before.tokens ::
       i in after.tokens && after.tokens[i].userId == before.tokens[i].userId &&
       after.tokens[i].tokenHash == before.tokens[i].tokenHash && after.tokens[i].sessionId == before.tokens[i].sessionId &&
       after.tokens[i].expiresAt == before.tokens[i].expiresAt &&
       (before.tokens[i].revokedAt.Some? ==> after.tokens[i].revokedAt.Some?)) &&
    (forall s | s in before.sessions ::
       s in after.sessions && after.sessions[s].userId == before.sessions[s].userId &&
       after.sessions[s].organizationId == before.sessions[s].organizationId &&
       (before.sessions[s].revokedAt.Some? ==> after.sessions[s].revokedAt.Some?))
  }

  lemma IssueGrows(db: Db, userId: string, session: Option<string>, f: Fresh, now: int)
    requires Unused(db, f)
    ensures RowsGrow(db, Issued(db, userId, session, f, now))
  {}

  lemma RevokedGrows(db: Db, id: string, now: int)
    requires id in db.tokens
    ensures RowsGrow(db, Revoked(db, id, now))
  {}

  lemma RotatedGrows(db: Db, id: string, member: bool, f: Fresh, now: int)
    requires id in db.tokens && Unused(db, f)
    ensures RowsGrow(db, Rotated(db, id, member, f, now))
  {}

  lemma RevocationsGrow(db: Db, session: string, userId: string, org: string, now: int)
    ensures session in db.sessions ==> RowsGrow(db, SessionRevoked(db, session, now))
    ensures RowsGrow(db, AllRevoked(db, userId, org, now))
    ensures RowsGrow(db, UserRevoked(db, userId, now))
  {}

  lemma StepGrows(db: Db, a: Action)
    requires Enabled(db, a)
    ensures RowsGrow(db, Next(db, a))
  {
    GrowsFromSelf(db);
    hide Revoked, Rotated, SessionRevoked, AllRevoked, UserRevoked;
    match a
    case Login(userId, org, session, f, now) =>
    case Refresh(hash, member, f, now) =>
      var id := Found(db, hash, now);
      if id.Some? { RotatedGrows(db, id.value, member, f, now); }
    case Logout(userId, hash, now) =>
      var id := Found(db, hash, now);
      if id.Some? { RevokedGrows(db, id.value, now); }
    case RevokeSession(session, now) => RevocationsGrow(db, session, "", "", now);
    case RevokeAll(userId, org, now) => RevocationsGrow(db, "", userId, org, now);
    case Switch(userId, f, now) => IssueGrows(db, userId, None, f, now);
    case ResetPassword(userId, now) => RevocationsGrow(db, "", userId, "", now);
  }

  lemma {:induction false} RunGrows(run: Run, i: nat, j: nat)
    requires IsRun(run) && i <= j <= |run.acts|
    ensures RowsGrow(run.states[i], run.states[j])
  {
    hide Inv, Next, Enabled, RowsGrow;
    if i < j {
      RunGrows(run, i, j - 1);
      StepGrows(run.states[j - 1], run.acts[j - 1]);
      GrowsOn(run.states[i], run.states[j - 1], run.states[j]);
    } else {
      GrowsFromSelf(run.states[i]);
    }
  }

  lemma GrowsOn(a: Db, b: Db, c: Db)
    requires RowsGrow(a, b) && RowsGrow(b, c)
    ensures RowsGrow(a, c)
  {}

  lemma GrowsFromSelf(db: Db)
    ensures RowsGrow(db, db)
  {}

  /** No token under the session can be used. */
  ghost predicate Dead(db: Db, session: string) {
    session in db.sessions &&
    forall i | i in db.tokens && UnderSession(db.tokens[i], session) :: db.tokens[i].revokedAt.Some?
  }

  lemma StepKeepsDead(db: Db, a: Action, session: string)
    requires Enabled(db, a) && Dead(db, session)
    ensures Dead(Next(db, a), session)
  {}

  /** A session without a usable token never gets one again: only rotation carries a session on, and
    * rotation needs a usable token. */
  lemma {:induction false} DeadSessionStaysDead(run: Run, i: nat, j: nat, session: string)
    requires IsRun(run) && i <= j <= |run.acts| && Dead(run.states[i], session)
    ensures Dead(run.states[j], session)
  {
    if i < j {
      hide Inv, Next, Enabled, Dead;
      DeadSessionStaysDead(run, i, j - 1, session);
      StepKeepsDead(run.states[j - 1], run.acts[j - 1], session);
    }
  }

  // ---------------------------------------------------------------- descent by rotation

  /** Token `id` comes from `session`: it was issued at the login that opened it, or under it before the
    * run began, or in exchange for a token that comes from it. */
  ghost predicate Descends(run: Run, n: nat, id: string, session: string)
    requires IsRun(run) && n <= |run.acts|
  {
    if n == 0 then id in run.states[0].tokens && UnderSession(run.states[0].tokens[id], session)
    else
      var a, db := run.acts[n - 1], run.states[n - 1];
      Descends(run, n - 1, id, session) ||
      (a.Login? && a.session == session && a.f.id == id) ||
      (a.Refresh? && a.member && a.f.id == id && Found(db, a.hash, a.now).Some? &&
       Descends(run, n - 1, Found(db, a.hash, a.now).value, session))
  }

  /** Rotation carries the session on: the tokens recorded under a session are exactly those that
    * descend from it. */
  lemma {:induction false} DescentExact(run: Run, n: nat, id: string, session: string)
    requires IsRun(run) && n <= |run.acts|
    ensures Descends(run, n, id, session) <==>
      id in run.states[n].tokens && UnderSession(run.states[n].tokens[id], session)
  {
    if n > 0 {
      hide Inv, Next, Enabled, Found;
      var a, db := run.acts[n - 1], run.states[n - 1];
      DescentExact(run, n - 1, id, session);
      if a.Refresh? && Found(db, a.hash, a.now).Some? {
        DescentExact(run, n - 1, Found(db, a.hash, a.now).value, session);
      }
      DescentStep(db, a, id, session);
    }
  }

  ghost predicate Under(db: Db, id: string, session: string) {
    id in db.tokens && UnderSession(db.tokens[id], session)
  }

  lemma DescentStep(db: Db, a: Action, id: string, session: string)
    requires Enabled(db, a)
    ensures Under(Next(db, a), id, session) <==>
      Under(db, id, session) ||
      (a.Login? && a.session == session && a.f.id == id) ||
      (a.Refresh? && a.member && a.f.id == id && Found(db, a.hash, a.now).Some? &&
       Under(db, Found(db, a.hash, a.now).value, session))
  {}

  // ---------------------------------------------------------------- what revocation guarantees

  /** After a session is revoked, no token that ever descends from it is accepted again. */
  lemma SessionRevokeIsFinal(run: Run, i: nat, j: nat, session: string, id: string, hash: string, at: int)
    requires IsRun(run) && i < j <= |run.acts|
    requires run.acts[i].RevokeSession? && run.acts[i].session == session
    requires Descends(run, j, id, session)
    ensures !Finds(run.states[j], id, hash, at)
  {
    hide Inv, Descends, IsRun;
    StepOf(run, i);
    assert Dead(run.states[i + 1], session);
    DeadSessionStaysDead(run, i + 1, j, session);
    DescentExact(run, j, id, session);
  }

  lemma StepOf(run: Run, n: nat)
    requires IsRun(run) && n < |run.acts|
    ensures |run.states| == |run.acts| + 1
    ensures Enabled(run.states[n], run.acts[n]) && run.states[n + 1] == Next(run.states[n], run.acts[n])
  {}

  /** The same for every session of the user that revoking all of them in an organization closes. */
  lemma RevokeAllIsFinal(run: Run, i: nat, j: nat, session: string, id: string, hash: string, at: int)
    requires IsRun(run) && i < j <= |run.acts| && run.acts[i].RevokeAll?
    requires session in run.states[i].sessions
    requires ActiveIn(run.states[i].sessions[session], run.acts[i].userId, run.acts[i].org)
    requires Descends(run, j, id, session)
    ensures !Finds(run.states[j], id, hash, at)
  {
    hide Inv, Descends, IsRun;
    StepOf(run, i);
    assert Dead(run.states[i + 1], session);
    DeadSessionStaysDead(run, i + 1, j, session);
    DescentExact(run, j, id, session);
  }

  /** After a password reset no token the user held before is accepted again, and neither is any token
    * that descends from a session the user had before. */
  lemma PasswordResetIsFinal(run: Run, i: nat, j: nat, id: string, hash: string, at: int)
    requires IsRun(run) && i < j <= |run.acts| && run.acts[i].ResetPassword?
    requires
      (id in run.states[i].tokens && run.states[i].tokens[id].userId == run.acts[i].userId) ||
      (exists session :: session in run.states[i].sessions &&
         run.states[i].sessions[session].userId == run.acts[i].userId && Descends(run, j, id, session))
    ensures !Finds(run.states[j], id, hash, at)
  {
    hide Descends, IsRun;
    StepOf(run, i);
    if id in run.states[i].tokens && run.states[i].tokens[id].userId == run.acts[i].userId {
      RunGrows(run, i + 1, j);
    } else {
      var session :| session in run.states[i].sessions &&
        run.states[i].sessions[session].userId == run.acts[i].userId && Descends(run, j, id, session);
      RunKeeps(run, i);
      assert Dead(run.states[i + 1], session);
      DeadSessionStaysDead(run, i + 1, j, session);
      DescentExact(run, j, id, session);
    }
  }

  /** A token that has been presented once, for a refresh that succeeded or failed or for a logout that
    * succeeded, is refused ever after. */
  lemma PresentedTokenIsSpent(run: Run, i: nat, j: nat, at: int)
    requires IsRun(run) && i < j <= |run.acts|
    requires run.acts[i].Refresh? || (run.acts[i].Logout? && run.states[i + 1] != run.states[i])
    requires Accepts(run.states[i], run.acts[i].hash, run.acts[i].now)
    ensures !Accepts(run.states[j], run.acts[i].hash, at)
  {
    hide Inv, IsRun;
    StepOf(run, i);
    var a, db := run.acts[i], run.states[i];
    var id := Found(db, a.hash, a.now).value;
    assert Finds(db, id, a.hash, a.now);
    assert run.states[i + 1].tokens[id].revokedAt.Some?;
    RunGrows(run, i + 1, j);
    RunKeeps(run, j);
    OneRowPerHash(run.states[j], id, a.hash, at);
  }

  lemma OneRowPerHash(db: Db, id: string, hash: string, at: int)
    requires Inv(db) && id in db.tokens && db.tokens[id].tokenHash == hash && db.tokens[id].revokedAt.Some?
    ensures !Accepts(db, hash, at)
  {}

  /** The action revokes the session. */
  predicate Closes(a: Action, id: string, s: Session) {
    (a.RevokeSession? && a.session == id) || (a.RevokeAll? && a.userId == s.userId && a.org == s.organizationId)
  }

  lemma StepClosesExactly(db: Db, a: Action, id: string)
    requires Enabled(db, a) && id in db.sessions
    ensures id in Next(db, a).sessions
    ensures Next(db, a).sessions[id].revokedAt.Some? <==> db.sessions[id].revokedAt.Some? || Closes(a, id, db.sessions[id])
  {}

  /** A session is revoked exactly when it was, or when some action of the run revoked it or all its user's sessions in its
    * organization; from then on it stays revoked. */
  lemma {:induction false} SessionRevokedExactly(run: Run, i: nat, n: nat, id: string)
    requires IsRun(run) && i <= n <= |run.acts| && id in run.states[i].sessions
    ensures id in run.states[n].sessions
    ensures
      var s := run.states[i].sessions[id];
      run.states[n].sessions[id].revokedAt.Some? <==>
      s.revokedAt.Some? || exists k :: i <= k < n && Closes(run.acts[k], id, s)
  {
    hide Next, Enabled, Inv;
    if i < n {
      StepOf(run, n - 1);
      hide IsRun, Closes;
      SessionRevokedExactly(run, i, n - 1, id);
      SessionOwner(run, i, n - 1, id);
      StepClosesExactly(run.states[n - 1], run.acts[n - 1], id);
      var s, was, last := run.states[i].sessions[id], run.states[n - 1].sessions[id], run.acts[n - 1];
      assert Closes(last, id, was) <==> Closes(last, id, s) by { ClosesOwner(last, id, was, s); }
    }
  }

  lemma ClosesOwner(a: Action, id: string, s: Session, s': Session)
    requires s.userId == s'.userId && s.organizationId == s'.organizationId
    ensures Closes(a, id, s) <==> Closes(a, id, s')
  {}

  lemma SessionOwner(run: Run, i: nat, n: nat, id: string)
    requires IsRun(run) && i <= n <= |run.acts| && id in run.states[i].sessions
    ensures id in run.states[n].sessions
    ensures run.states[n].sessions[id].userId == run.states[i].sessions[id].userId
    ensures run.states[n].sessions[id].organizationId == run.states[i].sessions[id].organizationId
  {
    hide Inv, Next, Enabled;
    RunGrows(run, i, n);
  }

  // ---------------------------------------------------------------- and what it leaves alone

  /** The action is one that must end the token. */
  predicate Ends(db: Db, a: Action, t: Token) {
    match a
    case Refresh(hash, _, _, now) => hash == t.tokenHash && now < t.expiresAt
    case Logout(userId, hash, now) => hash == t.tokenHash && now < t.expiresAt && userId == t.userId
    case RevokeSession(session, _) => UnderSession(t, session)
    case RevokeAll(userId, org, _) =>
      t.sessionId.Some? && t.sessionId.value in db.sessions && ActiveIn(db.sessions[t.sessionId.value], userId, org)
    case ResetPassword(userId, _) => userId == t.userId
    case _ => false
  }

  lemma StepEndsExactly(db: Db, a: Action, id: string)
    requires Inv(db) && Enabled(db, a) && id in db.tokens && db.tokens[id].revokedAt.None?
    ensures id in Next(db, a).tokens
    ensures Next(db, a).tokens[id] == db.tokens[id] || Next(db, a).tokens[id].revokedAt.Some?
    ensures Next(db, a).tokens[id].revokedAt.Some? <==> Ends(db, a, db.tokens[id])
  {
    hide SessionsBack, OneTokenPerSession;
    if (a.Refresh? || a.Logout?) && Ends(db, a, db.tokens[id]) {
      assert Finds(db, id, a.hash, a.now);
    }
  }

  /** A login, a switch and a refresh that finds its token and a membership each hand out a token that is accepted for
    * thirty days, until something ends it; a refresh that finds none issues nothing. */
  lemma NewTokenAccepted(db: Db, a: Action, at: int)
    requires Enabled(db, a) && (a.Login? || a.Switch? || a.Refresh?)
    ensures
      if a.Refresh? && !(a.member && Accepts(db, a.hash, a.now)) then a.f.id !in Next(db, a).tokens
      else Finds(Next(db, a), a.f.id, a.f.hash, at) <==> at < a.now + 2592000000
  {
    if a.Refresh? && Accepts(db, a.hash, a.now) {
      var id :| id in db.tokens && Finds(db, id, a.hash, a.now);
      assert Found(db, a.hash, a.now).Some?;
    }
  }

  /** A token stays usable until it expires, exactly as long as no action of the run ends it: it is not
    * presented, its session is not revoked, and its user's password is not reset. */
  lemma {:induction false} UsableExactly(run: Run, i: nat, n: nat, id: string, at: int)
    requires IsRun(run) && i <= n <= |run.acts| && id in run.states[i].tokens
    requires run.states[i].tokens[id].revokedAt.None?
    ensures var t := run.states[i].tokens[id];
      Finds(run.states[n], id, t.tokenHash, at) <==>
      at < t.expiresAt && forall k | i <= k < n :: !Ends(run.states[k], run.acts[k], t)
  {
    hide Inv, Next, Enabled, Ends;
    var t := run.states[i].tokens[id];
    if i < n {
      UsableExactly(run, i, n - 1, id, t.expiresAt - 1);
      UsableExactly(run, i, n - 1, id, at);
      RunGrows(run, i, n - 1);
      RunGrows(run, n - 1, n);
      if forall k | i <= k < n - 1 :: !Ends(run.states[k], run.acts[k], t) {
        UntouchedRow(run, i, n - 1, id);
        RunKeeps(run, n - 1);
        StepEndsExactly(run.states[n - 1], run.acts[n - 1], id);
      }
    }
  }

  lemma {:induction false} UntouchedRow(run: Run, i: nat, n: nat, id: string)
    requires IsRun(run) && i <= n <= |run.acts| && id in run.states[i].tokens
    requires run.states[i].tokens[id].revokedAt.None?
    requires forall k | i <= k < n :: !Ends(run.states[k], run.acts[k], run.states[i].tokens[id])
    ensures id in run.states[n].tokens && run.states[n].tokens[id] == run.states[i].tokens[id]
  {
    if i < n {
      hide Inv, Next, Enabled, Ends;
      UntouchedRow(run, i, n - 1, id);
      RunKeeps(run, n - 1);
      StepEndsExactly(run.states[n - 1], run.acts[n - 1], id);
    }
  }
}
