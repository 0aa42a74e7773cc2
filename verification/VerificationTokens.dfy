/** One-time tokens for email verification and password reset
  * (backend/src/modules/auth/verification-token.service.ts:35-67 over
  * backend/src/modules/auth/verification-token.repository.ts:19-66). A token is known by its hash. */
module VerificationTokens {
  import opened JsonValues

  datatype Kind = EmailVerification | PasswordReset

  datatype Row = Row(userId: string, tokenHash: string, kind: Kind, expiresAt: int, usedAt: Option<int>, createdAt: int)

  type Table = map<string, Row>

  const HOUR_MS := 3600000

  function LifetimeMs(kind: Kind): int {
    match kind
    case EmailVerification => 24 * HOUR_MS
    case PasswordReset => HOUR_MS
  }

  predicate Usable(row: Row, now: int) {
    row.usedAt.None? && row.expiresAt > now
  }

  predicate Matches(row: Row, hash: string, kind: Kind, now: int) {
    row.tokenHash == hash && row.kind == kind && Usable(row, now)
  }

  ghost predicate Accepts(rows: Table, hash: string, kind: Kind, now: int) {
    exists id :: id in rows && Matches(rows[id], hash, kind, now)
  }

  ghost predicate HashesDiffer(rows: Table) {
    forall i, j | i in rows && j in rows && rows[i].tokenHash == rows[j].tokenHash :: i == j
  }

  /** A user has at most one token of a kind that could still be used. */
  ghost predicate OneUsable(rows: Table, now: int) {
    forall i, j | i in rows && j in rows && Usable(rows[i], now) && Usable(rows[j], now) &&
      rows[i].userId == rows[j].userId && rows[i].kind == rows[j].kind :: i == j
  }

  function Invalidated(rows: Table, userId: string, kind: Kind, now: int): Table {
    map id | id in rows ::
      if rows[id].userId == userId && rows[id].kind == kind && Usable(rows[id], now) then rows[id].(usedAt := Some(now))
      else rows[id]
  }

  function Issued(rows: Table, userId: string, kind: Kind, id: string, hash: string, now: int): Table {
    Invalidated(rows, userId, kind, now)[id := Row(userId, hash, kind, now + LifetimeMs(kind), None, now)]
  }

  /** The matching row is marked; there is only one when hashes differ. */
  function Consumed(rows: Table, hash: string, kind: Kind, now: int): Table {
    map id | id in rows ::
      if Matches(rows[id], hash, kind, now) then rows[id].(usedAt := Some(now)) else rows[id]
  }

  class VerificationTokenService {
    var rows: Table

    constructor ()
      ensures rows == map[]
    {
      rows := map[];
    }

    method IssueToken(userId: string, kind: Kind, id: string, hash: string, now: int)
      requires HashesDiffer(rows) && id !in rows && forall i | i in rows :: rows[i].tokenHash != hash
      modifies this
      ensures HashesDiffer(rows)
      ensures rows == Issued(old(rows), userId, kind, id, hash, now)
      ensures rows.Keys == old(rows).Keys + {id}
      ensures rows[id] == Row(userId, hash, kind, now + (if kind == PasswordReset then 3600000 else 86400000), None, now)
      ensures forall i | i in old(rows) ::
        var was := old(rows)[i];
        rows[i] ==
        if was.userId == userId && was.kind == kind && was.usedAt.None? && was.expiresAt > now then was.(usedAt := Some(now))
        else was
      ensures Matches(rows[id], hash, kind, now)
      ensures forall i | i in rows && rows[i].userId == userId && rows[i].kind == kind && Usable(rows[i], now) :: i == id
    {
      rows := Invalidated(rows, userId, kind, now);
      rows := rows[id := Row(userId, hash, kind, now + LifetimeMs(kind), None, now)];
    }

    method ConsumeToken(hash: string, kind: Kind, now: int) returns (userId: Option<string>)
      requires HashesDiffer(rows)
      modifies this
      ensures HashesDiffer(rows)
      ensures rows == Consumed(old(rows), hash, kind, now)
      ensures rows.Keys == old(rows).Keys
      ensures forall i | i in rows ::
        var was := old(rows)[i];
        rows[i] ==
        if was.tokenHash == hash && was.kind == kind && was.usedAt.None? && was.expiresAt > now then was.(usedAt := Some(now))
        else was
      ensures userId.Some? <==> Accepts(old(rows), hash, kind, now)
      ensures userId.Some? ==>
        exists id :: id in old(rows) && old(rows)[id].tokenHash == hash && old(rows)[id].userId == userId.value
      ensures !Accepts(rows, hash, kind, now)
    {
      if id :| id in rows && Matches(rows[id], hash, kind, now) {
        userId := Some(rows[id].userId);
        rows := rows[id := rows[id].(usedAt := Some(now))];
      } else {
        userId := None;
        assert rows == Consumed(rows, hash, kind, now);
      }
    }
  }

  // ---------------------------------------------------------------- whole histories

  datatype Event =
    | Issue(userId: string, kind: Kind, id: string, hash: string, at: int)
    | Consume(hash: string, kind: Kind, at: int)

  function Apply(rows: Table, e: Event): Table {
    match e
    case Issue(userId, kind, id, hash, at) => Issued(rows, userId, kind, id, hash, at)
    case Consume(hash, kind, at) => Consumed(rows, hash, kind, at)
  }

  function Replay(h: seq<Event>): Table {
    if h == [] then map[] else Apply(Replay(h[..|h|-1]), h[|h|-1])
  }

  /** Time does not run backwards, and no two tokens share an id or a hash. */
  ghost predicate Proper(h: seq<Event>) {
    (forall i, j | 0 <= i < j < |h| :: h[i].at <= h[j].at) &&
    (forall i, j | 0 <= i < j < |h| && h[i].Issue? && h[j].Issue? :: h[i].id != h[j].id && h[i].hash != h[j].hash)
  }

  /** A later event takes the token of issue `i` out of use. */
  predicate Spends(issue: Event, e: Event)
    requires issue.Issue?
  {
    match e
    case Issue(userId, kind, _, _, _) => userId == issue.userId && kind == issue.kind
    case Consume(hash, kind, _) => hash == issue.hash && kind == issue.kind
  }

  ghost predicate Unspent(h: seq<Event>, i: nat, now: int) {
    i < |h| && h[i].Issue? && now < h[i].at + LifetimeMs(h[i].kind) &&
    forall j | i < j < |h| :: !Spends(h[i], h[j])
  }

  /** The row of issue `i`, as the history leaves it. */
  ghost predicate RowOf(h: seq<Event>, i: nat, now: int)
    requires i < |h| && h[i].Issue?
  {
    var rows := Replay(h);
    h[i].id in rows &&
    (rows[h[i].id].userId, rows[h[i].id].tokenHash, rows[h[i].id].kind, rows[h[i].id].expiresAt) ==
      (h[i].userId, h[i].hash, h[i].kind, h[i].at + LifetimeMs(h[i].kind)) &&
    (Usable(rows[h[i].id], now) <==> Unspent(h, i, now))
  }

  lemma ProperPrefix(h: seq<Event>)
    requires Proper(h) && h != []
    ensures Proper(h[..|h|-1])
  {}

  lemma UnspentStep(h: seq<Event>, i: nat, now: int)
    requires h != [] && i < |h| - 1
    ensures Unspent(h, i, now) <==> Unspent(h[..|h|-1], i, now) && !Spends(h[i], h[|h|-1])
  {}

  lemma {:induction false} RowsExact(h: seq<Event>, now: int)
    requires Proper(h) && forall i | 0 <= i < |h| :: h[i].at <= now
    ensures forall i: nat | i < |h| && h[i].Issue? :: RowOf(h, i, now)
  {
    if h != [] {
      var n := |h| - 1;
      ProperPrefix(h);
      RowsExact(h[..n], h[n].at);
      RowsExact(h[..n], now);
      hide Proper, Replay, RowOf;
      forall i: nat | i < |h| && h[i].Issue? ensures RowOf(h, i, now) {
        if i < n {
          assert h[..n][i] == h[i];
          RowStep(h, i, now);
        } else {
          NewRow(h, now);
        }
      }
    }
  }

  lemma NewRow(h: seq<Event>, now: int)
    requires h != [] && h[|h|-1].Issue?
    ensures RowOf(h, |h| - 1, now)
  {}

  lemma {:induction false} OnlyIssuedRows(h: seq<Event>, id: string)
    requires id in Replay(h)
    ensures exists i: nat :: i < |h| && h[i].Issue? && h[i].id == id
  {
    var n := |h| - 1;
    if id in Replay(h[..n]) {
      OnlyIssuedRows(h[..n], id);
      var i: nat :| i < n && h[..n][i].Issue? && h[..n][i].id == id;
      assert h[i].Issue? && h[i].id == id;
    }
  }

  lemma RowStep(h: seq<Event>, i: nat, now: int)
    requires h != [] && Proper(h) && i < |h| - 1 && h[i].Issue? && h[|h|-1].at <= now
    requires RowOf(h[..|h|-1], i, now) && RowOf(h[..|h|-1], i, h[|h|-1].at)
    ensures RowOf(h, i, now)
  {
    hide Proper;
    var n := |h| - 1;
    assert h[..n][i] == h[i];
    UnspentStep(h, i, now);
    var before, after := Replay(h[..n])[h[i].id], Replay(h)[h[i].id];
    match h[n]
    case Issue(userId, kind, id, hash, at) =>
      assert id != h[i].id by { IdsDiffer(h, i, n); }
    case Consume(hash, kind, at) =>
  }

  lemma IdsDiffer(h: seq<Event>, i: nat, j: nat)
    requires Proper(h) && i < j < |h| && h[i].Issue? && h[j].Issue?
    ensures h[i].id != h[j].id
  {}

  /** A token is accepted exactly when it was issued for that purpose, has not expired, and neither a
    * newer token of the same user and kind nor an attempt to use it has come since. */
  lemma AcceptedExactly(h: seq<Event>, hash: string, kind: Kind, now: int)
    requires Proper(h) && forall i | 0 <= i < |h| :: h[i].at <= now
    ensures Accepts(Replay(h), hash, kind, now) <==>
      exists i: nat :: i < |h| && Unspent(h, i, now) && h[i].hash == hash && h[i].kind == kind
  {
    hide Replay, Proper, Unspent, Usable;
    RowsExact(h, now);
    if Accepts(Replay(h), hash, kind, now) {
      var id :| id in Replay(h) && Matches(Replay(h)[id], hash, kind, now);
      OnlyIssuedRows(h, id);
      var i: nat :| i < |h| && h[i].Issue? && h[i].id == id;
      assert RowOf(h, i, now);
    }
    forall i: nat | i < |h| && Unspent(h, i, now) ensures Accepts(Replay(h), h[i].hash, h[i].kind, now) {
      UnspentIssue(h, i, now);
      assert RowOf(h, i, now);
      assert h[i].id in Replay(h);
    }
  }

  lemma UnspentIssue(h: seq<Event>, i: nat, now: int)
    requires Unspent(h, i, now)
    ensures i < |h| && h[i].Issue?
  {}

  lemma SpentLater(h: seq<Event>, i: nat, j: nat, now: int)
    requires i < j < |h| && h[i].Issue? && Spends(h[i], h[j])
    ensures !Unspent(h, i, now)
  {}

  /** After any history a user has at most one usable token of each kind. */
  lemma AtMostOneUsable(h: seq<Event>, now: int)
    requires Proper(h) && forall i | 0 <= i < |h| :: h[i].at <= now
    ensures OneUsable(Replay(h), now)
  {
    hide Replay, Unspent, Proper;
    RowsExact(h, now);
    var rows := Replay(h);
    forall a, b | a in rows && b in rows && Usable(rows[a], now) && Usable(rows[b], now) &&
      rows[a].userId == rows[b].userId && rows[a].kind == rows[b].kind ensures a == b
    {
      OnlyIssuedRows(h, a);
      OnlyIssuedRows(h, b);
      var i: nat :| i < |h| && h[i].Issue? && h[i].id == a;
      var j: nat :| j < |h| && h[j].Issue? && h[j].id == b;
      assert RowOf(h, i, now) && RowOf(h, j, now);
      if i < j { SpentLater(h, i, j, now); }
      if j < i { SpentLater(h, j, i, now); }
    }
  }

  /** A token that was accepted once is never accepted again. */
  lemma AcceptedOnce(h: seq<Event>, i: nat, j: nat)
    requires Proper(h) && i < j < |h| && h[i].Consume? && h[j].Consume?
    requires h[i].hash == h[j].hash && h[i].kind == h[j].kind
    requires Accepts(Replay(h[..i]), h[i].hash, h[i].kind, h[i].at)
    ensures !Accepts(Replay(h[..j]), h[j].hash, h[j].kind, h[j].at)
  {
    hide Replay, Unspent;
    AcceptedExactly(h[..i], h[i].hash, h[i].kind, h[i].at);
    AcceptedExactly(h[..j], h[j].hash, h[j].kind, h[j].at);
    var first: nat :| first < i && Unspent(h[..i], first, h[i].at) && h[..i][first].hash == h[i].hash && h[..i][first].kind == h[i].kind;
    UnspentIssue(h[..i], first, h[i].at);
    forall k: nat | k < j && h[..j][k].Issue? && h[..j][k].hash == h[j].hash && h[..j][k].kind == h[j].kind
      ensures !Unspent(h[..j], k, h[j].at)
    {
      assert h[k].Issue? && h[first].Issue?;
      assert k == first;
      SpentLater(h[..j], k, i, h[j].at);
    }
    forall k: nat | k < j && Unspent(h[..j], k, h[j].at) ensures h[..j][k].Issue? { UnspentIssue(h[..j], k, h[j].at); }
  }
}
