/** Concurrent `AuditRepository.write` (backend/src/modules/audit/audit.repository.ts:72-111): any
  * number of transactions interleave their statements. A transaction-scoped advisory lock keyed
  * by a hash of the organization id guards read and insert; under ReadCommitted the read sees
  * every commit before it. */
module AuditProtocol {
  import opened JsonValues
  import opened AuditHash
  import opened AuditChain
  import opened AuditRepository

  /** How far a transaction has come. */
  datatype Phase =
    | Waiting
    | Locked
    | HasRead(previousHash: Option<string>)
    | Stamped(previousHash: Option<string>, createdAt: Instant)
    | Inserted(row: AuditRow)

  datatype Writer = Writer(draft: Draft, phase: Phase)

  /** Committed rows in commit order, advisory locks and their holders, open transactions. */
  datatype State = State(committed: seq<AuditRow>, locks: map<int, nat>, writers: map<nat, Writer>)

  /** The digest, and `hashtext`: organizations may share a lock key. */
  datatype Env = Env(sha: Digest, lockKey: string -> int)

  datatype Step =
    | Begin(w: nat, draft: Draft)
    | Lock(w: nat)
    | Read(w: nat)
    | Stamp(w: nat, now: Instant)
    | Insert(w: nat, id: nat)
    | Commit(w: nat)
    | Rollback(w: nat)

  function Key(env: Env, x: Writer): int { env.lockKey(x.draft.organizationId) }

  function RowToInsert(env: Env, x: Writer, id: nat): AuditRow
    requires x.phase.Stamped?
  {
    NextRow(env.sha, id, x.draft, x.phase.createdAt, x.phase.previousHash)
  }

  /** The assumption the protocol rests on: rows of one organization are inserted in the order of
    * (createdAt, id). */
  ghost predicate AfterAll(committed: seq<AuditRow>, r: AuditRow) {
    forall x :: x in committed && x.content.organizationId == r.content.organizationId ==> RowBefore(x, r)
  }

  predicate IdFresh(s: State, id: nat) {
    && (forall x :: x in s.committed ==> x.id != id)
    && (forall w :: w in s.writers && s.writers[w].phase.Inserted? ==> s.writers[w].phase.row.id != id)
  }

  ghost predicate Enabled(env: Env, s: State, step: Step) {
    match step
    case Begin(w, draft) => w !in s.writers && (draft.metadata.Some? ==> Wf(draft.metadata.value))
    case Lock(w) => w in s.writers && s.writers[w].phase.Waiting? && Key(env, s.writers[w]) !in s.locks
    case Read(w) => w in s.writers && s.writers[w].phase.Locked?
    case Stamp(w, now) => w in s.writers && s.writers[w].phase.HasRead? && now.Valid()
    case Insert(w, id) =>
      && w in s.writers && s.writers[w].phase.Stamped? && IdFresh(s, id)
      && AfterAll(s.committed, RowToInsert(env, s.writers[w], id))
    case Commit(w) => w in s.writers && s.writers[w].phase.Inserted?
    case Rollback(w) => w in s.writers
  }

  function Release(env: Env, s: State, w: nat): map<int, nat>
    requires w in s.writers
  {
    if s.writers[w].phase.Waiting? then s.locks else s.locks - {Key(env, s.writers[w])}
  }

  ghost function Apply(env: Env, s: State, step: Step): State
    requires Enabled(env, s, step)
  {
    match step
    case Begin(w, draft) => s.(writers := s.writers[w := Writer(draft, Waiting)])
    case Lock(w) =>
      s.(locks := s.locks[Key(env, s.writers[w]) := w], writers := s.writers[w := s.writers[w].(phase := Locked)])
    case Read(w) =>
      var previousHash := LatestHash(s.committed, s.writers[w].draft.organizationId);
      s.(writers := s.writers[w := s.writers[w].(phase := HasRead(previousHash))])
    case Stamp(w, now) =>
      s.(writers := s.writers[w := s.writers[w].(phase := Stamped(s.writers[w].phase.previousHash, now))])
    case Insert(w, id) =>
      s.(writers := s.writers[w := s.writers[w].(phase := Inserted(RowToInsert(env, s.writers[w], id)))])
    case Commit(w) =>
      State(s.committed + [s.writers[w].phase.row], Release(env, s, w), s.writers - {w})
    case Rollback(w) =>
      State(s.committed, Release(env, s, w), s.writers - {w})
  }

  /** Nothing in between: the statements of one transaction append the row that an undisturbed `write` appends, linked to
    * the organization's latest hash, and give the lock back. */
  lemma StatementsAreWrite(env: Env, s: State, w: nat, draft: Draft, now: Instant, id: nat)
    requires Enabled(env, s, Begin(w, draft)) && env.lockKey(draft.organizationId) !in s.locks && now.Valid() && IdFresh(s, id)
    requires AfterAll(s.committed, NextRow(env.sha, id, draft, now, LatestHash(s.committed, draft.organizationId)))
    ensures
      var begun := Apply(env, s, Begin(w, draft));
      Enabled(env, begun, Lock(w)) &&
      var locked := Apply(env, begun, Lock(w));
      locked.locks == s.locks[env.lockKey(draft.organizationId) := w] && Enabled(env, locked, Read(w)) &&
      var read := Apply(env, locked, Read(w));
      Enabled(env, read, Stamp(w, now)) &&
      var stamped := Apply(env, read, Stamp(w, now));
      Enabled(env, stamped, Insert(w, id)) &&
      var inserted := Apply(env, stamped, Insert(w, id));
      inserted.committed == s.committed && Enabled(env, inserted, Commit(w)) && Enabled(env, inserted, Rollback(w)) &&
      Apply(env, inserted, Rollback(w)) == s &&
      Apply(env, inserted, Commit(w)) ==
        s.(committed := s.committed + [NextRow(env.sha, id, draft, now, LatestHash(s.committed, draft.organizationId))])
  {
    hide NextRow, LatestHash, RowBefore;
    var begun := Apply(env, s, Begin(w, draft));
    var locked := Apply(env, begun, Lock(w));
    var read := Apply(env, locked, Read(w));
    var stamped := Apply(env, read, Stamp(w, now));
    var inserted := Apply(env, stamped, Insert(w, id));
    assert inserted.writers - {w} == s.writers;
    assert inserted.locks - {env.lockKey(draft.organizationId)} == s.locks;
  }

  // ---------------------------------------------------------------- invariant

  /** What an open transaction knows stays true until it ends. */
  ghost predicate WriterOk(env: Env, s: State, w: nat)
    requires w in s.writers
  {
    var x := s.writers[w];
    var org := x.draft.organizationId;
    && (x.draft.metadata.Some? ==> Wf(x.draft.metadata.value))
    && (!x.phase.Waiting? ==> Key(env, x) in s.locks && s.locks[Key(env, x)] == w)
    && match x.phase
       case Waiting => true
       case Locked => true
       case HasRead(p) => p == LatestHash(s.committed, org)
       case Stamped(p, now) => p == LatestHash(s.committed, org) && now.Valid()
       case Inserted(r) =>
         && r == NextRow(env.sha, r.id, x.draft, r.content.createdAt, LatestHash(s.committed, org))
         && r.content.createdAt.Valid() && AfterAll(s.committed, r)
         && (forall y :: y in s.committed ==> y.id != r.id)
         && (forall v :: v in s.writers && v != w && s.writers[v].phase.Inserted? ==> s.writers[v].phase.row.id != r.id)
  }

  ghost predicate ChainsValid(env: Env, s: State) {
    forall org :: Linked(env.sha, ChainOf(s.committed, org))
  }

  ghost predicate Inv(env: Env, s: State) {
    && HexDigest(env.sha)
    && TableOk(s.committed)
    && ChainsValid(env, s)
    && forall w :: w in s.writers ==> WriterOk(env, s, w)
  }

  /** Two transactions of one organization are never both past the lock. */
  lemma LockExcludes(env: Env, s: State, v: nat, w: nat)
    requires Inv(env, s) && v in s.writers && w in s.writers
    requires !s.writers[v].phase.Waiting? && !s.writers[w].phase.Waiting?
    requires s.writers[v].draft.organizationId == s.writers[w].draft.organizationId
    ensures v == w
  {}

  lemma CommitKeeps(env: Env, s: State, w: nat)
    requires Inv(env, s) && Enabled(env, s, Commit(w))
    ensures Inv(env, Apply(env, s, Commit(w)))
    ensures Apply(env, s, Commit(w)).committed == s.committed + [s.writers[w].phase.row]
    ensures ChainOf(Apply(env, s, Commit(w)).committed, s.writers[w].draft.organizationId)
         == ChainOf(s.committed, s.writers[w].draft.organizationId) + [s.writers[w].phase.row]
  {
    hide RowLeq, ComputeHash, ContentOf, LatestHash;
    var t := Apply(env, s, Commit(w));
    var x := s.writers[w];
    var r, org := x.phase.row, x.draft.organizationId;
    assert WriterOk(env, s, w);
    RowFields(env.sha, r.id, x.draft, r.content.createdAt, LatestHash(s.committed, org));
    assert InOrder(s.committed, r);
    WriteExact(env.sha, s.committed, r.id, x.draft, r.content.createdAt);
    forall o ensures Linked(env.sha, ChainOf(t.committed, o)) {
      if o != org { OtherChains(s.committed, r, o); }
    }
    assert TableOk(t.committed);
    forall v | v in t.writers ensures WriterOk(env, t, v) {
      assert WriterOk(env, s, v);
      var y := s.writers[v];
      if !y.phase.Waiting? {
        if y.draft.organizationId == org { LockExcludes(env, s, v, w); }
        OtherWriters(env, s, w, v);
      }
    }
  }

  lemma RowFields(sha: Digest, id: nat, d: Draft, now: Instant, previousHash: Option<string>)
    ensures var r := NextRow(sha, id, d, now, previousHash);
      && r.content.organizationId == d.organizationId && r.hash.Some?
      && ((d.metadata.Some? ==> Wf(d.metadata.value)) && now.Valid() ==> WfContent(r.content))
  {}

  /** A commit leaves alone what transactions of other organizations know. */
  lemma OtherWriters(env: Env, s: State, w: nat, v: nat)
    requires Inv(env, s) && Enabled(env, s, Commit(w))
    requires v in s.writers && v != w && !s.writers[v].phase.Waiting?
    requires s.writers[v].draft.organizationId != s.writers[w].draft.organizationId
    ensures WriterOk(env, Apply(env, s, Commit(w)), v)
  {
    hide RowLeq, ComputeHash, ContentOf;
    var t := Apply(env, s, Commit(w));
    var x, y := s.writers[w], s.writers[v];
    var r := x.phase.row;
    assert WriterOk(env, s, w) && WriterOk(env, s, v);
    RowFields(env.sha, r.id, x.draft, r.content.createdAt, LatestHash(s.committed, x.draft.organizationId));
    OtherChains(s.committed, r, y.draft.organizationId);
    assert Key(env, x) != Key(env, y);
    if y.phase.Inserted? {
      RowFields(env.sha, y.phase.row.id, y.draft, y.phase.row.content.createdAt, LatestHash(s.committed, y.draft.organizationId));
    }
  }

  lemma StepKeeps(env: Env, s: State, step: Step)
    requires Inv(env, s) && Enabled(env, s, step)
    ensures Inv(env, Apply(env, s, step))
    ensures forall org :: ChainOf(s.committed, org) <= ChainOf(Apply(env, s, step).committed, org)
  {
    if step.Commit? {
      CommitKeeps(env, s, step.w);
      CommitAppends(env, s, step.w);
    } else {
      QuietStepKeeps(env, s, step);
    }
  }

  lemma CommitAppends(env: Env, s: State, w: nat)
    requires Inv(env, s) && Enabled(env, s, Commit(w))
    ensures forall org :: ChainOf(s.committed, org) <= ChainOf(Apply(env, s, Commit(w)).committed, org)
  {
    hide RowLeq, ComputeHash, ContentOf, LatestHash, ChainOf;
    CommitKeeps(env, s, w);
    var x := s.writers[w];
    assert WriterOk(env, s, w);
    RowFields(env.sha, x.phase.row.id, x.draft, x.phase.row.content.createdAt, LatestHash(s.committed, x.draft.organizationId));
    forall org ensures ChainOf(s.committed, org) <= ChainOf(s.committed + [x.phase.row], org) {
      if org != x.draft.organizationId { OtherChains(s.committed, x.phase.row, org); }
    }
  }

  /** Nothing but a commit changes the table. */
  lemma QuietStepKeeps(env: Env, s: State, step: Step)
    requires Inv(env, s) && Enabled(env, s, step) && !step.Commit?
    ensures Apply(env, s, step).committed == s.committed
    ensures Inv(env, Apply(env, s, step))
  {
    hide RowLeq, ComputeHash, ContentOf, LatestHash, ChainOf, TableOk, RowBefore;
    var t := Apply(env, s, step);
    assert t.committed == s.committed;
    forall v | v in t.writers ensures WriterOk(env, t, v) {
      if v in s.writers { assert WriterOk(env, s, v); }
      if v != step.w && step.Rollback? {
        assert WriterOk(env, s, step.w);
      }
      if v == step.w && step.Insert? {
        RowStamp(env.sha, step.id, s.writers[v].draft, s.writers[v].phase.createdAt, s.writers[v].phase.previousHash);
      }
    }
  }

  lemma RowStamp(sha: Digest, id: nat, d: Draft, now: Instant, previousHash: Option<string>)
    ensures NextRow(sha, id, d, now, previousHash).id == id
    ensures NextRow(sha, id, d, now, previousHash).content.createdAt == now
  {}

  // ---------------------------------------------------------------- runs

  /** The states after each step of a run, each step enabled where it happens. */
  ghost predicate IsRun(env: Env, states: seq<State>, steps: seq<Step>) {
    && |states| == |steps| + 1
    && forall i :: 0 <= i < |steps| ==> Enabled(env, states[i], steps[i]) && states[i+1] == Apply(env, states[i], steps[i])
  }

  /** Whatever the interleaving: every organization's committed rows are one chain `verifyChain`
    * accepts, and an earlier chain is never rewritten, only extended. */
  lemma {:induction false} RunKeepsChains(env: Env, states: seq<State>, steps: seq<Step>, i: nat, j: nat)
    requires IsRun(env, states, steps) && Inv(env, states[0]) && i <= j < |states|
    ensures Inv(env, states[j])
    ensures forall org :: Linked(env.sha, ChainOf(states[j].committed, org))
    ensures forall org :: ChainOf(states[i].committed, org) <= ChainOf(states[j].committed, org)
    decreases j
  {
    hide Apply, Enabled, ChainOf, WriterOk;
    if j > 0 {
      RunKeepsChains(env, states, steps, 0, j - 1);
      StepKeeps(env, states[j-1], steps[j-1]);
      if i < j { RunKeepsChains(env, states, steps, i, j - 1); }
    }
  }

  /** A run may start from any table of rows older than the hash chain. */
  lemma {:induction false} LegacyStart(env: Env, legacy: seq<AuditRow>)
    requires HexDigest(env.sha) && TableOk(legacy) && forall x :: x in legacy ==> x.hash.None?
    ensures Inv(env, State(legacy, map[], map[]))
  {
    forall org ensures Linked(env.sha, ChainOf(legacy, org)) {
      var rows := ChainOf(legacy, org);
      assert rows != [] ==> rows[0] in rows;
      ChainOrder(legacy, org);
    }
  }
}
