/** Usage recorded while nightly rollups run, one rollup at a time
  * (backend/src/modules/billing/billing-cron.service.ts:62-75): what a snapshot says about the true sum. */
module UsageRuns {
  import opened UsageRollup

  /** `pending` are the grouped totals the running rollup has not written yet. */
  datatype State = State(records: seq<Record>, snapshots: Snapshots, pending: seq<Total>)

  datatype Action =
    | Create(record: Record)
    | Begin(asOf: int, totals: seq<Total>)
    | Upsert(now: int)
    | Abandon

  ghost predicate Enabled(s: State, a: Action) {
    match a
    case Begin(asOf, totals) => s.pending == [] && IsGrouping(s.records, asOf, totals)
    case Upsert(_) => s.pending != []
    case _ => true
  }

  ghost function Next(s: State, a: Action): State
    requires Enabled(s, a)
  {
    match a
    case Create(record) => s.(records := s.records + [record])
    case Begin(_, totals) => s.(pending := totals)
    case Upsert(now) => s.(snapshots := Upserted(s.snapshots, s.pending[0], now), pending := s.pending[1..])
    case Abandon => s.(pending := [])
  }

  /** The rest of the running rollup, with nothing in between. */
  ghost function Finished(s: State, now: int): State
    decreases |s.pending|
  {
    if s.pending == [] then s else Finished(Next(s, Upsert(now)), now)
  }

  lemma {:induction false} UpsertedAllFront(s: Snapshots, t: Total, rest: seq<Total>, now: int)
    ensures UpsertedAll(s, [t] + rest, now) == UpsertedAll(Upserted(s, t, now), rest, now)
  {
    if rest == [] {
      assert [t] + rest == [t] && [t][..0] == [];
      assert UpsertedAll(s, [t], now) == Upserted(UpsertedAll(s, [], now), t, now);
    } else {
      UpsertedAllFront(s, t, rest[..|rest|-1], now);
      assert ([t] + rest)[..|rest|] == [t] + rest[..|rest|-1];
    }
  }

  /** Nothing in between: the steps of a rollup leave the snapshots that an undisturbed one leaves. */
  lemma {:induction false} StepsAreRollup(s: State, now: int)
    ensures Finished(s, now) == s.(snapshots := UpsertedAll(s.snapshots, s.pending, now), pending := [])
    decreases |s.pending|
  {
    if s.pending != [] {
      StepsAreRollup(Next(s, Upsert(now)), now);
      UpsertedAllFront(s.snapshots, s.pending[0], s.pending[1..], now);
      assert s.pending == [s.pending[0]] + s.pending[1..];
    }
  }

  datatype Run = Run(acts: seq<Action>, states: seq<State>)

  ghost predicate IsRun(run: Run) {
    |run.states| == |run.acts| + 1 && run.states[0] == State([], map[], []) &&
    forall i | 0 <= i < |run.acts| ::
      Enabled(run.states[i], run.acts[i]) && run.states[i + 1] == Next(run.states[i], run.acts[i])
  }

  // ---------------------------------------------------------------- bounded and monotone

  ghost predicate SnapshotOk(s: State, key: SnapshotKey)
    requires key in s.snapshots
  {
    forall p | Recorded(s.records, p) && KeyOf(p) == key :: s.snapshots[key].total <= SumFor(s.records, p)
  }

  ghost predicate PendingOk(s: State, t: Total) {
    Recorded(s.records, t.period) && t.total <= SumFor(s.records, t.period) &&
    (KeyOf(t.period) in s.snapshots ==> s.snapshots[KeyOf(t.period)].total <= t.total)
  }

  ghost predicate Inv(s: State) {
    KeysDiffer(s.pending) && (forall t | t in s.pending :: PendingOk(s, t)) &&
    forall key | key in s.snapshots :: SnapshotOk(s, key) && exists p :: Recorded(s.records, p) && KeyOf(p) == key
  }

  lemma SumSnoc(records: seq<Record>, r: Record, p: Period)
    ensures SumFor(records + [r], p) == SumFor(records, p) + (if r.period == p then r.quantity else 0)
    ensures Recorded(records + [r], p) <==> Recorded(records, p) || r.period == p
  {}

  lemma SamePeriod(records: seq<Record>, p: Period, q: Period)
    requires OneEnd(records) && Recorded(records, p) && Recorded(records, q) && KeyOf(p) == KeyOf(q)
    ensures p == q
  {}

  lemma CreateKeeps(s: State, r: Record)
    requires Inv(s) && OneEnd(s.records + [r])
    ensures Inv(Next(s, Create(r)))
  {
    hide SumFor, Recorded, OneEnd;
    var s' := Next(s, Create(r));
    forall t | t in s'.pending ensures PendingOk(s', t) {
      assert PendingOk(s, t);
      SumSnoc(s.records, r, t.period);
    }
    forall key | key in s'.snapshots
      ensures SnapshotOk(s', key) && exists p :: Recorded(s'.records, p) && KeyOf(p) == key
    {
      var q :| Recorded(s.records, q) && KeyOf(q) == key;
      SumSnoc(s.records, r, q);
      forall p | Recorded(s'.records, p) && KeyOf(p) == key
        ensures s'.snapshots[key].total <= SumFor(s'.records, p)
      {
        SamePeriod(s'.records, p, q);
        assert SnapshotOk(s, key);
      }
    }
  }

  lemma BeginKeeps(s: State, asOf: int, totals: seq<Total>)
    requires Inv(s) && OneEnd(s.records) && Enabled(s, Begin(asOf, totals))
    ensures Inv(Next(s, Begin(asOf, totals)))
  {
    GroupingKeysDiffer(s.records, asOf, totals);
    hide SumFor, Recorded, OneEnd;
    var s' := Next(s, Begin(asOf, totals));
    forall t | t in totals ensures PendingOk(s', t) {
      if KeyOf(t.period) in s.snapshots { assert SnapshotOk(s, KeyOf(t.period)); }
    }
    forall key | key in s'.snapshots ensures SnapshotOk(s', key) { assert SnapshotOk(s, key); }
  }

  lemma UpsertKeeps(s: State, now: int)
    requires Inv(s) && OneEnd(s.records) && Enabled(s, Upsert(now))
    ensures Inv(Next(s, Upsert(now)))
  {
    hide SumFor, Recorded, OneEnd;
    var t, s' := s.pending[0], Next(s, Upsert(now));
    assert PendingOk(s, t);
    forall i, j | 0 <= i < j < |s'.pending| ensures KeyOf(s'.pending[i].period) != KeyOf(s'.pending[j].period) {
      assert s'.pending[i] == s.pending[i + 1] && s'.pending[j] == s.pending[j + 1];
    }
    forall u | u in s'.pending ensures PendingOk(s', u) {
      var i :| 0 <= i < |s'.pending| && s'.pending[i] == u;
      assert s.pending[i + 1] == u;
      assert PendingOk(s, u);
    }
    forall key | key in s'.snapshots
      ensures SnapshotOk(s', key) && exists p :: Recorded(s'.records, p) && KeyOf(p) == key
    {
      if key == KeyOf(t.period) {
        forall p | Recorded(s'.records, p) && KeyOf(p) == key
          ensures s'.snapshots[key].total <= SumFor(s'.records, p)
        {
          SamePeriod(s.records, p, t.period);
        }
      } else {
        assert SnapshotOk(s, key);
      }
    }
  }

  lemma StepOf(run: Run, n: nat)
    requires IsRun(run) && n < |run.acts|
    ensures |run.states| == |run.acts| + 1
    ensures Enabled(run.states[n], run.acts[n]) && run.states[n + 1] == Next(run.states[n], run.acts[n])
  {}

  lemma OneEndBefore(run: Run, n: nat)
    requires IsRun(run) && n < |run.acts| && OneEnd(run.states[n + 1].records)
    ensures OneEnd(run.states[n].records)
  {
    StepOf(run, n);
    var before, after := run.states[n].records, run.states[n + 1].records;
    forall i, j | 0 <= i < |before| && 0 <= j < |before| && KeyOf(before[i].period) == KeyOf(before[j].period)
      ensures before[i].period == before[j].period
    {
      assert after[i] == before[i] && after[j] == before[j];
    }
  }

  lemma {:induction false} RunKeeps(run: Run, n: nat)
    requires IsRun(run) && n <= |run.acts| && OneEnd(run.states[n].records)
    ensures Inv(run.states[n])
  {
    if n > 0 {
      OneEndBefore(run, n - 1);
      RunKeeps(run, n - 1);
      StepOf(run, n - 1);
      hide Inv, OneEnd, IsRun;
      var s := run.states[n - 1];
      match run.acts[n - 1]
      case Create(r) => CreateKeeps(s, r);
      case Begin(asOf, totals) => BeginKeeps(s, asOf, totals);
      case Upsert(now) => UpsertKeeps(s, now);
      case Abandon => AbandonKeeps(s);
    }
  }

  lemma AbandonKeeps(s: State)
    requires Inv(s)
    ensures Inv(Next(s, Abandon))
  {}

  /** However recording and rollups interleave, a snapshot never exceeds what was recorded. */
  lemma SnapshotNeverExceeds(run: Run, n: nat, p: Period)
    requires IsRun(run) && n <= |run.acts| && OneEnd(run.states[n].records)
    requires Recorded(run.states[n].records, p) && KeyOf(p) in run.states[n].snapshots
    ensures run.states[n].snapshots[KeyOf(p)].total <= SumFor(run.states[n].records, p)
  {
    RunKeeps(run, n);
    assert SnapshotOk(run.states[n], KeyOf(p));
  }

  /** And it never goes down. */
  lemma {:induction false} SnapshotNeverDecreases(run: Run, i: nat, j: nat, key: SnapshotKey)
    requires IsRun(run) && i <= j <= |run.acts| && OneEnd(run.states[j].records)
    requires key in run.states[i].snapshots
    ensures key in run.states[j].snapshots
    ensures run.states[i].snapshots[key].total <= run.states[j].snapshots[key].total
  {
    if i < j {
      OneEndBefore(run, j - 1);
      SnapshotNeverDecreases(run, i, j - 1, key);
      RunKeeps(run, j - 1);
      StepOf(run, j - 1);
      hide IsRun, OneEnd;
      var s := run.states[j - 1];
      if run.acts[j - 1].Upsert? { assert PendingOk(s, s.pending[0]); }
    }
  }

  // ---------------------------------------------------------------- exactly what the last rollup saw

  /** The rollup begun at step `b` saw `p`, and up to step `n` it has not been abandoned and no later
    * one saw `p`. */
  ghost predicate LastToSee(run: Run, b: nat, n: nat, p: Period)
    requires IsRun(run) && b < n <= |run.acts|
  {
    run.acts[b].Begin? && Covers(run.acts[b].totals, p) &&
    forall k | b < k < n ::
      run.acts[k] != Abandon &&
      (run.acts[k].Begin? ==> forall t | t in run.acts[k].totals :: KeyOf(t.period) != KeyOf(p))
  }

  /** Either the total of `p` is still to be written, or its snapshot holds it. */
  ghost predicate Carries(s: State, p: Period, total: nat) {
    KeysDiffer(s.pending) &&
    if Covers(s.pending, p) then forall t | t in s.pending && t.period == p :: t.total == total
    else
      (forall t | t in s.pending :: KeyOf(t.period) != KeyOf(p)) &&
      KeyOf(p) in s.snapshots && s.snapshots[KeyOf(p)].total == total
  }

  lemma CarriesFirst(s: State, asOf: int, totals: seq<Total>, p: Period)
    requires Enabled(s, Begin(asOf, totals)) && OneEnd(s.records) && Covers(totals, p)
    ensures Carries(Next(s, Begin(asOf, totals)), p, SumFor(s.records, p))
  {}

  lemma {:induction false} CarriesOn(run: Run, b: nat, n: nat, p: Period)
    requires IsRun(run) && b < n <= |run.acts| && OneEnd(run.states[n].records) && LastToSee(run, b, n, p)
    ensures Carries(run.states[n], p, SumFor(run.states[b].records, p))
  {
    OneEndBefore(run, n - 1);
    StepOf(run, n - 1);
    if n - 1 == b {
      CarriesFirst(run.states[b], run.acts[b].asOf, run.acts[b].totals, p);
    } else {
      CarriesOn(run, b, n - 1, p);
      hide OneEnd, SumFor, Carries, Next, Enabled, KeysDiffer;
      CarriesNext(run.states[n - 1], run.acts[n - 1], p, SumFor(run.states[b].records, p));
    }
  }

  lemma CarriesNext(s: State, a: Action, p: Period, total: nat)
    requires Enabled(s, a) && OneEnd(s.records) && Carries(s, p, total) && a != Abandon
    requires a.Begin? ==> forall t | t in a.totals :: KeyOf(t.period) != KeyOf(p)
    ensures Carries(Next(s, a), p, total)
  {}

  /** The usage an action records for `p`. */
  function Added(a: Action, p: Period): nat {
    if a.Create? && a.record.period == p then a.record.quantity else 0
  }

  /** No usage was recorded for `p` from step `b` up to step `n`. */
  ghost predicate NothingAdded(run: Run, b: nat, n: nat, p: Period)
    requires n <= |run.acts|
  {
    forall k | b <= k < n :: Added(run.acts[k], p) == 0
  }

  lemma SumStep(run: Run, n: nat, p: Period)
    requires IsRun(run) && n < |run.acts|
    ensures SumFor(run.states[n + 1].records, p) == SumFor(run.states[n].records, p) + Added(run.acts[n], p)
  {
    StepOf(run, n);
    hide IsRun, SumFor, IsGrouping, Upserted, Recorded;
    var a := run.acts[n];
    if a.Create? { SumSnoc(run.states[n].records, a.record, p); }
  }

  lemma {:induction false} SumUnchangedExactly(run: Run, b: nat, n: nat, p: Period)
    requires IsRun(run) && b <= n <= |run.acts|
    ensures SumFor(run.states[b].records, p) <= SumFor(run.states[n].records, p)
    ensures SumFor(run.states[b].records, p) == SumFor(run.states[n].records, p) <==> NothingAdded(run, b, n, p)
  {
    hide IsRun, SumFor, Added, NothingAdded;
    StatesOf(run);
    if b < n {
      SumUnchangedExactly(run, b, n - 1, p);
      SumStep(run, n - 1, p);
      NothingAddedStep(run, b, n, p);
    } else {
      NothingAddedYet(run, b, p);
    }
  }

  lemma StatesOf(run: Run)
    requires IsRun(run)
    ensures |run.states| == |run.acts| + 1
  {}

  lemma NothingAddedStep(run: Run, b: nat, n: nat, p: Period)
    requires b < n <= |run.acts|
    ensures NothingAdded(run, b, n, p) <==> NothingAdded(run, b, n - 1, p) && Added(run.acts[n - 1], p) == 0
  {}

  lemma NothingAddedYet(run: Run, b: nat, p: Period)
    requires b <= |run.acts|
    ensures NothingAdded(run, b, b, p)
  {}

  /** Once the last rollup to see a period has written its row, the snapshot is the sum that rollup read.
    * It is the whole usage of the period exactly when nothing was recorded for it after that read: a
    * rollup only sees periods that have not ended, so what is recorded between the last one and the end
    * of the period is in no snapshot. */
  lemma SnapshotExact(run: Run, b: nat, n: nat, p: Period)
    requires IsRun(run) && b < n <= |run.acts| && OneEnd(run.states[n].records)
    requires LastToSee(run, b, n, p) && run.states[n].pending == []
    ensures KeyOf(p) in run.states[n].snapshots
    ensures run.states[n].snapshots[KeyOf(p)].total == SumFor(run.states[b].records, p)
    ensures run.states[n].snapshots[KeyOf(p)].total == SumFor(run.states[n].records, p) <==>
      NothingAdded(run, b, n, p)
  {
    CarriesOn(run, b, n, p);
    SumUnchangedExactly(run, b, n, p);
  }

  // ---------------------------------------------------------------- usage that no rollup will see

  /** The snapshot of `p` and what is about to be written to it are at most `bound`. */
  ghost predicate Bounded(s: State, p: Period, bound: nat) {
    (KeyOf(p) in s.snapshots ==> s.snapshots[KeyOf(p)].total <= bound) &&
    forall t | t in s.pending && KeyOf(t.period) == KeyOf(p) :: t.total <= bound
  }

  lemma BoundedAtRecording(s: State, r: Record)
    requires Inv(s) && OneEnd(s.records + [r])
    ensures Bounded(Next(s, Create(r)), r.period, SumFor(s.records, r.period))
  {
    hide SumFor, Recorded, OneEnd;
    var p, all := r.period, s.records + [r];
    SumSnoc(s.records, r, p);
    if KeyOf(p) in s.snapshots {
      assert SnapshotOk(s, KeyOf(p));
      var q :| Recorded(s.records, q) && KeyOf(q) == KeyOf(p);
      SumSnoc(s.records, r, q);
      SamePeriod(all, p, q);
    }
    forall t | t in s.pending && KeyOf(t.period) == KeyOf(p) ensures t.total <= SumFor(s.records, p) {
      assert PendingOk(s, t);
      SumSnoc(s.records, r, t.period);
      SamePeriod(all, p, t.period);
    }
  }

  lemma BoundedStep(s: State, a: Action, p: Period, bound: nat)
    requires Enabled(s, a) && Bounded(s, p, bound) && Recorded(s.records, p) && OneEnd(s.records)
    requires a.Begin? ==> a.asOf > p.end
    ensures Bounded(Next(s, a), p, bound)
  {
    hide SumFor, Recorded, OneEnd;
    if a.Begin? { ClosedPeriodsUnseen(s, a.asOf, a.totals, p); }
  }

  /** A rollup begun after the end of a period writes nothing to the period's snapshot. */
  lemma ClosedPeriodsUnseen(s: State, asOf: int, totals: seq<Total>, p: Period)
    requires IsGrouping(s.records, asOf, totals) && OneEnd(s.records) && Recorded(s.records, p) && asOf > p.end
    ensures forall t | t in totals :: KeyOf(t.period) != KeyOf(p)
  {
    hide SumFor, Recorded, OneEnd;
    forall t | t in totals ensures KeyOf(t.period) != KeyOf(p) {
      if KeyOf(t.period) == KeyOf(p) { SamePeriod(s.records, t.period, p); }
    }
  }

  lemma {:induction false} BoundedOn(run: Run, k: nat, n: nat, p: Period)
    requires IsRun(run) && k < n <= |run.acts| && OneEnd(run.states[n].records)
    requires run.acts[k].Create? && run.acts[k].record.period == p
    requires forall b | k < b < n && run.acts[b].Begin? :: run.acts[b].asOf > p.end
    ensures Bounded(run.states[n], p, SumFor(run.states[k].records, p)) && Recorded(run.states[n].records, p)
  {
    OneEndBefore(run, n - 1);
    StepOf(run, n - 1);
    if n - 1 == k {
      RunKeeps(run, k);
      BoundedAtRecording(run.states[k], run.acts[k].record);
      SumSnoc(run.states[k].records, run.acts[k].record, p);
    } else {
      BoundedOn(run, k, n - 1, p);
      BoundedStep(run.states[n - 1], run.acts[n - 1], p, SumFor(run.states[k].records, p));
      StillRecorded(run.states[n - 1], run.acts[n - 1], p);
    }
  }

  lemma StillRecorded(s: State, a: Action, p: Period)
    requires Enabled(s, a) && Recorded(s.records, p)
    ensures Recorded(Next(s, a).records, p)
  {
    if a.Create? { SumSnoc(s.records, a.record, p); }
  }

  /** Usage recorded for a period when no later rollup begins before the period ends is in no snapshot, then or
    * ever: the period's snapshot, if it has one, stays short of its usage. */
  lemma LateUsageIsInNoSnapshot(run: Run, k: nat, n: nat, p: Period)
    requires IsRun(run) && k < n <= |run.acts| && OneEnd(run.states[n].records)
    requires run.acts[k].Create? && run.acts[k].record.period == p && run.acts[k].record.quantity > 0
    requires forall b | k < b < n && run.acts[b].Begin? :: run.acts[b].asOf > p.end
    ensures KeyOf(p) in run.states[n].snapshots ==>
      run.states[n].snapshots[KeyOf(p)].total + run.acts[k].record.quantity <= SumFor(run.states[n].records, p)
  {
    BoundedOn(run, k, n, p);
    SumStep(run, k, p);
    SumUnchangedExactly(run, k + 1, n, p);
  }

  /** One use, the period's last rollup, and one more use before the period ends. */
  function LateRun(p: Period): Run {
    var r, t := Record(p, 1), Total(p, 1);
    var snapshots: Snapshots := map[KeyOf(p) := Snapshot(p.end, 1, p.end)];
    Run([Create(r), Begin(p.end, [t]), Upsert(p.end), Create(r)],
        [State([], map[], []), State([r], map[], []), State([r], map[], [t]), State([r], snapshots, []),
         State([r, r], snapshots, [])])
  }

  lemma LateRunIsRun(p: Period)
    ensures IsRun(LateRun(p))
  {
    var run, r, t := LateRun(p), Record(p, 1), Total(p, 1);
    SumOfTwo(r, r, p);
    assert [r][0].period == p && [t][0].period == p;
    assert IsGrouping([r], p.end, [t]);
    hide IsGrouping, SumFor;
    assert run.states[1] == Next(run.states[0], run.acts[0]);
    assert run.states[2] == Next(run.states[1], run.acts[1]);
    assert run.states[3] == Next(run.states[2], run.acts[2]);
    assert run.states[4] == Next(run.states[3], run.acts[3]);
  }

  /** Such a run, for every period: its snapshot holds one of the two uses, and nothing more will be added. */
  lemma LateUsageRun(p: Period)
    ensures var run := LateRun(p);
      IsRun(run) && LastToSee(run, 1, 4, p) && run.states[4].pending == [] &&
      run.states[4].snapshots[KeyOf(p)].total == 1 && SumFor(run.states[4].records, p) == 2
  {
    LateRunIsRun(p);
    var t := Total(p, 1);
    assert [t][0].period == p;
    SumOfTwo(Record(p, 1), Record(p, 1), p);
  }
}
