/** Hourly sweeps over a whole run, one sweep at a time, where the list, the payment check, the update and the
  * record of each item are separate calls, any of them may fail, and anything else may write subscriptions and
  * payment methods in between (backend/src/modules/billing/billing-cron.service.ts:77-122). */
module TrialRuns {
  import opened JsonValues
  import opened TrialSweep

  /** How far the sweep has come with the item it is at. */
  datatype Item = Checked(f: Found, paying: bool) | Updated(f: Found, paying: bool)

  /** `pending` are the trials the running sweep has found and not reached yet. */
  datatype State = State(billing: Billing, pending: seq<Found>, item: Option<Item>, now: int)

  /** `Fail` ends an item where it stands; `Put` stands for every other write of a subscription row. */
  datatype Action =
    | Begin(now: int, found: seq<Found>)
    | Check
    | Update
    | Record
    | Fail
    | Put(id: string, row: Subscription)
    | PaymentMethods(orgs: set<string>)

  ghost predicate Enabled(s: State, a: Action) {
    match a
    case Begin(now, found) =>
      s.pending == [] && s.item.None? && IsExpiredList(s.billing.subscriptions, now, found)
    case Check => s.pending != [] && s.item.None?
    case Update =>
      s.item.Some? && s.item.value.Checked? && s.item.value.f.id in s.billing.subscriptions &&
      (s.item.value.paying || s.billing.freePlan.Some?)
    case Record => s.item.Some? && s.item.value.Updated? && (s.item.value.paying || s.billing.freePlan.Some?)
    case Fail => s.item.Some? || s.pending != []
    case _ => true
  }

  /** The row an update leaves: the plan of a paying organization stays what it is by then. */
  function UpdatedRow(b: Billing, item: Item): Subscription
    requires item.f.id in b.subscriptions && (item.paying || b.freePlan.Some?)
  {
    var row := b.subscriptions[item.f.id].(status := ACTIVE);
    if item.paying then row else row.(planId := b.freePlan.value)
  }

  function EndOf(b: Billing, item: Item, now: int): TrialEnd
    requires item.paying || b.freePlan.Some?
  {
    var plan := item.f.subscription.planId;
    if item.paying then TrialEnd(item.f.id, plan, plan, now, Converted)
    else TrialEnd(item.f.id, plan, b.freePlan.value, now, DowngradedToFree)
  }

  ghost function Next(s: State, a: Action): State
    requires Enabled(s, a)
  {
    match a
    case Begin(now, found) => s.(pending := found, now := now)
    case Check =>
      var f := s.pending[0];
      s.(pending := s.pending[1..], item := Some(Checked(f, f.subscription.organizationId in s.billing.withPaymentMethod)))
    case Update =>
      var item := s.item.value;
      s.(billing := s.billing.(subscriptions := s.billing.subscriptions[item.f.id := UpdatedRow(s.billing, item)]),
         item := Some(Updated(item.f, item.paying)))
    case Record =>
      s.(billing := s.billing.(trialEnds := s.billing.trialEnds + [EndOf(s.billing, s.item.value, s.now)]), item := None)
    case Fail => if s.item.Some? then s.(item := None) else s.(pending := s.pending[1..])
    case Put(id, row) => s.(billing := s.billing.(subscriptions := s.billing.subscriptions[id := row]))
    case PaymentMethods(orgs) => s.(billing := s.billing.(withPaymentMethod := orgs))
  }

  /** Nothing in between: the calls of one item do together what the item does in an undisturbed sweep, whole or cut
    * short at the update or at the record. */
  lemma CallsAreItem(s: State)
    requires Enabled(s, Check) && s.pending[0].id in s.billing.subscriptions && s.billing.freePlan.Some?
    ensures
      var f, checked := s.pending[0], Next(s, Check);
      var updated := Next(checked, Update);
      Next(updated, Record).billing == Swept(s.billing, f, NoFault, s.now) &&
      Next(updated, Fail).billing == Swept(s.billing, f, AtRecordChange, s.now) &&
      Next(checked, Fail).billing == Swept(s.billing, f, AtUpdate, s.now) &&
      Next(s, Fail).billing == Swept(s.billing, f, AtPaymentCheck, s.now)
  {}

  datatype Run = Run(acts: seq<Action>, states: seq<State>)

  ghost predicate IsRun(run: Run) {
    |run.states| == |run.acts| + 1 &&
    run.states[0].billing.subscriptions == map[] && run.states[0].billing.trialEnds == [] &&
    run.states[0].pending == [] && run.states[0].item.None? &&
    forall i | 0 <= i < |run.acts| ::
      Enabled(run.states[i], run.acts[i]) && run.states[i + 1] == Next(run.states[i], run.acts[i])
  }

  lemma StepOf(run: Run, n: nat)
    requires IsRun(run) && n < |run.acts|
    ensures |run.states| == |run.acts| + 1
    ensures Enabled(run.states[n], run.acts[n]) && run.states[n + 1] == Next(run.states[n], run.acts[n])
  {}

  // ---------------------------------------------------------------- no trial ends twice

  predicate Trialing(s: State, id: string) {
    id in s.billing.subscriptions && s.billing.subscriptions[id].status == TRIALING
  }

  /** The action puts a subscription that was not trialing into a trial. */
  predicate StartsTrial(s: State, a: Action, id: string) {
    a.Put? && a.id == id && a.row.status == TRIALING && !Trialing(s, id)
  }

  ghost function Starts(run: Run, n: nat, id: string): nat
    requires IsRun(run) && n <= |run.acts|
  {
    if n == 0 then 0
    else Starts(run, n - 1, id) + (if StartsTrial(run.states[n - 1], run.acts[n - 1], id) then 1 else 0)
  }

  /** The running sweep has found the subscription and not updated it yet. */
  predicate Ahead(s: State, id: string) {
    Lists(s.pending, id) || (s.item.Some? && s.item.value.Checked? && s.item.value.f.id == id)
  }

  predicate AtRecord(s: State, id: string) {
    s.item.Some? && s.item.value.Updated? && s.item.value.f.id == id
  }

  /** Trials entered and not recorded as ended. */
  function Open(s: State, id: string): nat {
    (if Trialing(s, id) || Ahead(s, id) then 1 else 0) + (if AtRecord(s, id) then 1 else 0)
  }

  /** The sweep meets no subscription twice. */
  ghost predicate Distinct(s: State) {
    (forall i, j | 0 <= i < j < |s.pending| :: s.pending[i].id != s.pending[j].id) &&
    (s.item.Some? ==> !Lists(s.pending, s.item.value.f.id))
  }

  lemma ListsTail(found: seq<Found>, id: string)
    requires found != []
    ensures Lists(found, id) <==> found[0].id == id || Lists(found[1..], id)
  {
    if i :| 0 <= i < |found| && found[i].id == id {
      if i > 0 { assert found[1..][i - 1].id == id; }
    }
    if i :| 0 <= i < |found[1..]| && found[1..][i].id == id { assert found[i + 1].id == id; }
  }

  lemma StepDistinct(s: State, a: Action)
    requires Distinct(s) && Enabled(s, a)
    ensures Distinct(Next(s, a))
  {
    if s.pending != [] {
      assert forall i | 0 <= i < |s.pending| - 1 :: s.pending[1..][i] == s.pending[i + 1];
      if s.item.Some? { ListsTail(s.pending, s.item.value.f.id); }
    }
  }

  lemma StepOpen(s: State, a: Action, id: string)
    requires Distinct(s) && Enabled(s, a)
    ensures var s' := Next(s, a);
      EndsOf(s'.billing.trialEnds, id) + Open(s', id) <=
      EndsOf(s.billing.trialEnds, id) + Open(s, id) + (if StartsTrial(s, a, id) then 1 else 0)
  {
    if s.pending != [] { ListsTail(s.pending, id); }
    match a
    case Begin(now, found) =>
      if i :| 0 <= i < |found| && found[i].id == id { assert found[i] in found; }
    case Record => EndsSnoc(s.billing.trialEnds, EndOf(s.billing, s.item.value, s.now), id);
    case _ =>
  }

  lemma {:induction false} EndsBounded(run: Run, n: nat, id: string)
    requires IsRun(run) && n <= |run.acts|
    ensures Distinct(run.states[n])
    ensures EndsOf(run.states[n].billing.trialEnds, id) + Open(run.states[n], id) <= Starts(run, n, id)
  {
    if n > 0 {
      EndsBounded(run, n - 1, id);
      StepOf(run, n - 1);
      hide IsRun, EndsOf, Distinct, Open, StartsTrial, Next, Enabled;
      StepDistinct(run.states[n - 1], run.acts[n - 1]);
      StepOpen(run.states[n - 1], run.acts[n - 1], id);
    }
  }

  /** Whatever fails and whatever else is written in between, a subscription has no more TRIAL_END changes
    * than it had trials, counting a running trial as not ended. */
  lemma NoTrialEndsTwice(run: Run, n: nat, id: string)
    requires IsRun(run) && n <= |run.acts|
    ensures EndsOf(run.states[n].billing.trialEnds, id) + (if Trialing(run.states[n], id) then 1 else 0) <= Starts(run, n, id)
  {
    EndsBounded(run, n, id);
  }

  /** In particular one that enters a trial once has at most one TRIAL_END. */
  lemma {:induction false} OneTrialOneEnd(run: Run, n: nat, id: string, start: nat)
    requires IsRun(run) && n <= |run.acts|
    requires forall k | 0 <= k < n && k != start :: !StartsTrial(run.states[k], run.acts[k], id)
    ensures Starts(run, n, id) <= 1 && (n <= start ==> Starts(run, n, id) == 0)
    ensures EndsOf(run.states[n].billing.trialEnds, id) <= 1
  {
    NoTrialEndsTwice(run, n, id);
    if n > 0 { OneTrialOneEnd(run, n - 1, id, start); }
  }

  /** In every reachable state each trial end is a conversion that keeps the plan, or a move to the free plan. */
  lemma {:induction false} EndsAreConversionsOrDowngrades(run: Run, n: nat)
    requires IsRun(run) && n <= |run.acts|
    ensures run.states[n].billing.freePlan == run.states[0].billing.freePlan
    ensures forall e | e in run.states[n].billing.trialEnds ::
      (e.outcome == Converted && e.toPlanId == e.fromPlanId) ||
      (e.outcome == DowngradedToFree && run.states[0].billing.freePlan == Some(e.toPlanId))
  {
    if n > 0 {
      EndsAreConversionsOrDowngrades(run, n - 1);
      StepOf(run, n - 1);
      hide IsRun;
    }
  }

  /** A sweep begun at `now` before step `n` found the subscription as `f` says. */
  ghost predicate FoundBy(run: Run, n: nat, f: Found, now: int)
    requires IsRun(run) && n <= |run.acts|
  {
    exists b: nat :: b < n && run.acts[b].Begin? && run.acts[b].now == now && f in run.acts[b].found &&
      f.id in run.states[b].billing.subscriptions && run.states[b].billing.subscriptions[f.id] == f.subscription
  }

  lemma FoundStill(run: Run, n: nat, f: Found, now: int)
    requires IsRun(run) && n < |run.acts| && FoundBy(run, n, f, now)
    ensures FoundBy(run, n + 1, f, now)
  {}

  lemma {:induction false} ItemsWereFound(run: Run, n: nat)
    requires IsRun(run) && n <= |run.acts|
    ensures forall f | f in run.states[n].pending :: FoundBy(run, n, f, run.states[n].now)
    ensures run.states[n].item.Some? ==> FoundBy(run, n, run.states[n].item.value.f, run.states[n].now)
  {
    if n > 0 {
      ItemsWereFound(run, n - 1);
      StepOf(run, n - 1);
      var s, s' := run.states[n - 1], run.states[n];
      forall f | (f in s.pending || (s.item.Some? && f == s.item.value.f)) && s'.now == s.now ensures FoundBy(run, n, f, s'.now) {
        FoundStill(run, n - 1, f, s.now);
      }
      if run.acts[n - 1].Begin? {
        forall f | f in s'.pending ensures FoundBy(run, n, f, s'.now) { assert f in run.acts[n - 1].found; }
      }
    }
  }

  /** Every trial end names the plan its subscription had when a sweep listed it, and the time that sweep began. */
  lemma {:induction false} EndsNameTheListedPlan(run: Run, n: nat, e: TrialEnd)
    requires IsRun(run) && n <= |run.acts| && e in run.states[n].billing.trialEnds
    ensures exists f: Found :: f.id == e.subscriptionId && f.subscription.planId == e.fromPlanId && FoundBy(run, n, f, e.effectiveAt)
  {
    StepOf(run, n - 1);
    var s := run.states[n - 1];
    if e !in s.billing.trialEnds { NewEnd(s, run.acts[n - 1], e); }
    hide IsRun, Next, Enabled, FoundBy;
    if e in s.billing.trialEnds {
      EndsNameTheListedPlan(run, n - 1, e);
      var f: Found :| f.id == e.subscriptionId && f.subscription.planId == e.fromPlanId && FoundBy(run, n - 1, f, e.effectiveAt);
      FoundStill(run, n - 1, f, e.effectiveAt);
    } else {
      ItemsWereFound(run, n - 1);
      FoundStill(run, n - 1, s.item.value.f, s.now);
    }
  }

  lemma NewEnd(s: State, a: Action, e: TrialEnd)
    requires Enabled(s, a) && e in Next(s, a).billing.trialEnds && e !in s.billing.trialEnds
    ensures s.item.Some? && e.effectiveAt == s.now
    ensures e.subscriptionId == s.item.value.f.id && e.fromPlanId == s.item.value.f.subscription.planId
  {}

  // ---------------------------------------------------------------- what a downgrade rests on

  /** Step `c` checked the item, and no later check came before step `n`. */
  ghost predicate CheckedAt(run: Run, c: nat, n: nat, item: Item)
    requires IsRun(run) && n <= |run.acts|
  {
    c < n && run.acts[c] == Check && run.states[c].pending[0] == item.f &&
    (item.paying <==> item.f.subscription.organizationId in run.states[c].billing.withPaymentMethod) &&
    forall k | c < k < n :: run.acts[k] != Check
  }

  lemma {:induction false} ItemWasChecked(run: Run, n: nat)
    requires IsRun(run) && n <= |run.acts| && run.states[n].item.Some?
    ensures exists c: nat :: CheckedAt(run, c, n, run.states[n].item.value)
  {
    StepOf(run, n - 1);
    if run.acts[n - 1] == Check {
      assert CheckedAt(run, n - 1, n, run.states[n].item.value);
    } else {
      ItemWasChecked(run, n - 1);
      var c: nat :| CheckedAt(run, c, n - 1, run.states[n - 1].item.value);
      assert CheckedAt(run, c, n, run.states[n].item.value);
    }
  }

  /** A sweep moves a plan only to the free plan, and only after a check that found no payment method. One added
    * between the check and the update does not stop it. */
  lemma PlanMovesOnlyWhenUnpaid(run: Run, n: nat, id: string)
    requires IsRun(run) && n < |run.acts| && !run.acts[n].Put? && id in run.states[n].billing.subscriptions
    ensures id in run.states[n + 1].billing.subscriptions
    ensures run.states[n + 1].billing.subscriptions[id].planId != run.states[n].billing.subscriptions[id].planId ==>
      run.states[n].billing.freePlan == Some(run.states[n + 1].billing.subscriptions[id].planId) &&
      exists c: nat :: c < n && run.acts[c] == Check && run.states[c].pending[0].id == id &&
        run.states[c].pending[0].subscription.organizationId !in run.states[c].billing.withPaymentMethod
  {
    StepOf(run, n);
    if run.acts[n] == Update {
      ItemWasChecked(run, n);
      var c: nat :| CheckedAt(run, c, n, run.states[n].item.value);
    }
  }

  // ---------------------------------------------------------------- what a sweep overwrites

  /** The last row written to the subscription between steps `b` and `n` by anything but the sweep. */
  function LastPut(run: Run, b: nat, n: nat, id: string): Option<Subscription>
    requires n <= |run.acts|
    decreases n
  {
    if n <= b + 1 then None
    else if run.acts[n - 1].Put? && run.acts[n - 1].id == id then Some(run.acts[n - 1].row)
    else LastPut(run, b, n - 1, id)
  }

  /** The sweep begun at step `b` is the one running at step `n`. */
  ghost predicate SweepRuns(run: Run, b: nat, n: nat)
    requires IsRun(run) && n <= |run.acts|
  {
    b < n && run.acts[b].Begin? && forall k | b < k < n :: !run.acts[k].Begin?
  }

  /** `f` is still ahead of the sweep. */
  predicate Waits(s: State, f: Found) {
    f in s.pending || (s.item.Some? && s.item.value.Checked? && s.item.value.f == f)
  }

  lemma WaitedBefore(s: State, a: Action, f: Found)
    requires Enabled(s, a) && !a.Begin? && Waits(Next(s, a), f)
    ensures Waits(s, f)
  {}

  lemma ListedRow(s: State, a: Action, f: Found)
    requires Enabled(s, a) && a.Begin? && Waits(Next(s, a), f)
    ensures f.id in s.billing.subscriptions && s.billing.subscriptions[f.id] == f.subscription
    ensures Expired(f.subscription, a.now) && Next(s, a).billing == s.billing && Next(s, a).now == a.now
  {}

  /** Only another write changes the row of a subscription that is still ahead. */
  lemma WaitingRow(s: State, a: Action, f: Found)
    requires Distinct(s) && Enabled(s, a) && !a.Begin? && Waits(Next(s, a), f) && f.id in s.billing.subscriptions
    ensures var s' := Next(s, a);
      Waits(s, f) && s'.now == s.now && f.id in s'.billing.subscriptions &&
      s'.billing.subscriptions[f.id] == if a.Put? && a.id == f.id then a.row else s.billing.subscriptions[f.id]
  {
    WaitedBefore(s, a, f);
    if a == Update { OthersUpdated(s, f); }
  }

  lemma {:induction false} RowSinceList(run: Run, b: nat, n: nat, f: Found)
    requires IsRun(run) && n <= |run.acts| && SweepRuns(run, b, n) && Waits(run.states[n], f)
    ensures f.id in run.states[n].billing.subscriptions && run.states[n].now == run.acts[b].now
    ensures Expired(f.subscription, run.acts[b].now)
    ensures var put := LastPut(run, b, n, f.id);
      run.states[n].billing.subscriptions[f.id] == if put.Some? then put.value else f.subscription
  {
    StepOf(run, n - 1);
    EndsBounded(run, n - 1, f.id);
    var s, a := run.states[n - 1], run.acts[n - 1];
    hide IsRun, Next, Enabled, Distinct, Waits, Expired, EndsOf, Open, Starts;
    if n - 1 > b {
      assert SweepRuns(run, b, n - 1) && !a.Begin?;
      hide SweepRuns;
      WaitedBefore(s, a, f);
      RowSinceList(run, b, n - 1, f);
      WaitingRow(s, a, f);
    } else {
      ListedRow(s, a, f);
    }
  }

  /** The item being updated is not one of those still ahead. */
  lemma OthersUpdated(s: State, f: Found)
    requires Distinct(s) && Enabled(s, Update) && Waits(Next(s, Update), f)
    ensures s.item.value.f.id != f.id
  {
    var i :| 0 <= i < |s.pending| && s.pending[i] == f;
    assert Lists(s.pending, f.id);
  }

  /** What a sweep's update finds in the row: what the list found, unless something else has written the row since.
    * So it overwrites a row that is no expired trial any more exactly when the last such write made it none. */
  lemma OverwritesExactly(run: Run, b: nat, n: nat)
    requires IsRun(run) && n < |run.acts| && SweepRuns(run, b, n) && run.acts[n] == Update
    ensures
      var f := run.states[n].item.value.f;
      var put := LastPut(run, b, n, f.id);
      run.states[n].billing.subscriptions[f.id] == (if put.Some? then put.value else f.subscription) &&
      (!Expired(run.states[n].billing.subscriptions[f.id], run.states[n].now) <==>
       put.Some? && !Expired(put.value, run.states[n].now)) &&
      run.states[n + 1].billing.subscriptions[f.id].status == ACTIVE
  {
    StepOf(run, n);
    RowSinceList(run, b, n, run.states[n].item.value.f);
  }

  /** A subscription cancelled after the list was read and before its update. */
  function CancelledRun(id: string, trial: Subscription, free: string): Run {
    var f, cancelled := Found(id, trial), trial.(status := CANCELED);
    var empty := Billing(map[], [], {}, Some(free));
    var listed := empty.(subscriptions := map[id := trial]);
    var gone := empty.(subscriptions := map[id := cancelled]);
    var back := empty.(subscriptions := map[id := trial.(status := ACTIVE, planId := free)]);
    Run([Put(id, trial), Begin(1, [f]), Put(id, cancelled), Check, Update],
        [State(empty, [], None, 0), State(listed, [], None, 0), State(listed, [f], None, 1), State(gone, [f], None, 1),
         State(gone, [], Some(Checked(f, false)), 1), State(back, [], Some(Updated(f, false)), 1)])
  }

  lemma CancelledIsRun(id: string, trial: Subscription, free: string)
    requires Expired(trial, 1)
    ensures IsRun(CancelledRun(id, trial, free))
  {
    var run, f := CancelledRun(id, trial, free), Found(id, trial);
    assert [f][1..] == [] && [f][0].id == id;
    assert IsExpiredList(map[id := trial], 1, [f]);
    hide IsExpiredList;
    assert run.states[1] == Next(run.states[0], run.acts[0]);
    assert run.states[2] == Next(run.states[1], run.acts[1]);
    assert run.states[3] == Next(run.states[2], run.acts[2]);
    assert run.states[4] == Next(run.states[3], run.acts[3]);
    assert run.states[5] == Next(run.states[4], run.acts[4]);
  }

  /** The sweep makes it active again, on the free plan. */
  lemma CancelledComesBack(id: string, trial: Subscription, free: string)
    requires Expired(trial, 1)
    ensures var run := CancelledRun(id, trial, free);
      IsRun(run) && SweepRuns(run, 1, 4) && run.acts[4] == Update &&
      run.states[4].billing.subscriptions[id].status == CANCELED && run.states[5].billing.subscriptions[id].status == ACTIVE
  {
    CancelledIsRun(id, trial, free);
    hide IsRun;
  }
}
