/** What the tool lists handed out are worth over a whole run
  * (backend/src/modules/extensions/extension-ai-tool-source.service.ts:82-119): every list is one
  * database read, and the reads never go back in time. */
module ToolRefresh {
  import opened JsonValues
  import opened ToolSource

  datatype Tool = Tool(appId: string, name: string)

  /** One database read, labelled with the step of the run that made it. */
  datatype Snapshot = Snapshot(tools: seq<Tool>, readAt: nat)

  datatype State = State(step: nat, now: int, db: map<string, seq<Tool>>, service: Service<Snapshot>)

  datatype Action =
    | List(caller: Option<string>, id: nat)
    | Query(id: nat)
    | Complete(id: nat)
    | Fail(id: nat)
    | Finally(id: nat)
    | Install(org: string, tools: seq<Tool>)
    | Tick(ms: nat)

  function Installed(db: map<string, seq<Tool>>, org: string): seq<Tool> {
    if org in db then db[org] else []
  }

  predicate Enabled(s: State, a: Action) {
    var rs := s.service.refreshes;
    match a
    case List(_, id) => id !in rs
    case Query(id) => id in rs && rs[id].Querying?
    case Complete(id) => id in rs && rs[id].Loaded?
    case Fail(id) => id in rs && !rs[id].Settled?
    case Finally(id) => id in rs && rs[id].Settled?
    case _ => true
  }

  function NextService(s: State, a: Action): Service<Snapshot>
    requires Enabled(s, a)
  {
    match a
    case List(org, id) => Listed(s.service, org, s.now, id)
    case Query(id) => Queried(s.service, id, Snapshot(Installed(s.db, s.service.refreshes[id].org), s.step))
    case Complete(id) => Completed(s.service, id, s.now)
    case Fail(id) => Failed(s.service, id)
    case Finally(id) => Finished(s.service, id)
    case _ => s.service
  }

  function Next(s: State, a: Action): State
    requires Enabled(s, a)
  {
    State(s.step + 1,
          if a.Tick? then s.now + a.ms else s.now,
          if a.Install? then s.db[a.org := a.tools] else s.db,
          NextService(s, a))
  }

  datatype Run = Run(acts: seq<Action>, states: seq<State>)

  ghost predicate IsRun(run: Run) {
    |run.states| == |run.acts| + 1 &&
    run.states[0].step == 0 && run.states[0].service == Service(map[], {}, map[]) &&
    forall i | 0 <= i < |run.acts| ::
      Enabled(run.states[i], run.acts[i]) && run.states[i + 1] == Next(run.states[i], run.acts[i])
  }

  /** The snapshot is what the database held for the organization at the step of its label. */
  ghost predicate Genuine(run: Run, n: nat, org: string, snapshot: Snapshot)
    requires IsRun(run) && n <= |run.acts|
  {
    snapshot.readAt < n && run.acts[snapshot.readAt].Query? &&
    snapshot.tools == Installed(run.states[snapshot.readAt].db, org)
  }

  /** Step `w` put this snapshot into the organization's entry. */
  ghost predicate Fills(run: Run, w: nat, org: string, snapshot: Snapshot)
    requires IsRun(run) && w < |run.acts|
  {
    run.acts[w].Complete? && snapshot.readAt < w && run.acts[snapshot.readAt] == Query(run.acts[w].id) &&
    run.states[w].service.refreshes[run.acts[w].id] == Loaded(org, snapshot)
  }

  ghost predicate RefreshOk(run: Run, n: nat, id: nat, r: Refresh<Snapshot>)
    requires IsRun(run) && n <= |run.acts|
  {
    var cache := run.states[n].service.cache;
    r.Loaded? ==>
      Genuine(run, n, r.org, r.tools) && run.acts[r.tools.readAt] == Query(id) &&
      (r.org in cache ==> cache[r.org].tools.readAt <= r.tools.readAt)
  }

  ghost predicate EntryOk(run: Run, n: nat, org: string, entry: CacheEntry<Snapshot>)
    requires IsRun(run) && n <= |run.acts|
  {
    Genuine(run, n, org, entry.tools) &&
    exists w: nat ::
      (w < n && Fills(run, w, org, entry.tools) && entry.expiresAt == run.states[w].now + CACHE_TTL_MS)
  }

  ghost predicate Inv(run: Run, n: nat)
    requires IsRun(run) && n <= |run.acts|
  {
    var s := run.states[n];
    s.step == n && SingleFlight(s.service) &&
    (forall id | id in s.service.refreshes :: RefreshOk(run, n, id, s.service.refreshes[id])) &&
    (forall org | org in s.service.cache :: EntryOk(run, n, org, s.service.cache[org]))
  }

  lemma SingleFlightStep(s: State, a: Action)
    requires SingleFlight(s.service) && Enabled(s, a)
    ensures SingleFlight(Next(s, a).service)
  {
    hide SingleFlight, Fresh;
    match a
    case List(org, id) =>
      if org.Some? { TriggerKeepsSingleFlight(s.service, org.value, id); }
    case Query(id) =>
      var org := s.service.refreshes[id].org;
      PhaseKeepsSingleFlight(s.service, id, Loaded(org, Snapshot(Installed(s.db, org), s.step)), s.service.cache);
    case Complete(id) =>
      PhaseKeepsSingleFlight(s.service, id, Settled(s.service.refreshes[id].org), Completed(s.service, id, s.now).cache);
    case Fail(id) =>
      PhaseKeepsSingleFlight(s.service, id, Settled(s.service.refreshes[id].org), s.service.cache);
    case Finally(id) =>
      FinishKeepsSingleFlight(s.service, id);
    case _ =>
  }

  lemma EntryLasts(run: Run, n: nat, org: string, entry: CacheEntry<Snapshot>)
    requires IsRun(run) && n < |run.acts| && EntryOk(run, n, org, entry)
    ensures EntryOk(run, n + 1, org, entry)
  {}

  lemma CacheStep(run: Run, n: nat, org: string)
    requires IsRun(run) && n < |run.acts| && Inv(run, n)
    requires org in run.states[n + 1].service.cache
    ensures EntryOk(run, n + 1, org, run.states[n + 1].service.cache[org])
  {
    hide SingleFlight;
    var s, a, s' := run.states[n].service, run.acts[n], run.states[n + 1].service;
    if a.Complete? && s.refreshes[a.id].org == org {
      assert RefreshOk(run, n, a.id, s.refreshes[a.id]);
      assert Fills(run, n, org, s'.cache[org].tools);
    } else {
      assert s'.cache[org] == s.cache[org];
      EntryLasts(run, n, org, s.cache[org]);
    }
  }

  lemma RefreshStep(run: Run, n: nat, id: nat)
    requires IsRun(run) && n < |run.acts| && Inv(run, n)
    requires id in run.states[n + 1].service.refreshes
    ensures RefreshOk(run, n + 1, id, run.states[n + 1].service.refreshes[id])
  {
    var s, a, s' := run.states[n].service, run.acts[n], run.states[n + 1].service;
    if s'.refreshes[id].Loaded? {
      var org := s'.refreshes[id].org;
      assert id in s.refreshes && s.refreshes[id].org == org;
      if a == Query(id) {
        if org in s.cache { assert EntryOk(run, n, org, s.cache[org]); }
      } else {
        assert s'.refreshes[id] == s.refreshes[id];
        assert RefreshOk(run, n, id, s.refreshes[id]);
        assert a.Complete? ==> s.refreshes[a.id].org != org;
      }
    }
  }

  lemma {:induction false} AllInv(run: Run, n: nat)
    requires IsRun(run) && n <= |run.acts|
    ensures Inv(run, n)
  {
    if n > 0 {
      AllInv(run, n - 1);
      SingleFlightStep(run.states[n - 1], run.acts[n - 1]);
      forall org | org in run.states[n].service.cache
        ensures EntryOk(run, n, org, run.states[n].service.cache[org])
      {
        CacheStep(run, n - 1, org);
      }
      forall id | id in run.states[n].service.refreshes
        ensures RefreshOk(run, n, id, run.states[n].service.refreshes[id])
      {
        RefreshStep(run, n - 1, id);
      }
    }
  }

  /** In every reachable state an organization has at most one refresh outstanding, and the in-flight
    * set is exactly the set of organizations that have one. */
  lemma AlwaysSingleFlight(run: Run, n: nat)
    requires IsRun(run) && n <= |run.acts|
    ensures SingleFlight(run.states[n].service)
  {
    AllInv(run, n);
  }

  lemma EntryMovesForward(run: Run, n: nat, org: string)
    requires IsRun(run) && n < |run.acts| && Inv(run, n) && org in run.states[n].service.cache
    ensures org in run.states[n + 1].service.cache
    ensures run.states[n].service.cache[org].tools.readAt <= run.states[n + 1].service.cache[org].tools.readAt
  {
    hide SingleFlight, EntryOk, Genuine;
    var s, a := run.states[n].service, run.acts[n];
    if a.Complete? { assert RefreshOk(run, n, a.id, s.refreshes[a.id]); }
  }

  /** Once an organization has an entry it keeps one, and each entry comes from a read no earlier than
    * the read of the entry before it. */
  lemma {:induction false} CacheNeverGoesBack(run: Run, i: nat, j: nat, org: string)
    requires IsRun(run) && i <= j <= |run.acts| && org in run.states[i].service.cache
    ensures org in run.states[j].service.cache
    ensures run.states[i].service.cache[org].tools.readAt <= run.states[j].service.cache[org].tools.readAt
  {
    if i < j {
      hide *;
      CacheNeverGoesBack(run, i, j - 1, org);
      EntryKept(run, j - 1, org);
    }
  }

  lemma EntryKept(run: Run, n: nat, org: string)
    requires IsRun(run) && n < |run.acts| && org in run.states[n].service.cache
    ensures org in run.states[n + 1].service.cache
    ensures run.states[n].service.cache[org].tools.readAt <= run.states[n + 1].service.cache[org].tools.readAt
  {
    hide Inv, Next, Enabled;
    AllInv(run, n);
    EntryMovesForward(run, n, org);
  }

  /** The list of tools handed out at step `i` is the database's at the step it is labelled with, and a
    * later call is never handed an earlier read. */
  lemma AnswersAreReadsInOrder(run: Run, i: nat, j: nat, org: string)
    requires IsRun(run) && i <= j <= |run.acts|
    requires Answer(run.states[i].service, Some(org)).Some?
    ensures Answer(run.states[j].service, Some(org)).Some?
    ensures
      var first, later := Answer(run.states[i].service, Some(org)).value, Answer(run.states[j].service, Some(org)).value;
      Genuine(run, i, org, first) && Genuine(run, j, org, later) && first.readAt <= later.readAt
  {
    CacheNeverGoesBack(run, i, j, org);
    AllInv(run, i);
    AllInv(run, j);
    assert EntryOk(run, i, org, run.states[i].service.cache[org]);
    assert EntryOk(run, j, org, run.states[j].service.cache[org]);
  }

  /** Once a refresh that read the database at step `q` has completed, every later answer was read at
    * step `q` or after. */
  lemma CompletedRefreshShows(run: Run, w: nat, n: nat, id: nat)
    requires IsRun(run) && w < n <= |run.acts| && run.acts[w] == Complete(id)
    ensures
      var r := run.states[w].service.refreshes[id];
      Answer(run.states[n].service, Some(r.org)).Some? || r.org == ""
    ensures
      var r := run.states[w].service.refreshes[id];
      r.org != "" ==> r.tools.readAt <= Answer(run.states[n].service, Some(r.org)).value.readAt
  {
    CacheNeverGoesBack(run, w + 1, n, run.states[w].service.refreshes[id].org);
  }

  /** While the entry has not expired, its own refresh put it into the cache less than thirty seconds
    * ago. How long before that the refresh read the database is not bounded. */
  lemma FreshAnswerIsRecent(run: Run, n: nat, org: string)
    requires IsRun(run) && n <= |run.acts| && Fresh(run.states[n].service, org, run.states[n].now)
    ensures exists w: nat ::
      w < n && Fills(run, w, org, run.states[n].service.cache[org].tools) && run.states[n].now < run.states[w].now + 30000
  {
    AllInv(run, n);
    assert EntryOk(run, n, org, run.states[n].service.cache[org]);
  }

  /** A refresh of the organization that read the database after step `x` has completed before step `n`. */
  ghost predicate RefreshedSince(run: Run, x: nat, n: nat, org: string)
    requires IsRun(run) && n <= |run.acts|
  {
    exists w: nat, snapshot: Snapshot :: w < n && Fills(run, w, org, snapshot) && x < snapshot.readAt
  }

  /** The answer at step `n` was read after step `x`. */
  ghost predicate ReadSince(run: Run, x: nat, n: nat, org: string)
    requires IsRun(run) && n <= |run.acts|
  {
    var answer := Answer(run.states[n].service, Some(org));
    answer.Some? && x < answer.value.readAt
  }

  lemma ReadSinceExactly(run: Run, x: nat, n: nat, org: string)
    requires IsRun(run) && n <= |run.acts| && org != ""
    ensures ReadSince(run, x, n, org) <==> RefreshedSince(run, x, n, org)
  {
    if ReadSince(run, x, n, org) {
      AllInv(run, n);
      assert EntryOk(run, n, org, run.states[n].service.cache[org]);
    }
    if RefreshedSince(run, x, n, org) {
      var w: nat, snapshot: Snapshot :| w < n && Fills(run, w, org, snapshot) && x < snapshot.readAt;
      CompletedRefreshShows(run, w, n, run.acts[w].id);
    }
  }

  lemma {:induction false} UnchangedSince(run: Run, org: string, i: nat, n: nat)
    requires IsRun(run) && i <= n <= |run.acts|
    requires forall k | i <= k < n :: !(run.acts[k].Install? && run.acts[k].org == org)
    ensures Installed(run.states[n].db, org) == Installed(run.states[i].db, org)
  {
    if i < n { UnchangedSince(run, org, i, n - 1); }
  }

  /** When a change of the installed tools shows: exactly when a refresh of the organization that read the
    * database after the change has completed. From then on, until the next change, the answer is the
    * changed list; before, it is a list from before the change, or none. */
  lemma ChangeShowsExactly(run: Run, x: nat, n: nat, org: string, tools: seq<Tool>)
    requires IsRun(run) && x < n <= |run.acts| && org != "" && run.acts[x] == Install(org, tools)
    requires forall k | x < k < n :: !(run.acts[k].Install? && run.acts[k].org == org)
    ensures ReadSince(run, x, n, org) <==> RefreshedSince(run, x, n, org)
    ensures
      var answer := Answer(run.states[n].service, Some(org));
      if RefreshedSince(run, x, n, org) then answer.Some? && answer.value.tools == tools
      else answer.Some? ==>
        exists q: nat :: q < x && run.acts[q].Query? && answer.value.tools == Installed(run.states[q].db, org)
  {
    ReadSinceExactly(run, x, n, org);
    var answer := Answer(run.states[n].service, Some(org));
    if answer.Some? {
      AnswersAreReadsInOrder(run, n, n, org);
      var q := answer.value.readAt;
      if x < q {
        UnchangedSince(run, org, x + 1, q);
      } else {
        assert q != x && run.acts[q].Query?;
      }
    }
  }

  lemma Extend(run: Run, a: Action)
    requires IsRun(run) && Enabled(run.states[|run.acts|], a)
    ensures IsRun(Run(run.acts + [a], run.states + [Next(run.states[|run.acts|], a)]))
  {
    hide Next, Enabled;
    var n, run' := |run.acts|, Run(run.acts + [a], run.states + [Next(run.states[|run.acts|], a)]);
    forall i | 0 <= i < |run'.acts|
      ensures Enabled(run'.states[i], run'.acts[i]) && run'.states[i + 1] == Next(run'.states[i], run'.acts[i])
    {
      if i < n { assert run'.acts[i] == run.acts[i]; }
    }
  }

  /** The thirty seconds do not bound how old an answer may be: any run with an entry can go on with a
    * change of the installed tools and any delay at all, and the first call after the delay is
    * answered from a read made before the change. */
  lemma FirstAnswerMayBeArbitrarilyOld(run: Run, org: string, tools: seq<Tool>, delay: nat)
    requires IsRun(run) && org != "" && org in run.states[|run.acts|].service.cache
    ensures
      var n := |run.acts|;
      var changed := Next(run.states[n], Install(org, tools));
      var waited := Next(changed, Tick(delay));
      IsRun(Run(run.acts + [Install(org, tools)] + [Tick(delay)], run.states + [changed] + [waited])) &&
      Installed(waited.db, org) == tools && waited.now == run.states[n].now + delay &&
      Answer(waited.service, Some(org)).Some? && Answer(waited.service, Some(org)).value.readAt < n
  {
    var n := |run.acts|;
    AllInv(run, n);
    assert EntryOk(run, n, org, run.states[n].service.cache[org]);
    Extend(run, Install(org, tools));
    var changed := Next(run.states[n], Install(org, tools));
    Extend(Run(run.acts + [Install(org, tools)], run.states + [changed]), Tick(delay));
  }
}
