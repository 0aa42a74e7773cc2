/** Brand assets and cached themes together (backend/src/modules/branding/brand-theme.service.ts:60-132): an upload
  * deletes the object it replaces before it invalidates the cached theme, so a cached theme can name an
  * object that is no longer stored. The two machines run as one, over the same rows. */
module BrandServing {
  import opened JsonValues
  import opened MemoryCache
  import opened BrandTheme
  import A = BrandAssets
  import C = BrandCoherence

  datatype State = State(assets: A.State, cache: Store<Theme>, calls: map<nat, C.Phase>, now: int)

  /** A step of an upload or an update, or of a read, an invalidation, another use of the cache, or time. */
  datatype Action = Asset(step: A.Action) | Serve(use: C.Action)

  /** What the readers see of a state. */
  function Seen(s: State): C.State {
    C.State(s.now, s.assets.rows, s.cache, s.calls)
  }

  /** What the readers see of a step: rows are written by uploads and updates only. */
  function SeenStep(s: State, a: Action): C.Action
    requires a.Asset? ==> A.Enabled(s.assets, a.step)
  {
    match a
    case Serve(use) => use
    case Asset(WriteRow(u, freshId, now)) =>
      var org := s.assets.uploads[u].org;
      C.Write(org, A.Next(s.assets, a.step).rows[org])
    case Asset(UpdateRow(org, dto, freshId, now)) => C.Write(org, A.Next(s.assets, a.step).rows[org])
    case Asset(_) => C.Tick(0)
  }

  predicate Enabled(s: State, a: Action) {
    match a
    case Asset(step) => A.Enabled(s.assets, step)
    case Serve(use) => !use.Write? && C.Enabled(Seen(s), use)
  }

  function Next(s: State, a: Action): State
    requires Enabled(s, a)
  {
    match a
    case Asset(step) => s.(assets := A.Next(s.assets, step))
    case Serve(use) =>
      var seen := C.Next(Seen(s), use);
      s.(cache := seen.cache, calls := seen.calls, now := seen.now)
  }

  datatype Run = Run(acts: seq<Action>, states: seq<State>)

  ghost predicate IsRun(run: Run) {
    |run.states| == |run.acts| + 1 && run.states[0] == State(A.EMPTY, Store(map[], map[]), map[], 0) &&
    forall i | 0 <= i < |run.acts| ::
      Enabled(run.states[i], run.acts[i]) && run.states[i + 1] == Next(run.states[i], run.acts[i])
  }

  lemma StepOf(run: Run, n: nat)
    requires IsRun(run) && n < |run.acts|
    ensures |run.states| == |run.acts| + 1
    ensures Enabled(run.states[n], run.acts[n]) && run.states[n + 1] == Next(run.states[n], run.acts[n])
  {}

  // ---------------------------------------------------------------- each machine runs undisturbed

  function SeenRun(run: Run): C.Run
    requires |run.states| == |run.acts| + 1
    requires forall i | 0 <= i < |run.acts| :: Enabled(run.states[i], run.acts[i])
  {
    C.Run(seq(|run.acts|, i requires 0 <= i < |run.acts| && Enabled(run.states[i], run.acts[i]) =>
              SeenStep(run.states[i], run.acts[i])),
          seq(|run.states|, i requires 0 <= i < |run.states| => Seen(run.states[i])))
  }

  lemma SeenNext(s: State, a: Action)
    requires Enabled(s, a)
    ensures C.Enabled(Seen(s), SeenStep(s, a)) && C.Next(Seen(s), SeenStep(s, a)) == Seen(Next(s, a))
  {}

  lemma SeenIsRun(run: Run)
    requires IsRun(run)
    ensures C.IsRun(SeenRun(run))
  {
    var seen := SeenRun(run);
    forall i | 0 <= i < |run.acts|
      ensures C.Enabled(seen.states[i], seen.acts[i]) && seen.states[i + 1] == C.Next(seen.states[i], seen.acts[i])
    {
      SeenNext(run.states[i], run.acts[i]);
    }
  }

  lemma {:induction false} AssetsKept(run: Run, n: nat)
    requires IsRun(run) && n <= |run.acts|
    ensures A.Inv(run.states[n].assets)
  {
    if n == 0 {
      A.StartOk();
    } else {
      AssetsKept(run, n - 1);
      StepOf(run, n - 1);
      if run.acts[n - 1].Asset? { A.StepKeeps(run.states[n - 1].assets, run.acts[n - 1].step); }
    }
  }

  // ---------------------------------------------------------------- when an object goes

  /** The action deletes the object: an upload does away with what it replaced. */
  predicate Deletes(s: State, a: Action, key: string) {
    a.Asset? && a.step.DeleteOld? && a.step.upload in s.assets.uploads &&
    s.assets.uploads[a.step.upload].previous == Some(key)
  }

  lemma StorageStep(s: State, a: Action, key: string)
    requires Enabled(s, a) && key in s.assets.issued
    ensures var s' := Next(s, a);
      key in s'.assets.issued && (key in s'.assets.storage <==> key in s.assets.storage && !Deletes(s, a, key))
  {
    hide Upserted, AssetChange, Ref;
  }

  /** A key issued by step `i` is stored at step `n` exactly when it was then and nothing has deleted it since. */
  lemma {:induction false} StoredExactly(run: Run, i: nat, n: nat, key: string)
    requires IsRun(run) && i <= n <= |run.acts| && key in run.states[i].assets.issued
    ensures key in run.states[n].assets.issued
    ensures key in run.states[n].assets.storage <==>
      key in run.states[i].assets.storage && forall d | i <= d < n :: !Deletes(run.states[d], run.acts[d], key)
  {
    if i < n {
      hide Next, Enabled, Deletes;
      StoredExactly(run, i, n - 1, key);
      StorageStep(run.states[n - 1], run.acts[n - 1], key);
    }
  }

  lemma CurrentKeyStored(s: State, org: string, asset: Asset, key: string)
    requires A.Inv(s.assets) && StorageKey(Current(s.assets.rows, org), asset) == Some(key)
    ensures key in s.assets.issued && key in s.assets.storage
  {
    assert Ref(s.assets.rows, org, asset) == Some(key);
  }

  /** The object the cached answer of step `n` names was deleted after the answer was read. */
  ghost predicate DeletedSince(run: Run, n: nat, o: C.Origin, key: string)
    requires IsRun(run) && n <= |run.acts|
  {
    exists d :: o.fetched < d < n && Deletes(run.states[d], run.acts[d], key)
  }

  /** A cached answer names an object that is not in storage exactly when, since the read that the answer comes
    * from, an upload that had found that object deleted it. The cache write behind the answer is less than five
    * minutes old, and the organization has not been invalidated since. */
  lemma DanglingAnswerExactly(run: Run, n: nat, call: nat, org: string, asset: Asset, key: string)
    requires IsRun(run) && n < |run.acts| && run.acts[n] == Serve(C.Lookup(call, org))
    requires C.Cached(Seen(run.states[n]), org).Some?
    requires StorageKey(C.Cached(Seen(run.states[n]), org).value, asset) == Some(key)
    ensures C.IsRun(SeenRun(run))
    ensures
      var value := C.Cached(Seen(run.states[n]), org).value;
      key !in run.states[n].assets.storage <==>
      exists o: C.Origin ::
        C.Backed(SeenRun(run), n, org, value, o) && run.states[n].now < run.states[o.filled].now + 300000 &&
        DeletedSince(run, n, o, key)
  {
    SeenIsRun(run);
    var seen, value := SeenRun(run), C.Cached(Seen(run.states[n]), org).value;
    assert seen.states[n] == Seen(run.states[n]) && seen.acts[n] == C.Lookup(call, org);
    forall o: C.Origin | C.Backed(seen, n, org, value, o)
      ensures key !in run.states[n].assets.storage <==> DeletedSince(run, n, o, key)
    {
      BackedDangles(run, n, org, asset, key, value, o);
    }
    C.CachedAnswerWasCurrent(seen, n, call, org);
    var o: C.Origin :| C.Backed(seen, n, org, value, o) && seen.states[n].now < seen.states[o.filled].now + 300000;
    assert seen.states[o.filled] == Seen(run.states[o.filled]);
  }

  lemma BackedDangles(run: Run, n: nat, org: string, asset: Asset, key: string, value: Theme, o: C.Origin)
    requires IsRun(run) && n < |run.acts| && C.IsRun(SeenRun(run))
    requires C.Backed(SeenRun(run), n, org, value, o) && StorageKey(value, asset) == Some(key)
    ensures key !in run.states[n].assets.storage <==> DeletedSince(run, n, o, key)
  {
    var f := o.fetched;
    assert SeenRun(run).states[f] == Seen(run.states[f]) && SeenRun(run).acts[f] == C.Fetch(o.call);
    AssetsKept(run, f);
    CurrentKeyStored(run.states[f], org, asset, key);
    StoredExactly(run, f, n, key);
    assert !Deletes(run.states[f], run.acts[f], key);
  }

  /** When the organization's calls do not overlap, an update or upload invalidating before the next read begins, no
    * cached answer names an object that is not in storage. */
  lemma SequentialAnswersNeverDangle(run: Run, n: nat, call: nat, org: string, asset: Asset)
    requires IsRun(run) && C.IsRun(SeenRun(run)) && C.NoOverlap(SeenRun(run), org)
    requires n < |run.acts| && run.acts[n] == Serve(C.Lookup(call, org))
    requires C.Cached(Seen(run.states[n]), org).Some?
    requires StorageKey(C.Cached(Seen(run.states[n]), org).value, asset).Some?
    ensures StorageKey(C.Cached(Seen(run.states[n]), org).value, asset).value in run.states[n].assets.storage
  {
    var seen := SeenRun(run);
    assert seen.states[n] == Seen(run.states[n]) && seen.acts[n] == C.Lookup(call, org);
    C.SequentialAnswersAreCurrent(seen, n, call, org);
    AssetsKept(run, n);
    var key := StorageKey(C.Cached(Seen(run.states[n]), org).value, asset).value;
    CurrentKeyStored(run.states[n], org, asset, key);
  }

  /** A run goes on with any action that is enabled. */
  lemma Extend(run: Run, a: Action) returns (next: Run)
    requires IsRun(run) && Enabled(run.states[|run.acts|], a)
    ensures IsRun(next) && next.acts == run.acts + [a] && |next.states| == |run.acts| + 2
    ensures next.states[|run.acts| + 1] == Next(run.states[|run.acts|], a)
  {
    hide Next, Enabled;
    var n := |run.acts|;
    next := Run(run.acts + [a], run.states + [Next(run.states[n], a)]);
    forall i | 0 <= i < |next.acts|
      ensures Enabled(next.states[i], next.acts[i]) && next.states[i + 1] == Next(next.states[i], next.acts[i])
    {
      if i < n { assert next.acts[i] == run.acts[i]; }
    }
  }

  // ---------------------------------------------------------------- a run where it happens

  /** An upload of `org`'s logo from beginning to end, short of its invalidation. */
  function Uploaded(s: State, org: string, u: nat, key: string): State
    requires u !in s.assets.uploads && key !in s.assets.issued
  {
    var read := A.Next(s.assets, A.Begin(u, org, Logo));
    var stored := A.Next(read, A.Store(u, key));
    var wrote := A.Next(stored, A.WriteRow(u, "row", s.now));
    s.(assets := A.Next(wrote, A.DeleteOld(u)))
  }

  function UploadSteps(s: State, org: string, u: nat, key: string): seq<Action> {
    [Asset(A.Begin(u, org, Logo))] + [Asset(A.Store(u, key))] + [Asset(A.WriteRow(u, "row", s.now))] +
    [Asset(A.DeleteOld(u))]
  }

  /** Any run whose live cached theme names its current logo can go on with one more upload of the logo, and the
    * answer to the next read names an object that is gone: the invalidation has yet to come. */
  lemma UploadMakesAnswerDangle(run: Run, org: string, u: nat, key: string, was: string)
    requires IsRun(run) && u !in run.states[|run.acts|].assets.uploads && key !in run.states[|run.acts|].assets.issued
    requires C.Cached(Seen(run.states[|run.acts|]), org).Some?
    requires C.Cached(Seen(run.states[|run.acts|]), org).value == Current(run.states[|run.acts|].assets.rows, org)
    requires StorageKey(Current(run.states[|run.acts|].assets.rows, org), Logo) == Some(was)
    ensures
      var s := run.states[|run.acts|];
      exists next: Run ::
        IsRun(next) && next.acts == run.acts + UploadSteps(s, org, u, key) &&
        var done := next.states[|next.acts|];
        C.Cached(Seen(done), org) == C.Cached(Seen(s), org) &&
        StorageKey(C.Cached(Seen(done), org).value, Logo) == Some(was) && was !in done.assets.storage
  {
    Lengths(run);
    hide C.Cached, StorageKey, Seen, IsRun, Current;
    var s := run.states[|run.acts|];
    UploadEnds(s, org, u, key, was);
    SameCache(s, Uploaded(s, org, u, key), org);
    var next := UploadRuns(run, org, u, key);
  }

  lemma UploadEnds(s: State, org: string, u: nat, key: string, was: string)
    requires u !in s.assets.uploads && key !in s.assets.issued
    requires StorageKey(Current(s.assets.rows, org), Logo) == Some(was)
    ensures was !in Uploaded(s, org, u, key).assets.storage
  {
    CurrentRef(s.assets.rows, org, was);
    hide Upserted, AssetChange, Ref;
  }

  lemma UploadEnabled(s: State, org: string, u: nat, key: string)
    requires u !in s.assets.uploads && key !in s.assets.issued
    ensures Enabled(s, Asset(A.Begin(u, org, Logo)))
    ensures
      var s1 := Next(s, Asset(A.Begin(u, org, Logo)));
      Enabled(s1, Asset(A.Store(u, key))) &&
      var s2 := Next(s1, Asset(A.Store(u, key)));
      Enabled(s2, Asset(A.WriteRow(u, "row", s.now))) &&
      var s3 := Next(s2, Asset(A.WriteRow(u, "row", s.now)));
      Enabled(s3, Asset(A.DeleteOld(u))) && Next(s3, Asset(A.DeleteOld(u))) == Uploaded(s, org, u, key)
  {
    hide Upserted, AssetChange, Ref;
  }

  lemma UploadRuns(run: Run, org: string, u: nat, key: string) returns (next: Run)
    requires IsRun(run) && u !in run.states[|run.acts|].assets.uploads && key !in run.states[|run.acts|].assets.issued
    ensures IsRun(next) && |next.states| == |next.acts| + 1
    ensures next.acts == run.acts + UploadSteps(run.states[|run.acts|], org, u, key)
    ensures next.states[|next.acts|] == Uploaded(run.states[|run.acts|], org, u, key)
  {
    Lengths(run);
    var s := run.states[|run.acts|];
    UploadEnabled(s, org, u, key);
    hide *;
    next := Extend(run, Asset(A.Begin(u, org, Logo)));
    next := Extend(next, Asset(A.Store(u, key)));
    next := Extend(next, Asset(A.WriteRow(u, "row", s.now)));
    next := Extend(next, Asset(A.DeleteOld(u)));
    Steps(run.acts, s, org, u, key);
  }

  lemma Steps(acts: seq<Action>, s: State, org: string, u: nat, key: string)
    ensures
      acts + [Asset(A.Begin(u, org, Logo))] + [Asset(A.Store(u, key))] + [Asset(A.WriteRow(u, "row", s.now))] +
      [Asset(A.DeleteOld(u))] == acts + UploadSteps(s, org, u, key)
  {}

  lemma Lengths(run: Run)
    requires IsRun(run)
    ensures |run.states| == |run.acts| + 1
  {}

  lemma CurrentRef(rows: map<string, Theme>, org: string, key: string)
    requires StorageKey(Current(rows, org), Logo) == Some(key)
    ensures Ref(rows, org, Logo) == Some(key)
  {}

  lemma SameCache(s: State, s': State, org: string)
    requires s'.cache == s.cache && s'.now == s.now
    ensures C.Cached(Seen(s'), org) == C.Cached(Seen(s), org)
  {}
}
