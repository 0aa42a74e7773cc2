/** Theme reads and writes that interleave: what a cached answer is worth
  * (backend/src/modules/branding/brand-theme.service.ts:60-132). Every cache, database and storage
  * access is one step, and any number of calls are open at once. */
module BrandCoherence {
  import opened JsonValues
  import opened MemoryCache
  import CacheHistory
  import opened BrandTheme
  import RedisCache

  /** Where a `getOrDefault` call stands after its cache lookup. */
  datatype Phase = Missed(org: string) | Holding(org: string, value: Theme) | Done

  datatype State = State(now: int, rows: map<string, Theme>, cache: Store<Theme>, calls: map<nat, Phase>)

  datatype Action =
    | Lookup(call: nat, org: string)
    | Fetch(call: nat)
    | Fill(call: nat)
    | Write(org: string, row: Theme)
    | Invalidate(org: string)
    | OtherUse(use: CacheHistory.Event<Theme>)
    | Tick(ms: nat)

  function Cached(s: State, org: string): Option<Theme> {
    GetAt(s.cache, ThemeKey(org), s.now)
  }

  predicate Enabled(s: State, a: Action) {
    match a
    case Lookup(call, _) => call !in s.calls
    case Fetch(call) => call in s.calls && s.calls[call].Missed?
    case Fill(call) => call in s.calls && s.calls[call].Holding?
    case OtherUse(use) => use.Set? ==> !("brand-theme:" <= use.key)
    case _ => true
  }

  function Next(s: State, a: Action): State
    requires Enabled(s, a)
  {
    match a
    case Lookup(call, org) =>
      s.(calls := s.calls[call := if Cached(s, org).Some? then Done else Missed(org)])
    case Fetch(call) =>
      var org := s.calls[call].org;
      s.(calls := s.calls[call := Holding(org, Current(s.rows, org))])
    case Fill(call) =>
      var org := s.calls[call].org;
      s.(cache := SetAt(s.cache, ThemeKey(org), s.calls[call].value, THEME_CACHE_TTL_MS, [ThemeTag(org)], s.now),
         calls := s.calls[call := Done])
    case Write(org, row) => s.(rows := s.rows[org := row])
    case Invalidate(org) => s.(cache := WithoutTag(s.cache, ThemeTag(org)))
    case OtherUse(use) => s.(cache := CacheHistory.Apply(s.cache, use))
    case Tick(ms) => s.(now := s.now + ms)
  }

  /** Nothing in between: the steps of a `getOrDefault` leave the cache as an undisturbed call does, untouched by a hit
    * and filled for five minutes after a miss. */
  lemma StepsAreGetOrDefault(s: State, call: nat, org: string)
    requires call !in s.calls
    ensures
      var key := "brand-theme:" + org;
      var looked := Next(s, Lookup(call, org));
      if GetAt(s.cache, key, s.now).Some? then looked == s.(calls := s.calls[call := Done])
      else
        Enabled(looked, Fetch(call)) &&
        var fetched := Next(looked, Fetch(call));
        Enabled(fetched, Fill(call)) && fetched.calls[call] == Holding(org, Current(s.rows, org)) &&
        Next(fetched, Fill(call)) ==
          s.(cache := SetAt(s.cache, key, Current(s.rows, org), 300000, [key], s.now), calls := s.calls[call := Done])
  {}

  /** And those of an update or an upload that writes `row`. */
  lemma StepsAreUpdate(s: State, org: string, row: Theme)
    ensures Next(Next(s, Write(org, row)), Invalidate(org)) ==
      s.(rows := s.rows[org := row], cache := WithoutTag(s.cache, "brand-theme:" + org))
  {}

  /** The actions taken and the states between them, from an empty cache and no open call. */
  datatype Run = Run(acts: seq<Action>, states: seq<State>)

  ghost predicate IsRun(run: Run) {
    |run.states| == |run.acts| + 1 &&
    run.states[0].cache == Store(map[], map[]) && run.states[0].calls == map[] &&
    forall i | 0 <= i < |run.acts| ::
      Enabled(run.states[i], run.acts[i]) && run.states[i + 1] == Next(run.states[i], run.acts[i])
  }

  /** One `getOrDefault` call began at step `began`, read the database at step `fetched` and wrote the
    * cache at step `filled`. */
  datatype Origin = Origin(call: nat, began: nat, fetched: nat, filled: nat)

  /** Call `o.call` on `org` read `value` as the current theme at step `o.fetched`, before step `n`. */
  ghost predicate Fetched(run: Run, n: nat, org: string, value: Theme, o: Origin)
    requires IsRun(run) && n <= |run.acts|
  {
    o.began < o.fetched < n &&
    run.acts[o.began] == Lookup(o.call, org) && run.acts[o.fetched] == Fetch(o.call) &&
    run.states[o.fetched].calls[o.call] == Missed(org) &&
    value == Current(run.states[o.fetched].rows, org)
  }

  /** The same call wrote it to the cache, and no `invalidateTag` of the organization came after. */
  ghost predicate Backed(run: Run, n: nat, org: string, value: Theme, o: Origin)
    requires IsRun(run) && n <= |run.acts|
  {
    o.fetched < o.filled < n && Fetched(run, o.filled, org, value, o) && run.acts[o.filled] == Fill(o.call) &&
    forall x | o.filled < x < n :: run.acts[x] != Invalidate(org)
  }

  ghost predicate PhaseExplained(run: Run, n: nat, call: nat, phase: Phase)
    requires IsRun(run) && n <= |run.acts|
  {
    (phase.Missed? ==> exists b: nat :: b < n && run.acts[b] == Lookup(call, phase.org)) &&
    (phase.Holding? ==> exists o: Origin :: o.call == call && Fetched(run, n, phase.org, phase.value, o))
  }

  ghost predicate CallsExplained(run: Run, n: nat)
    requires IsRun(run) && n <= |run.acts|
  {
    forall call | call in run.states[n].calls :: PhaseExplained(run, n, call, run.states[n].calls[call])
  }

  ghost predicate EntryExplained(run: Run, n: nat, org: string, entry: Entry<Theme>)
    requires IsRun(run) && n <= |run.acts|
  {
    exists o: Origin ::
      (Backed(run, n, org, entry.value, o) && entry.expiresAt == run.states[o.filled].now + THEME_CACHE_TTL_MS)
  }

  ghost predicate CacheExplained(run: Run, n: nat)
    requires IsRun(run) && n <= |run.acts|
  {
    var s := run.states[n].cache;
    forall org | ThemeKey(org) in s.entries ::
      ThemeKey(org) in Members(s.tags, ThemeTag(org)) && EntryExplained(run, n, org, s.entries[ThemeKey(org)])
  }

  lemma CallsStep(run: Run, n: nat)
    requires IsRun(run) && n < |run.acts| && CallsExplained(run, n)
    ensures CallsExplained(run, n + 1)
  {
    var s, s' := run.states[n], run.states[n + 1];
    forall call | call in s'.calls ensures PhaseExplained(run, n + 1, call, s'.calls[call]) {
      if call in s.calls && s'.calls[call] == s.calls[call] {
        PhaseStays(run, n, call);
      } else if s'.calls[call].Missed? {
        assert run.acts[n] == Lookup(call, s'.calls[call].org);
      } else if s'.calls[call].Holding? {
        assert PhaseExplained(run, n, call, s.calls[call]);
        var b: nat :| b < n && run.acts[b] == Lookup(call, s.calls[call].org);
        assert Fetched(run, n + 1, s.calls[call].org, s'.calls[call].value, Origin(call, b, n, 0));
      }
    }
  }

  lemma PhaseStays(run: Run, n: nat, call: nat)
    requires IsRun(run) && n < |run.acts| && call in run.states[n].calls
    requires PhaseExplained(run, n, call, run.states[n].calls[call])
    ensures PhaseExplained(run, n + 1, call, run.states[n].calls[call])
  {}

  lemma CacheStep(run: Run, n: nat)
    requires IsRun(run) && n < |run.acts| && CallsExplained(run, n) && CacheExplained(run, n)
    ensures CacheExplained(run, n + 1)
  {
    hide ThemeKey, ThemeTag, CallsExplained, EntryExplained, Next, Enabled;
    var s' := run.states[n + 1].cache;
    forall org | ThemeKey(org) in s'.entries
      ensures ThemeKey(org) in Members(s'.tags, ThemeTag(org))
      ensures EntryExplained(run, n + 1, org, s'.entries[ThemeKey(org)])
    {
      if FillsFor(run, n, org) {
        FillBacks(run, n, org);
      } else {
        EntryOutlives(run, n, org);
        EntryStays(run, n, org, s'.entries[ThemeKey(org)]);
      }
    }
  }

  predicate FillsFor(run: Run, n: nat, org: string) {
    n < |run.acts| && n < |run.states| && run.acts[n].Fill? &&
    run.acts[n].call in run.states[n].calls && run.states[n].calls[run.acts[n].call].Holding? &&
    run.states[n].calls[run.acts[n].call].org == org
  }

  lemma EntryStays(run: Run, n: nat, org: string, entry: Entry<Theme>)
    requires IsRun(run) && n < |run.acts| && EntryExplained(run, n, org, entry) && run.acts[n] != Invalidate(org)
    ensures EntryExplained(run, n + 1, org, entry)
  {
    hide Fetched;
    var o: Origin :|
      (Backed(run, n, org, entry.value, o) && entry.expiresAt == run.states[o.filled].now + THEME_CACHE_TTL_MS);
    assert Backed(run, n + 1, org, entry.value, o);
  }

  lemma FillBacks(run: Run, n: nat, org: string)
    requires IsRun(run) && n < |run.acts| && CallsExplained(run, n)
    requires FillsFor(run, n, org)
    ensures var s' := run.states[n + 1].cache;
      ThemeKey(org) in s'.entries && ThemeKey(org) in Members(s'.tags, ThemeTag(org)) &&
      EntryExplained(run, n + 1, org, s'.entries[ThemeKey(org)])
  {
    hide ThemeKey, ThemeTag;
    var call := run.acts[n].call;
    var value := run.states[n].calls[call].value;
    assert PhaseExplained(run, n, call, run.states[n].calls[call]);
    var o: Origin :| o.call == call && Fetched(run, n, org, value, o);
    assert Backed(run, n + 1, org, value, o.(filled := n));
  }

  /** An entry that was not just written was there before, and its organization was not invalidated. */
  lemma EntryOutlives(run: Run, n: nat, org: string)
    requires IsRun(run) && n < |run.acts| && CacheExplained(run, n)
    requires !FillsFor(run, n, org)
    requires ThemeKey(org) in run.states[n + 1].cache.entries
    ensures var (s, s') := (run.states[n].cache, run.states[n + 1].cache);
      ThemeKey(org) in s.entries && s'.entries[ThemeKey(org)] == s.entries[ThemeKey(org)] &&
      ThemeKey(org) in Members(s'.tags, ThemeTag(org))
    ensures run.acts[n] != Invalidate(org)
  {
    hide EntryExplained, Current;
    var a, s, s' := run.acts[n], run.states[n].cache, run.states[n + 1].cache;
    match a
    case Fill(call) =>
      var org' := run.states[n].calls[call].org;
      if ThemeKey(org') == ThemeKey(org) { ThemeKeysDiffer(org', org); }
    case Invalidate(org') =>
    case OtherUse(use) =>
      assert "brand-theme:" <= ThemeKey(org);
    case _ =>
  }

  lemma {:induction false} AllExplained(run: Run, n: nat)
    requires IsRun(run) && n <= |run.acts|
    ensures CallsExplained(run, n) && CacheExplained(run, n)
  {
    if n > 0 {
      AllExplained(run, n - 1);
      CallsStep(run, n - 1);
      CacheStep(run, n - 1);
    }
  }

  /** A cached answer was the organization's theme at a moment inside an earlier `getOrDefault` call,
    * whose cache write is less than five minutes old and has not been invalidated since. */
  lemma CachedAnswerWasCurrent(run: Run, n: nat, call: nat, org: string)
    requires IsRun(run) && n < |run.acts| && run.acts[n] == Lookup(call, org)
    requires Cached(run.states[n], org).Some?
    ensures exists o: Origin ::
      Backed(run, n, org, Cached(run.states[n], org).value, o) &&
      run.states[n].now < run.states[o.filled].now + 300000
  {
    AllExplained(run, n);
    assert EntryExplained(run, n, org, run.states[n].cache.entries[ThemeKey(org)]);
  }

  /** What a call that missed returns was current between its own lookup and its own cache write. */
  lemma FreshAnswerWasCurrent(run: Run, n: nat, call: nat, org: string, value: Theme)
    requires IsRun(run) && n < |run.acts| && run.acts[n] == Fill(call)
    requires run.states[n].calls[call] == Holding(org, value)
    ensures exists o: Origin :: o.call == call && Fetched(run, n, org, value, o)
  {
    AllExplained(run, n);
    assert PhaseExplained(run, n, call, run.states[n].calls[call]);
  }

  lemma {:induction false} UnwrittenRowStays(run: Run, org: string, i: nat, n: nat)
    requires IsRun(run) && i <= n <= |run.acts|
    requires forall x | i <= x < n :: !(run.acts[x].Write? && run.acts[x].org == org)
    ensures Current(run.states[n].rows, org) == Current(run.states[i].rows, org)
  {
    if i < n { UnwrittenRowStays(run, org, i, n - 1); }
  }

  /** A cached answer is out of date only when the organization's theme was written after the answer was
    * fetched, and no invalidation has come since that answer went into the cache. */
  lemma StaleOnlyBetweenWriteAndInvalidation(run: Run, n: nat, call: nat, org: string)
    requires IsRun(run) && n < |run.acts| && run.acts[n] == Lookup(call, org)
    requires Cached(run.states[n], org).Some? && Cached(run.states[n], org).value != Current(run.states[n].rows, org)
    ensures exists o: Origin, x: nat ::
      Backed(run, n, org, Cached(run.states[n], org).value, o) && o.fetched <= x < n &&
      run.acts[x].Write? && run.acts[x].org == org
  {
    CachedAnswerWasCurrent(run, n, call, org);
    var o: Origin :| Backed(run, n, org, Cached(run.states[n], org).value, o);
    if forall x | o.fetched <= x < n :: !(run.acts[x].Write? && run.acts[x].org == org) {
      UnwrittenRowStays(run, org, o.fetched, n);
    }
  }

  // ---------------------------------------------------------------- when an update is settled

  ghost predicate Path(s: State, acts: seq<Action>)
    decreases |acts|
  {
    acts == [] || (Enabled(s, acts[0]) && Path(Next(s, acts[0]), acts[1..]))
  }

  ghost function End(s: State, acts: seq<Action>): State
    requires Path(s, acts)
    decreases |acts|
  {
    if acts == [] then s else End(Next(s, acts[0]), acts[1..])
  }

  predicate Writes(a: Action, org: string) {
    a.Write? && a.org == org
  }

  predicate CachedIsCurrent(s: State, org: string) {
    Cached(s, org).Some? ==> Cached(s, org).value == Current(s.rows, org)
  }

  /** However the run goes on, until the theme is written again every lookup is answered with the current
    * theme. */
  ghost predicate StaysCurrent(s: State, org: string) {
    forall acts: seq<Action> | Path(s, acts) && (forall a | a in acts :: !Writes(a, org)) ::
      CachedIsCurrent(End(s, acts), org)
  }

  /** No open call is about to cache a theme of the organization that is not the current one. */
  predicate NoStaleRead(s: State, org: string) {
    forall call | call in s.calls && s.calls[call].Holding? && s.calls[call].org == org ::
      s.calls[call].value == Current(s.rows, org)
  }

  lemma SettledStep(s: State, a: Action, org: string)
    requires CachedIsCurrent(s, org) && NoStaleRead(s, org) && Enabled(s, a) && !Writes(a, org)
    ensures CachedIsCurrent(Next(s, a), org) && NoStaleRead(Next(s, a), org)
  {
    match a
    case Fill(call) =>
      var org' := s.calls[call].org;
      if ThemeKey(org') == ThemeKey(org) { ThemeKeysDiffer(org', org); }
    case OtherUse(use) =>
      assert "brand-theme:" <= ThemeKey(org);
    case _ =>
  }

  lemma {:induction false} SettledPath(s: State, acts: seq<Action>, org: string)
    requires CachedIsCurrent(s, org) && NoStaleRead(s, org)
    requires Path(s, acts) && forall a | a in acts :: !Writes(a, org)
    ensures CachedIsCurrent(End(s, acts), org)
    decreases |acts|
  {
    if acts != [] {
      hide CachedIsCurrent, NoStaleRead, Next, Enabled;
      SettledStep(s, acts[0], org);
      SettledPath(Next(s, acts[0]), acts[1..], org);
    }
  }

  /** A read in progress that holds another theme can always go on to cache it. */
  lemma StaleReadSpreads(s: State, call: nat, org: string)
    requires call in s.calls && s.calls[call].Holding? && s.calls[call].org == org
    requires s.calls[call].value != Current(s.rows, org)
    ensures !StaysCurrent(s, org)
  {
    hide ThemeKey, ThemeTag;
    var acts := [Fill(call)];
    assert acts[1..] == [];
    assert Path(Next(s, Fill(call)), acts[1..]);
    assert Path(s, acts) && End(s, acts) == Next(s, Fill(call));
    assert !CachedIsCurrent(End(s, acts), org);
  }

  lemma StaysCurrentExactly(s: State, org: string)
    ensures StaysCurrent(s, org) <==> CachedIsCurrent(s, org) && NoStaleRead(s, org)
  {
    hide Cached, Next, Enabled, Current;
    if StaysCurrent(s, org) {
      assert Path(s, []) && End(s, []) == s;
      forall call | call in s.calls && s.calls[call].Holding? && s.calls[call].org == org
        ensures s.calls[call].value == Current(s.rows, org)
      {
        if s.calls[call].value != Current(s.rows, org) { StaleReadSpreads(s, call, org); }
      }
    }
    if CachedIsCurrent(s, org) && NoStaleRead(s, org) {
      forall acts: seq<Action> | Path(s, acts) && (forall a | a in acts :: !Writes(a, org))
        ensures CachedIsCurrent(End(s, acts), org)
      {
        SettledPath(s, acts, org);
      }
    }
  }

  /** Exactly when an update is settled by its invalidation: every answer from then until the next update is
    * the current theme if and only if, at that moment, no open read holds another one. */
  lemma InvalidationSettlesExactly(run: Run, n: nat, org: string)
    requires IsRun(run) && n < |run.acts| && run.acts[n] == Invalidate(org)
    ensures StaysCurrent(run.states[n + 1], org) <==> NoStaleRead(run.states[n + 1], org)
  {
    StaysCurrentExactly(run.states[n + 1], org);
    hide StaysCurrent, NoStaleRead, EntryExplained;
    AllExplained(run, n);
    assert ThemeKey(org) !in run.states[n + 1].cache.entries;
  }

  /** No organization's theme key is read as a tag, so what is said here of the in-memory cache holds of
    * the Redis one as well. */
  lemma ThemeKeyIsSafe(org: string)
    ensures !RedisCache.TagNamed(ThemeKey(org))
  {
    assert ThemeKey(org)[..4][0] == 'b';
  }

  /** The organization's calls do not overlap: no write of its theme falls between a fetch and the cache write
    * of the same call, and a write is invalidated before the next lookup begins. Time may pass and the
    * cache may be used for other things inside a call. */
  ghost predicate NoOverlap(run: Run, org: string)
    requires IsRun(run)
  {
    (forall r, w, x | 0 <= r < x < w < |run.acts| && run.acts[r].Fetch? && run.acts[w] == Fill(run.acts[r].call) &&
       run.states[r].calls[run.acts[r].call] == Missed(org) :: !Writes(run.acts[x], org)) &&
    (forall x, n | 0 <= x < n < |run.acts| && Writes(run.acts[x], org) && run.acts[n].Lookup? && run.acts[n].org == org ::
       exists y :: x < y < n && run.acts[y] == Invalidate(org))
  }

  lemma UnwrittenSince(run: Run, n: nat, org: string, value: Theme, o: Origin, x: nat)
    requires IsRun(run) && NoOverlap(run, org) && n < |run.acts| && run.acts[n].Lookup? && run.acts[n].org == org
    requires Backed(run, n, org, value, o) && o.fetched <= x < n
    ensures !Writes(run.acts[x], org)
  {
    hide IsRun, Current;
    assert run.acts[o.fetched].Fetch? && run.acts[o.filled] == Fill(run.acts[o.fetched].call);
    assert o.fetched < x < o.filled ==> !Writes(run.acts[x], org);
  }

  /** When the organization's calls do not overlap, every cached answer is its current theme. */
  lemma SequentialAnswersAreCurrent(run: Run, n: nat, call: nat, org: string)
    requires IsRun(run) && NoOverlap(run, org) && n < |run.acts| && run.acts[n] == Lookup(call, org)
    requires Cached(run.states[n], org).Some?
    ensures Cached(run.states[n], org).value == Current(run.states[n].rows, org)
  {
    var value := Cached(run.states[n], org).value;
    hide Cached, NoOverlap, Current, Next, Enabled;
    CachedAnswerWasCurrent(run, n, call, org);
    var o: Origin :| Backed(run, n, org, value, o);
    forall x | o.fetched <= x < n ensures !Writes(run.acts[x], org) { UnwrittenSince(run, n, org, value, o, x); }
    UnwrittenRowStays(run, org, o.fetched, n);
  }

  /** A read that straddles an update caches the old theme after the update has invalidated: the next
    * answer is out of date although the update is complete. */
  lemma StaleAfterCompletedUpdate(org: string, row: Theme)
    requires row != DefaultTheme(org)
    ensures exists run: Run ::
      IsRun(run) && |run.acts| == 6 && run.acts[5] == Lookup(1, org) &&
      run.acts[2] == Write(org, row) && run.acts[3] == Invalidate(org) &&
      Current(run.states[5].rows, org) == row && Cached(run.states[5], org) == Some(DefaultTheme(org))
  {
    var none := Store(map[], map[]);
    var filled := SetAt(none, ThemeKey(org), DefaultTheme(org), THEME_CACHE_TTL_MS, [ThemeTag(org)], 0);
    EmptyCache(org);
    hide ThemeKey, ThemeTag, SetAt, WithoutTag, GetAt, DefaultTheme;
    var acts := [Lookup(0, org), Fetch(0), Write(org, row), Invalidate(org), Fill(0), Lookup(1, org)];
    var s0 := State(0, map[], none, map[]);
    var s1 := State(0, map[], none, map[0 := Missed(org)]);
    var s2 := State(0, map[], none, map[0 := Holding(org, DefaultTheme(org))]);
    var s3 := State(0, map[org := row], none, map[0 := Holding(org, DefaultTheme(org))]);
    var s5 := State(0, map[org := row], filled, map[0 := Done]);
    var s6 := State(0, map[org := row], filled, map[0 := Done, 1 := Done]);
    assert Next(s0, acts[0]) == s1;
    assert Next(s1, acts[1]) == s2;
    assert Next(s2, acts[2]) == s3;
    assert Next(s3, acts[3]) == s3;
    assert Next(s3, acts[4]) == s5;
    assert Next(s5, acts[5]) == s6;
    hide Next, Enabled, Cached;
    assert IsRun(Run(acts, [s0, s1, s2, s3, s3, s5, s6]));
  }

  lemma EmptyCache(org: string)
    ensures var none := Store(map[], map[]);
      GetAt(none, ThemeKey(org), 0) == None && WithoutTag(none, ThemeTag(org)) == none &&
      forall value: Theme ::
        GetAt(SetAt(none, ThemeKey(org), value, THEME_CACHE_TTL_MS, [ThemeTag(org)], 0), ThemeKey(org), 0) == Some(value)
  {}
}
