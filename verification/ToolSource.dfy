/** The per-organization tool cache of `ExtensionAiToolSourceService`
  * (backend/src/modules/extensions/extension-ai-tool-source.service.ts:66-119): answers at once from
  * what it has, and refreshes in the background. `Tools` is whatever one database read yields. */
module ToolSource {
  import opened JsonValues

  const CACHE_TTL_MS := 30000

  datatype CacheEntry<Tools> = CacheEntry(tools: Tools, expiresAt: int)

  /** An outstanding `refreshOrganization`: waiting for the database, holding its answer, or settled
    * with its `finally` still to run. */
  datatype Refresh<Tools> =
    | Querying(org: string)
    | Loaded(org: string, tools: Tools)
    | Settled(org: string)

  datatype Service<Tools> = Service(
    cache: map<string, CacheEntry<Tools>>,
    inFlight: set<string>,
    refreshes: map<nat, Refresh<Tools>>)

  function Fresh<Tools>(s: Service<Tools>, org: string, now: int): bool {
    org in s.cache && s.cache[org].expiresAt > now
  }

  /** What `listTools` answers: nothing without an organization or before its first refresh. */
  function Answer<Tools>(s: Service<Tools>, org: Option<string>): Option<Tools> {
    if org.Some? && org.value != "" && org.value in s.cache then Some(s.cache[org.value].tools) else None
  }

  function Triggered<Tools>(s: Service<Tools>, org: string, id: nat): Service<Tools> {
    if org in s.inFlight then s
    else s.(inFlight := s.inFlight + {org}, refreshes := s.refreshes[id := Querying(org)])
  }

  function Listed<Tools>(s: Service<Tools>, org: Option<string>, now: int, id: nat): Service<Tools> {
    if org.None? || org.value == "" || Fresh(s, org.value, now) then s else Triggered(s, org.value, id)
  }

  function Queried<Tools>(s: Service<Tools>, id: nat, tools: Tools): Service<Tools>
    requires id in s.refreshes
  {
    s.(refreshes := s.refreshes[id := Loaded(s.refreshes[id].org, tools)])
  }

  function Completed<Tools>(s: Service<Tools>, id: nat, now: int): Service<Tools>
    requires id in s.refreshes && s.refreshes[id].Loaded?
  {
    var r := s.refreshes[id];
    s.(cache := s.cache[r.org := CacheEntry(r.tools, now + CACHE_TTL_MS)],
       refreshes := s.refreshes[id := Settled(r.org)])
  }

  function Failed<Tools>(s: Service<Tools>, id: nat): Service<Tools>
    requires id in s.refreshes
  {
    s.(refreshes := s.refreshes[id := Settled(s.refreshes[id].org)])
  }

  function Finished<Tools>(s: Service<Tools>, id: nat): Service<Tools>
    requires id in s.refreshes
  {
    s.(inFlight := s.inFlight - {s.refreshes[id].org}, refreshes := s.refreshes - {id})
  }

  /** At most one refresh of an organization is outstanding, and the in-flight set holds exactly the
    * organizations being refreshed. */
  ghost predicate SingleFlight<Tools>(s: Service<Tools>) {
    (forall i, j | i in s.refreshes && j in s.refreshes && s.refreshes[i].org == s.refreshes[j].org :: i == j) &&
    (forall org :: org in s.inFlight <==> exists i :: i in s.refreshes && s.refreshes[i].org == org)
  }

  class ExtensionAiToolSourceService<Tools> {
    var cache: map<string, CacheEntry<Tools>>
    var inFlightRefreshes: set<string>
    var refreshes: map<nat, Refresh<Tools>>

    constructor ()
      ensures State() == Service(map[], {}, map[]) && SingleFlight(State())
    {
      cache := map[];
      inFlightRefreshes := {};
      refreshes := map[];
    }

    function State(): Service<Tools>
      reads this
    {
      Service(cache, inFlightRefreshes, refreshes)
    }

    /** The answer is what was cached before the call, and the cache stays as it was. A missing or expired entry starts
      * a refresh unless one is outstanding, and nothing else does. */
    method ListTools(org: Option<string>, now: int, id: nat) returns (answer: Option<Tools>)
      requires SingleFlight(State()) && id !in refreshes
      modifies this
      ensures SingleFlight(State())
      ensures State() == Listed(old(State()), org, now, id)
      ensures answer == Answer(old(State()), org)
      ensures answer ==
        if org.Some? && org.value != "" && org.value in old(cache) then Some(old(cache)[org.value].tools) else None
      ensures cache == old(cache)
      ensures
        if org.Some? && org.value != "" && org.value !in old(inFlightRefreshes) &&
           (org.value in old(cache) ==> old(cache)[org.value].expiresAt <= now)
        then inFlightRefreshes == old(inFlightRefreshes) + {org.value} && refreshes == old(refreshes)[id := Querying(org.value)]
        else inFlightRefreshes == old(inFlightRefreshes) && refreshes == old(refreshes)
      ensures org.Some? && org.value != "" && !Fresh(State(), org.value, now) ==>
        exists i :: i in refreshes && refreshes[i].org == org.value
    {
      if org.None? || org.value == "" { return None; }
      var cached := if org.value in cache then Some(cache[org.value]) else None;
      if cached.None? || cached.value.expiresAt <= now {
        TriggerBackgroundRefresh(org.value, id);
      }
      return if cached.Some? then Some(cached.value.tools) else None;
    }

    method TriggerBackgroundRefresh(org: string, id: nat)
      requires SingleFlight(State()) && id !in refreshes
      modifies this
      ensures SingleFlight(State())
      ensures State() == Triggered(old(State()), org, id)
      ensures cache == old(cache) && inFlightRefreshes == old(inFlightRefreshes) + {org}
      ensures refreshes == if org in old(inFlightRefreshes) then old(refreshes) else old(refreshes)[id := Querying(org)]
      ensures org in inFlightRefreshes
    {
      ghost var before := State();
      if org in inFlightRefreshes { return; }
      inFlightRefreshes := inFlightRefreshes + {org};
      refreshes := refreshes[id := Querying(org)];
      TriggerKeepsSingleFlight(before, org, id);
    }

    /** The database answered the refresh. */
    method Query(id: nat, tools: Tools)
      requires SingleFlight(State()) && id in refreshes && refreshes[id].Querying?
      modifies this
      ensures SingleFlight(State()) && State() == Queried(old(State()), id, tools)
      ensures refreshes == old(refreshes)[id := Loaded(old(refreshes)[id].org, tools)]
    {
      PhaseKeepsSingleFlight(State(), id, Loaded(refreshes[id].org, tools), cache);
      refreshes := refreshes[id := Loaded(refreshes[id].org, tools)];
    }

    /** The rest of `refreshOrganization`, which replaces the entry. */
    method Complete(id: nat, now: int)
      requires SingleFlight(State()) && id in refreshes && refreshes[id].Loaded?
      modifies this
      ensures SingleFlight(State()) && State() == Completed(old(State()), id, now)
      ensures var r := old(refreshes)[id];
        cache == old(cache)[r.org := CacheEntry(r.tools, now + 30000)] && inFlightRefreshes == old(inFlightRefreshes) &&
        refreshes == old(refreshes)[id := Settled(r.org)]
    {
      ghost var before := State();
      cache := cache[refreshes[id].org := CacheEntry(refreshes[id].tools, now + CACHE_TTL_MS)];
      PhaseKeepsSingleFlight(before, id, Settled(refreshes[id].org), cache);
      refreshes := refreshes[id := Settled(refreshes[id].org)];
    }

    /** A rejected refresh is logged and leaves the entry as it was. */
    method Fail(id: nat)
      requires SingleFlight(State()) && id in refreshes && !refreshes[id].Settled?
      modifies this
      ensures SingleFlight(State()) && State() == Failed(old(State()), id)
      ensures cache == old(cache) && inFlightRefreshes == old(inFlightRefreshes)
      ensures refreshes == old(refreshes)[id := Settled(old(refreshes)[id].org)]
    {
      PhaseKeepsSingleFlight(State(), id, Settled(refreshes[id].org), cache);
      refreshes := refreshes[id := Settled(refreshes[id].org)];
    }

    method Finally(id: nat)
      requires SingleFlight(State()) && id in refreshes && refreshes[id].Settled?
      modifies this
      ensures SingleFlight(State()) && State() == Finished(old(State()), id)
      ensures cache == old(cache) && inFlightRefreshes == old(inFlightRefreshes) - {old(refreshes)[id].org}
      ensures refreshes == old(refreshes) - {id}
    {
      FinishKeepsSingleFlight(State(), id);
      inFlightRefreshes := inFlightRefreshes - {refreshes[id].org};
      refreshes := refreshes - {id};
    }
  }

  lemma TriggerKeepsSingleFlight<Tools>(s: Service<Tools>, org: string, id: nat)
    requires SingleFlight(s) && id !in s.refreshes
    ensures SingleFlight(Triggered(s, org, id))
  {
    var s' := Triggered(s, org, id);
    if org !in s.inFlight {
      forall o ensures o in s'.inFlight <==> exists i :: i in s'.refreshes && s'.refreshes[i].org == o {
        if o == org { assert s'.refreshes[id].org == o; }
        if o in s.inFlight {
          var i :| i in s.refreshes && s.refreshes[i].org == o;
          assert i in s'.refreshes && s'.refreshes[i].org == o;
        }
      }
    }
  }

  lemma PhaseKeepsSingleFlight<Tools>(s: Service<Tools>, id: nat, phase: Refresh<Tools>, cache: map<string, CacheEntry<Tools>>)
    requires SingleFlight(s) && id in s.refreshes && phase.org == s.refreshes[id].org
    ensures SingleFlight(Service(cache, s.inFlight, s.refreshes[id := phase]))
  {
    var refreshes := s.refreshes[id := phase];
    forall o ensures o in s.inFlight <==> exists i :: i in refreshes && refreshes[i].org == o {
      if o in s.inFlight {
        var i :| i in s.refreshes && s.refreshes[i].org == o;
        assert i in refreshes && refreshes[i].org == o;
      }
    }
  }

  lemma FinishKeepsSingleFlight<Tools>(s: Service<Tools>, id: nat)
    requires SingleFlight(s) && id in s.refreshes
    ensures SingleFlight(Finished(s, id))
  {
    var s' := Finished(s, id);
    forall o ensures o in s'.inFlight <==> exists i :: i in s'.refreshes && s'.refreshes[i].org == o {
      if o in s'.inFlight {
        var i :| i in s.refreshes && s.refreshes[i].org == o;
        assert i in s'.refreshes && s'.refreshes[i].org == o;
      }
    }
  }
}
