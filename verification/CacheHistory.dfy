/** What a cache answers, said from the calls that were made on it: the in-memory cache of
  * backend/src/modules/cache/cache.service.ts:39-76 over whole histories. */
module CacheHistory {
  import opened JsonValues
  import opened MemoryCache

  datatype Event<V> =
    | Set(key: string, value: V, ttlMs: int, tags: seq<string>, at: int)
    | InvalidateKey(key: string, at: int)
    | InvalidateTag(tag: string, at: int)

  function Apply<V>(s: Store<V>, e: Event<V>): Store<V> {
    match e
    case Set(key, value, ttlMs, tags, at) => SetAt(s, key, value, ttlMs, tags, at)
    case InvalidateKey(key, _) => WithoutKey(s, key)
    case InvalidateTag(tag, _) => WithoutTag(s, tag)
  }

  function Replay<V>(h: seq<Event<V>>): Store<V> {
    if h == [] then Store(map[], map[]) else Apply(Replay(h[..|h|-1]), h[|h|-1])
  }

  predicate IsSet<V>(e: Event<V>, key: string) {
    e.Set? && e.key == key
  }

  predicate Clears<V>(e: Event<V>, tag: string) {
    e.InvalidateTag? && e.tag == tag
  }

  /** Before event `j`, `key` was set with `tag` and `tag` not invalidated since. An older set of
    * the same key counts: its tags stay registered when the key is set again without them. */
  ghost predicate TaggedBefore<V>(h: seq<Event<V>>, j: nat, key: string, tag: string)
    requires j <= |h|
  {
    exists s :: 0 <= s < j && IsSet(h[s], key) && tag in h[s].tags
      && forall u :: s < u < j ==> !Clears(h[u], tag)
  }

  /** Event `j` leaves nothing of what was stored under `key` before it. */
  ghost predicate Drops<V>(h: seq<Event<V>>, j: nat, key: string)
    requires j < |h|
  {
    match h[j]
    case Set(k, _, _, _, _) => k == key
    case InvalidateKey(k, _) => k == key
    case InvalidateTag(tag, _) => TaggedBefore(h, j, key, tag)
  }

  /** Event `i` set `key`, and nothing has dropped it since. */
  ghost predicate Stands<V>(h: seq<Event<V>>, i: nat, key: string) {
    i < |h| && IsSet(h[i], key) && forall j :: i < j < |h| ==> !Drops(h, j, key)
  }

  lemma TaggedPrefix<V>(h: seq<Event<V>>, j: nat, key: string, tag: string)
    requires j < |h|
    ensures TaggedBefore(h, j, key, tag) <==> TaggedBefore(h[..|h|-1], j, key, tag)
  {}

  lemma DropsPrefix<V>(h: seq<Event<V>>, j: nat, key: string)
    requires j + 1 < |h|
    ensures Drops(h, j, key) <==> Drops(h[..|h|-1], j, key)
  {
    if h[j].InvalidateTag? { TaggedPrefix(h, j, key, h[j].tag); }
  }

  /** The tag index lists exactly the keys registered under a tag. */
  lemma {:induction false} TagIndexExact<V>(h: seq<Event<V>>, key: string, tag: string)
    ensures key in Members(Replay(h).tags, tag) <==> TaggedBefore(h, |h|, key, tag)
  {
    if h != [] {
      var n := |h| - 1;
      TagIndexExact(h[..n], key, tag);
      TaggedPrefix(h, n, key, tag);
      TaggedStep(h, key, tag);
      var e, before, after := h[n], Replay(h[..n]).tags, Replay(h).tags;
      match e
      case Set(k, _, _, tags, _) =>
        assert Members(after, tag) == Members(before, tag) + (if tag in tags then {k} else {});
      case InvalidateKey(_, _) =>
      case InvalidateTag(_, _) =>
    }
  }

  lemma TaggedStep<V>(h: seq<Event<V>>, key: string, tag: string)
    requires h != []
    ensures var n := |h| - 1;
      TaggedBefore(h, |h|, key, tag) <==>
        (IsSet(h[n], key) && tag in h[n].tags) || (!Clears(h[n], tag) && TaggedBefore(h, n, key, tag))
  {}

  lemma StandsStep<V>(h: seq<Event<V>>, i: nat, key: string)
    requires h != []
    ensures Stands(h, i, key) <==>
      (i == |h| - 1 && IsSet(h[i], key)) || (Stands(h[..|h|-1], i, key) && !Drops(h, |h| - 1, key))
  {
    var n := |h| - 1;
    forall j | 0 <= j < n ensures Drops(h, j, key) <==> Drops(h[..n], j, key) {
      DropsPrefix(h, j, key);
    }
  }

  /** The store holds exactly the sets still standing. */
  lemma {:induction false} EntriesExact<V>(h: seq<Event<V>>, key: string)
    ensures key in Replay(h).entries <==> exists i: nat :: Stands(h, i, key)
    ensures forall i: nat :: Stands(h, i, key) ==>
      key in Replay(h).entries && Replay(h).entries[key] == Entry(h[i].value, h[i].at + h[i].ttlMs)
  {
    if h != [] {
      var n := |h| - 1;
      EntriesExact(h[..n], key);
      forall i: nat ensures Stands(h, i, key) <==>
        (i == n && IsSet(h[i], key)) || (Stands(h[..n], i, key) && !Drops(h, n, key))
      {
        StandsStep(h, i, key);
      }
      if h[n].InvalidateTag? {
        TagIndexExact(h[..n], key, h[n].tag);
        TaggedPrefix(h, n, key, h[n].tag);
      }
      if IsSet(h[n], key) { assert Stands(h, n, key); }
    }
  }

  /** `get` answers a value exactly when the last `set` of the key stored it, it has not expired,
    * and neither the key nor any tag it was still registered under was invalidated since. */
  lemma GetExact<V>(h: seq<Event<V>>, key: string, now: int, value: V)
    ensures GetAt(Replay(h), key, now) == Some(value) <==>
      exists i: nat :: Stands(h, i, key) && h[i].value == value && now < h[i].at + h[i].ttlMs
  {
    EntriesExact(h, key);
  }

  /** At most one set of a key stands. */
  lemma StandsOnce<V>(h: seq<Event<V>>, i: nat, j: nat, key: string)
    requires Stands(h, i, key) && Stands(h, j, key)
    ensures i == j
  {
    if i < j { assert Drops(h, j, key); }
    if j < i { assert Drops(h, i, key); }
  }
}
