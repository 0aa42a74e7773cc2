/** `InMemoryCacheService` (backend/src/modules/cache/cache.service.ts:39-76): a TTL cache whose
  * entries can be dropped by key or by tag. Time is a parameter, in milliseconds. */
module MemoryCache {
  import opened JsonValues

  datatype Entry<V> = Entry(value: V, expiresAt: int)

  datatype Store<V> = Store(entries: map<string, Entry<V>>, tags: map<string, set<string>>)

  function Members(tags: map<string, set<string>>, tag: string): set<string> {
    if tag in tags then tags[tag] else {}
  }

  // ---------------------------------------------------------------- what each operation means

  function GetAt<V>(s: Store<V>, key: string, now: int): Option<V> {
    if key in s.entries && s.entries[key].expiresAt > now then Some(s.entries[key].value) else None
  }

  function Tagged(tags: map<string, set<string>>, key: string, added: seq<string>): map<string, set<string>> {
    map t | t in tags.Keys + (set x | x in added) :: Members(tags, t) + (if t in added then {key} else {})
  }

  lemma TaggedNone(tags: map<string, set<string>>, key: string)
    ensures Tagged(tags, key, []) == tags
  {
    var tagged := Tagged(tags, key, []);
    assert tagged.Keys == tags.Keys;
    assert forall t | t in tags :: tagged[t] == tags[t];
  }

  lemma TaggedSnoc(tags: map<string, set<string>>, key: string, front: seq<string>, tag: string)
    ensures var so := Tagged(tags, key, front);
      Tagged(tags, key, front + [tag]) == so[tag := Members(so, tag) + {key}]
  {
    var so, all := Tagged(tags, key, front), Tagged(tags, key, front + [tag]);
    assert forall t :: t in front + [tag] <==> t in front || t == tag;
    assert all.Keys == so.Keys + {tag};
    forall t | t in all ensures all[t] == so[tag := Members(so, tag) + {key}][t] {}
  }

  function SetAt<V>(s: Store<V>, key: string, value: V, ttlMs: int, tags: seq<string>, now: int): Store<V> {
    Store(s.entries[key := Entry(value, now + ttlMs)], Tagged(s.tags, key, tags))
  }

  function WithoutKey<V>(s: Store<V>, key: string): Store<V> {
    s.(entries := s.entries - {key})
  }

  function WithoutTag<V>(s: Store<V>, tag: string): Store<V> {
    Store(s.entries - Members(s.tags, tag), s.tags - {tag})
  }

  class InMemoryCacheService<V> {
    var store: map<string, Entry<V>>
    var tagIndex: map<string, set<string>>

    constructor ()
      ensures State() == Store(map[], map[])
    {
      store := map[];
      tagIndex := map[];
    }

    function State(): Store<V>
      reads this
    {
      Store(store, tagIndex)
    }

    method Get(key: string, now: int) returns (r: Option<V>)
      ensures r == GetAt(State(), key, now)
    {
      if key in store {
        var cached := store[key];
        if cached.expiresAt > now { return Some(cached.value); }
      }
      return None;
    }

    method Set(key: string, value: V, ttlMs: int, tags: seq<string>, now: int)
      modifies this
      ensures State() == SetAt(old(State()), key, value, ttlMs, tags, now)
    {
      hide Tagged;
      store := store[key := Entry(value, now + ttlMs)];
      TaggedNone(tagIndex, key);
      for i := 0 to |tags|
        invariant store == old(store)[key := Entry(value, now + ttlMs)]
        invariant tagIndex == Tagged(old(tagIndex), key, tags[..i])
      {
        var members := if tags[i] in tagIndex then tagIndex[tags[i]] else {};
        members := members + {key};
        tagIndex := tagIndex[tags[i] := members];
        TaggedSnoc(old(tagIndex), key, tags[..i], tags[i]);
        assert tags[..i+1] == tags[..i] + [tags[i]];
      }
      assert tags[..|tags|] == tags;
    }

    method InvalidateKey(key: string)
      modifies this
      ensures State() == WithoutKey(old(State()), key)
    {
      store := store - {key};
    }

    method InvalidateTag(tag: string)
      modifies this
      ensures State() == WithoutTag(old(State()), tag)
    {
      if tag in tagIndex {
        var members := tagIndex[tag];
        var todo := members;
        while todo != {}
          invariant todo <= members
          invariant store == old(store) - (members - todo)
          invariant tagIndex == old(tagIndex)
          decreases |todo|
        {
          var key :| key in todo;
          store := store - {key};
          todo := todo - {key};
        }
        tagIndex := tagIndex - {tag};
      }
    }
  }
}
