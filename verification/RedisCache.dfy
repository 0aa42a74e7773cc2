/** `RedisCacheService` (backend/src/modules/cache/cache.service.ts:89-151): the same interface over
  * one Redis keyspace, where the values and the tag sets live side by side under two prefixes. */
module RedisCache {
  import opened JsonValues
  import opened MemoryCache
  import opened CacheHistory

  const KEY_PREFIX := "voltx:cache:"
  const TAG_PREFIX := "voltx:cache:tag:"

  function KeyName(key: string): string {
    KEY_PREFIX + key
  }

  function TagName(tag: string): string {
    TAG_PREFIX + tag
  }

  function Names(keys: set<string>): set<string> {
    set key | key in keys :: KeyName(key)
  }

  /** A Redis value: a string that expires, or a set. */
  datatype Value = Text(raw: string, expiresAt: int) | Group(members: set<string>)

  type Keyspace = map<string, Value>

  /** `JSON.stringify` and `JSON.parse`; parsing may throw. */
  datatype Codec<!V> = Codec(stringify: V -> string, parse: string -> Option<V>)

  /** The value comes back from its own text. */
  ghost predicate Stable<V>(c: Codec<V>, value: V) {
    c.parse(c.stringify(value)) == Some(value) && c.stringify(value) != ""
  }

  // ---------------------------------------------------------------- the Redis commands

  function Live(db: Keyspace, name: string, now: int): Option<Value> {
    if name in db && (db[name].Text? ==> now < db[name].expiresAt) then Some(db[name]) else None
  }

  /** `SADD`; on a string it is refused and changes nothing. */
  function Sadd(db: Keyspace, name: string, member: string, now: int): Keyspace {
    match Live(db, name, now)
    case Some(Text(_, _)) => db
    case Some(Group(members)) => db[name := Group(members + {member})]
    case None => db[name := Group({member})]
  }

  function SaddEach(db: Keyspace, tags: seq<string>, member: string, now: int): Keyspace {
    if tags == [] then db
    else Sadd(SaddEach(db, tags[..|tags|-1], member, now), TagName(tags[|tags|-1]), member, now)
  }

  // ---------------------------------------------------------------- what each operation means

  /** A read of anything but a live, parsable, non-empty string is a miss. */
  function RedisGet<V>(c: Codec<V>, db: Keyspace, key: string, now: int): Option<V> {
    match Live(db, KeyName(key), now)
    case Some(Text(raw, _)) => if raw != "" then c.parse(raw) else None
    case _ => None
  }

  function RedisSet<V>(c: Codec<V>, db: Keyspace, key: string, value: V, ttlMs: int, tags: seq<string>, now: int): Keyspace {
    var px := if ttlMs < 1 then 1 else ttlMs;
    SaddEach(db[KeyName(key) := Text(c.stringify(value), now + px)], tags, key, now)
  }

  function RedisWithoutKey(db: Keyspace, key: string): Keyspace {
    db - {KeyName(key)}
  }

  /** Reading the members of a string throws, and the invalidation ends there. */
  function RedisWithoutTag(db: Keyspace, tag: string, now: int): Keyspace {
    match Live(db, TagName(tag), now)
    case Some(Text(_, _)) => db
    case Some(Group(members)) => db - Names(members) - {TagName(tag)}
    case None => db - {TagName(tag)}
  }

  /** `SADD` under every tag: each tag's name that is not a live string holds the set it held and the key. */
  lemma {:induction false} SaddEachExactly(db: Keyspace, tags: seq<string>, key: string, now: int, name: string)
    ensures
      var after := SaddEach(db, tags, key, now);
      var held := Live(db, name, now);
      if (exists i :: 0 <= i < |tags| && name == "voltx:cache:tag:" + tags[i]) && !(held.Some? && held.value.Text?)
      then name in after && after[name] == Group((if held.Some? then held.value.members else {}) + {key})
      else (name in after <==> name in db) && (name in db ==> after[name] == db[name])
  {
    if tags != [] {
      var n := |tags| - 1;
      SaddEachExactly(db, tags[..n], key, now, name);
      SaddEachExactly(db, tags[..n], key, now, "voltx:cache:tag:" + tags[n]);
      if i :| 0 <= i < n && name == "voltx:cache:tag:" + tags[..n][i] { assert name == "voltx:cache:tag:" + tags[i]; }
      if i :| 0 <= i < |tags| && name == "voltx:cache:tag:" + tags[i] {
        if i < n { assert name == "voltx:cache:tag:" + tags[..n][i]; }
      }
    }
  }

  /** The keyspace a `set` leaves, name by name: the text under the key for its lifetime, the key in the set of each tag
    * whose name holds no string, and everything else as it was. */
  lemma RedisSetExactly<V>(c: Codec<V>, db: Keyspace, key: string, value: V, ttlMs: int, tags: seq<string>, now: int, name: string)
    ensures
      var after := RedisSet(c, db, key, value, ttlMs, tags, now);
      var held := Live(db, name, now);
      if name == "voltx:cache:" + key then
        name in after && after[name] == Text(c.stringify(value), now + (if ttlMs < 1 then 1 else ttlMs))
      else if (exists i :: 0 <= i < |tags| && name == "voltx:cache:tag:" + tags[i]) && !(held.Some? && held.value.Text?) then
        name in after && after[name] == Group((if held.Some? then held.value.members else {}) + {key})
      else (name in after <==> name in db) && (name in db ==> after[name] == db[name])
  {
    var px := if ttlMs < 1 then 1 else ttlMs;
    SaddEachExactly(db[KeyName(key) := Text(c.stringify(value), now + px)], tags, key, now, name);
  }

  class RedisCacheService<V> {
    const codec: Codec<V>
    var db: Keyspace

    constructor (codec: Codec<V>)
      ensures this.codec == codec && db == map[]
    {
      this.codec := codec;
      db := map[];
    }

    method Get(key: string, now: int) returns (r: Option<V>)
      ensures r == RedisGet(codec, db, key, now)
      ensures var name := "voltx:cache:" + key;
        r ==
        if name in db && db[name].Text? && now < db[name].expiresAt && db[name].raw != "" then codec.parse(db[name].raw)
        else None
    {
      match Live(db, KeyName(key), now) {
        case Some(Text(raw, _)) =>
          if raw != "" { return codec.parse(raw); }
          return None;
        case _ =>
          return None;
      }
    }

    method Set(key: string, value: V, ttlMs: int, tags: seq<string>, now: int)
      modifies this
      ensures db == RedisSet(codec, old(db), key, value, ttlMs, tags, now)
    {
      var px := if ttlMs < 1 then 1 else ttlMs;
      db := db[KeyName(key) := Text(codec.stringify(value), now + px)];
      ghost var written := db;
      for i := 0 to |tags|
        invariant db == SaddEach(written, tags[..i], key, now)
      {
        db := Sadd(db, TagName(tags[i]), key, now);
        assert tags[..i+1][..i] == tags[..i];
      }
      assert tags[..|tags|] == tags;
    }

    method InvalidateKey(key: string)
      modifies this
      ensures db == RedisWithoutKey(old(db), key) == old(db) - {"voltx:cache:" + key}
    {
      db := db - {KeyName(key)};
    }

    method InvalidateTag(tag: string, now: int)
      modifies this
      ensures db == RedisWithoutTag(old(db), tag, now)
      ensures
        var name, was := "voltx:cache:tag:" + tag, old(db);
        if name in was && was[name].Text? && now < was[name].expiresAt then db == was
        else
          (forall n | n in db :: n in was && db[n] == was[n]) &&
          forall n | n in was ::
            n !in db <==> n == name || (name in was && was[name].Group? && exists key :: key in was[name].members && n == "voltx:cache:" + key)
    {
      var members := {};
      match Live(db, TagName(tag), now) {
        case Some(Text(_, _)) => return;
        case Some(Group(found)) => members := found;
        case None =>
      }
      if members != {} {
        db := db - Names(members);
      }
      db := db - {TagName(tag)};
    }
  }

  // ---------------------------------------------------------------- the same history on both

  function RedisApply<V>(c: Codec<V>, db: Keyspace, e: Event<V>): Keyspace {
    match e
    case Set(key, value, ttlMs, tags, at) => RedisSet(c, db, key, value, ttlMs, tags, at)
    case InvalidateKey(key, _) => RedisWithoutKey(db, key)
    case InvalidateTag(tag, at) => RedisWithoutTag(db, tag, at)
  }

  function RedisReplay<V>(c: Codec<V>, h: seq<Event<V>>): Keyspace {
    if h == [] then map[] else RedisApply(c, RedisReplay(c, h[..|h|-1]), h[|h|-1])
  }

  /** The key falls under the tag prefix once the key prefix is put before it. */
  predicate TagNamed(key: string) {
    |key| >= 4 && key[..4] == "tag:"
  }

  /** A cacheable event whose key is not read as a tag. */
  ghost predicate Sound<V>(c: Codec<V>, e: Event<V>) {
    match e
    case Set(key, value, ttlMs, _, _) => !TagNamed(key) && Stable(c, value) && ttlMs >= 1
    case InvalidateKey(key, _) => !TagNamed(key)
    case InvalidateTag(_, _) => true
  }

  /** The two namespaces overlap: a tag's set is stored where a key named `tag:...` would be. */
  lemma TagIsKey(tag: string)
    ensures TagName(tag) == KeyName("tag:" + tag)
    ensures TagNamed("tag:" + tag)
  {}

  ghost function KeyOf(name: string): string {
    if |KEY_PREFIX| <= |name| then name[|KEY_PREFIX|..] else ""
  }

  ghost function TagOf(name: string): string {
    if |TAG_PREFIX| <= |name| then name[|TAG_PREFIX|..] else ""
  }

  ghost predicate NamesTag(name: string) {
    TAG_PREFIX <= name
  }

  /** Distinct keys and distinct tags have distinct names, and only a key named `tag:...` has the
    * name of a tag. */
  lemma NamesApart()
    ensures forall key :: KeyOf(KeyName(key)) == key
    ensures forall tag :: TagOf(TagName(tag)) == tag
    ensures forall tag :: NamesTag(TagName(tag))
    ensures forall key | !TagNamed(key) :: !NamesTag(KeyName(key))
  {}

  function GroupAt(db: Keyspace, tag: string): set<string> {
    if TagName(tag) in db && db[TagName(tag)].Group? then db[TagName(tag)].members else {}
  }

  ghost predicate TextMirrors<V>(c: Codec<V>, s: Store<V>, db: Keyspace) {
    (forall key | key in s.entries :: !TagNamed(key) && Stable(c, s.entries[key].value)) &&
    (forall key | !TagNamed(key) :: key in s.entries <==> KeyName(key) in db) &&
    (forall key | key in s.entries ::
       db[KeyName(key)] == Text(c.stringify(s.entries[key].value), s.entries[key].expiresAt))
  }

  ghost predicate TagsMirror(tags: map<string, set<string>>, db: Keyspace) {
    forall tag ::
      (TagName(tag) in db ==> db[TagName(tag)].Group?) &&
      GroupAt(db, tag) == Members(tags, tag)
  }

  lemma MirrorReads<V>(c: Codec<V>, s: Store<V>, db: Keyspace, key: string, now: int)
    requires TextMirrors(c, s, db) && TagsMirror(s.tags, db)
    ensures RedisGet(c, db, key, now) == GetAt(s, key, now)
  {
    hide KeyName, TagName;
    if TagNamed(key) {
      TagIsKey(key[4..]);
      assert key == "tag:" + key[4..];
    }
  }

  lemma SaddGroup(db: Keyspace, tag: string, key: string, now: int)
    requires TagName(tag) in db ==> db[TagName(tag)].Group?
    ensures Sadd(db, TagName(tag), key, now) == db[TagName(tag) := Group(GroupAt(db, tag) + {key})]
  {
    hide KeyName, TagName;
    if TagName(tag) !in db { assert GroupAt(db, tag) + {key} == {key}; }
  }

  lemma SaddKeeps<V>(c: Codec<V>, s: Store<V>, db: Keyspace, tag: string, key: string, now: int)
    requires TextMirrors(c, s, db) && TagsMirror(s.tags, db)
    ensures var db' := Sadd(db, TagName(tag), key, now);
      TextMirrors(c, s, db') && TagsMirror(s.tags[tag := Members(s.tags, tag) + {key}], db')
  {
    hide KeyName, TagName, KeyOf, TagOf, NamesTag, TagNamed, Stable;
    NamesApart();
    SaddGroup(db, tag, key, now);
  }

  lemma {:induction false} SaddEachKeeps<V>(c: Codec<V>, s: Store<V>, db: Keyspace, added: seq<string>, key: string, now: int)
    requires TextMirrors(c, s, db) && TagsMirror(s.tags, db)
    ensures TextMirrors(c, s, SaddEach(db, added, key, now))
    ensures TagsMirror(Tagged(s.tags, key, added), SaddEach(db, added, key, now))
  {
    hide KeyName, TagName, KeyOf, TagOf, NamesTag, TagNamed, Stable, TagsMirror, Tagged, Sadd;
    if added == [] {
      TaggedNone(s.tags, key);
    } else {
      var front, tag := added[..|added|-1], added[|added|-1];
      SaddEachKeeps(c, s, db, front, key, now);
      SaddKeeps(c, Store(s.entries, Tagged(s.tags, key, front)), SaddEach(db, front, key, now), tag, key, now);
      TaggedSnoc(s.tags, key, front, tag);
      assert added == front + [tag];
    }
  }

  lemma PutKeeps<V>(c: Codec<V>, s: Store<V>, db: Keyspace, key: string, value: V, expiresAt: int)
    requires TextMirrors(c, s, db) && TagsMirror(s.tags, db) && !TagNamed(key) && Stable(c, value)
    ensures var db' := db[KeyName(key) := Text(c.stringify(value), expiresAt)];
      TextMirrors(c, Store(s.entries[key := Entry(value, expiresAt)], s.tags), db') && TagsMirror(s.tags, db')
  {
    hide KeyName, TagName, KeyOf, TagOf, NamesTag, TagNamed, Stable;
    NamesApart();
  }

  lemma SetKeeps<V>(c: Codec<V>, s: Store<V>, db: Keyspace, key: string, value: V, ttlMs: int, added: seq<string>, now: int)
    requires TextMirrors(c, s, db) && TagsMirror(s.tags, db)
    requires !TagNamed(key) && Stable(c, value) && ttlMs >= 1
    ensures var (s', db') := (SetAt(s, key, value, ttlMs, added, now), RedisSet(c, db, key, value, ttlMs, added, now));
      TextMirrors(c, s', db') && TagsMirror(s'.tags, db')
  {
    hide KeyName, TagName, KeyOf, TagOf, NamesTag, TagNamed, Stable, TextMirrors, TagsMirror, Tagged, SaddEach;
    PutKeeps(c, s, db, key, value, now + ttlMs);
    var s1 := Store(s.entries[key := Entry(value, now + ttlMs)], s.tags);
    SaddEachKeeps(c, s1, db[KeyName(key) := Text(c.stringify(value), now + ttlMs)], added, key, now);
    TextIgnoresTags(c, s1, SetAt(s, key, value, ttlMs, added, now), RedisSet(c, db, key, value, ttlMs, added, now));
  }

  lemma TextIgnoresTags<V>(c: Codec<V>, s: Store<V>, s': Store<V>, db: Keyspace)
    requires s.entries == s'.entries && TextMirrors(c, s, db)
    ensures TextMirrors(c, s', db)
  {}

  lemma WithoutKeyKeeps<V>(c: Codec<V>, s: Store<V>, db: Keyspace, key: string)
    requires TextMirrors(c, s, db) && TagsMirror(s.tags, db) && !TagNamed(key)
    ensures TextMirrors(c, WithoutKey(s, key), RedisWithoutKey(db, key))
    ensures TagsMirror(WithoutKey(s, key).tags, RedisWithoutKey(db, key))
  {
    hide KeyName, TagName, KeyOf, TagOf, NamesTag, TagNamed, Stable;
    NamesApart();
  }

  lemma DropKeepsText<V>(c: Codec<V>, s: Store<V>, db: Keyspace, tag: string, names: set<string>)
    requires TextMirrors(c, s, db)
    requires forall k :: KeyName(k) in names <==> k in Members(s.tags, tag)
    ensures TextMirrors(c, WithoutTag(s, tag), db - names - {TagName(tag)})
  {
    hide KeyName, TagName, KeyOf, TagOf, NamesTag, TagNamed, Stable, Members;
    NamesApart();
  }

  lemma DropKeepsTags(tags: map<string, set<string>>, db: Keyspace, tag: string, names: set<string>)
    requires TagsMirror(tags, db) && forall t :: TagName(t) !in names
    ensures TagsMirror(tags - {tag}, db - names - {TagName(tag)})
  {
    hide KeyName, TagName, KeyOf, TagOf, NamesTag;
    NamesApart();
  }

  lemma DropKeeps<V>(c: Codec<V>, s: Store<V>, db: Keyspace, tag: string, names: set<string>)
    requires TextMirrors(c, s, db) && TagsMirror(s.tags, db)
    requires forall k :: KeyName(k) in names <==> k in Members(s.tags, tag)
    requires forall t :: TagName(t) !in names
    ensures var db' := db - names - {TagName(tag)};
      TextMirrors(c, WithoutTag(s, tag), db') && TagsMirror(WithoutTag(s, tag).tags, db')
  {
    hide KeyName, TagName, TextMirrors, TagsMirror, Members;
    DropKeepsText(c, s, db, tag, names);
    DropKeepsTags(s.tags, db, tag, names);
  }

  lemma NamesExact(keys: set<string>)
    ensures forall key :: KeyName(key) in Names(keys) <==> key in keys
    ensures (forall key | key in keys :: !TagNamed(key)) ==> forall tag :: TagName(tag) !in Names(keys)
  {
    hide KeyName, TagName, KeyOf, TagOf, NamesTag, TagNamed;
    NamesApart();
  }

  lemma WithoutTagKeeps<V>(c: Codec<V>, s: Store<V>, db: Keyspace, tag: string, now: int)
    requires TextMirrors(c, s, db) && TagsMirror(s.tags, db)
    requires forall k | k in Members(s.tags, tag) :: !TagNamed(k)
    ensures var (s', db') := (WithoutTag(s, tag), RedisWithoutTag(db, tag, now));
      TextMirrors(c, s', db') && TagsMirror(s'.tags, db')
  {
    hide KeyName, TagName, TextMirrors, Names, TagNamed, WithoutTag;
    NamesExact(Members(s.tags, tag));
    DropKeeps(c, s, db, tag, Names(Members(s.tags, tag)));
    assert GroupAt(db, tag) == Members(s.tags, tag);
    assert TagName(tag) in db ==> db[TagName(tag)].Group?;
    NamesNone(db);
  }

  lemma NamesNone(db: Keyspace)
    ensures db - Names({}) == db
  {}

  lemma {:induction false} ReplayMirrors<V>(c: Codec<V>, h: seq<Event<V>>)
    requires forall e | e in h :: Sound(c, e)
    ensures TextMirrors(c, Replay(h), RedisReplay(c, h)) && TagsMirror(Replay(h).tags, RedisReplay(c, h))
  {
    if h != [] {
      var front, e := h[..|h|-1], h[|h|-1];
      ReplayMirrors(c, front);
      var s, db := Replay(front), RedisReplay(c, front);
      assert Sound(c, e);
      match e
      case Set(key, value, ttlMs, tags, at) =>
        SetKeeps(c, s, db, key, value, ttlMs, tags, at);
      case InvalidateKey(key, at) =>
        WithoutKeyKeeps(c, s, db, key);
      case InvalidateTag(tag, at) =>
        forall k | k in Members(s.tags, tag) ensures !TagNamed(k) {
          TagIndexExact(front, k, tag);
          var i: nat :| i < |front| && IsSet(front[i], k);
          assert Sound(c, front[i]);
        }
        WithoutTagKeeps(c, s, db, tag, at);
    }
  }

  /** The Redis cache refines the in-memory one: after any history with no key named `tag:...`,
    * a ttl of at least one millisecond and values that survive JSON, every read of every key at
    * every time has the same answer. */
  lemma RedisRefinesMemory<V>(c: Codec<V>, h: seq<Event<V>>, key: string, now: int)
    requires forall e | e in h :: Sound(c, e)
    ensures RedisGet(c, RedisReplay(c, h), key, now) == GetAt(Replay(h), key, now)
  {
    ReplayMirrors(c, h);
    MirrorReads(c, Replay(h), RedisReplay(c, h), key, now);
  }

  // ---------------------------------------------------------------- where the two caches part

  /** `h` uses no key named `tag:...` other than `key` itself, and every value in it is cacheable. */
  ghost predicate SoundExcept<V>(c: Codec<V>, h: seq<Event<V>>, key: string) {
    forall e | e in h ::
      match e
      case Set(k, value, ttlMs, _, _) => (k == key || !TagNamed(k)) && Stable(c, value) && ttlMs >= 1
      case InvalidateKey(k, _) => k == key || !TagNamed(k)
      case InvalidateTag(_, _) => true
  }

  /** Both caches agree on every read after every such history. */
  ghost predicate SafeKey<V(!new)>(c: Codec<V>, key: string) {
    forall h: seq<Event<V>>, k: string, now: int ::
      SoundExcept(c, h, key) ==> RedisGet(c, RedisReplay(c, h), k, now) == GetAt(Replay(h), k, now)
  }

  /** A key named `tag:t` overwrites the set of tag `t`: an entry tagged `t` then outlives the
    * invalidation of `t`. */
  lemma TagNamedKeyIsUnsafe<V>(c: Codec<V>, tag: string, value: V)
    requires Stable(c, value)
    ensures
      var h := [Set("a", value, 9, [tag], 0), Set("tag:" + tag, value, 9, [], 0), InvalidateTag(tag, 0)];
      SoundExcept(c, h, "tag:" + tag) &&
      GetAt(Replay(h), "a", 0) == None &&
      RedisGet(c, RedisReplay(c, h), "a", 0) == Some(value)
  {
    hide KeyName, TagName, KeyOf, TagOf, NamesTag;
    NamesApart();
    TagIsKey(tag);
    var e0, e1, e2 := Set("a", value, 9, [tag], 0), Set("tag:" + tag, value, 9, [], 0), InvalidateTag(tag, 0);
    var h0: seq<Event<V>>, h1, h2, h3 := [], [e0], [e0, e1], [e0, e1, e2];
    assert h1[..0] == h0 && h2[..1] == h1 && h3[..2] == h2;
    assert "a" in Members(Replay(h3[..2]).tags, tag) by {
      TagIndexExact(h2, "a", tag);
      assert IsSet(h2[0], "a") && tag in h2[0].tags;
    }
    var text := Text(c.stringify(value), 9);
    OneTag(map[KeyName("a") := text], tag, "a");
    var db1 := map[KeyName("a") := text, TagName(tag) := Group({"a"})];
    assert RedisReplay(c, h1) == db1;
    assert RedisReplay(c, h2) == db1[TagName(tag) := text];
    assert RedisReplay(c, h3) == RedisReplay(c, h2);
  }

  lemma OneTag(db: Keyspace, tag: string, key: string)
    requires TagName(tag) !in db
    ensures SaddEach(db, [tag], key, 0) == db[TagName(tag) := Group({key})]
  {}

  /** A key may be used safely exactly when it does not start with `tag:`. */
  lemma SafeKeyExact<V(!new)>(c: Codec<V>, key: string, value: V)
    requires Stable(c, value)
    ensures SafeKey(c, key) <==> !TagNamed(key)
  {
    if TagNamed(key) {
      assert key == "tag:" + key[4..];
      TagNamedKeyIsUnsafe(c, key[4..], value);
    } else {
      forall h: seq<Event<V>>, k: string, now: int | SoundExcept(c, h, key)
        ensures RedisGet(c, RedisReplay(c, h), k, now) == GetAt(Replay(h), k, now)
      {
        RedisRefinesMemory(c, h, k, now);
      }
    }
  }

  /** The two caches agree on how long an entry lasts exactly when its ttl is at least one
    * millisecond: below that Redis keeps it for one. */
  lemma TtlExact<V>(c: Codec<V>, key: string, value: V, ttlMs: int, at: int)
    requires Stable(c, value) && !TagNamed(key)
    ensures var h := [Set(key, value, ttlMs, [], at)];
      ttlMs >= 1 <==>
      forall now :: at <= now ==> RedisGet(c, RedisReplay(c, h), key, now) == GetAt(Replay(h), key, now)
  {
    var e := Set(key, value, ttlMs, [], at);
    var h := [e];
    assert h[..0] == [];
    if ttlMs >= 1 {
      forall now | at <= now ensures RedisGet(c, RedisReplay(c, h), key, now) == GetAt(Replay(h), key, now) {
        RedisRefinesMemory(c, h, key, now);
      }
    } else {
      assert RedisGet(c, RedisReplay(c, h), key, at) == Some(value);
      assert GetAt(Replay(h), key, at) == None;
    }
  }
}
