/** The tagged cache kept in Redis: data keys, tag sets that index them, invalidation by
    tag and the sweep of dead references. `Keyspace` functions describe what each
    operation does to the key space; class CacheService performs them command by command. */
module TaggedCache {
  import opened Options
  import opened Redis

  const DATA_PREFIX := "antrader:cache:"
  const TAG_PREFIX := "tag:"

  function BuildKey(key: string, category: string): string {
    if category != "" then DATA_PREFIX + category + ":" + key else DATA_PREFIX + key
  }

  function TagKey(tag: string): string {
    TAG_PREFIX + tag
  }

  /** Keys as other clients of the server see them. */
  lemma KeyTexts()
    ensures BuildKey("k", "c") == "antrader:cache:c:k" && BuildKey("k", "") == "antrader:cache:k"
    ensures TagKey("t") == "tag:t"
  {
  }

  predicate IsDataKey(key: string) {
    DATA_PREFIX <= key
  }

  predicate IsTagKey(key: string) {
    TAG_PREFIX <= key
  }

  lemma PrefixesAreDisjoint(key: string)
    ensures !(IsDataKey(key) && IsTagKey(key))
  {
    assert IsDataKey(key) ==> key[0] == 'a';
    assert IsTagKey(key) ==> key[0] == 't';
  }

  lemma TagKeyInjective(t: string, u: string)
    requires TagKey(t) == TagKey(u)
    ensures t == u
  {
    assert t == TagKey(t)[|TAG_PREFIX|..] && u == TagKey(u)[|TAG_PREFIX|..];
  }

  /** Two (key, category) pairs name the same Redis key exactly when their joined names
      agree: a category is not an isolated name space unless the colons line up. */
  function JoinedName(key: string, category: string): string {
    if category != "" then category + ":" + key else key
  }

  lemma BuildKeyCollides(k: string, c: string, k': string, c': string)
    ensures BuildKey(k, c) == BuildKey(k', c') <==> JoinedName(k, c) == JoinedName(k', c')
    ensures c == c' && BuildKey(k, c) == BuildKey(k', c') ==> k == k'
  {
    assert BuildKey(k, c) == DATA_PREFIX + JoinedName(k, c);
    assert BuildKey(k', c') == DATA_PREFIX + JoinedName(k', c');
    PrefixCancels(DATA_PREFIX, JoinedName(k, c), JoinedName(k', c'));
    if c == c' {
      PrefixCancels(c + ":", k, k');
    }
  }

  lemma PrefixCancels(prefix: string, a: string, b: string)
    ensures prefix + a == prefix + b <==> a == b
  {
    assert (prefix + a)[|prefix|..] == a && (prefix + b)[|prefix|..] == b;
  }

  lemma BuildKeyIsDataKey(key: string, category: string)
    ensures IsDataKey(BuildKey(key, category))
  {
  }

  // ---------------------------------------------------------------- key space

  /** Data keys hold text with a deadline; tag keys hold sets of data keys. */
  ghost predicate Typed<V>(db: Db<V>) {
    forall k :: k in db ==>
      && (IsDataKey(k) ==> db[k].Text? && db[k].expiry.Some?)
      && (IsTagKey(k) ==> db[k].Names? && forall m :: m in db[k].members ==> IsDataKey(m))
  }

  function Written<V>(db: Db<V>, key: string, value: V, deadline: int): Db<V> {
    db[key := Text(value, Some(deadline))]
  }

  /** `key` joins one tag set, which takes the given deadline. */
  function WithMember<V>(db: Db<V>, key: string, deadline: int, tag: string): Db<V> {
    db[TagKey(tag) := Names(MembersOf(db, TagKey(tag)) + {key}, Some(deadline))]
  }

  function Tagged<V>(db: Db<V>, key: string, deadline: int, tags: seq<string>): Db<V>
    decreases |tags|
  {
    if tags == [] then db
    else WithMember(Tagged(db, key, deadline, tags[..|tags| - 1]), key, deadline, tags[|tags| - 1])
  }

  /** Tagging changes exactly the named tag sets: each gains the key and the deadline. */
  lemma {:induction false} TaggedItems<V>(db: Db<V>, key: string, deadline: int, tags: seq<string>, k: string)
    ensures var after := Tagged(db, key, deadline, tags);
      if exists t :: t in tags && k == TagKey(t)
      then k in after && after[k] == Names(MembersOf(db, k) + {key}, Some(deadline))
      else (k in after <==> k in db) && (k in db ==> after[k] == db[k])
    decreases |tags|
  {
    if tags != [] {
      var last := |tags| - 1;
      assert tags == tags[..last] + [tags[last]];
      TaggedItems(db, key, deadline, tags[..last], k);
      if k == TagKey(tags[last]) {
        assert tags[last] in tags;
        var before := Tagged(db, key, deadline, tags[..last]);
        assert MembersOf(before, k) + {key} == MembersOf(db, k) + {key};
      }
    }
  }

  lemma TagSetAfter<V>(db: Db<V>, key: string, deadline: int, tags: seq<string>, tag: string)
    ensures var after, k := Tagged(db, key, deadline, tags), TagKey(tag);
      if tag in tags then k in after && after[k] == Names(MembersOf(db, k) + {key}, Some(deadline))
      else (k in after <==> k in db) && (k in db ==> after[k] == db[k])
  {
    TaggedItems(db, key, deadline, tags, TagKey(tag));
    if t :| t in tags && TagKey(tag) == TagKey(t) {
      TagKeyInjective(tag, t);
    }
  }

  lemma DataKeyAfter<V>(db: Db<V>, key: string, deadline: int, tags: seq<string>, k: string)
    requires IsDataKey(k)
    ensures var after := Tagged(db, key, deadline, tags);
      (k in after <==> k in db) && (k in db ==> after[k] == db[k])
  {
    TaggedItems(db, key, deadline, tags, k);
    PrefixesAreDisjoint(k);
  }

  function Invalidated<V>(db: Db<V>, tag: string): Db<V> {
    var members := MembersOf(db, TagKey(tag));
    if members == {} then db else db - members - {TagKey(tag)}
  }

  /** The tag set at `key` without references to missing keys; a shortened set is
      written anew, so it has no deadline. */
  function SweptItem<V>(db: Db<V>, key: string): Item<V>
    requires key in db
  {
    var live := MembersOf(db, key) * db.Keys;
    if db[key].Names? && live != db[key].members then Names(live, None) else db[key]
  }

  predicate Dangling<V>(db: Db<V>, key: string) {
    MembersOf(db, key) * db.Keys == {}
  }

  /** The key space after the tag keys in `chosen` have been swept. */
  function SweptOn<V>(db: Db<V>, chosen: set<string>): Db<V> {
    map k | k in db && !(k in chosen && Dangling(db, k)) ::
      if k in chosen then SweptItem(db, k) else db[k]
  }

  function TagKeys<V>(db: Db<V>): set<string> {
    set k | k in db && IsTagKey(k)
  }

  function Swept<V>(db: Db<V>): Db<V> {
    SweptOn(db, TagKeys(db))
  }

  function DataPart<V>(db: Db<V>): Db<V> {
    map k | k in db && IsDataKey(k) :: db[k]
  }

  // ---------------------------------------------------------------- the service

  class CacheService<V> {
    const redis: Server<V>

    ghost predicate Valid()
      reads this, redis
    {
      redis.Valid() && Typed(redis.db)
    }

    constructor (redis: Server<V>)
      requires redis.Valid() && Typed(redis.db)
      ensures Valid() && this.redis == redis
    {
      this.redis := redis;
    }

    method Set(key: string, value: V, ttl: int, category: string)
      requires Valid() && ttl > 0
      modifies redis`db
      ensures Valid()
      ensures redis.db == Written(old(redis.db), BuildKey(key, category), value, redis.now + ttl)
    {
      var fullKey := BuildKey(key, category);
      BuildKeyIsDataKey(key, category);
      PrefixesAreDisjoint(fullKey);
      redis.Set(fullKey, value, ttl);
    }

    /** None is the source's "cache miss" error. */
    method Get(key: string, category: string) returns (r: Option<V>)
      requires Valid()
      ensures r == var k := BuildKey(key, category);
                   if k in redis.db && redis.db[k].Text? then Some(redis.db[k].value) else None
    {
      BuildKeyIsDataKey(key, category);
      r := redis.Get(BuildKey(key, category));
    }

    method Exists(key: string, category: string) returns (found: bool)
      requires Valid()
      ensures found <==> BuildKey(key, category) in redis.db
    {
      found := redis.Exists(BuildKey(key, category));
    }

    method Delete(key: string, category: string)
      requires Valid()
      modifies redis`db
      ensures Valid() && redis.db == old(redis.db) - {BuildKey(key, category)}
    {
      redis.Del([BuildKey(key, category)]);
    }

    method SetWithTags(key: string, value: V, ttl: int, category: string, tags: seq<string>)
      requires Valid() && ttl > 0
      modifies redis`db
      ensures Valid()
      ensures redis.db == var k := BuildKey(key, category);
                          Tagged(Written(old(redis.db), k, value, redis.now + ttl), k, redis.now + ttl, tags)
    {
      Set(key, value, ttl, category);
      ghost var written, k := redis.db, BuildKey(key, category);
      BuildKeyIsDataKey(key, category);
      assert tags[..0] == [];
      for i := 0 to |tags|
        invariant Valid()
        invariant redis.db == Tagged(written, k, redis.now + ttl, tags[..i])
      {
        AddTag(tags[i], BuildKey(key, category), ttl);
        assert tags[..i + 1][..i] == tags[..i];
      }
      assert tags[..|tags|] == tags;
    }

    /** One round of the tagging loop. */
    method AddTag(tag: string, fullKey: string, ttl: int)
      requires Valid() && ttl > 0 && IsDataKey(fullKey)
      modifies redis`db
      ensures Valid() && redis.db == WithMember(old(redis.db), fullKey, redis.now + ttl, tag)
    {
      var tagKey := TagKey(tag);
      PrefixesAreDisjoint(tagKey);
      redis.SAdd(tagKey, [fullKey]);
      redis.Expire(tagKey, ttl);
      assert Elements([fullKey]) == {fullKey};
    }

    method InvalidateByTag(tag: string)
      requires Valid()
      modifies redis`db
      ensures Valid() && redis.db == Invalidated(old(redis.db), tag)
    {
      var keys := redis.SMembers(TagKey(tag));
      if |keys| == 0 {
        return;
      }
      assert keys[0] in Elements(keys);
      redis.Del(keys);
      redis.Del([TagKey(tag)]);
    }

    /** `scan` is what the cursor over "tag:*" yields: every tag key that was there at the
        start, in any order, possibly more than once. */
    method Cleanup(scan: seq<string>)
      requires Valid()
      requires TagKeys(redis.db) <= Elements(scan)
      requires forall k :: k in scan ==> IsTagKey(k)
      modifies redis`db
      ensures Valid() && redis.db == Swept(old(redis.db))
    {
      ghost var before := redis.db;
      assert SweptOn(before, {}) == before;
      for i := 0 to |scan|
        invariant Valid() && redis.db == SweptOn(before, Elements(scan[..i]))
      {
        CleanTag(scan[i]);
        SweepStep(before, Elements(scan[..i]), scan[i]);
        assert Elements(scan[..i + 1]) == Elements(scan[..i]) + {scan[i]};
      }
      assert scan[..|scan|] == scan;
      assert SweptOn(before, Elements(scan)) == Swept(before);
    }

    /** One round of the scan. */
    method CleanTag(tagKey: string)
      requires Valid() && IsTagKey(tagKey)
      modifies redis`db
      ensures Valid() && redis.db == SweptOn(old(redis.db), {tagKey})
    {
      ghost var before := redis.db;
      var members := redis.SMembers(tagKey);
      var validKeys := ExistingKeys(members);
      assert validKeys != [] ==> validKeys[0] in Elements(validKeys);
      PrefixesAreDisjoint(tagKey);
      SweepOne(before, tagKey);
      if |validKeys| == 0 {
        redis.Del([tagKey]);
        assert Elements([tagKey]) == {tagKey};
      } else if |validKeys| != |members| {
        redis.Del([tagKey]);
        assert Elements([tagKey]) == {tagKey} && MembersOf(redis.db, tagKey) == {};
        redis.SAdd(tagKey, validKeys);
        assert Elements(validKeys) == {} + Elements(validKeys);
        assert redis.db == before[tagKey := Names(Elements(validKeys), None)];
      }
    }

    method ExistingKeys(members: seq<string>) returns (validKeys: seq<string>)
      requires Valid()
      ensures Elements(validKeys) == Elements(members) * redis.db.Keys
      ensures |validKeys| == |members| <==> Elements(members) <= redis.db.Keys
    {
      validKeys := [];
      for j := 0 to |members|
        invariant Elements(validKeys) == Elements(members[..j]) * redis.db.Keys
        invariant |validKeys| <= j
        invariant |validKeys| == j <==> Elements(members[..j]) <= redis.db.Keys
      {
        var found := redis.Exists(members[j]);
        assert Elements(members[..j + 1]) == Elements(members[..j]) + {members[j]};
        if found {
          assert Elements(validKeys + [members[j]]) == Elements(validKeys) + {members[j]};
          validKeys := validKeys + [members[j]];
        }
      }
      assert members[..|members|] == members;
    }
  }

  /** Sweeping one tag key drops the set, writes it anew, or leaves it. */
  lemma SweepOne<V>(db: Db<V>, tagKey: string)
    requires Typed(db) && IsTagKey(tagKey)
    ensures var live := MembersOf(db, tagKey) * db.Keys;
      SweptOn(db, {tagKey}) ==
        if live == {} then db - {tagKey}
        else if live != MembersOf(db, tagKey) then db[tagKey := Names(live, None)]
        else db
  {
  }

  /** Sweeping one more tag key, or one already swept, only adds it to the swept ones. */
  lemma SweepStep<V>(db: Db<V>, chosen: set<string>, tagKey: string)
    requires Typed(db) && IsTagKey(tagKey)
    requires forall k :: k in chosen ==> IsTagKey(k)
    ensures SweptOn(SweptOn(db, chosen), {tagKey}) == SweptOn(db, chosen + {tagKey})
  {
    var mid := SweptOn(db, chosen);
    forall k | IsDataKey(k)
      ensures k in mid <==> k in db
    {
      PrefixesAreDisjoint(k);
    }
    assert MembersOf(db, tagKey) * mid.Keys == MembersOf(db, tagKey) * db.Keys;
  }
}
