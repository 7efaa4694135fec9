/** Does the tag index cover what it indexes? Runs of cache operations and clock ticks, the
    exact condition under which coverage is kept, and what it gives to invalidation. */
module TagCoverage {
  import opened Options
  import opened Redis
  import opened TaggedCache

  /** The key space, and the tags that the last write of each data key carried. */
  datatype Sys<V> = Sys(now: int, db: Db<V>, carried: map<string, set<string>>)

  datatype Op<V> =
    | Write(key: string, category: string, value: V, ttl: int, tags: seq<string>)
    | Delete(key: string, category: string)
    | Invalidate(tag: string)
    | Cleanup
    | Tick(duration: nat)

  /** A plain write is a tagged write without tags. */
  function Step<V>(s: Sys<V>, op: Op<V>): Sys<V> {
    match op
    case Write(key, category, value, ttl, tags) =>
      var k := BuildKey(key, category);
      Sys(s.now, Tagged(Written(s.db, k, value, s.now + ttl), k, s.now + ttl, tags),
          s.carried[k := Elements(tags)])
    case Delete(key, category) => s.(db := s.db - {BuildKey(key, category)})
    case Invalidate(tag) => s.(db := Invalidated(s.db, tag))
    case Cleanup => s.(db := Swept(s.db))
    case Tick(duration) => s.(now := s.now + duration, db := Purged(s.db, s.now + duration))
  }

  function Empty<V>(now: int): Sys<V> {
    Sys(now, map[], map[])
  }

  function Run<V>(start: Sys<V>, ops: seq<Op<V>>): Sys<V> {
    if ops == [] then start
    else Step(Run(start, ops[..|ops| - 1]), ops[|ops| - 1])
  }

  /** A live data key whose last write carried the tag. */
  predicate Carries<V>(s: Sys<V>, k: string, tag: string) {
    IsDataKey(k) && k in s.db && k in s.carried && tag in s.carried[k]
  }

  /** The tag set lists the key and lives at least as long. */
  predicate Indexed<V>(db: Db<V>, k: string, tag: string)
    requires k in db
  {
    && TagKey(tag) in db
    && k in MembersOf(db, TagKey(tag))
    && Outlasts(db[TagKey(tag)].expiry, db[k].expiry)
  }

  predicate Outlasts(holder: Option<int>, key: Option<int>) {
    holder.None? || (key.Some? && key.value <= holder.value)
  }

  /** The set of one tag lists every live carrier. */
  ghost predicate Covers<V>(s: Sys<V>, tag: string) {
    forall k :: Carries(s, k, tag) ==> Indexed(s.db, k, tag)
  }

  ghost predicate Covered<V>(s: Sys<V>) {
    forall tag :: Covers(s, tag)
  }

  ghost predicate Sound<V>(s: Sys<V>) {
    && Typed(s.db)
    && forall k :: k in s.db ==> Alive(s.db[k], s.now)
  }

  ghost predicate PositiveTtl<V>(op: Op<V>) {
    op.Write? ==> op.ttl > 0
  }

  /** If the tag is written, no other live key that carries it has a later deadline. */
  ghost predicate KeepsDeadline<V>(s: Sys<V>, op: Op<V>, tag: string) {
    op.Write? && tag in op.tags ==>
      forall k :: k != BuildKey(op.key, op.category) && Carries(s, k, tag) ==>
        Outlasts(Some(s.now + op.ttl), s.db[k].expiry)
  }

  ghost predicate KeepsDeadlines<V>(s: Sys<V>, op: Op<V>) {
    forall tag :: KeepsDeadline(s, op, tag)
  }

  /** The operations of the service, on a server in the state of `s`, are the steps of a run.
      `scan` is what the cursor of a sweep yields. */
  method Perform<V>(cache: CacheService<V>, op: Op<V>, scan: seq<string>, ghost s: Sys<V>)
    requires cache.Valid() && cache.redis.db == s.db && cache.redis.now == s.now && PositiveTtl(op)
    requires TagKeys(s.db) <= Elements(scan) && forall k :: k in scan ==> IsTagKey(k)
    modifies cache.redis
    ensures cache.Valid() && cache.redis.db == Step(s, op).db && cache.redis.now == Step(s, op).now
  {
    match op
    case Write(key, category, value, ttl, tags) =>
      if tags == [] {
        cache.Set(key, value, ttl, category);
      } else {
        cache.SetWithTags(key, value, ttl, category, tags);
      }
    case Delete(key, category) => cache.Delete(key, category);
    case Invalidate(tag) => cache.InvalidateByTag(tag);
    case Cleanup => cache.Cleanup(scan);
    case Tick(duration) => cache.redis.Tick(duration);
  }

  lemma StepIsSound<V>(s: Sys<V>, op: Op<V>)
    requires Sound(s) && PositiveTtl(op)
    ensures Sound(Step(s, op))
  {
    if op.Write? {
      var k, deadline := BuildKey(op.key, op.category), s.now + op.ttl;
      BuildKeyIsDataKey(op.key, op.category);
      PrefixesAreDisjoint(k);
      var written := Written(s.db, k, op.value, deadline);
      forall j | j in Step(s, op).db
        ensures Alive(Step(s, op).db[j], s.now)
        ensures IsDataKey(j) ==> Step(s, op).db[j].Text? && Step(s, op).db[j].expiry.Some?
        ensures IsTagKey(j) ==> Step(s, op).db[j].Names?
        ensures IsTagKey(j) ==> forall m :: m in Step(s, op).db[j].members ==> IsDataKey(m)
      {
        TaggedItems(written, k, deadline, op.tags, j);
        PrefixesAreDisjoint(j);
      }
    }
  }

  lemma WriteCovers<V>(s: Sys<V>, op: Op<V>, tag: string)
    requires Sound(s) && Covers(s, tag) && op.Write?
    ensures Covers(Step(s, op), tag) <==> KeepsDeadline(s, op, tag)
  {
    var after, k, deadline := Step(s, op), BuildKey(op.key, op.category), s.now + op.ttl;
    var written := Written(s.db, k, op.value, deadline);
    BuildKeyIsDataKey(op.key, op.category);
    PrefixesAreDisjoint(TagKey(tag));
    TagSetAfter(written, k, deadline, op.tags, tag);
    forall j | IsDataKey(j)
      ensures j != k ==> (Carries(after, j, tag) <==> Carries(s, j, tag))
      ensures Carries(after, j, tag) ==>
        if j == k || tag !in op.tags then Indexed(after.db, j, tag)
        else Indexed(after.db, j, tag) <==> Outlasts(Some(deadline), s.db[j].expiry)
    {
      DataKeyAfter(written, k, deadline, op.tags, j);
      assert Carries(after, k, tag) ==> tag in op.tags;
      assert Carries(s, j, tag) ==> Indexed(s.db, j, tag);
    }
  }

  lemma OtherStepsCover<V>(s: Sys<V>, op: Op<V>, tag: string)
    requires Sound(s) && Covers(s, tag) && !op.Write?
    ensures Covers(Step(s, op), tag)
  {
    var after := Step(s, op);
    forall k | Carries(after, k, tag)
      ensures Indexed(after.db, k, tag)
    {
      PrefixesAreDisjoint(k);
      PrefixesAreDisjoint(TagKey(tag));
      if op.Delete? {
        BuildKeyIsDataKey(op.key, op.category);
      }
      assert Carries(s, k, tag) && Indexed(s.db, k, tag);
      if op.Invalidate? {
        assert IsTagKey(TagKey(op.tag)) && IsTagKey(TagKey(tag));
        assert TagKey(tag) !in MembersOf(s.db, TagKey(op.tag));
      }
      if op.Cleanup? {
        assert IsTagKey(TagKey(tag));
        assert k in MembersOf(s.db, TagKey(tag)) * s.db.Keys;
      }
    }
  }

  /** An operation keeps a tag covered, whatever other tags are, exactly when it is no write
      that shortens the tag's set below another key the set covers. */
  lemma StepCovers<V>(s: Sys<V>, op: Op<V>, tag: string)
    requires Sound(s) && Covers(s, tag)
    ensures Covers(Step(s, op), tag) <==> KeepsDeadline(s, op, tag)
  {
    if op.Write? {
      WriteCovers(s, op, tag);
    } else {
      OtherStepsCover(s, op, tag);
    }
  }

  /** A tagged write keeps coverage exactly when it shortens no tag set below a key it covers. */
  lemma WriteKeepsCoverage<V>(s: Sys<V>, op: Op<V>)
    requires Sound(s) && Covered(s) && op.Write?
    ensures Covered(Step(s, op)) <==>
      forall k, tag :: tag in op.tags && k != BuildKey(op.key, op.category) && Carries(s, k, tag) ==>
        Outlasts(Some(s.now + op.ttl), s.db[k].expiry)
  {
    CoverageStep(s, op);
    if KeepsDeadlines(s, op) {
      forall k, tag | tag in op.tags && k != BuildKey(op.key, op.category) && Carries(s, k, tag)
        ensures Outlasts(Some(s.now + op.ttl), s.db[k].expiry)
      {
        assert KeepsDeadline(s, op, tag);
      }
    }
  }

  /** Deleting, invalidating, sweeping and waiting never lose coverage. */
  lemma OtherStepsKeepCoverage<V>(s: Sys<V>, op: Op<V>)
    requires Sound(s) && Covered(s) && !op.Write?
    ensures Covered(Step(s, op))
  {
    CoverageStep(s, op);
  }

  lemma CoverageStep<V>(s: Sys<V>, op: Op<V>)
    requires Sound(s) && Covered(s)
    ensures Covered(Step(s, op)) <==> KeepsDeadlines(s, op)
  {
    forall tag
      ensures Covers(Step(s, op), tag) <==> KeepsDeadline(s, op, tag)
    {
      assert Covers(s, tag);
      StepCovers(s, op, tag);
    }
  }

  // ---------------------------------------------------------------- whole runs

  ghost predicate PositiveTtls<V>(ops: seq<Op<V>>) {
    forall op :: op in ops ==> PositiveTtl(op)
  }

  lemma {:induction false} RunIsSound<V>(start: Sys<V>, ops: seq<Op<V>>)
    requires Sound(start) && PositiveTtls(ops)
    ensures Sound(Run(start, ops))
  {
    if ops != [] {
      RunIsSound(start, ops[..|ops| - 1]);
      StepIsSound(Run(start, ops[..|ops| - 1]), ops[|ops| - 1]);
    }
  }

  lemma RunStep<V>(start: Sys<V>, ops: seq<Op<V>>, i: nat)
    requires i < |ops|
    ensures Run(start, ops[..i + 1]) == Step(Run(start, ops[..i]), ops[i])
  {
    assert ops[..i + 1][..i] == ops[..i];
  }

  ghost predicate CoversUpTo<V>(start: Sys<V>, ops: seq<Op<V>>, tag: string, n: nat)
    requires n <= |ops|
  {
    forall i :: 0 <= i <= n ==> Covers(Run(start, ops[..i]), tag)
  }

  ghost predicate KeepsDeadlineUpTo<V>(start: Sys<V>, ops: seq<Op<V>>, tag: string, n: nat)
    requires n <= |ops|
  {
    forall i :: 0 <= i < n ==> KeepsDeadline(Run(start, ops[..i]), ops[i], tag)
  }

  lemma NextCovers<V>(start: Sys<V>, ops: seq<Op<V>>, tag: string, i: nat)
    requires Sound(start) && PositiveTtls(ops) && i < |ops| && Covers(Run(start, ops[..i]), tag)
    ensures Covers(Run(start, ops[..i + 1]), tag) <==> KeepsDeadline(Run(start, ops[..i]), ops[i], tag)
  {
    RunIsSound(start, ops[..i]);
    RunStep(start, ops, i);
    StepCovers(Run(start, ops[..i]), ops[i], tag);
  }

  lemma {:induction false} KeepingCovers<V>(start: Sys<V>, ops: seq<Op<V>>, tag: string, n: nat)
    requires Sound(start) && Covers(start, tag) && PositiveTtls(ops) && n <= |ops|
    requires KeepsDeadlineUpTo(start, ops, tag, n)
    ensures Covers(Run(start, ops[..n]), tag)
  {
    if n == 0 {
      assert ops[..0] == [];
    } else {
      KeepingCovers(start, ops, tag, n - 1);
      NextCovers(start, ops, tag, n - 1);
    }
  }

  /** From any state that covers a tag, every state of a run covers it exactly when every
      write of the tag keeps deadlines, whatever happens to other tags. */
  lemma CoverageOverRuns<V>(start: Sys<V>, ops: seq<Op<V>>, tag: string, n: nat)
    requires Sound(start) && Covers(start, tag) && PositiveTtls(ops) && n <= |ops|
    ensures CoversUpTo(start, ops, tag, n) <==> KeepsDeadlineUpTo(start, ops, tag, n)
  {
    if CoversUpTo(start, ops, tag, n) {
      forall i | 0 <= i < n
        ensures KeepsDeadline(Run(start, ops[..i]), ops[i], tag)
      {
        NextCovers(start, ops, tag, i);
      }
    } else if KeepsDeadlineUpTo(start, ops, tag, n) {
      var i :| 0 <= i <= n && !Covers(Run(start, ops[..i]), tag);
      KeepingCovers(start, ops, tag, i);
    }
  }

  /** Every write of the tag uses the same time to live. */
  ghost predicate OneTtl<V>(ops: seq<Op<V>>, tag: string, ttl: int) {
    forall op :: op in ops && op.Write? && tag in op.tags ==> op.ttl == ttl
  }

  ghost predicate WithinTtl<V>(s: Sys<V>, tag: string, ttl: int) {
    forall k :: Carries(s, k, tag) ==> Outlasts(Some(s.now + ttl), s.db[k].expiry)
  }

  /** A key that carries a tag after a step was written with it in this step, or carried it
      before and is unchanged. */
  lemma CarriedBefore<V>(s: Sys<V>, op: Op<V>, tag: string, k: string)
    requires Carries(Step(s, op), k, tag)
    ensures if op.Write? && k == BuildKey(op.key, op.category)
            then tag in op.tags && Step(s, op).db[k].expiry == Some(s.now + op.ttl)
            else Carries(s, k, tag) && Step(s, op).db[k] == s.db[k]
  {
    PrefixesAreDisjoint(k);
    if op.Write? {
      var written := BuildKey(op.key, op.category);
      DataKeyAfter(Written(s.db, written, op.value, s.now + op.ttl), written, s.now + op.ttl, op.tags, k);
    }
  }

  lemma StepWithinTtl<V>(s: Sys<V>, op: Op<V>, tag: string, ttl: int)
    requires WithinTtl(s, tag, ttl) && (op.Write? && tag in op.tags ==> op.ttl == ttl)
    ensures KeepsDeadline(s, op, tag) && WithinTtl(Step(s, op), tag, ttl)
  {
    forall k | Carries(Step(s, op), k, tag)
      ensures Outlasts(Some(Step(s, op).now + ttl), Step(s, op).db[k].expiry)
    {
      CarriedBefore(s, op, tag, k);
    }
  }

  /** A single time to live for a tag keeps it covered in every reachable state. */
  lemma OneTtlPerTagCovers<V>(now: int, ops: seq<Op<V>>, tag: string, ttl: int)
    requires PositiveTtls(ops) && OneTtl(ops, tag, ttl)
    ensures CoversUpTo(Empty(now), ops, tag, |ops|)
  {
    assert ops[..0] == [];
    for i := 0 to |ops|
      invariant WithinTtl(Run(Empty(now), ops[..i]), tag, ttl)
      invariant KeepsDeadlineUpTo(Empty(now), ops, tag, i)
    {
      RunIsSound(Empty(now), ops[..i]);
      RunStep(Empty(now), ops, i);
      StepWithinTtl(Run(Empty(now), ops[..i]), ops[i], tag, ttl);
    }
    CoverageOverRuns(Empty(now), ops, tag, |ops|);
  }

  // ---------------------------------------------------------------- invalidation

  /** Invalidation reaches every key whose last write carried the tag exactly when the tag
      set lists them all, as coverage guarantees; nothing outside the set is touched. */
  lemma InvalidateIsCompleteAndFramed<V>(s: Sys<V>, tag: string)
    requires Sound(s)
    ensures var after := Step(s, Invalidate(tag));
      && ((forall k :: !Carries(after, k, tag)) <==>
          (forall k :: Carries(s, k, tag) ==> k in MembersOf(s.db, TagKey(tag))))
      && (Covered(s) ==> forall k :: !Carries(after, k, tag))
      && MembersOf(after.db, TagKey(tag)) == {}
      && (MembersOf(s.db, TagKey(tag)) == {} ==> after == s)
      && (forall k :: k in s.db && k !in MembersOf(s.db, TagKey(tag)) && k != TagKey(tag) ==>
            k in after.db && after.db[k] == s.db[k])
      && (forall t :: t != tag && TagKey(t) in s.db ==>
            TagKey(t) in after.db && after.db[TagKey(t)] == s.db[TagKey(t)])
      && (forall k :: k in after.db ==> k in s.db)
  {
    var after := Step(s, Invalidate(tag));
    assert IsTagKey(TagKey(tag)) && (Covered(s) ==> Covers(s, tag));
    forall k
      ensures Carries(after, k, tag) <==> Carries(s, k, tag) && k !in MembersOf(s.db, TagKey(tag))
    {
      PrefixesAreDisjoint(k);
    }
    if !(forall k :: Carries(s, k, tag) ==> k in MembersOf(s.db, TagKey(tag))) {
      var k :| Carries(s, k, tag) && k !in MembersOf(s.db, TagKey(tag));
      assert Carries(after, k, tag);
    }
    forall t | t != tag && TagKey(t) in s.db
      ensures TagKey(t) in after.db && after.db[TagKey(t)] == s.db[TagKey(t)]
    {
      assert IsTagKey(TagKey(t));
      PrefixesAreDisjoint(TagKey(t));
      if TagKey(t) == TagKey(tag) {
        TagKeyInjective(t, tag);
      }
    }
  }

  // ---------------------------------------------------------------- sweeping

  /** A sweep leaves data alone, keeps the live references of the tag sets that still have
      one and drops the others, and repeating it at the same instant changes nothing. A tag set
      keeps its deadline exactly when none of its references is dead; else it has none. */
  lemma CleanupIsSound<V>(db: Db<V>)
    requires Typed(db)
    ensures DataPart(Swept(db)) == DataPart(db)
    ensures forall k :: IsTagKey(k) ==>
      && MembersOf(Swept(db), k) == MembersOf(db, k) * db.Keys
      && (k in Swept(db) <==> MembersOf(Swept(db), k) != {})
      && (k in Swept(db) ==>
            Swept(db)[k].expiry == if MembersOf(db, k) <= db.Keys then db[k].expiry else None)
    ensures forall k :: !IsTagKey(k) ==> (k in Swept(db) <==> k in db) && (k in db ==> Swept(db)[k] == db[k])
    ensures Typed(Swept(db)) && Swept(Swept(db)) == Swept(db)
  {
  }

  /** Sweeping first does not change which data an invalidation removes. */
  lemma CleanupThenInvalidate<V>(db: Db<V>, tag: string)
    requires Typed(db)
    ensures DataPart(Invalidated(Swept(db), tag)) == DataPart(Invalidated(db, tag))
  {
    CleanupIsSound(db);
    var tagKey := TagKey(tag);
    assert IsTagKey(tagKey);
    PrefixesAreDisjoint(tagKey);
    assert MembersOf(Swept(db), tagKey) == MembersOf(db, tagKey) * db.Keys;
    forall k | IsDataKey(k)
      ensures k in Invalidated(Swept(db), tag) <==> k in Invalidated(db, tag)
      ensures k in Invalidated(db, tag) ==> Invalidated(Swept(db), tag)[k] == Invalidated(db, tag)[k]
    {
      assert k != tagKey;
      assert k in MembersOf(db, tagKey) && k in db <==> k in MembersOf(Swept(db), tagKey);
      PrefixesAreDisjoint(k);
    }
  }

  lemma OtherTagKey(t: string, u: string)
    ensures IsTagKey(TagKey(t)) && IsTagKey(TagKey(u))
    ensures TagKey(t) == TagKey(u) ==> t == u
  {
    if TagKey(t) == TagKey(u) {
      TagKeyInjective(t, u);
    }
  }

  // ---------------------------------------------------------------- where coverage is lost

  /** A fresh key written under one tag: it carries the tag and is listed in its set. */
  lemma WriteOneTag<V>(s: Sys<V>, key: string, value: V, ttl: int, tag: string)
    ensures var after, k := Step(s, Write(key, "", value, ttl, [tag])), BuildKey(key, "");
      && Carries(after, k, tag)
      && after.db[k].expiry == Some(s.now + ttl)
      && TagKey(tag) in after.db
      && after.db[TagKey(tag)] == Names(MembersOf(s.db, TagKey(tag)) + {k}, Some(s.now + ttl))
      && forall j :: j != k && IsDataKey(j) && j in s.db ==> j in after.db && after.db[j] == s.db[j]
  {
    var k, deadline := BuildKey(key, ""), s.now + ttl;
    var written := Written(s.db, k, value, deadline);
    BuildKeyIsDataKey(key, "");
    PrefixesAreDisjoint(TagKey(tag));
    forall j | IsDataKey(j)
      ensures (j in Tagged(written, k, deadline, [tag]) <==> j in written)
      ensures j in written ==> Tagged(written, k, deadline, [tag])[j] == written[j]
    {
      DataKeyAfter(written, k, deadline, [tag], j);
    }
    assert tag in [tag];
    TagSetAfter(written, k, deadline, [tag], tag);
    assert MembersOf(written, TagKey(tag)) == MembersOf(s.db, TagKey(tag));
  }

  lemma RunOfFour<V>(start: Sys<V>, a: Op<V>, b: Op<V>, c: Op<V>, d: Op<V>)
    ensures Run(start, [a, b, c, d]) == Step(Step(Step(Step(start, a), b), c), d)
  {
    var ops := [a, b, c, d];
    assert ops[..0] == [] && ops[..4] == ops;
    RunStep(start, ops, 0);
    RunStep(start, ops, 1);
    RunStep(start, ops, 2);
    RunStep(start, ops, 3);
  }

  /** A later write of the same tag with a shorter time to live takes the set away early, and
      the invalidation that follows leaves the first key in the cache. */
  lemma ShorterTtlLosesKey()
    ensures var ops := [Write("a", "", 1, 100, ["t"]), Write("b", "", 2, 10, ["t"]), Tick(20), Invalidate("t")];
      Carries(Run(Empty(0), ops), BuildKey("a", ""), "t")
  {
    var ops: seq<Op<int>> := [Write("a", "", 1, 100, ["t"]), Write("b", "", 2, 10, ["t"]), Tick(20), Invalidate("t")];
    var a, b := BuildKey("a", ""), BuildKey("b", "");
    assert a[|a| - 1] == 'a' && b[|b| - 1] == 'b';
    RunOfFour(Empty(0), ops[0], ops[1], ops[2], ops[3]);
    WriteOneTag(Empty(0), "a", 1, 100, "t");
    WriteOneTag(Step(Empty(0), ops[0]), "b", 2, 10, "t");
  }
}
