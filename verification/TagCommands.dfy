/** The cache operations command by command, with other clients at work between the commands:
    what each command does to the coverage of a tag, and what survives a slow invalidation,
    a slow sweep and a slow tagging. */
module TagCommands {
  import opened Options
  import opened Redis
  import opened TaggedCache
  import opened TagCoverage

  /** DEL of data keys. */
  function DropKeys<V>(s: Sys<V>, keys: set<string>): Sys<V> {
    s.(db := s.db - keys)
  }

  /** DEL of a tag set. */
  function DropSet<V>(s: Sys<V>, tag: string): Sys<V> {
    s.(db := s.db - {TagKey(tag)})
  }

  function SetDeadline<V>(db: Db<V>, tag: string): Option<int> {
    if TagKey(tag) in db then db[TagKey(tag)].expiry else None
  }

  /** SADD to a tag set: one that is there keeps its deadline, a new one has none. */
  function AddMembers<V>(s: Sys<V>, tag: string, names: set<string>): Sys<V> {
    s.(db := s.db[TagKey(tag) := Names(MembersOf(s.db, TagKey(tag)) + names, SetDeadline(s.db, tag))])
  }

  /** EXPIRE of a tag set: nothing happens when it is gone. */
  function ExpireSet<V>(s: Sys<V>, tag: string, ttl: int): Sys<V> {
    if TagKey(tag) !in s.db then s
    else s.(db := s.db[TagKey(tag) := Names(MembersOf(s.db, TagKey(tag)), Some(s.now + ttl))])
  }

  /** Every command keeps the key space typed and alive, like the operations around it. */
  lemma CommandsAreSound<V>(s: Sys<V>, tag: string, keys: set<string>, ttl: int)
    requires Sound(s) && (forall k :: k in keys ==> IsDataKey(k)) && ttl > 0
    ensures Sound(DropKeys(s, keys)) && Sound(DropSet(s, tag))
    ensures Sound(AddMembers(s, tag, keys)) && Sound(ExpireSet(s, tag, ttl))
  {
    OtherTagKey(tag, tag);
    PrefixesAreDisjoint(TagKey(tag));
  }

  // ---------------------------------------------------------------- single commands

  /** Deleting data keys never costs a tag its coverage. */
  lemma DropKeysCovers<V>(s: Sys<V>, keys: set<string>, tag: string)
    requires Covers(s, tag) && forall k :: k in keys ==> IsDataKey(k)
    ensures Covers(DropKeys(s, keys), tag)
  {
    var after := DropKeys(s, keys);
    OtherTagKey(tag, tag);
    PrefixesAreDisjoint(TagKey(tag));
    forall k | Carries(after, k, tag)
      ensures Indexed(after.db, k, tag)
    {
      assert Carries(s, k, tag);
    }
  }

  /** Commands on a tag set leave the data keys and the other tag sets alone. */
  lemma OnlySetChanges<V>(s: Sys<V>, after: Sys<V>, tag: string, t: string)
    requires after.carried == s.carried && after.db - {TagKey(tag)} == s.db - {TagKey(tag)}
    ensures forall k :: Carries(after, k, t) <==> Carries(s, k, t)
    ensures forall k :: Carries(after, k, t) ==> k in s.db && after.db[k] == s.db[k]
    ensures t != tag ==> (Covers(after, t) <==> Covers(s, t))
  {
    OtherTagKey(t, tag);
    PrefixesAreDisjoint(TagKey(tag));
    var rest := s.db - {TagKey(tag)};
    forall k | k != TagKey(tag)
      ensures (k in after.db <==> k in s.db) && (k in s.db ==> after.db[k] == s.db[k])
    {
      assert (k in after.db <==> k in rest) && (k in s.db <==> k in rest);
      assert k in s.db ==> rest[k] == s.db[k] && (after.db - {TagKey(tag)})[k] == after.db[k];
    }
  }

  /** Deleting a tag set, in any state, leaves its tag covered exactly when no live carrier is left. */
  lemma DropSetCovers<V>(s: Sys<V>, tag: string, t: string)
    ensures Covers(DropSet(s, tag), t) <==> if t == tag then forall k :: !Carries(s, k, tag) else Covers(s, t)
  {
    OnlySetChanges(s, DropSet(s, tag), tag, t);
  }

  /** Adding members, in any state, covers the tag exactly when every live carrier is then listed
      and outlasted by whatever deadline the set has by now. */
  lemma AddMembersCovers<V>(s: Sys<V>, tag: string, names: set<string>, t: string)
    ensures Covers(AddMembers(s, tag, names), t) <==>
      if t == tag then
        forall k :: Carries(s, k, tag) ==>
          (k in names || k in MembersOf(s.db, TagKey(tag))) && Outlasts(SetDeadline(s.db, tag), s.db[k].expiry)
      else Covers(s, t)
  {
    OnlySetChanges(s, AddMembers(s, tag, names), tag, t);
  }

  /** Giving a tag set a new deadline, in any state, covers the tag exactly when every live
      carrier is listed and outlasted by it. */
  lemma ExpireSetCovers<V>(s: Sys<V>, tag: string, ttl: int, t: string)
    ensures Covers(ExpireSet(s, tag, ttl), t) <==>
      if t == tag then
        forall k :: Carries(s, k, tag) ==>
          k in MembersOf(s.db, TagKey(tag)) && Outlasts(Some(s.now + ttl), s.db[k].expiry)
      else Covers(s, t)
  {
    OnlySetChanges(s, ExpireSet(s, tag, ttl), tag, t);
  }

  // ---------------------------------------------------------------- between the commands

  /** No write of the tag, only other operations of other clients. */
  ghost predicate Untouched<V>(tag: string, ops: seq<Op<V>>) {
    forall op :: op in ops && op.Write? ==> tag !in op.tags
  }

  /** Without a write of the tag, its carriers are carriers all along. */
  lemma {:induction false} CarriedThroughout<V>(s: Sys<V>, ops: seq<Op<V>>, tag: string, k: string, i: nat)
    requires Untouched(tag, ops) && Carries(Run(s, ops), k, tag) && i <= |ops|
    ensures Carries(Run(s, ops[..i]), k, tag)
    decreases |ops|
  {
    if i == |ops| {
      assert ops[..i] == ops;
    } else {
      var before, op := ops[..|ops| - 1], ops[|ops| - 1];
      CarriedBefore(Run(s, before), op, tag, k);
      assert op in ops && before[..i] == ops[..i];
      CarriedThroughout(s, before, tag, k, i);
    }
  }

  /** Nor does its set come back. */
  lemma {:induction false} SetStaysAway<V>(s: Sys<V>, ops: seq<Op<V>>, tag: string)
    requires Untouched(tag, ops) && TagKey(tag) !in s.db
    ensures TagKey(tag) !in Run(s, ops).db
  {
    if ops != [] {
      var before, op := ops[..|ops| - 1], ops[|ops| - 1];
      SetStaysAway(s, before, tag);
      assert op in ops;
      if op.Write? {
        var at, k := Run(s, before), BuildKey(op.key, op.category);
        OtherTagKey(tag, tag);
        BuildKeyIsDataKey(op.key, op.category);
        PrefixesAreDisjoint(k);
        TagSetAfter(Written(at.db, k, op.value, at.now + op.ttl), k, at.now + op.ttl, op.tags, tag);
      }
    }
  }

  /** A tag that nobody writes stays covered. */
  lemma UntouchedStaysCovered<V>(s: Sys<V>, ops: seq<Op<V>>, tag: string)
    requires Sound(s) && Covers(s, tag) && PositiveTtls(ops) && Untouched(tag, ops)
    ensures Sound(Run(s, ops)) && Covers(Run(s, ops), tag)
  {
    RunIsSound(s, ops);
    KeepingCovers(s, ops, tag, |ops|);
    assert ops[..|ops|] == ops;
  }

  // ---------------------------------------------------------------- slow invalidation

  /** The two deletes of an invalidation that has read `seen`, with other operations between. */
  function LateInvalidate<V>(s: Sys<V>, tag: string, seen: set<string>, between: seq<Op<V>>): Sys<V> {
    if seen == {} then s else DropSet(Run(DropKeys(s, seen), between), tag)
  }

  /** Whatever runs before and between the deletes: the invalidated tag is covered afterwards
      exactly when no live carrier is left when its set goes. */
  lemma LateInvalidateKeepsCoverage<V>(
    s: Sys<V>, tag: string, seen: set<string>, between: seq<Op<V>>, mid: Sys<V>)
    requires seen != {} && mid == Run(DropKeys(s, seen), between)
    ensures Covers(LateInvalidate(s, tag, seen, between), tag) <==> forall k :: !Carries(mid, k, tag)
  {
    DropSetCovers(mid, tag, tag);
  }

  /** Another tag that was covered is covered in every state from the first delete to the end
      exactly when every write of it in between keeps deadlines. */
  lemma LateInvalidateAndOtherTags<V>(
    s: Sys<V>, tag: string, seen: set<string>, between: seq<Op<V>>, other: string)
    requires Sound(s) && Covers(s, other) && other != tag && PositiveTtls(between)
    requires seen != {} && forall k :: k in seen ==> IsDataKey(k)
    ensures KeepsDeadlineUpTo(DropKeys(s, seen), between, other, |between|) <==>
            (CoversUpTo(DropKeys(s, seen), between, other, |between|)
             && Covers(LateInvalidate(s, tag, seen, between), other))
  {
    var dropped := DropKeys(s, seen);
    CommandsAreSound(s, tag, seen, 1);
    DropKeysCovers(s, seen, other);
    CoverageOverRuns(dropped, between, other, |between|);
    DropSetCovers(Run(dropped, between), tag, other);
    LastCovers(dropped, between, other);
  }

  lemma LastCovers<V>(s: Sys<V>, ops: seq<Op<V>>, tag: string)
    ensures CoversUpTo(s, ops, tag, |ops|) ==> Covers(Run(s, ops), tag)
  {
    assert ops[..|ops|] == ops;
  }

  /** A whole invalidation: the member read, and later its deletes. */
  function SlowInvalidate<V>(s: Sys<V>, tag: string, before: seq<Op<V>>, between: seq<Op<V>>): Sys<V> {
    LateInvalidate(Run(s, before), tag, MembersOf(s.db, TagKey(tag)), between)
  }

  lemma SurvivorWasUnseen<V>(s: Sys<V>, tag: string, seen: set<string>, between: seq<Op<V>>, k: string)
    requires Untouched(tag, between) && seen != {} && Carries(LateInvalidate(s, tag, seen, between), k, tag)
    ensures Carries(s, k, tag) && k !in seen
  {
    var dropped := DropKeys(s, seen);
    OnlySetChanges(Run(dropped, between), DropSet(Run(dropped, between), tag), tag, tag);
    assert between[..0] == [];
    CarriedThroughout(dropped, between, tag, k, 0);
  }

  /** However long it takes and whatever other operations run meanwhile, an invalidation leaves
      no live carrier of a covered tag unless the tag is written meanwhile. */
  lemma SlowInvalidateIsComplete<V>(s: Sys<V>, tag: string, before: seq<Op<V>>, between: seq<Op<V>>, k: string)
    requires Covers(s, tag) && Untouched(tag, before) && Untouched(tag, between)
    ensures !Carries(SlowInvalidate(s, tag, before, between), k, tag)
  {
    var seen := MembersOf(s.db, TagKey(tag));
    assert before[..0] == [];
    if Carries(SlowInvalidate(s, tag, before, between), k, tag) {
      if seen != {} {
        SurvivorWasUnseen(Run(s, before), tag, seen, between, k);
      }
      CarriedThroughout(s, before, tag, k, 0);
    }
  }

  // ---------------------------------------------------------------- slow sweep

  /** The rewrite of one tag by a sweep that has read `seen` and found `live` of them, with
      other operations between the delete and the re-add. */
  function LateSweep<V>(s: Sys<V>, tag: string, seen: set<string>, live: set<string>, between: seq<Op<V>>): Sys<V> {
    if live == {} then DropSet(s, tag)
    else if live == seen then s
    else AddMembers(Run(DropSet(s, tag), between), tag, live)
  }

  /** Whatever runs before and between the two commands: the swept tag is covered afterwards
      exactly when each live carrier was found or has been listed since, and is outlasted by
      the deadline that the set has got since, if any. */
  lemma LateSweepKeepsCoverage<V>(s: Sys<V>, tag: string, seen: set<string>, live: set<string>, between: seq<Op<V>>)
    requires Covers(s, tag)
    ensures Covers(LateSweep(s, tag, seen, live, between), tag) <==>
      var mid := Run(DropSet(s, tag), between);
      if live == {} then forall k :: !Carries(s, k, tag)
      else if live == seen then true
      else
        forall k :: Carries(mid, k, tag) ==>
          (k in live || k in MembersOf(mid.db, TagKey(tag))) && Outlasts(SetDeadline(mid.db, tag), mid.db[k].expiry)
  {
    DropSetCovers(s, tag, tag);
    AddMembersCovers(Run(DropSet(s, tag), between), tag, live, tag);
  }

  /** Each member that was read is looked up once while `before` runs. */
  ghost predicate Checked<V>(s: Sys<V>, before: seq<Op<V>>, seen: set<string>, live: set<string>) {
    && live <= seen
    && forall k :: k in seen ==> exists i :: 0 <= i <= |before| && (k in live <==> k in Run(s, before[..i]).db)
  }

  /** However long it takes and whatever other operations run meanwhile, a sweep leaves a
      covered tag covered unless the tag is written meanwhile. */
  lemma SlowSweepKeepsCoverage<V>(
    s: Sys<V>, tag: string, live: set<string>, before: seq<Op<V>>, between: seq<Op<V>>)
    requires Sound(s) && Covers(s, tag) && PositiveTtls(before)
    requires Untouched(tag, before) && Untouched(tag, between)
    requires Checked(s, before, MembersOf(s.db, TagKey(tag)), live)
    ensures Covers(LateSweep(Run(s, before), tag, MembersOf(s.db, TagKey(tag)), live, between), tag)
  {
    var late := Run(s, before);
    UntouchedStaysCovered(s, before, tag);
    LateSweepKeepsCoverage(late, tag, MembersOf(s.db, TagKey(tag)), live, between);
    forall k | Carries(late, k, tag)
      ensures k in live
    {
      CarrierIsFound(s, tag, live, before, k);
    }
    AfterDrop(late, tag, between);
  }

  /** Between the two commands no carrier appears, and neither does a deadline. */
  lemma AfterDrop<V>(s: Sys<V>, tag: string, between: seq<Op<V>>)
    requires Untouched(tag, between)
    ensures var mid := Run(DropSet(s, tag), between);
      (forall k :: Carries(mid, k, tag) ==> Carries(s, k, tag)) && SetDeadline(mid.db, tag) == None
  {
    var mid := Run(DropSet(s, tag), between);
    assert between[..0] == [];
    OnlySetChanges(s, DropSet(s, tag), tag, tag);
    forall k | Carries(mid, k, tag)
      ensures Carries(s, k, tag)
    {
      CarriedThroughout(DropSet(s, tag), between, tag, k, 0);
    }
    SetStaysAway(DropSet(s, tag), between, tag);
  }

  lemma CarrierIsFound<V>(s: Sys<V>, tag: string, live: set<string>, before: seq<Op<V>>, k: string)
    requires Covers(s, tag) && Untouched(tag, before) && Carries(Run(s, before), k, tag)
    requires Checked(s, before, MembersOf(s.db, TagKey(tag)), live)
    ensures k in live
  {
    CarriedThroughout(s, before, tag, k, 0);
    assert before[..0] == [] && Indexed(s.db, k, tag);
    var i :| 0 <= i <= |before| && (k in live <==> k in Run(s, before[..i]).db);
    CarriedThroughout(s, before, tag, k, i);
  }

  // ---------------------------------------------------------------- slow tagging

  /** SET of a data key that is about to be tagged. */
  function Put<V>(s: Sys<V>, k: string, value: V, ttl: int, tags: seq<string>): Sys<V> {
    s.(db := Written(s.db, k, value, s.now + ttl), carried := s.carried[k := Elements(tags)])
  }

  /** Without delay, SET, SADD and EXPIRE are a write with one tag. */
  lemma WriteIsItsCommands<V>(s: Sys<V>, key: string, category: string, value: V, ttl: int, tag: string)
    ensures var k := BuildKey(key, category);
      Step(s, Write(key, category, value, ttl, [tag])) ==
      ExpireSet(AddMembers(Put(s, k, value, ttl, [tag]), tag, {k}), tag, ttl)
  {
    var k := BuildKey(key, category);
    var written := Written(s.db, k, value, s.now + ttl);
    assert [tag][..0] == [];
    assert Tagged(written, k, s.now + ttl, []) == written;
    assert Tagged(written, k, s.now + ttl, [tag]) == WithMember(written, k, s.now + ttl, tag);
  }

  /** The set is still there after a delay. */
  predicate Survives<V>(s: Sys<V>, tag: string, duration: nat) {
    var deadline := SetDeadline(s.db, tag);
    deadline.None? || s.now + duration < deadline.value
  }

  /** With a delay between SADD and EXPIRE the tag is covered afterwards exactly when no carrier
      is left, or the set that SADD found survives the delay and the new deadline is late enough
      for each. `k` is the key being tagged; the other carriers were listed before. */
  lemma SlowTaggingCovers<V>(s: Sys<V>, k: string, tag: string, ttl: int, duration: nat)
    requires forall j :: Carries(s, j, tag) && j != k ==> j in MembersOf(s.db, TagKey(tag))
    ensures var waited := Step(AddMembers(s, tag, {k}), Tick(duration));
      Covers(ExpireSet(waited, tag, ttl), tag) <==>
      forall j :: Carries(waited, j, tag) ==>
        Survives(s, tag, duration) && Outlasts(Some(waited.now + ttl), waited.db[j].expiry)
  {
    var added := AddMembers(s, tag, {k});
    var waited := Step(added, Tick(duration));
    OnlySetChanges(s, added, tag, tag);
    ExpireSetCovers(waited, tag, ttl, tag);
    assert TagKey(tag) in waited.db <==> Survives(s, tag, duration);
    assert Survives(s, tag, duration) ==> MembersOf(waited.db, TagKey(tag)) == MembersOf(s.db, TagKey(tag)) + {k};
    forall j | Carries(waited, j, tag)
      ensures Carries(s, j, tag) && waited.db[j] == s.db[j]
    {
      CarriedBefore(added, Tick(duration), tag, j);
    }
  }

  // ---------------------------------------------------------------- where coverage is lost

  /** A write that lands between the member read and the deletes of an invalidation is live,
      carries the tag, and is missing from the index. */
  lemma LateInvalidateLosesKey()
    ensures var s := Step(Step(Empty(0), Write("a", "", 1, 100, ["t"])), Write("b", "", 2, 100, ["t"]));
      var after := LateInvalidate(s, "t", {BuildKey("a", "")}, []);
      Carries(after, BuildKey("b", ""), "t") && !Covers(after, "t")
  {
    var s0: Sys<int> := Empty(0);
    var s1 := Step(s0, Write("a", "", 1, 100, ["t"]));
    var s2 := Step(s1, Write("b", "", 2, 100, ["t"]));
    var a, b := BuildKey("a", ""), BuildKey("b", "");
    assert a[|a| - 1] == 'a' && b[|b| - 1] == 'b';
    WriteOneTag(s1, "b", 2, 100, "t");
    OtherTagKey("t", "t");
    PrefixesAreDisjoint(TagKey("t"));
    var after := LateInvalidate(s2, "t", {a}, []);
    assert Carries(after, b, "t") && !Indexed(after.db, b, "t");
  }

  /** Even with one time to live for the tag: SADD finds a set that has one unit left, and a
      delay of one unit before EXPIRE leaves the new key unindexed for its whole life. */
  lemma SlowTaggingLosesKey()
    ensures var s := Step(Step(Empty(0), Write("a", "", 1, 100, ["t"])), Tick(99));
      var b := BuildKey("b", "");
      var waited := Step(AddMembers(Put(s, b, 2, 100, ["t"]), "t", {b}), Tick(1));
      var after := ExpireSet(waited, "t", 100);
      Carries(after, b, "t") && after.db[b].expiry == Some(199) && TagKey("t") !in after.db && !Covers(after, "t")
  {
    var s0: Sys<int> := Empty(0);
    var s := Step(Step(s0, Write("a", "", 1, 100, ["t"])), Tick(99));
    var b := BuildKey("b", "");
    WriteOneTag(s0, "a", 1, 100, "t");
    OtherTagKey("t", "t");
    BuildKeyIsDataKey("b", "");
    PrefixesAreDisjoint(b);
    var added := AddMembers(Put(s, b, 2, 100, ["t"]), "t", {b});
    assert added.db[TagKey("t")].expiry == Some(100);
    var after := ExpireSet(Step(added, Tick(1)), "t", 100);
    assert "t" in Elements(["t"]);
    assert Carries(after, b, "t") && !Indexed(after.db, b, "t");
  }
}
