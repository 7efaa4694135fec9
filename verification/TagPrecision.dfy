/** Does a tag set list only what carries the tag? The exact condition under which it does over
    runs, and when an invalidation removes exactly the carriers of its tag. */
module TagPrecision {
  import opened Redis
  import opened TaggedCache
  import opened TagCoverage

  /** A live key that the tag set lists, and that an invalidation would remove. */
  predicate Listed<V>(s: Sys<V>, k: string, tag: string) {
    k in s.db && k in MembersOf(s.db, TagKey(tag))
  }

  ghost predicate Precise<V>(s: Sys<V>, tag: string) {
    forall k :: Listed(s, k, tag) ==> Carries(s, k, tag)
  }

  /** A write of a key that the tag set lists, dead or alive, carries the tag again. */
  predicate KeepsTag<V>(s: Sys<V>, op: Op<V>, tag: string) {
    op.Write? && BuildKey(op.key, op.category) in MembersOf(s.db, TagKey(tag)) ==> tag in op.tags
  }

  /** A key that a tag set lists after a step was written with the tag in this step, or was
      listed before. */
  lemma ListedBefore<V>(s: Sys<V>, op: Op<V>, tag: string, k: string)
    requires k in MembersOf(Step(s, op).db, TagKey(tag))
    ensures k in MembersOf(s.db, TagKey(tag)) ||
            (op.Write? && k == BuildKey(op.key, op.category) && tag in op.tags)
  {
    OtherTagKey(tag, tag);
    PrefixesAreDisjoint(TagKey(tag));
    if op.Write? {
      var written := BuildKey(op.key, op.category);
      BuildKeyIsDataKey(op.key, op.category);
      TagSetAfter(Written(s.db, written, op.value, s.now + op.ttl), written, s.now + op.ttl, op.tags, tag);
    }
  }

  lemma WrittenIsListed<V>(s: Sys<V>, op: Op<V>, tag: string)
    requires op.Write?
    ensures var after, k := Step(s, op), BuildKey(op.key, op.category);
      && (Carries(after, k, tag) <==> tag in op.tags)
      && (Listed(after, k, tag) <==> tag in op.tags || k in MembersOf(s.db, TagKey(tag)))
  {
    var k, deadline := BuildKey(op.key, op.category), s.now + op.ttl;
    var written := Written(s.db, k, op.value, deadline);
    OtherTagKey(tag, tag);
    BuildKeyIsDataKey(op.key, op.category);
    PrefixesAreDisjoint(k);
    TagSetAfter(written, k, deadline, op.tags, tag);
    DataKeyAfter(written, k, deadline, op.tags, k);
  }

  /** Keys other than the written one carry what they carried, if they are still there. */
  lemma OthersCarry<V>(s: Sys<V>, op: Op<V>, tag: string, k: string)
    requires IsDataKey(k) && k in Step(s, op).db && !(op.Write? && k == BuildKey(op.key, op.category))
    ensures k in s.db && (Carries(Step(s, op), k, tag) <==> Carries(s, k, tag))
  {
    PrefixesAreDisjoint(k);
    if op.Write? {
      var written := BuildKey(op.key, op.category);
      DataKeyAfter(Written(s.db, written, op.value, s.now + op.ttl), written, s.now + op.ttl, op.tags, k);
    }
  }

  /** A step keeps a tag set precise exactly when it is no write that takes the tag from a
      listed key. */
  lemma StepPrecise<V>(s: Sys<V>, op: Op<V>, tag: string)
    requires Sound(s) && PositiveTtl(op) && Precise(s, tag)
    ensures Precise(Step(s, op), tag) <==> KeepsTag(s, op, tag)
  {
    var after := Step(s, op);
    StepIsSound(s, op);
    OtherTagKey(tag, tag);
    if op.Write? {
      WrittenIsListed(s, op, tag);
    }
    forall k | Listed(after, k, tag) && !(op.Write? && k == BuildKey(op.key, op.category))
      ensures Carries(after, k, tag)
    {
      ListedBefore(s, op, tag, k);
      OthersCarry(s, op, tag, k);
      assert Listed(s, k, tag);
    }
  }

  // ---------------------------------------------------------------- whole runs

  ghost predicate PreciseUpTo<V>(start: Sys<V>, ops: seq<Op<V>>, tag: string, n: nat)
    requires n <= |ops|
  {
    forall i :: 0 <= i <= n ==> Precise(Run(start, ops[..i]), tag)
  }

  ghost predicate KeepsTagUpTo<V>(start: Sys<V>, ops: seq<Op<V>>, tag: string, n: nat)
    requires n <= |ops|
  {
    forall i :: 0 <= i < n ==> KeepsTag(Run(start, ops[..i]), ops[i], tag)
  }

  lemma NextPrecise<V>(start: Sys<V>, ops: seq<Op<V>>, tag: string, i: nat)
    requires Sound(start) && PositiveTtls(ops) && i < |ops| && Precise(Run(start, ops[..i]), tag)
    ensures Precise(Run(start, ops[..i + 1]), tag) <==> KeepsTag(Run(start, ops[..i]), ops[i], tag)
  {
    RunIsSound(start, ops[..i]);
    RunStep(start, ops, i);
    StepPrecise(Run(start, ops[..i]), ops[i], tag);
  }

  lemma {:induction false} KeepingPrecise<V>(start: Sys<V>, ops: seq<Op<V>>, tag: string, n: nat)
    requires Sound(start) && Precise(start, tag) && PositiveTtls(ops) && n <= |ops|
    requires KeepsTagUpTo(start, ops, tag, n)
    ensures Precise(Run(start, ops[..n]), tag)
  {
    if n == 0 {
      assert ops[..0] == [];
    } else {
      KeepingPrecise(start, ops, tag, n - 1);
      NextPrecise(start, ops, tag, n - 1);
    }
  }

  /** Every state of a run has a precise tag set exactly when no write takes the tag from a key
      that the set lists. */
  lemma PrecisionOverRuns<V>(start: Sys<V>, ops: seq<Op<V>>, tag: string, n: nat)
    requires Sound(start) && Precise(start, tag) && PositiveTtls(ops) && n <= |ops|
    ensures PreciseUpTo(start, ops, tag, n) <==> KeepsTagUpTo(start, ops, tag, n)
  {
    if PreciseUpTo(start, ops, tag, n) {
      forall i | 0 <= i < n
        ensures KeepsTag(Run(start, ops[..i]), ops[i], tag)
      {
        NextPrecise(start, ops, tag, i);
      }
    } else if KeepsTagUpTo(start, ops, tag, n) {
      var i :| 0 <= i <= n && !Precise(Run(start, ops[..i]), tag);
      KeepingPrecise(start, ops, tag, i);
    }
  }

  /** Writes of one key agree about the tag. */
  ghost predicate AgreeOnTag<V>(ops: seq<Op<V>>, tag: string) {
    forall a, b :: a in ops && b in ops && a.Write? && b.Write? ==>
      BuildKey(a.key, a.category) == BuildKey(b.key, b.category) ==> (tag in a.tags <==> tag in b.tags)
  }

  /** Whatever a tag set lists was written with the tag. */
  lemma {:induction false} ListedWasWritten<V>(now: int, ops: seq<Op<V>>, tag: string, k: string)
    requires k in MembersOf(Run(Empty(now), ops).db, TagKey(tag))
    ensures exists op :: op in ops && op.Write? && k == BuildKey(op.key, op.category) && tag in op.tags
  {
    if ops != [] {
      var before, op := ops[..|ops| - 1], ops[|ops| - 1];
      ListedBefore(Run(Empty(now), before), op, tag, k);
      if k in MembersOf(Run(Empty(now), before).db, TagKey(tag)) {
        ListedWasWritten(now, before, tag, k);
      } else {
        assert op in ops;
      }
    }
  }

  /** If all writes of a key agree about a tag, its set is precise in every reachable state. */
  lemma AgreeingWritesArePrecise<V>(now: int, ops: seq<Op<V>>, tag: string)
    requires PositiveTtls(ops) && AgreeOnTag(ops, tag)
    ensures PreciseUpTo(Empty(now), ops, tag, |ops|)
  {
    forall i | 0 <= i < |ops|
      ensures KeepsTag(Run(Empty(now), ops[..i]), ops[i], tag)
    {
      var op := ops[i];
      if op.Write? && BuildKey(op.key, op.category) in MembersOf(Run(Empty(now), ops[..i]).db, TagKey(tag)) {
        ListedWasWritten(now, ops[..i], tag, BuildKey(op.key, op.category));
      }
    }
    PrecisionOverRuns(Empty(now), ops, tag, |ops|);
  }

  // ---------------------------------------------------------------- invalidation

  /** An invalidation removes the live keys that the set lists, so exactly the carriers of the
      tag when the set lists all of them and nothing else. */
  lemma InvalidateIsExact<V>(s: Sys<V>, tag: string)
    requires Sound(s)
    ensures var after := Step(s, Invalidate(tag));
      (forall k :: IsDataKey(k) && k in s.db ==> (k !in after.db <==> Carries(s, k, tag))) <==>
      (Precise(s, tag) && forall k :: Carries(s, k, tag) ==> Listed(s, k, tag))
  {
    var after := Step(s, Invalidate(tag));
    OtherTagKey(tag, tag);
    forall k | IsDataKey(k) && k in s.db
      ensures k !in after.db <==> Listed(s, k, tag)
    {
      PrefixesAreDisjoint(k);
    }
    assert forall k :: Listed(s, k, tag) ==> IsDataKey(k);
  }

  /** With one time to live for a tag and writes that agree about it, every invalidation of the
      tag, at any point of any run, removes exactly its carriers. */
  lemma InvalidateIsExactOverRuns<V>(now: int, ops: seq<Op<V>>, tag: string, ttl: int, k: string)
    requires PositiveTtls(ops) && OneTtl(ops, tag, ttl) && AgreeOnTag(ops, tag)
    requires IsDataKey(k) && k in Run(Empty(now), ops).db
    ensures k !in Step(Run(Empty(now), ops), Invalidate(tag)).db <==> Carries(Run(Empty(now), ops), k, tag)
  {
    var s := Run(Empty(now), ops);
    assert ops[..|ops|] == ops;
    RunIsSound(Empty(now), ops);
    OneTtlPerTagCovers(now, ops, tag, ttl);
    AgreeingWritesArePrecise(now, ops, tag);
    assert Covers(s, tag) && Precise(s, tag);
    InvalidateIsExact(s, tag);
    assert forall j :: Carries(s, j, tag) ==> Indexed(s.db, j, tag);
  }

  /** A key written again without the tag stays listed, and the invalidation removes it. */
  lemma RewriteLeavesListing()
    ensures var s := Step(Step(Empty(0), Write("a", "", 1, 100, ["t"])), Write("a", "", 2, 100, []));
      var a := BuildKey("a", "");
      a in s.db && !Carries(s, a, "t") && a !in Step(s, Invalidate("t")).db
  {
    var s0: Sys<int> := Empty(0);
    var s1 := Step(s0, Write("a", "", 1, 100, ["t"]));
    var s := Step(s1, Write("a", "", 2, 100, []));
    WriteOneTag(s0, "a", 1, 100, "t");
    WrittenIsListed(s1, Write("a", "", 2, 100, []), "t");
    BuildKeyIsDataKey("a", "");
    OtherTagKey("t", "t");
    assert Listed(s, BuildKey("a", ""), "t");
  }
}
