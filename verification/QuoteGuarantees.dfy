/** What the quote cache guarantees in every run, and for which deployments:
    a single replica or several, with or without a second level, and with how much delay. */
module QuoteGuarantees {
  import opened Options
  import opened Redis
  import opened QuoteCache
  import opened QuoteRuns

  /** For one replica and one pair, versions never go backwards. */
  lemma MonotonicReads(n: nat, withL2: bool, ops: seq<Op>, i: nat, j: nat)
    requires forall op :: op in ops ==> Legal(n, op)
    requires i < j < |Run(Start(n, withL2), ops).lookups|
    ensures var lookups := Run(Start(n, withL2), ops).lookups;
      SameReader(lookups[i], lookups[j]) && lookups[i].result.Some? && lookups[j].result.Some? ==>
        lookups[i].result.value.prices <= lookups[j].result.value.prices
  {
    RunKeepsInv(n, withL2, ops);
    var lookups := Run(Start(n, withL2), ops).lookups;
    assert InOrder(lookups[i], lookups[j]);
  }

  /** A hit is a quote of the symbol asked for, set earlier for this account. It is returned
      before its end in the second level plus one refill, and no later than one refill after any
      later set unless that end is still to come. */
  lemma HitsAreFresh(n: nat, withL2: bool, ops: seq<Op>, i: nat)
    requires forall op :: op in ops ==> Legal(n, op)
    requires i < |Run(Start(n, withL2), ops).lookups|
    requires Run(Start(n, withL2), ops).lookups[i].result.Some?
    ensures var w := Run(Start(n, withL2), ops);
      var e := w.lookups[i];
      var v := e.result.value.prices;
      && e.result.value == Quote(e.symbol, v)
      && v < e.seen <= |w.log|
      && w.log[v].account == e.account && w.log[v].symbol == e.symbol
      && e.at < SharedEnd(w.log[v]) + REFILL_TTL
      && (forall later :: v < later < |w.log| && SamePair(w.log, later, e.account, e.symbol) ==>
            e.at < SharedEnd(w.log[v]) || e.at < w.log[later].at + REFILL_TTL)
  {
    RunKeepsInv(n, withL2, ops);
    assert GoodLookup(Run(Start(n, withL2), ops), Run(Start(n, withL2), ops).lookups[i]);
  }

  // ---------------------------------------------------------------- guarantees with a condition

  /** A hit comes within the lifetime given to SetQuote. */
  predicate WithinTtl(w: World, e: ReadEvent) {
    e.result.Some? ==>
      e.result.value.prices < |w.log| && e.at < OwnEnd(w.log[e.result.value.prices])
  }

  /** A hit is the last set of its pair. */
  predicate IsLatest(w: World, e: ReadEvent) {
    e.result.Some? ==> e.result.value.prices < e.seen <= |w.log| && Latest(w.log, e.result.value.prices, e.seen)
  }

  /** A miss means that the last set of its pair, if there is one, has expired. */
  predicate MissIsExpired(w: World, e: ReadEvent) {
    e.result.None? ==>
      && e.seen <= |w.log|
      && forall v :: 0 <= v < e.seen && SamePair(w.log, v, e.account, e.symbol) && Latest(w.log, v, e.seen) ==>
           OwnEnd(w.log[v]) <= e.at
  }

  /** No set takes longer than `maxLag` to reach the second level. */
  predicate Prompt(ops: seq<Op>, maxLag: nat) {
    forall op :: op in ops && op.SetQuote? ==> op.lag <= maxLag
  }

  /** Every lookup of every run of a deployment meets a guarantee. */
  ghost predicate Always(n: nat, withL2: bool, maxLag: nat, guarantee: (World, ReadEvent) -> bool) {
    forall ops :: (forall op :: op in ops ==> Legal(n, op)) && Prompt(ops, maxLag) ==>
      var w := Run(Start(n, withL2), ops);
      forall e :: e in w.lookups ==> guarantee(w, e)
  }

  // ---------------------------------------------------------------- lifetimes

  predicate EntryWithinTtl(w: World, e: Entry<nat>) {
    e.quote.prices < |w.log| && e.expiresAt <= OwnEnd(w.log[e.quote.prices])
  }

  predicate TtlInv(w: World) {
    && (forall r, k :: 0 <= r < |w.replicas| && k in w.replicas[r] ==> EntryWithinTtl(w, w.replicas[r][k]))
    && (forall e :: e in w.lookups ==> WithinTtl(w, e))
  }

  /** There is no second level, or both levels of a lone replica always agree. */
  predicate NeverRefills(w: World) {
    w.shared.None? || (|w.replicas| == 1 && forall v :: 0 <= v < |w.log| ==> w.log[v].lag == 0)
  }

  /** Then nothing is ever refilled: whatever the second level still has, the first has too. */
  lemma NothingToRefill(w: World, account: Uuid, symbol: string)
    requires L2Inv(w) && LoneInv(w) && NeverRefills(w)
    requires Shared(w.shared, QuoteKey(account, symbol)).Some?
    ensures var k := L1Key(account, symbol);
      k in w.replicas[0] && w.now < w.replicas[0][k].expiresAt
  {
    SharedVersion(w, account, symbol);
    assert HoldsLatest(w, w.shared.value[QuoteKey(account, symbol)].value.prices);
  }

  lemma SetKeepsTtl(w: World, op: Op)
    requires TtlInv(w) && op.SetQuote? && Legal(|w.replicas|, op)
    ensures TtlInv(Step(w, op))
  {
  }

  /** Where there is nothing to refill, a lookup answers from its own first level. */
  lemma GetReadsOwn(w: World, op: Op)
    requires L2Inv(w) && LoneInv(w) && NeverRefills(w) && op.GetQuote? && Legal(|w.replicas|, op)
    ensures var l1, key := w.replicas[op.replica], L1Key(op.account, op.symbol);
      Lookup(l1, w.shared, op.account, op.symbol, w.now) ==
        if key in l1 && w.now < l1[key].expiresAt then (l1, Some(l1[key].quote)) else (l1 - {key}, None)
  {
    if Shared(w.shared, QuoteKey(op.account, op.symbol)).Some? {
      NothingToRefill(w, op.account, op.symbol);
    }
  }

  lemma GetKeepsTtl(w: World, op: Op)
    requires Inv(w) && TtlInv(w) && NeverRefills(w) && op.GetQuote? && Legal(|w.replicas|, op)
    ensures TtlInv(Step(w, op))
  {
    var w', key := Step(w, op), L1Key(op.account, op.symbol);
    var l1 := w.replicas[op.replica];
    GetReadsOwn(w, op);
    forall r, k | 0 <= r < |w'.replicas| && k in w'.replicas[r]
      ensures EntryWithinTtl(w', w'.replicas[r][k])
    {
      assert EntryWithinTtl(w, w.replicas[r][k]);
    }
    if key in l1 {
      assert EntryWithinTtl(w, l1[key]);
    }
  }

  lemma {:induction false} RunKeepsTtl(n: nat, withL2: bool, ops: seq<Op>)
    requires forall op :: op in ops ==> Legal(n, op)
    requires !withL2 || (n == 1 && Prompt(ops, 0))
    ensures TtlInv(Run(Start(n, withL2), ops)) && NeverRefills(Run(Start(n, withL2), ops))
  {
    if ops != [] {
      var before, op := ops[..|ops| - 1], ops[|ops| - 1];
      RunKeepsTtl(n, withL2, before);
      RunKeepsInv(n, withL2, before);
      var w := Run(Start(n, withL2), before);
      assert op in ops;
      match op
      case SetQuote(_, _, _, _, _) => SetKeepsTtl(w, op);
      case GetQuote(_, _, _) => GetKeepsTtl(w, op);
      case Tick(_) =>
    }
  }

  // ---------------------------------------------------------------- failing runs

  /** With a second replica a hit need not be the last set. */
  lemma SecondReplicaReadsStale(n: nat, withL2: bool, a: Uuid, s: string)
    requires n >= 2
    ensures var ops := [SetQuote(0, a, s, 1000, 0), SetQuote(1, a, s, 1000, 0), GetQuote(0, a, s)];
      && (forall op :: op in ops ==> Legal(n, op))
      && var w := Run(Start(n, withL2), ops);
         && w.log == [SetEvent(a, s, 0, 1000, 0), SetEvent(a, s, 0, 1000, 0)]
         && w.lookups == [ReadEvent(0, a, s, 0, 2, Some(Quote(s, 0)))]
  {
    var ops := [SetQuote(0, a, s, 1000, 0), SetQuote(1, a, s, 1000, 0), GetQuote(0, a, s)];
    assert ops[..2] == [ops[0], ops[1]] && ops[..2][..1] == [ops[0]] && [ops[0]][..0] == [];
    assert forall op :: op in ops ==> op == ops[0] || op == ops[1] || op == ops[2];
    var w0 := Start(n, withL2);
    var w1 := Step(w0, ops[0]);
    assert Run(w0, [ops[0]]) == w1;
    var w2 := Step(w1, ops[1]);
    assert Run(w0, ops[..2]) == w2;
    assert w2.replicas[0] == Stored(map[], a, Quote(s, 0), 1000, 0);
  }

  /** Without a second level one replica does not see what was set at another. */
  lemma SecondReplicaMissesLive(n: nat, a: Uuid, s: string)
    requires n >= 2
    ensures var ops := [SetQuote(0, a, s, 1000, 0), GetQuote(1, a, s)];
      && (forall op :: op in ops ==> Legal(n, op))
      && var w := Run(Start(n, false), ops);
         && w.log == [SetEvent(a, s, 0, 1000, 0)]
         && w.lookups == [ReadEvent(1, a, s, 0, 1, None)]
  {
    var ops := [SetQuote(0, a, s, 1000, 0), GetQuote(1, a, s)];
    assert ops[..1] == [ops[0]] && [ops[0]][..0] == [];
    assert forall op :: op in ops ==> op == ops[0] || op == ops[1];
    var w0 := Start(n, false);
    assert Run(w0, [ops[0]]) == Step(w0, ops[0]);
    assert Step(w0, ops[0]).replicas[1] == map[];
  }

  lemma RunStep(start: World, before: seq<Op>, op: Op)
    requires (forall o :: o in before ==> Legal(|start.replicas|, o)) && Legal(|start.replicas|, op)
    ensures forall o :: o in before + [op] ==> Legal(|start.replicas|, o)
    ensures Run(start, before + [op]) == Step(Run(start, before), op)
  {
    assert (before + [op])[..|before|] == before;
  }

  /** The run of RefillOutlivesTtl up to the refill. */
  lemma RefillLate(n: nat, a: Uuid, s: string)
    requires n >= 2
    ensures var ops := [SetQuote(0, a, s, 10, 0), Tick(9)] + [GetQuote(1, a, s)];
      && (forall op :: op in ops ==> Legal(n, op))
      && var w := Run(Start(n, true), ops);
         && w.now == 9 && w.log == [SetEvent(a, s, 0, 10, 0)] && |w.replicas| == n
         && w.lookups == [ReadEvent(1, a, s, 9, 1, Some(Quote(s, 0)))]
         && L1Key(a, s) in w.replicas[1] && w.replicas[1][L1Key(a, s)] == Entry(Quote(s, 0), 509)
  {
    var w0, put, wait := Start(n, true), SetQuote(0, a, s, 10, 0), Tick(9);
    assert [put, wait] == [put] + [wait] && [put] == [] + [put];
    RunStep(w0, [], put);
    RunStep(w0, [put], wait);
    RunStep(w0, [put, wait], GetQuote(1, a, s));
    var w1 := Step(w0, put);
    assert w1.shared == Some(map[QuoteKey(a, s) := Text(Quote(s, 0), Some(10))]);
    assert w1.replicas[1] == map[];
    assert Purged(w1.shared.value, 9) == w1.shared.value;
  }

  lemma RefilledIsRead(w: World, a: Uuid, s: string)
    requires w.now == 9 && |w.log| == 1 && |w.replicas| >= 2
    requires L1Key(a, s) in w.replicas[1] && w.replicas[1][L1Key(a, s)] == Entry(Quote(s, 0), 509)
    ensures var later := Step(Step(w, Tick(499)), GetQuote(1, a, s));
      later.log == w.log && later.lookups == w.lookups + [ReadEvent(1, a, s, 508, 1, Some(Quote(s, 0)))]
  {
  }

  /** A refill restarts the clock: a hit can come after the lifetime given to SetQuote. */
  lemma RefillOutlivesTtl(n: nat, a: Uuid, s: string)
    requires n >= 2
    ensures var ops := [SetQuote(0, a, s, 10, 0), Tick(9), GetQuote(1, a, s), Tick(499), GetQuote(1, a, s)];
      && (forall op :: op in ops ==> Legal(n, op))
      && var w := Run(Start(n, true), ops);
         && w.log == [SetEvent(a, s, 0, 10, 0)]
         && w.lookups == [ReadEvent(1, a, s, 9, 1, Some(Quote(s, 0))), ReadEvent(1, a, s, 508, 1, Some(Quote(s, 0)))]
  {
    var refilled, wait, get := [SetQuote(0, a, s, 10, 0), Tick(9)] + [GetQuote(1, a, s)], Tick(499), GetQuote(1, a, s);
    RefillLate(n, a, s);
    RunStep(Start(n, true), refilled, wait);
    RunStep(Start(n, true), refilled + [wait], get);
    RefilledIsRead(Run(Start(n, true), refilled), a, s);
    assert [SetQuote(0, a, s, 10, 0), Tick(9), get, wait, get] == refilled + [wait] + [get];
  }

  // ---------------------------------------------------------------- exact conditions

  /** A slow set: the lone replica's first level gives out while the second still answers. */
  lemma LoneRefillOutlivesTtl(n: nat, a: Uuid, s: string)
    requires n >= 1
    ensures var ops := [SetQuote(0, a, s, 10, 1), Tick(9)] + [GetQuote(0, a, s)];
      && (forall op :: op in ops ==> Legal(n, op))
      && var w := Run(Start(n, true), ops);
         && w.log == [SetEvent(a, s, 0, 10, 1)]
         && w.lookups == [ReadEvent(0, a, s, 10, 1, Some(Quote(s, 0)))]
  {
    var w0, put, wait := Start(n, true), SetQuote(0, a, s, 10, 1), Tick(9);
    assert [put, wait] == [put] + [wait] && [put] == [] + [put];
    RunStep(w0, [], put);
    RunStep(w0, [put], wait);
    RunStep(w0, [put, wait], GetQuote(0, a, s));
    var w1 := Step(w0, put);
    assert w1.shared == Some(map[QuoteKey(a, s) := Text(Quote(s, 0), Some(11))]);
    assert w1.replicas[0] == map[L1Key(a, s) := Entry(Quote(s, 0), 10)];
    assert Purged(w1.shared.value, 10) == w1.shared.value;
  }

  lemma HitOutlivesTtl(n: nat, maxLag: nat)
    requires n >= 2 || (n == 1 && maxLag > 0)
    ensures !Always(n, true, maxLag, WithinTtl)
  {
    var a: Uuid := seq(32, _ => 0);
    var wait, late := Tick(9), GetQuote(1, a, "");
    var ops := if n >= 2 then [SetQuote(0, a, "", 10, 0), wait, late, Tick(499), late]
               else [SetQuote(0, a, "", 10, 1), wait] + [GetQuote(0, a, "")];
    if n >= 2 {
      RefillOutlivesTtl(n, a, "");
    } else {
      LoneRefillOutlivesTtl(n, a, "");
    }
    var w := Run(Start(n, true), ops);
    assert w.lookups[|w.lookups| - 1] in w.lookups && !WithinTtl(w, w.lookups[|w.lookups| - 1]);
  }

  /** Every hit comes within the lifetime given to SetQuote exactly when no refill can happen:
      without a second level, or with one replica whose sets reach the second level at once. */
  lemma HitsWithinTtl(n: nat, withL2: bool, maxLag: nat)
    ensures Always(n, withL2, maxLag, WithinTtl) <==> !withL2 || n == 0 || (n == 1 && maxLag == 0)
  {
    if n == 0 {
      forall ops: seq<Op> | forall op :: op in ops ==> Legal(n, op)
        ensures Run(Start(n, withL2), ops).lookups == []
      {
        NobodyLooks(withL2, ops);
      }
    } else if !withL2 || (n == 1 && maxLag == 0) {
      forall ops: seq<Op>, e |
        (forall op :: op in ops ==> Legal(n, op)) && Prompt(ops, maxLag) && e in Run(Start(n, withL2), ops).lookups
        ensures WithinTtl(Run(Start(n, withL2), ops), e)
      {
        RunKeepsTtl(n, withL2, ops);
      }
    } else {
      HitOutlivesTtl(n, maxLag);
    }
  }

  lemma {:induction false} NobodyLooks(withL2: bool, ops: seq<Op>)
    requires forall op :: op in ops ==> Legal(0, op)
    ensures Run(Start(0, withL2), ops).lookups == []
  {
    if ops != [] {
      NobodyLooks(withL2, ops[..|ops| - 1]);
      assert Legal(0, ops[|ops| - 1]);
    }
  }

  /** Every hit is the last set of its pair exactly when there is at most one replica. */
  lemma HitsAreLatest(n: nat, withL2: bool, maxLag: nat)
    ensures Always(n, withL2, maxLag, IsLatest) <==> n <= 1
  {
    if n <= 1 {
      forall ops: seq<Op>, e | (forall op :: op in ops ==> Legal(n, op)) && e in Run(Start(n, withL2), ops).lookups
        ensures IsLatest(Run(Start(n, withL2), ops), e)
      {
        RunKeepsInv(n, withL2, ops);
        assert GoodLookup(Run(Start(n, withL2), ops), e);
      }
    } else {
      var a: Uuid := seq(32, _ => 0);
      SecondReplicaReadsStale(n, withL2, a, "");
      var w := Run(Start(n, withL2), [SetQuote(0, a, "", 1000, 0), SetQuote(1, a, "", 1000, 0), GetQuote(0, a, "")]);
      assert w.lookups[0] == ReadEvent(0, a, "", 0, 2, Some(Quote("", 0)));
      assert SamePair(w.log, 1, w.log[0].account, w.log[0].symbol);
      assert !Latest(w.log, 0, 2);
      assert w.lookups[0] in w.lookups && !IsLatest(w, w.lookups[0]);
    }
  }

  /** Every miss means that the last set of the pair, if any, has expired exactly when the
      replicas share a second level or there is at most one of them, however slow the sets. */
  lemma MissMeansExpired(n: nat, withL2: bool, maxLag: nat)
    ensures Always(n, withL2, maxLag, MissIsExpired) <==> n <= 1 || withL2
  {
    if n <= 1 || withL2 {
      forall ops: seq<Op>, e | (forall op :: op in ops ==> Legal(n, op)) && e in Run(Start(n, withL2), ops).lookups
        ensures MissIsExpired(Run(Start(n, withL2), ops), e)
      {
        RunKeepsInv(n, withL2, ops);
        assert GoodLookup(Run(Start(n, withL2), ops), e);
      }
    } else {
      var a: Uuid := seq(32, _ => 0);
      SecondReplicaMissesLive(n, a, "");
      var w := Run(Start(n, false), [SetQuote(0, a, "", 1000, 0), GetQuote(1, a, "")]);
      assert SamePair(w.log, 0, a, "") && Latest(w.log, 0, 1);
      assert w.lookups[0] in w.lookups && !MissIsExpired(w, w.lookups[0]);
    }
  }
}
