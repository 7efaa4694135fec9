/** Runs of several replicas, with or without a shared second level, and their invariants. */
module QuoteRuns {
  import opened Options
  import opened Redis
  import opened QuoteCache

  /** One SetQuote. Its position in the log is the version of the quote; the cache carries
      the version in place of the prices, which it never inspects. The command to the second
      level takes effect `lag` after the first level was written. */
  datatype SetEvent = SetEvent(account: Uuid, symbol: string, at: int, ttl: int, lag: nat)

  /** One GetQuote: the quote it returned, if any, and how many sets preceded it. */
  datatype ReadEvent = ReadEvent(
    replica: nat, account: Uuid, symbol: string, at: int, seen: nat, result: Option<Quote<nat>>)

  datatype World = World(
    now: int,
    replicas: seq<L1<nat>>,
    shared: Option<Db<Quote<nat>>>,
    log: seq<SetEvent>,
    lookups: seq<ReadEvent>)

  datatype Op =
    | SetQuote(replica: nat, account: Uuid, symbol: string, ttl: int, lag: nat)
    | GetQuote(replica: nat, account: Uuid, symbol: string)
    | Tick(duration: nat)

  predicate Legal(replicas: nat, op: Op) {
    match op
    case SetQuote(r, _, _, ttl, _) => r < replicas && ttl > 0
    case GetQuote(r, _, _) => r < replicas
    case Tick(_) => true
  }

  function Step(w: World, op: Op): World
    requires Legal(|w.replicas|, op)
  {
    match op
    case SetQuote(r, account, symbol, ttl, lag) =>
      var quote := Quote(symbol, |w.log|);
      w.(now := w.now + lag,
         replicas := w.replicas[r := Stored(w.replicas[r], account, quote, ttl, w.now)],
         shared := Published(w.shared, account, quote, ttl, w.now + lag),
         log := w.log + [SetEvent(account, symbol, w.now, ttl, lag)])
    case GetQuote(r, account, symbol) =>
      var (l1, found) := Lookup(w.replicas[r], w.shared, account, symbol, w.now);
      w.(replicas := w.replicas[r := l1],
         lookups := w.lookups + [ReadEvent(r, account, symbol, w.now, |w.log|, found)])
    case Tick(duration) =>
      w.(now := w.now + duration,
         shared := if w.shared.Some? then Some(Purged(w.shared.value, w.now + duration)) else None)
  }

  /** Replicas start empty, with an empty shared level or with none at all. */
  function Start(replicas: nat, withL2: bool): World {
    World(0, seq(replicas, _ => map[]), if withL2 then Some(map[]) else None, [], [])
  }

  function Run(start: World, ops: seq<Op>): (w: World)
    requires forall op :: op in ops ==> Legal(|start.replicas|, op)
    ensures |w.replicas| == |start.replicas| && (w.shared.Some? <==> start.shared.Some?)
  {
    if ops == [] then start
    else Step(Run(start, ops[..|ops| - 1]), ops[|ops| - 1])
  }

  /** When a version expires in the first level of the replica that set it, and in the second. */
  function OwnEnd(event: SetEvent): int {
    event.at + event.ttl
  }

  function SharedEnd(event: SetEvent): int {
    event.at + event.lag + event.ttl
  }

  predicate SamePair(log: seq<SetEvent>, v: nat, account: Uuid, symbol: string)
    requires v < |log|
  {
    log[v].account == account && log[v].symbol == symbol
  }

  /** No later set, among the first `seen`, of the same account and symbol. */
  predicate Latest(log: seq<SetEvent>, v: nat, seen: nat)
    requires v < |log| && seen <= |log|
  {
    forall w :: v < w < seen ==> !SamePair(log, w, log[v].account, log[v].symbol)
  }

  /** A time before the version's end in the second level plus one refill and, for each later
      set of the pair, before the version's own end there or one refill after that set. */
  predicate Fresh(log: seq<SetEvent>, v: nat, time: int)
    requires v < |log|
  {
    && time < SharedEnd(log[v]) + REFILL_TTL
    && forall w :: v < w < |log| && SamePair(log, w, log[v].account, log[v].symbol) ==>
         time < SharedEnd(log[v]) || time < log[w].at + REFILL_TTL
  }

  // ---------------------------------------------------------------- invariants

  predicate LogInv(w: World) {
    && (forall v :: 0 <= v < |w.log| ==> w.log[v].ttl > 0 && w.log[v].at <= w.now)
  }

  /** A first-level entry sits at the key of its version, and while it may still be
      returned it meets the freshness bounds. A lone replica holds only latest versions. */
  predicate GoodEntry(w: World, k: string, e: Entry<nat>) {
    var v := e.quote.prices;
    && v < |w.log|
    && e.quote.symbol == w.log[v].symbol
    && k == L1Key(w.log[v].account, w.log[v].symbol)
    && Fresh(w.log, v, e.expiresAt - 1)
    && (e.expiresAt <= SharedEnd(w.log[v]) || e.expiresAt <= w.now + REFILL_TTL)
    && (|w.replicas| == 1 ==> Latest(w.log, v, |w.log|))
  }

  predicate L1Inv(w: World) {
    forall r, k :: 0 <= r < |w.replicas| && k in w.replicas[r] ==> GoodEntry(w, k, w.replicas[r][k])
  }

  /** A second-level item is the latest version of its pair, still alive. */
  predicate GoodItem(w: World, k: string, item: Item<Quote<nat>>) {
    && item.Text? && item.value.prices < |w.log|
    && var v := item.value.prices;
       && item.value.symbol == w.log[v].symbol
       && k == QuoteKey(w.log[v].account, w.log[v].symbol)
       && item.expiry == Some(SharedEnd(w.log[v]))
       && w.now < SharedEnd(w.log[v])
       && Latest(w.log, v, |w.log|)
  }

  /** Every latest version that is still alive is in the second level, and nothing else. */
  predicate L2Inv(w: World) {
    w.shared.Some? ==>
      && (forall k :: k in w.shared.value ==> GoodItem(w, k, w.shared.value[k]))
      && (forall v :: 0 <= v < |w.log| && Latest(w.log, v, |w.log|) && w.now < SharedEnd(w.log[v]) ==>
            QuoteKey(w.log[v].account, w.log[v].symbol) in w.shared.value)
  }

  /** A lone replica holds every latest version that is still alive, with its own deadline. */
  predicate HoldsLatest(w: World, v: nat)
    requires v < |w.log| && |w.replicas| == 1
  {
    var event := w.log[v];
    Latest(w.log, v, |w.log|) && w.now < OwnEnd(event) ==>
      var k := L1Key(event.account, event.symbol);
      k in w.replicas[0] && w.replicas[0][k] == Entry(Quote(event.symbol, v), OwnEnd(event))
  }

  predicate LoneInv(w: World) {
    |w.replicas| == 1 ==> forall v :: 0 <= v < |w.log| ==> HoldsLatest(w, v)
  }

  predicate GoodLookup(w: World, e: ReadEvent) {
    && e.seen <= |w.log| && e.at <= w.now && e.replica < |w.replicas|
    && (match e.result
        case Some(Quote(symbol, v)) =>
          && symbol == e.symbol
          && v < e.seen && SamePair(w.log, v, e.account, e.symbol)
          && Fresh(w.log, v, e.at)
          && (|w.replicas| == 1 ==> Latest(w.log, v, e.seen))
        case None =>
          w.shared.Some? || |w.replicas| == 1 ==>
            forall v :: 0 <= v < e.seen && SamePair(w.log, v, e.account, e.symbol) && Latest(w.log, v, e.seen) ==>
              OwnEnd(w.log[v]) <= e.at)
  }

  predicate LookupInv(w: World) {
    forall i :: 0 <= i < |w.lookups| ==> GoodLookup(w, w.lookups[i])
  }

  predicate SameReader(a: ReadEvent, b: ReadEvent) {
    a.replica == b.replica && a.account == b.account && a.symbol == b.symbol
  }

  predicate InOrder(a: ReadEvent, b: ReadEvent) {
    SameReader(a, b) && a.result.Some? && b.result.Some? ==> a.result.value.prices <= b.result.value.prices
  }

  predicate OrderInv(w: World) {
    forall i, j :: 0 <= i < j < |w.lookups| ==> InOrder(w.lookups[i], w.lookups[j])
  }

  /** What a reader has seen is never ahead of what its own first level holds. */
  predicate Held(w: World, i: nat)
    requires i < |w.lookups|
  {
    var e := w.lookups[i];
    var k := L1Key(e.account, e.symbol);
    e.result.Some? && e.replica < |w.replicas| && k in w.replicas[e.replica] ==>
      e.result.value.prices <= w.replicas[e.replica][k].quote.prices
  }

  predicate HeldInv(w: World) {
    forall i :: 0 <= i < |w.lookups| ==> Held(w, i)
  }

  ghost predicate Inv(w: World) {
    LogInv(w) && L1Inv(w) && L2Inv(w) && LoneInv(w) && LookupInv(w) && OrderInv(w) && HeldInv(w)
  }

  /** The log only grows, by sets that are not in the past. */
  predicate Later(w: World, w': World) {
    && w.log <= w'.log && w.now <= w'.now && |w'.replicas| == |w.replicas|
    && (w'.shared.Some? <==> w.shared.Some?)
    && forall v :: |w.log| <= v < |w'.log| ==> w'.log[v].at >= w.now
  }

  lemma LatestInPrefix(log: seq<SetEvent>, log': seq<SetEvent>, v: nat, seen: nat)
    requires log <= log' && v < |log| && seen <= |log|
    ensures Latest(log', v, seen) <==> Latest(log, v, seen)
  {
    assert forall u :: 0 <= u < |log| ==> log'[u] == log[u];
    assert forall u :: v < u < seen ==>
      (SamePair(log', u, log[v].account, log[v].symbol) <==> SamePair(log, u, log[v].account, log[v].symbol));
  }

  lemma LatestAfterSet(log: seq<SetEvent>, event: SetEvent, v: nat)
    requires v < |log|
    ensures Latest(log + [event], v, |log| + 1) <==>
            Latest(log, v, |log|) && (log[v].account != event.account || log[v].symbol != event.symbol)
  {
    var log' := log + [event];
    LatestInPrefix(log, log', v, |log|);
    assert log'[|log|] == event;
    assert SamePair(log', |log|, log[v].account, log[v].symbol) <==>
           (log[v].account == event.account && log[v].symbol == event.symbol);
  }

  lemma LookupsStayGood(w: World, w': World, e: ReadEvent)
    requires Later(w, w') && GoodLookup(w, e)
    ensures GoodLookup(w', e)
  {
    forall v | 0 <= v < e.seen
      ensures w'.log[v] == w.log[v]
      ensures Latest(w'.log, v, e.seen) <==> Latest(w.log, v, e.seen)
    {
      LatestInPrefix(w.log, w'.log, v, e.seen);
    }
  }

  /** What the second level holds for a pair is its last set. */
  lemma SharedVersion(w: World, account: Uuid, symbol: string)
    requires L2Inv(w) && w.shared.Some? && QuoteKey(account, symbol) in w.shared.value
    ensures var item := w.shared.value[QuoteKey(account, symbol)];
      && GoodItem(w, QuoteKey(account, symbol), item)
      && SamePair(w.log, item.value.prices, account, symbol)
      && forall v :: 0 <= v < |w.log| && SamePair(w.log, v, account, symbol) ==>
           v <= item.value.prices && (Latest(w.log, v, |w.log|) ==> v == item.value.prices)
  {
    var u := w.shared.value[QuoteKey(account, symbol)].value.prices;
    KeysInjective(w.log[u].account, w.log[u].symbol, account, symbol);
    forall v | 0 <= v < |w.log| && SamePair(w.log, v, account, symbol)
      ensures v <= u && (Latest(w.log, v, |w.log|) ==> v == u)
    {
      assert SamePair(w.log, v, w.log[u].account, w.log[u].symbol);
      assert SamePair(w.log, u, w.log[v].account, w.log[v].symbol);
    }
  }

  lemma HeldVersion(w: World, r: nat, account: Uuid, symbol: string)
    requires L1Inv(w) && r < |w.replicas| && L1Key(account, symbol) in w.replicas[r]
    ensures var e := w.replicas[r][L1Key(account, symbol)];
      GoodEntry(w, L1Key(account, symbol), e) && SamePair(w.log, e.quote.prices, account, symbol)
  {
    var v := w.replicas[r][L1Key(account, symbol)].quote.prices;
    KeysInjective(w.log[v].account, w.log[v].symbol, account, symbol);
  }

  lemma TickKeepsL2(w: World, duration: nat)
    requires Inv(w)
    ensures L2Inv(Step(w, Tick(duration)))
  {
    var w' := Step(w, Tick(duration));
    if w.shared.Some? {
      forall k | k in w'.shared.value
        ensures GoodItem(w', k, w'.shared.value[k])
      {
        assert GoodItem(w, k, w.shared.value[k]);
      }
      forall v | 0 <= v < |w.log| && Latest(w.log, v, |w.log|) && w'.now < SharedEnd(w.log[v])
        ensures QuoteKey(w.log[v].account, w.log[v].symbol) in w'.shared.value
      {
        SharedVersion(w, w.log[v].account, w.log[v].symbol);
      }
    }
  }

  lemma TickKeepsLone(w: World, duration: nat)
    requires Inv(w)
    ensures LoneInv(Step(w, Tick(duration)))
  {
    var w' := Step(w, Tick(duration));
    if |w.replicas| == 1 {
      forall v | 0 <= v < |w.log|
        ensures HoldsLatest(w', v)
      {
        assert HoldsLatest(w, v);
      }
    }
  }

  lemma TickKeepsInv(w: World, duration: nat)
    requires Inv(w)
    ensures Inv(Step(w, Tick(duration)))
  {
    var w' := Step(w, Tick(duration));
    TickKeepsL2(w, duration);
    TickKeepsLone(w, duration);
    forall r, k | 0 <= r < |w'.replicas| && k in w'.replicas[r]
      ensures GoodEntry(w', k, w'.replicas[r][k])
    {
      assert GoodEntry(w, k, w.replicas[r][k]);
    }
    forall i | 0 <= i < |w.lookups|
      ensures GoodLookup(w', w.lookups[i]) && Held(w', i)
    {
      assert Held(w, i);
      LookupsStayGood(w, w', w.lookups[i]);
    }
  }

  lemma SetKeepsL1(w: World, op: Op)
    requires Inv(w) && op.SetQuote? && Legal(|w.replicas|, op)
    ensures L1Inv(Step(w, op))
  {
    var w' := Step(w, op);
    var key := L1Key(op.account, op.symbol);
    forall r, k | 0 <= r < |w'.replicas| && k in w'.replicas[r]
      ensures GoodEntry(w', k, w'.replicas[r][k])
    {
      var e := w'.replicas[r][k];
      if r == op.replica && k == key {
        assert w'.log[|w.log|] == SetEvent(op.account, op.symbol, w.now, op.ttl, op.lag);
      } else {
        assert k in w.replicas[r] && e == w.replicas[r][k] && GoodEntry(w, k, e);
        var v := e.quote.prices;
        LatestAfterSet(w.log, SetEvent(op.account, op.symbol, w.now, op.ttl, op.lag), v);
      }
    }
  }

  lemma SetKeepsItem(w: World, op: Op, v: nat)
    requires Inv(w) && op.SetQuote? && Legal(|w.replicas|, op) && w.shared.Some? && v < |w.log|
    requires Latest(Step(w, op).log, v, |w.log| + 1) && w.now + op.lag < SharedEnd(w.log[v])
    ensures QuoteKey(w.log[v].account, w.log[v].symbol) in Step(w, op).shared.value
  {
    LatestAfterSet(w.log, SetEvent(op.account, op.symbol, w.now, op.ttl, op.lag), v);
    SharedVersion(w, w.log[v].account, w.log[v].symbol);
  }

  lemma SetKeepsL2(w: World, op: Op)
    requires Inv(w) && op.SetQuote? && Legal(|w.replicas|, op)
    ensures L2Inv(Step(w, op))
  {
    var w' := Step(w, op);
    var event := SetEvent(op.account, op.symbol, w.now, op.ttl, op.lag);
    if w.shared.Some? {
      forall k | k in w'.shared.value
        ensures GoodItem(w', k, w'.shared.value[k])
      {
        if k != QuoteKey(op.account, op.symbol) {
          assert GoodItem(w, k, w.shared.value[k]);
          LatestAfterSet(w.log, event, w.shared.value[k].value.prices);
        }
      }
      forall v | 0 <= v < |w'.log| && Latest(w'.log, v, |w'.log|) && w'.now < SharedEnd(w'.log[v])
        ensures QuoteKey(w'.log[v].account, w'.log[v].symbol) in w'.shared.value
      {
        if v < |w.log| {
          SetKeepsItem(w, op, v);
        }
      }
    }
  }

  lemma SetKeepsLone(w: World, op: Op, v: nat)
    requires Inv(w) && op.SetQuote? && Legal(|w.replicas|, op) && |w.replicas| == 1 && v < |w.log| + 1
    ensures HoldsLatest(Step(w, op), v)
  {
    if v < |w.log| {
      assert HoldsLatest(w, v);
      LatestAfterSet(w.log, SetEvent(op.account, op.symbol, w.now, op.ttl, op.lag), v);
      KeysInjective(w.log[v].account, w.log[v].symbol, op.account, op.symbol);
    }
  }

  lemma SetKeepsLookup(w: World, op: Op, i: nat)
    requires Inv(w) && op.SetQuote? && Legal(|w.replicas|, op) && i < |w.lookups|
    ensures GoodLookup(Step(w, op), w.lookups[i]) && Held(Step(w, op), i)
  {
    assert GoodLookup(w, w.lookups[i]) && Held(w, i);
    LookupsStayGood(w, Step(w, op), w.lookups[i]);
  }

  lemma SetKeepsInv(w: World, op: Op)
    requires Inv(w) && op.SetQuote? && Legal(|w.replicas|, op)
    ensures Inv(Step(w, op))
  {
    var w' := Step(w, op);
    SetKeepsL1(w, op);
    SetKeepsL2(w, op);
    if |w.replicas| == 1 {
      forall v | 0 <= v < |w'.log|
        ensures HoldsLatest(w', v)
      {
        SetKeepsLone(w, op, v);
      }
    }
    forall i | 0 <= i < |w.lookups|
      ensures GoodLookup(w', w.lookups[i]) && Held(w', i)
    {
      SetKeepsLookup(w, op, i);
    }
  }

  /** A refill from the second level is a good first-level entry. */
  lemma RefillIsGood(w: World, account: Uuid, symbol: string)
    requires L2Inv(w) && w.shared.Some? && QuoteKey(account, symbol) in w.shared.value
    ensures var item := w.shared.value[QuoteKey(account, symbol)];
      item.Text? && GoodEntry(w, L1Key(account, symbol), Entry(item.value, w.now + REFILL_TTL))
  {
    SharedVersion(w, account, symbol);
  }

  /** A lookup leaves old entries, and at most one refill at its own key. */
  lemma LookupEntries(l1: L1<nat>, l2: Option<Db<Quote<nat>>>, account: Uuid, symbol: string, now: int, j: string)
    requires j in Lookup(l1, l2, account, symbol, now).0
    ensures var e := Lookup(l1, l2, account, symbol, now).0[j];
      || (j in l1 && e == l1[j])
      || (j == L1Key(account, symbol) && Shared(l2, QuoteKey(account, symbol)).Some?
          && e == Entry(Shared(l2, QuoteKey(account, symbol)).value, now + REFILL_TTL))
  {
  }

  lemma GetKeepsEntry(w: World, op: Op, j: string)
    requires Inv(w) && op.GetQuote? && Legal(|w.replicas|, op) && j in Step(w, op).replicas[op.replica]
    ensures GoodEntry(w, j, Step(w, op).replicas[op.replica][j])
  {
    LookupEntries(w.replicas[op.replica], w.shared, op.account, op.symbol, w.now, j);
    if Shared(w.shared, QuoteKey(op.account, op.symbol)).Some? {
      RefillIsGood(w, op.account, op.symbol);
    }
  }

  lemma GetKeepsL1(w: World, op: Op)
    requires Inv(w) && op.GetQuote? && Legal(|w.replicas|, op)
    ensures L1Inv(Step(w, op))
  {
    var w' := Step(w, op);
    forall r, j | 0 <= r < |w'.replicas| && j in w'.replicas[r]
      ensures GoodEntry(w', j, w'.replicas[r][j])
    {
      if r == op.replica {
        GetKeepsEntry(w, op, j);
      }
      assert GoodEntry(w, j, w'.replicas[r][j]);
    }
  }

  /** A lookup that finds nothing, where sets are shared or there is one replica. */
  lemma MissIsGood(w: World, op: Op, v: nat)
    requires Inv(w) && op.GetQuote? && Legal(|w.replicas|, op)
    requires Lookup(w.replicas[op.replica], w.shared, op.account, op.symbol, w.now).1.None?
    requires w.shared.Some? || |w.replicas| == 1
    requires v < |w.log| && SamePair(w.log, v, op.account, op.symbol) && Latest(w.log, v, |w.log|)
    ensures OwnEnd(w.log[v]) <= w.now
  {
    if |w.replicas| == 1 {
      assert HoldsLatest(w, v);
    } else if QuoteKey(op.account, op.symbol) in w.shared.value {
      SharedVersion(w, op.account, op.symbol);
    }
  }

  /** The lookup a GetQuote records meets the bounds. */
  lemma GetIsGood(w: World, op: Op)
    requires Inv(w) && op.GetQuote? && Legal(|w.replicas|, op)
    ensures var w' := Step(w, op);
      GoodLookup(w', w'.lookups[|w.lookups|])
  {
    var w' := Step(w, op);
    var e := w'.lookups[|w.lookups|];
    var k, key := L1Key(op.account, op.symbol), QuoteKey(op.account, op.symbol);
    if k in w.replicas[op.replica] && w.now < w.replicas[op.replica][k].expiresAt {
      HeldVersion(w, op.replica, op.account, op.symbol);
    } else if w.shared.Some? && key in w.shared.value {
      SharedVersion(w, op.account, op.symbol);
    } else if w.shared.Some? || |w.replicas| == 1 {
      forall v | 0 <= v < |w.log| && SamePair(w.log, v, op.account, op.symbol) && Latest(w.log, v, |w.log|)
        ensures OwnEnd(w.log[v]) <= w.now
      {
        MissIsGood(w, op, v);
      }
    }
  }

  /** The answer is at least as new as every earlier one that the same reader got. */
  lemma GetIsInOrder(w: World, op: Op, i: nat)
    requires Inv(w) && op.GetQuote? && Legal(|w.replicas|, op) && i < |w.lookups|
    ensures var w' := Step(w, op);
      InOrder(w.lookups[i], w'.lookups[|w.lookups|])
  {
    var e, k := w.lookups[i], L1Key(op.account, op.symbol);
    assert GoodLookup(w, e) && Held(w, i);
    if SameReader(e, Step(w, op).lookups[|w.lookups|]) && e.result.Some? {
      if w.shared.Some? && QuoteKey(op.account, op.symbol) in w.shared.value {
        SharedVersion(w, op.account, op.symbol);
      }
    }
  }

  /** After a lookup the first level holds nothing older than an earlier answer. */
  lemma HeldAfterGet(w: World, op: Op, i: nat)
    requires Inv(w) && op.GetQuote? && Legal(|w.replicas|, op) && i < |w.lookups|
    ensures Held(Step(w, op), i)
  {
    var e := w.lookups[i];
    assert GoodLookup(w, e) && Held(w, i);
    if e.replica == op.replica && L1Key(e.account, e.symbol) in Step(w, op).replicas[e.replica] {
      LookupEntries(w.replicas[e.replica], w.shared, op.account, op.symbol, w.now, L1Key(e.account, e.symbol));
      KeysInjective(e.account, e.symbol, op.account, op.symbol);
      if w.shared.Some? && QuoteKey(op.account, op.symbol) in w.shared.value {
        SharedVersion(w, op.account, op.symbol);
      }
    }
  }

  /** What the lookup itself has seen is what its first level then holds. */
  lemma HeldAfterOwnGet(w: World, op: Op)
    requires op.GetQuote? && Legal(|w.replicas|, op)
    ensures Held(Step(w, op), |w.lookups|)
  {
  }

  lemma GetKeepsHeld(w: World, op: Op)
    requires Inv(w) && op.GetQuote? && Legal(|w.replicas|, op)
    ensures HeldInv(Step(w, op))
  {
    HeldAfterOwnGet(w, op);
    forall i | 0 <= i < |w.lookups|
      ensures Held(Step(w, op), i)
    {
      HeldAfterGet(w, op, i);
    }
  }

  lemma GetKeepsL2(w: World, op: Op)
    requires Inv(w) && op.GetQuote? && Legal(|w.replicas|, op)
    ensures L2Inv(Step(w, op))
  {
  }

  /** A lookup leaves the entries that are still alive. */
  lemma LookupKeepsLive(l1: L1<nat>, l2: Option<Db<Quote<nat>>>, account: Uuid, symbol: string, now: int, j: string)
    requires j in l1 && now < l1[j].expiresAt
    ensures var l1' := Lookup(l1, l2, account, symbol, now).0;
      j in l1' && l1'[j] == l1[j]
  {
  }

  lemma GetKeepsLone(w: World, op: Op, v: nat)
    requires Inv(w) && op.GetQuote? && Legal(|w.replicas|, op) && |w.replicas| == 1 && v < |w.log|
    ensures HoldsLatest(Step(w, op), v)
  {
    assert HoldsLatest(w, v);
    var event := w.log[v];
    var k := L1Key(event.account, event.symbol);
    if Latest(w.log, v, |w.log|) && w.now < OwnEnd(event) {
      LookupKeepsLive(w.replicas[0], w.shared, op.account, op.symbol, w.now, k);
    }
  }

  lemma GetKeepsInv(w: World, op: Op)
    requires Inv(w) && op.GetQuote? && Legal(|w.replicas|, op)
    ensures Inv(Step(w, op))
  {
    var w' := Step(w, op);
    GetKeepsL1(w, op);
    GetKeepsL2(w, op);
    GetIsGood(w, op);
    GetKeepsHeld(w, op);
    if |w.replicas| == 1 {
      forall v | 0 <= v < |w.log|
        ensures HoldsLatest(w', v)
      {
        GetKeepsLone(w, op, v);
      }
    }
    forall i | 0 <= i < |w.lookups|
      ensures GoodLookup(w', w.lookups[i]) && InOrder(w.lookups[i], w'.lookups[|w.lookups|])
    {
      LookupsStayGood(w, w', w.lookups[i]);
      GetIsInOrder(w, op, i);
    }
  }

  lemma {:induction false} RunKeepsInv(n: nat, withL2: bool, ops: seq<Op>)
    requires forall op :: op in ops ==> Legal(n, op)
    ensures Inv(Run(Start(n, withL2), ops))
  {
    if ops != [] {
      var before := ops[..|ops| - 1];
      RunKeepsInv(n, withL2, before);
      var w, op := Run(Start(n, withL2), before), ops[|ops| - 1];
      match op
      case SetQuote(_, _, _, _, _) => SetKeepsInv(w, op);
      case GetQuote(_, _, _) => GetKeepsInv(w, op);
      case Tick(duration) => TickKeepsInv(w, duration);
    }
  }
}
