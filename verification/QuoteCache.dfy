/** The two-level quote cache: a map per replica in front of the shared tagged cache. */
module QuoteCache {
  import opened Options
  import opened Redis
  import opened TaggedCache

  // ---------------------------------------------------------------- keys

  predicate AreDigits(digits: seq<int>) {
    forall i :: 0 <= i < |digits| ==> 0 <= digits[i] < 16
  }

  /** A UUID as its 32 hexadecimal digits. */
  type Uuid = u: seq<int> | |u| == 32 && AreDigits(u) witness seq(32, _ => 0)

  function Hex(digits: seq<int>): (text: string)
    requires AreDigits(digits)
    ensures |text| == |digits|
  {
    seq(|digits|, i requires 0 <= i < |digits| => "0123456789abcdef"[digits[i]])
  }

  /** The 8-4-4-4-12 text form of section 4 of RFC 9562. */
  function UuidText(u: Uuid): (text: string)
    ensures |text| == 36
  {
    Hex(u[..8]) + "-" + Hex(u[8..12]) + "-" + Hex(u[12..16]) + "-" + Hex(u[16..20]) + "-" + Hex(u[20..])
  }

  function L1Key(account: Uuid, symbol: string): string {
    UuidText(account) + ":" + symbol
  }

  function L2Key(account: Uuid, symbol: string): string {
    "quote:" + UuidText(account) + ":" + symbol
  }

  const MARKET := "market"

  lemma HexInjective(a: seq<int>, b: seq<int>)
    requires AreDigits(a) && AreDigits(b)
    requires Hex(a) == Hex(b)
    ensures a == b
  {
    assert |a| == |b|;
    forall i | 0 <= i < |a|
      ensures a[i] == b[i]
    {
      assert Hex(a)[i] == "0123456789abcdef"[a[i]] && Hex(b)[i] == "0123456789abcdef"[b[i]];
    }
  }

  lemma Joined(a: string, b: string, c: string, d: string, e: string)
    requires |a| == 8 && |b| == |c| == |d| == 4 && |e| == 12
    ensures var s := a + "-" + b + "-" + c + "-" + d + "-" + e;
      && s[..8] == a && s[9..13] == b && s[14..18] == c && s[19..23] == d && s[24..] == e
      && s[8] == s[13] == s[18] == s[23] == '-'
  {
  }

  lemma UuidParts(u: Uuid)
    ensures var s := UuidText(u);
      && s[..8] == Hex(u[..8]) && s[9..13] == Hex(u[8..12]) && s[14..18] == Hex(u[12..16])
      && s[19..23] == Hex(u[16..20]) && s[24..] == Hex(u[20..])
      && s[8] == s[13] == s[18] == s[23] == '-'
  {
    Joined(Hex(u[..8]), Hex(u[8..12]), Hex(u[12..16]), Hex(u[16..20]), Hex(u[20..]));
  }

  lemma UuidTextInjective(u: Uuid, v: Uuid)
    requires UuidText(u) == UuidText(v)
    ensures u == v
  {
    UuidParts(u);
    UuidParts(v);
    HexInjective(u[..8], v[..8]);
    HexInjective(u[8..12], v[8..12]);
    HexInjective(u[12..16], v[12..16]);
    HexInjective(u[16..20], v[16..20]);
    HexInjective(u[20..], v[20..]);
    assert u == u[..8] + u[8..12] + u[12..16] + u[16..20] + u[20..];
    assert v == v[..8] + v[8..12] + v[12..16] + v[16..20] + v[20..];
  }

  function Digit(d: int): char
    requires 0 <= d < 16
  {
    if d < 10 then ('0' as int + d) as char else ('a' as int + d - 10) as char
  }

  lemma HexIs(digits: seq<int>, i: nat)
    requires AreDigits(digits) && i < |digits|
    ensures Hex(digits)[i] == Digit(digits[i])
  {
  }

  /** The text form digit by digit: hyphens after the digits 8, 12, 16 and 20. */
  lemma UuidTextIs(u: Uuid, i: nat)
    requires i < 32
    ensures UuidText(u)[8] == UuidText(u)[13] == UuidText(u)[18] == UuidText(u)[23] == '-'
    ensures UuidText(u)[if i < 8 then i else if i < 12 then i + 1 else if i < 16 then i + 2
                        else if i < 20 then i + 3 else i + 4] == Digit(u[i])
  {
    var s := UuidText(u);
    UuidParts(u);
    if i < 8 {
      HexIs(u[..8], i);
      assert s[..8][i] == s[i];
    } else if i < 12 {
      HexIs(u[8..12], i - 8);
      assert s[9..13][i - 8] == s[i + 1];
    } else if i < 16 {
      HexIs(u[12..16], i - 12);
      assert s[14..18][i - 12] == s[i + 2];
    } else if i < 20 {
      HexIs(u[16..20], i - 16);
      assert s[19..23][i - 16] == s[i + 3];
    } else {
      HexIs(u[20..], i - 20);
      assert s[24..][i - 20] == s[i + 4];
    }
  }

  /** The full Redis key of a quote. */
  function QuoteKey(account: Uuid, symbol: string): string {
    BuildKey(L2Key(account, symbol), MARKET)
  }

  /** Both levels keep different (account, symbol) pairs apart, whatever the symbol contains. */
  lemma KeysInjective(a: Uuid, s: string, b: Uuid, t: string)
    ensures L1Key(a, s) == L1Key(b, t) <==> a == b && s == t
    ensures QuoteKey(a, s) == QuoteKey(b, t) <==> a == b && s == t
  {
    if QuoteKey(a, s) == QuoteKey(b, t) {
      BuildKeyCollides(L2Key(a, s), MARKET, L2Key(b, t), MARKET);
      assert L1Key(a, s) == L2Key(a, s)[6..] && L1Key(b, t) == L2Key(b, t)[6..];
    }
    if L1Key(a, s) == L1Key(b, t) {
      assert UuidText(a) == L1Key(a, s)[..36] && UuidText(b) == L1Key(b, t)[..36];
      UuidTextInjective(a, b);
      assert s == L1Key(a, s)[37..] && t == L1Key(b, t)[37..];
    }
  }

  /** The keys of a quote in full. */
  lemma QuoteKeyTexts(u: Uuid, symbol: string)
    ensures L1Key(u, symbol) == UuidText(u) + ":" + symbol
    ensures QuoteKey(u, symbol) == "antrader:cache:market:quote:" + UuidText(u) + ":" + symbol
  {
    assert "antrader:cache:" + "market" + ":" + "quote:" == "antrader:cache:market:quote:";
  }

  // ---------------------------------------------------------------- one replica

  /** A quote as the cache sees it: a symbol, and prices it never looks at. */
  datatype Quote<P> = Quote(symbol: string, prices: P)

  datatype Entry<P> = Entry(quote: Quote<P>, expiresAt: int)

  type L1<P> = map<string, Entry<P>>

  const REFILL_TTL := 500

  /** What the shared level answers. */
  function Shared<P>(l2: Option<Db<Quote<P>>>, key: string): Option<Quote<P>> {
    if l2.Some? && key in l2.value && l2.value[key].Text? then Some(l2.value[key].value) else None
  }

  /** A lookup: the new first level and the answer. */
  function Lookup<P>(l1: L1<P>, l2: Option<Db<Quote<P>>>, account: Uuid, symbol: string, now: int)
    : (L1<P>, Option<Quote<P>>)
  {
    var k := L1Key(account, symbol);
    if k in l1 && now < l1[k].expiresAt then (l1, Some(l1[k].quote))
    else
      var found := Shared(l2, QuoteKey(account, symbol));
      if found.Some? then (l1[k := Entry(found.value, now + REFILL_TTL)], found) else (l1 - {k}, None)
  }

  function Stored<P>(l1: L1<P>, account: Uuid, quote: Quote<P>, ttl: int, now: int): L1<P> {
    l1[L1Key(account, quote.symbol) := Entry(quote, now + ttl)]
  }

  /** The second level after a set whose command reaches it at `now`. */
  function Published<P>(l2: Option<Db<Quote<P>>>, account: Uuid, quote: Quote<P>, ttl: int, now: int)
    : Option<Db<Quote<P>>>
  {
    if l2.Some? then Some(Written(Purged(l2.value, now), QuoteKey(account, quote.symbol), quote, now + ttl)) else None
  }

  class RealtimeQuoteCache<P> {
    var l1: L1<P>
    const l2: CacheService?<Quote<P>>

    ghost predicate Valid(now: int)
      reads this, l2, if l2 == null then {} else {l2.redis}
    {
      l2 != null ==> l2.Valid() && l2.redis.now == now
    }

    ghost function SharedLevel(): Option<Db<Quote<P>>>
      reads this, l2, if l2 == null then {} else {l2.redis}
    {
      if l2 == null then None else Some(l2.redis.db)
    }

    constructor (l2: CacheService?<Quote<P>>)
      ensures l1 == map[] && this.l2 == l2
    {
      l1, this.l2 := map[], l2;
    }

    method GetQuote(account: Uuid, symbol: string, now: int) returns (r: Option<Quote<P>>)
      requires Valid(now)
      modifies this`l1
      ensures (l1, r) == Lookup(old(l1), SharedLevel(), account, symbol, now)
    {
      var k := L1Key(account, symbol);
      if k in l1 {
        var entry := l1[k];
        if now < entry.expiresAt {
          return Some(entry.quote);
        }
        l1 := l1 - {k};
      }
      assert l1 == old(l1) - {k};
      if l2 == null {
        return None;
      }
      var q := l2.Get(L2Key(account, symbol), MARKET);
      if q.Some? {
        l1 := l1[k := Entry(q.value, now + REFILL_TTL)];
        assert l1 == old(l1)[k := Entry(q.value, now + REFILL_TTL)];
        return q;
      }
      return None;
    }

    /** The first level is written at `now`; the command to the second level takes `lag` to get
        there, and the lifetime starts again. */
    method SetQuote(account: Uuid, quote: Option<Quote<P>>, ttl: int, now: int, lag: nat)
      requires Valid(now) && ttl > 0
      modifies this`l1, if l2 == null then {} else {l2.redis}
      ensures Valid(if quote.Some? then now + lag else now)
      ensures quote.None? ==> l1 == old(l1) && SharedLevel() == old(SharedLevel())
      ensures quote.Some? ==>
        && l1 == Stored(old(l1), account, quote.value, ttl, now)
        && SharedLevel() == Published(old(SharedLevel()), account, quote.value, ttl, now + lag)
    {
      if quote.None? {
        return;
      }
      var k := L1Key(account, quote.value.symbol);
      l1 := l1[k := Entry(quote.value, now + ttl)];
      if l2 == null {
        return;
      }
      l2.redis.Tick(lag);
      l2.Set(L2Key(account, quote.value.symbol), quote.value, ttl, MARKET);
    }
  }
}
