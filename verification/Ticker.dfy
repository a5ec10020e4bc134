/**
 Exchange rates through a read-through cache (agents/ticker/ticker.py). One clock is
 shared by cache and ticker and does not move during a call; `answer` is what the
 upstream source gives if it is asked. Decimals are modelled as reals, and a cached
 blob is taken to decode to the rate that was encoded.
 */
module Ticker {
  import opened Periods
  import opened Prelude

  datatype Rate = Rate(base: string, quote: string, rate: real, asOf: real)

  function CacheKey(base: string, quote: string): string {
    "ticker:rate:" + base + ":" + quote
  }

  type CacheMap = map<string, (real, Rate)>

  /** A fetch that succeeded. */
  datatype Fetch = Fetch(base: string, quote: string, at: real, rate: real)

  datatype State = State(cache: CacheMap, fetches: seq<Fetch>)

  const EMPTY: State := State(map[], [])

  datatype Call = Call(base: string, quote: string, now: real, answer: Option<real>)

  function Pruned(cache: CacheMap, key: string, now: real): CacheMap {
    if key in cache && now >= cache[key].0 then cache - {key} else cache
  }

  /** `get_rate`: the state after it, and the rate served, None when the source has none. */
  function Served(ttl: real, s: State, c: Call): (State, Option<Rate>) {
    var base, quote := Upper(c.base), Upper(c.quote);
    var key := CacheKey(base, quote);
    var cache := Pruned(s.cache, key, c.now);
    if key in cache then (State(cache, s.fetches), Some(cache[key].1))
    else if c.answer.None? then (State(cache, s.fetches), None)
    else
      var rate := Rate(base, quote, c.answer.value, c.now);
      (State(cache[key := (c.now + ttl, rate)], s.fetches + [Fetch(base, quote, c.now, c.answer.value)]), Some(rate))
  }

  class Ticker {
    const ttl: real
    var cache: CacheMap
    var fetches: seq<Fetch>

    constructor (ttlSeconds: real)
      ensures ttl == ttlSeconds && View() == EMPTY
    {
      ttl, cache, fetches := ttlSeconds, map[], [];
    }

    function View(): State
      reads this
    {
      State(cache, fetches)
    }

    method CacheGet(key: string, now: real) returns (r: Option<Rate>)
      modifies this`cache
      ensures cache == Pruned(old(cache), key, now)
      ensures r == if key in cache then Some(cache[key].1) else None
    {
      if key !in cache {
        return None;
      }
      var (expiresAt, value) := cache[key];
      if now >= expiresAt {
        cache := cache - {key};
        return None;
      }
      return Some(value);
    }

    method GetRate(base0: string, quote0: string, now: real, answer: Option<real>) returns (r: Option<Rate>)
      modifies this
      ensures (View(), r) == Served(ttl, old(View()), Call(base0, quote0, now, answer))
    {
      var base, quote := Upper(base0), Upper(quote0);
      var key := CacheKey(base, quote);
      var cached := CacheGet(key, now);
      if cached.Some? {
        return cached;
      }
      if answer.None? {
        return None;
      }
      var rate := Rate(base, quote, answer.value, now);
      fetches := fetches + [Fetch(base, quote, now, answer.value)];
      cache := cache[key := (now + ttl, rate)];
      return Some(rate);
    }
  }

  function Run(ttl: real, calls: seq<Call>): State {
    if calls == [] then EMPTY
    else Served(ttl, Run(ttl, calls[..|calls| - 1]), calls[|calls| - 1]).0
  }

  predicate InOrder(calls: seq<Call>) {
    forall i, j :: 0 <= i < j < |calls| ==> calls[i].now <= calls[j].now
  }

  /** Different pairs with base codes a and c can have one key exactly when a and c clash. */
  lemma KeysCollideIff(a: string, c: string)
    ensures (exists b, d :: Collide(a, b, c, d, ':')) <==> Clash(a, c, ':')
    ensures forall b, d :: Collide(a, b, c, d, ':') <==> (a, b) != (c, d) && CacheKey(a, b) == CacheKey(c, d)
  {
    CollideIff(a, c, ':');
    forall b, d ensures CacheKey(a, b) == CacheKey(c, d) <==> a + [':'] + b == c + [':'] + d { KeysAreTails(a, b, c, d); }
  }

  lemma KeysAreTails(a: string, b: string, c: string, d: string)
    ensures CacheKey(a, b) == CacheKey(c, d) <==> a + [':'] + b == c + [':'] + d
  {
    var s, t := a + [':'] + b, c + [':'] + d;
    assert CacheKey(a, b) == "ticker:rate:" + s && CacheKey(c, d) == "ticker:rate:" + t;
    assert CacheKey(a, b)[12..] == s && CacheKey(c, d)[12..] == t;
  }

  lemma KeysTellPairs(a: string, b: string, c: string, d: string)
    requires !Clash(a, c, ':') && CacheKey(a, b) == CacheKey(c, d)
    ensures a == c && b == d
  {
    KeysAreTails(a, b, c, d);
    CutWithoutClash(a, b, c, d, ':');
  }

  predicate FetchedAs(fetches: seq<Fetch>, i: int, r: Rate) {
    0 <= i < |fetches| && fetches[i] == Fetch(r.base, r.quote, r.asOf, r.rate)
  }

  ghost predicate FromSource(fetches: seq<Fetch>, r: Rate) {
    exists i :: FetchedAs(fetches, i, r)
  }

  ghost predicate EntryOk(ttl: real, s: State, key: string) {
    key in s.cache ==>
      var (expires, r) := s.cache[key];
      && key == CacheKey(r.base, r.quote)
      && expires == r.asOf + ttl && FromSource(s.fetches, r)
  }

  /** A fetch still keeps its pair's entry alive, or its time is over. */
  predicate FetchOk(ttl: real, s: State, now: real, i: int) {
    0 <= i < |s.fetches| ==>
      var f := s.fetches[i];
      var key := CacheKey(f.base, f.quote);
      && f.at <= now
      && (now < f.at + ttl ==> key in s.cache && s.cache[key].0 >= f.at + ttl)
  }

  predicate SpacedPair(ttl: real, fetches: seq<Fetch>, i: int, j: int) {
    0 <= i < j < |fetches| && fetches[i].base == fetches[j].base && fetches[i].quote == fetches[j].quote ==>
      fetches[j].at >= fetches[i].at + ttl
  }

  ghost predicate Sound(ttl: real, s: State, now: real) {
    && (forall key :: EntryOk(ttl, s, key))
    && (forall i :: FetchOk(ttl, s, now, i))
    && (forall i, j :: SpacedPair(ttl, s.fetches, i, j))
  }

  lemma PruneSound(ttl: real, s: State, key: string, before: real, now: real)
    requires Sound(ttl, s, before) && before <= now
    ensures Sound(ttl, State(Pruned(s.cache, key, now), s.fetches), now)
  {
    var t := State(Pruned(s.cache, key, now), s.fetches);
    forall k ensures EntryOk(ttl, t, k) { assert EntryOk(ttl, s, k); }
    forall i ensures FetchOk(ttl, t, now, i) { assert FetchOk(ttl, s, before, i); }
  }

  lemma FetchSound(ttl: real, s: State, base: string, quote: string, now: real, rate: real)
    requires Sound(ttl, s, now) && ttl > 0.0 && CacheKey(base, quote) !in s.cache
    ensures var r := Rate(base, quote, rate, now);
            Sound(ttl, State(s.cache[CacheKey(base, quote) := (now + ttl, r)], s.fetches + [Fetch(base, quote, now, rate)]), now)
  {
    var key, r, n := CacheKey(base, quote), Rate(base, quote, rate, now), |s.fetches|;
    var t := State(s.cache[key := (now + ttl, r)], s.fetches + [Fetch(base, quote, now, rate)]);
    assert FetchedAs(t.fetches, n, r);
    forall k ensures EntryOk(ttl, t, k) {
      assert EntryOk(ttl, s, k);
      if k in s.cache && k != key {
        var i :| FetchedAs(s.fetches, i, s.cache[k].1);
        assert FetchedAs(t.fetches, i, s.cache[k].1);
      }
    }
    forall i ensures FetchOk(ttl, t, now, i) { assert FetchOk(ttl, s, now, i); }
    forall i, j ensures SpacedPair(ttl, t.fetches, i, j) {
      assert SpacedPair(ttl, s.fetches, i, j);
      assert FetchOk(ttl, s, now, i);
    }
  }

  lemma ServedSound(ttl: real, s: State, c: Call, before: real)
    requires Sound(ttl, s, before) && before <= c.now && ttl > 0.0
    ensures Sound(ttl, Served(ttl, s, c).0, c.now)
  {
    var base, quote := Upper(c.base), Upper(c.quote);
    var key := CacheKey(base, quote);
    PruneSound(ttl, s, key, before, c.now);
    var pruned := State(Pruned(s.cache, key, c.now), s.fetches);
    if key !in pruned.cache && c.answer.Some? {
      FetchSound(ttl, pruned, base, quote, c.now, c.answer.value);
    }
  }

  lemma {:induction false} RunSound(ttl: real, calls: seq<Call>, start: real)
    requires ttl > 0.0 && InOrder(calls)
    requires calls != [] ==> start <= calls[0].now
    ensures Sound(ttl, Run(ttl, calls), if calls == [] then start else calls[|calls| - 1].now)
  {
    if calls != [] {
      var last := |calls| - 1;
      RunSound(ttl, calls[..last], start);
      ServedSound(ttl, Run(ttl, calls[..last]), calls[last], if last == 0 then start else calls[last - 1].now);
    }
  }

  /** The last call of a run, and what it is served. */
  function LastServed(ttl: real, calls: seq<Call>): Option<Rate>
    requires calls != []
  {
    Served(ttl, Run(ttl, calls[..|calls| - 1]), calls[|calls| - 1]).1
  }

  predicate ForThePair(r: Rate, c: Call) { r.base == Upper(c.base) && r.quote == Upper(c.quote) }

  /** Every rate served, from the cache or not, is what the source gave at its `as_of` for
      a pair with the key asked for, and is younger than the TTL. */
  lemma ServedIsFresh(ttl: real, calls: seq<Call>)
    requires ttl > 0.0 && calls != [] && InOrder(calls)
    ensures var c, r := calls[|calls| - 1], LastServed(ttl, calls);
            r.Some? ==>
              && FromSource(Run(ttl, calls).fetches, r.value)
              && r.value.asOf <= c.now < r.value.asOf + ttl
              && CacheKey(r.value.base, r.value.quote) == CacheKey(Upper(c.base), Upper(c.quote))
  {
    var c, s, r := calls[|calls| - 1], Run(ttl, calls), LastServed(ttl, calls);
    RunSound(ttl, calls, calls[0].now);
    if r.Some? {
      assert EntryOk(ttl, s, CacheKey(Upper(c.base), Upper(c.quote)));
      var i :| FetchedAs(s.fetches, i, r.value);
      assert FetchOk(ttl, s, c.now, i);
    }
  }

  /** A successful fetch under this key is younger than the TTL. */
  ghost predicate FreshFetch(ttl: real, fetches: seq<Fetch>, key: string, now: real) {
    exists i :: FreshAt(ttl, fetches, key, now, i)
  }

  predicate FreshAt(ttl: real, fetches: seq<Fetch>, key: string, now: real, i: int) {
    0 <= i < |fetches| && CacheKey(fetches[i].base, fetches[i].quote) == key && now < fetches[i].at + ttl
  }

  lemma CachedIffFresh(ttl: real, s: State, key: string, before: real, now: real)
    requires Sound(ttl, s, before) && before <= now
    ensures key in Pruned(s.cache, key, now) <==> FreshFetch(ttl, s.fetches, key, now)
  {
    assert EntryOk(ttl, s, key);
    if key in Pruned(s.cache, key, now) {
      var i :| FetchedAs(s.fetches, i, s.cache[key].1);
      assert FreshAt(ttl, s.fetches, key, now, i);
    }
    if i :| FreshAt(ttl, s.fetches, key, now, i) { assert FetchOk(ttl, s, before, i); }
  }

  /** Read-through, both ways. While a fetch under the key is fresh, its rate is served and the
      source is left alone. Otherwise the source is asked: its rate is served, recorded and
      dated now, or there is none. So no rate is served exactly when the source has none and
      nothing fresh is cached. */
  lemma ServedIff(ttl: real, calls: seq<Call>)
    requires ttl > 0.0 && calls != [] && InOrder(calls)
    ensures var c := calls[|calls| - 1];
            var before, after, r := Run(ttl, calls[..|calls| - 1]), Run(ttl, calls), LastServed(ttl, calls);
            var young := FreshFetch(ttl, before.fetches, CacheKey(Upper(c.base), Upper(c.quote)), c.now);
            && (r.None? <==> c.answer.None? && !young)
            && (young || c.answer.None? ==> after.fetches == before.fetches)
            && (!young && c.answer.Some? ==>
                  && r == Some(Rate(Upper(c.base), Upper(c.quote), c.answer.value, c.now))
                  && after.fetches == before.fetches + [Fetch(Upper(c.base), Upper(c.quote), c.now, c.answer.value)])
  {
    var n := |calls| - 1;
    var start := if n == 0 then calls[0].now else calls[n - 1].now;
    RunSound(ttl, calls[..n], calls[0].now);
    CachedIffFresh(ttl, Run(ttl, calls[..n]), CacheKey(Upper(calls[n].base), Upper(calls[n].quote)), start, calls[n].now);
  }

  /** The base codes asked for, as the cache sees them. */
  function Bases(calls: seq<Call>): set<string> {
    set i | 0 <= i < |calls| :: Upper(calls[i].base)
  }

  ghost predicate NoClash(bases: set<string>) {
    forall a, c :: a in bases && c in bases ==> !Clash(a, c, ':')
  }

  lemma {:induction false} FetchedWasAsked(ttl: real, calls: seq<Call>)
    ensures forall f :: f in Run(ttl, calls).fetches ==> f.base in Bases(calls)
  {
    if calls != [] {
      var last := |calls| - 1;
      FetchedWasAsked(ttl, calls[..last]);
      assert Upper(calls[last].base) in Bases(calls);
      forall b | b in Bases(calls[..last]) ensures b in Bases(calls) {
        var i :| 0 <= i < last && b == Upper(calls[..last][i].base);
        assert b == Upper(calls[i].base);
      }
    }
  }

  /** If no two base codes of a run clash, every rate served is for the pair asked, equals
      what the source gave for it at its `as_of`, and is younger than the TTL. */
  lemma ServedIsFreshAndTrue(ttl: real, calls: seq<Call>)
    requires ttl > 0.0 && calls != [] && InOrder(calls) && NoClash(Bases(calls))
    ensures var c, r := calls[|calls| - 1], LastServed(ttl, calls);
            r.Some? ==>
              && ForThePair(r.value, c)
              && FromSource(Run(ttl, calls).fetches, r.value)
              && r.value.asOf <= c.now < r.value.asOf + ttl
  {
    var c, s, r := calls[|calls| - 1], Run(ttl, calls), LastServed(ttl, calls);
    if r.Some? {
      ServedIsFresh(ttl, calls);
      FetchedWasAsked(ttl, calls);
      var i :| FetchedAs(s.fetches, i, r.value);
      assert s.fetches[i] in s.fetches;
      assert Upper(c.base) in Bases(calls);
      KeysTellPairs(r.value.base, r.value.quote, Upper(c.base), Upper(c.quote));
    }
  }

  lemma UpperTail(s: string, i: nat)
    requires i <= |s|
    ensures Upper(Upper(s)[i..] + [':']) == Upper(s)[i..] + [':']
  {
  }

  /** Codes that clash serve a wrong rate: the second pair is answered with the first one's. */
  lemma ClashServesWrongRate(ttl: real, a: string, c: string) returns (calls: seq<Call>)
    requires ttl > 0.0 && Upper(a) + [':'] <= Upper(c)
    ensures |calls| == 2 && InOrder(calls) && calls[0].base == c && calls[1].base == a
    ensures LastServed(ttl, calls) == Some(Rate(Upper(c), "", 2.0, 0.0)) && Upper(a) != Upper(c)
  {
    var v := ClashCollides(Upper(a), Upper(c), ':');
    var first, second := Call(c, "", 0.0, Some(2.0)), Call(a, v + [':'], 0.0, None);
    assert v == Upper(c)[|a| + 1..];
    UpperTail(c, |a| + 1);
    KeysAreTails(Upper(a), v + [':'], Upper(c), "");
    calls := [first, second];
    assert calls[..1] == [first] && [first][..0] == [];
    assert Run(ttl, [first]) == Served(ttl, EMPTY, first).0;
  }

  /** What `Served` owes every caller, over every run with the given base codes. */
  ghost predicate AlwaysForThePair(ttl: real, codes: set<string>) {
    forall calls :: RunWith(calls, codes) && LastServed(ttl, calls).Some? ==>
      ForThePair(LastServed(ttl, calls).value, calls[|calls| - 1])
  }

  /** A run of at least one call, on a clock that never goes back, with these base codes. */
  predicate RunWith(calls: seq<Call>, codes: set<string>) {
    calls != [] && InOrder(calls) && forall i :: 0 <= i < |calls| ==> calls[i].base in codes
  }

  ghost predicate CodesApart(codes: set<string>) {
    forall a, c :: a in codes && c in codes ==> !Clash(Upper(a), Upper(c), ':')
  }

  lemma ApartServesRight(ttl: real, codes: set<string>, calls: seq<Call>)
    requires ttl > 0.0 && CodesApart(codes) && RunWith(calls, codes) && LastServed(ttl, calls).Some?
    ensures ForThePair(LastServed(ttl, calls).value, calls[|calls| - 1])
  {
    assert NoClash(Bases(calls));
    ServedIsFreshAndTrue(ttl, calls);
  }

  lemma ClashIsServed(ttl: real, codes: set<string>, a: string, c: string)
    requires ttl > 0.0 && a in codes && c in codes && Upper(a) + [':'] <= Upper(c)
    ensures !AlwaysForThePair(ttl, codes)
  {
    var calls := ClashServesWrongRate(ttl, a, c);
    assert RunWith(calls, codes);
  }

  /** Callers with the given base codes always get the pair they ask for exactly when no
      upper-cased code is another one followed by a colon and more. */
  lemma PairsToldApartIff(ttl: real, codes: set<string>)
    requires ttl > 0.0
    ensures AlwaysForThePair(ttl, codes) <==> CodesApart(codes)
  {
    if CodesApart(codes) {
      forall calls | RunWith(calls, codes) && LastServed(ttl, calls).Some?
        ensures ForThePair(LastServed(ttl, calls).value, calls[|calls| - 1])
      {
        ApartServesRight(ttl, codes, calls);
      }
    } else {
      var a, c :| a in codes && c in codes && Clash(Upper(a), Upper(c), ':');
      if Upper(a) + [':'] <= Upper(c) { ClashIsServed(ttl, codes, a, c); } else { ClashIsServed(ttl, codes, c, a); }
    }
  }

  /** For example, "A" asked for "B:C" after "A:B" was asked for "C". */
  lemma WrongRateServed()
    ensures LastServed(300.0, [Call("A:B", "C", 0.0, Some(2.0)), Call("A", "B:C", 0.0, None)])
            == Some(Rate("A:B", "C", 2.0, 0.0))
  {
    var first, second := Call("A:B", "C", 0.0, Some(2.0)), Call("A", "B:C", 0.0, None);
    assert Upper("A:B") == "A:B" && Upper("C") == "C" && Upper("A") == "A" && Upper("B:C") == "B:C";
    assert CacheKey("A:B", "C") == "ticker:rate:A:B:C" && CacheKey("A", "B:C") == "ticker:rate:A:B:C";
    assert [first, second][..1] == [first] && [first][..0] == [];
    assert Run(300.0, [first]) == Served(300.0, EMPTY, first).0;
  }

  /** The successful fetches for one pair, in order. */
  function FetchesOf(fetches: seq<Fetch>, base: string, quote: string): seq<Fetch> {
    if fetches == [] then []
    else
      var last := fetches[|fetches| - 1];
      FetchesOf(fetches[..|fetches| - 1], base, quote) + if last.base == base && last.quote == quote then [last] else []
  }

  lemma {:induction false} FetchesOfSpaced(ttl: real, fetches: seq<Fetch>, base: string, quote: string)
    requires forall i, j :: SpacedPair(ttl, fetches, i, j)
    ensures var f := FetchesOf(fetches, base, quote);
            && (forall i, j :: 0 <= i < j < |f| ==> f[j].at >= f[i].at + ttl)
            && (forall x :: x in f ==> x in fetches && x.base == base && x.quote == quote)
  {
    if fetches != [] {
      var last := |fetches| - 1;
      var init := fetches[..last];
      forall i, j ensures SpacedPair(ttl, init, i, j) { assert SpacedPair(ttl, fetches, i, j); }
      FetchesOfSpaced(ttl, init, base, quote);
      var before := FetchesOf(init, base, quote);
      assert forall x :: x in init ==> x in fetches;
      assert fetches[last] in fetches;
      forall i | 0 <= i < |before| && fetches[last].base == base && fetches[last].quote == quote
        ensures fetches[last].at >= before[i].at + ttl
      {
        assert before[i] in before;
        var k :| 0 <= k < last && init[k] == before[i];
        assert SpacedPair(ttl, fetches, k, last);
      }
    }
  }

  lemma {:induction false} SpacedSpan(ttl: real, f: seq<Fetch>, i: nat, j: nat)
    requires ttl > 0.0 && i <= j < |f|
    requires forall a, b :: 0 <= a < b < |f| ==> f[b].at >= f[a].at + ttl
    ensures f[j].at >= f[i].at + Span(j - i, ttl)
  {
    if i < j { SpacedSpan(ttl, f, i, j - 1); }
  }

  /** In any stretch of time of length T, the source is successfully asked for one pair
      at most floor(T / ttl) + 1 times: fetches i to j, all within T, number so few. */
  lemma FetchesAreRare(ttl: real, calls: seq<Call>, base: string, quote: string, i: nat, j: nat, length: real)
    requires ttl > 0.0 && InOrder(calls)
    requires var f := FetchesOf(Run(ttl, calls).fetches, base, quote);
             i <= j < |f| && f[j].at - f[i].at <= length
    ensures j - i + 1 <= (length / ttl).Floor + 1
  {
    RunSound(ttl, calls, if calls == [] then 0.0 else calls[0].now);
    var f := FetchesOf(Run(ttl, calls).fetches, base, quote);
    FetchesOfSpaced(ttl, Run(ttl, calls).fetches, base, quote);
    SpacedSpan(ttl, f, i, j);
    SpanFits(j - i, ttl, length);
  }

  // --- Conversion ------------------------------------------------------------------------

  /** ROUND_HALF_UP: to the nearest integer, the one further from zero on a tie. */
  function RoundHalfUp(x: real): (n: int)
    ensures -0.5 <= n as real - x <= 0.5
    ensures x >= 0.0 ==> n as real - x > -0.5
    ensures x <= 0.0 ==> n as real - x < 0.5
  {
    if x >= 0.0 then (x + 0.5).Floor else -((0.5 - x).Floor)
  }

  lemma NearestIsUnique(x: real, n: int)
    requires -0.5 <= n as real - x <= 0.5
    requires x >= 0.0 ==> n as real - x > -0.5
    requires x <= 0.0 ==> n as real - x < 0.5
    ensures n == RoundHalfUp(x)
  {
  }

  function ConvertMinor(r: Rate, amountMinor: int): int {
    RoundHalfUp(amountMinor as real * r.rate)
  }

  /** The converted amount is the integer nearest to amount times rate. */
  lemma ConversionIsNearest(r: Rate, amountMinor: int)
    ensures var exact := amountMinor as real * r.rate;
            -0.5 <= ConvertMinor(r, amountMinor) as real - exact <= 0.5
  {
  }

  lemma RoundingIsOdd(x: real, y: real)
    requires y == -x
    ensures RoundHalfUp(y) == -RoundHalfUp(x)
  {
    NearestIsUnique(y, -RoundHalfUp(x));
  }

  lemma Negated(x: real, y: real, rate: real)
    requires y == -x
    ensures y * rate == -(x * rate)
  {
  }

  /** A debt converts to the debt of what the credit converts to. */
  lemma ConversionIsOdd(r: Rate, amountMinor: int)
    ensures ConvertMinor(r, -amountMinor) == -ConvertMinor(r, amountMinor)
  {
    var x, y := amountMinor as real, (-amountMinor) as real;
    assert y == -x;
    Negated(x, y, r.rate);
    RoundingIsOdd(x * r.rate, y * r.rate);
    assert ConvertMinor(r, amountMinor) == RoundHalfUp(x * r.rate);
    assert ConvertMinor(r, -amountMinor) == RoundHalfUp(y * r.rate);
  }
}
