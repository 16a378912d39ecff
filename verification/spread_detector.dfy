/** Choosing the best opportunity of a scan and the per-route cooldown
    (src/strategy/spread_detector.h). */
module SpreadDetectors {
  import opened Types
  import opened Fees
  import opened Candidates

  const COOLDOWN_MS := 1000

  // ----- the cooldown -----

  /** std::to_string of the enumerator's index. */
  function IndexText(e: Exchange): string {
    match e
    case BINANCE => "0"
    case OKX => "1"
    case BYBIT => "2"
    case MEXC => "3"
    case GATEIO => "4"
  }

  function CooldownKey(pair: string, buy: Exchange, sell: Exchange): string {
    pair + ":" + IndexText(buy) + ":" + IndexText(sell)
  }

  /** Distinct routes have distinct keys. */
  lemma KeyInjective(pair: string, buy: Exchange, sell: Exchange, pair': string, buy': Exchange, sell': Exchange)
    requires CooldownKey(pair, buy, sell) == CooldownKey(pair', buy', sell')
    ensures pair == pair' && buy == buy' && sell == sell'
  {
    var k, n, n' := CooldownKey(pair, buy, sell), |pair|, |pair'|;
    assert |k| == n + 4 == n' + 4;
    assert k[..n] == pair && k[..n] == pair';
    assert k[n + 1] == IndexText(buy)[0] == IndexText(buy')[0];
    assert k[n + 3] == IndexText(sell)[0] == IndexText(sell')[0];
  }

  predicate InCooldown(lastTradeTime: map<string, int>, key: string, now: int) {
    key in lastTradeTime && ToMs(now - lastTradeTime[key]) < COOLDOWN_MS
  }

  /** A scan that found a best opportunity, at its second look at the clock. */
  datatype Attempt = Attempt(pair: string, buy: Exchange, sell: Exchange, now: int)

  function KeyOf(a: Attempt): string {
    CooldownKey(a.pair, a.buy, a.sell)
  }

  /** The time map after the first n attempts, starting from the empty map. */
  ghost function TimesAfter(attempts: seq<Attempt>, n: nat): map<string, int>
    requires n <= |attempts|
  {
    if n == 0 then map[]
    else
      var (before, a) := (TimesAfter(attempts, n - 1), attempts[n - 1]);
      if InCooldown(before, KeyOf(a), a.now) then before else before[KeyOf(a) := a.now]
  }

  ghost predicate Admitted(attempts: seq<Attempt>, k: nat)
    requires k < |attempts|
  {
    !InCooldown(TimesAfter(attempts, k), KeyOf(attempts[k]), attempts[k].now)
  }

  ghost predicate NonDecreasing(attempts: seq<Attempt>) {
    forall i, j :: 0 <= i <= j < |attempts| ==> attempts[i].now <= attempts[j].now
  }

  ghost predicate SameRoute(a: Attempt, b: Attempt) {
    a.pair == b.pair && a.buy == b.buy && a.sell == b.sell
  }

  lemma SameKeyIff(a: Attempt, b: Attempt)
    ensures KeyOf(a) == KeyOf(b) <==> SameRoute(a, b)
  {
    if KeyOf(a) == KeyOf(b) {
      KeyInjective(a.pair, a.buy, a.sell, b.pair, b.buy, b.sell);
    }
  }

  /** The entry of a route is the time of one of its admitted attempts, and of none later. */
  ghost predicate LatestAt(attempts: seq<Attempt>, n: nat, key: string, time: int)
    requires n <= |attempts|
  {
    && (exists i :: 0 <= i < n && Admitted(attempts, i) && KeyOf(attempts[i]) == key && attempts[i].now == time)
    && (forall i :: 0 <= i < n && Admitted(attempts, i) && KeyOf(attempts[i]) == key ==> attempts[i].now <= time)
  }

  ghost predicate NeverAdmitted(attempts: seq<Attempt>, n: nat, key: string)
    requires n <= |attempts|
  {
    forall i :: 0 <= i < n && Admitted(attempts, i) ==> KeyOf(attempts[i]) != key
  }

  lemma {:induction false} TimesAreLatest(attempts: seq<Attempt>, n: nat, key: string)
    requires n <= |attempts| && NonDecreasing(attempts)
    ensures var m := TimesAfter(attempts, n);
      if key in m then LatestAt(attempts, n, key, m[key]) else NeverAdmitted(attempts, n, key)
  {
    hide TimesAfter, Admitted, KeyOf;
    TimesStep(attempts, n, key);
    if n > 0 {
      TimesAreLatest(attempts, n - 1, key);
      if Admitted(attempts, n - 1) && KeyOf(attempts[n - 1]) == key {
        assert LatestAt(attempts, n, key, attempts[n - 1].now);
      } else if key in TimesAfter(attempts, n - 1) {
        StillLatest(attempts, n, key, TimesAfter(attempts, n - 1)[key]);
      }
    }
  }

  lemma StillLatest(attempts: seq<Attempt>, n: nat, key: string, time: int)
    requires 0 < n <= |attempts| && LatestAt(attempts, n - 1, key, time)
    requires !(Admitted(attempts, n - 1) && KeyOf(attempts[n - 1]) == key)
    ensures LatestAt(attempts, n, key, time)
  {
    hide Admitted, KeyOf;
    var i :| 0 <= i < n - 1 && Admitted(attempts, i) && KeyOf(attempts[i]) == key && attempts[i].now == time;
    assert Admitted(attempts, i) && KeyOf(attempts[i]) == key;
  }

  lemma TimesStep(attempts: seq<Attempt>, n: nat, key: string)
    requires n <= |attempts|
    ensures n == 0 ==> TimesAfter(attempts, n) == map[]
    ensures n > 0 ==>
      var before, hit := TimesAfter(attempts, n - 1), Admitted(attempts, n - 1) && KeyOf(attempts[n - 1]) == key;
      && (key in TimesAfter(attempts, n) <==> key in before || hit)
      && (hit ==> TimesAfter(attempts, n)[key] == attempts[n - 1].now)
      && (!hit && key in before ==> TimesAfter(attempts, n)[key] == before[key])
  {
    hide KeyOf, InCooldown;
  }

  /** With a non-decreasing clock an attempt is admitted exactly when every
      earlier admitted attempt on its own route is at least a second old, in
      nanoseconds; attempts on other routes never matter. */
  lemma AdmittedIff(attempts: seq<Attempt>, k: nat)
    requires k < |attempts| && NonDecreasing(attempts)
    ensures Admitted(attempts, k) <==>
      forall i :: 0 <= i < k && Admitted(attempts, i) && SameRoute(attempts[i], attempts[k]) ==>
        attempts[k].now - attempts[i].now >= 1000 * 1000000
  {
    hide Admitted, TimesAfter, KeyOf;
    var key, now, m := KeyOf(attempts[k]), attempts[k].now, TimesAfter(attempts, k);
    TimesAreLatest(attempts, k, key);
    AdmittedMeans(attempts, k);
    forall i | 0 <= i < k ensures SameRoute(attempts[i], attempts[k]) <==> KeyOf(attempts[i]) == key {
      SameKeyIff(attempts[i], attempts[k]);
    }
    if key in m {
      var latest :| 0 <= latest < k && Admitted(attempts, latest) && KeyOf(attempts[latest]) == key
          && attempts[latest].now == m[key];
      assert SameRoute(attempts[latest], attempts[k]);
    }
  }

  lemma AdmittedMeans(attempts: seq<Attempt>, k: nat)
    requires k < |attempts|
    ensures var m, key := TimesAfter(attempts, k), KeyOf(attempts[k]);
      Admitted(attempts, k) <==> (key in m ==> attempts[k].now - m[key] >= 1000 * 1000000)
  {
    hide KeyOf, TimesAfter;
  }

  lemma {:induction false} TimesOfPrefix(attempts: seq<Attempt>, a: Attempt, n: nat)
    requires n <= |attempts|
    ensures TimesAfter(attempts + [a], n) == TimesAfter(attempts, n)
  {
    if n > 0 {
      TimesOfPrefix(attempts, a, n - 1);
    }
  }

  // ----- choosing the best -----

  /** The inputs of one scan: the books served for the pair and the clock
      readings taken for each ordered pair of books. */
  datatype Scan = Scan(pair: string, snapshots: seq<OrderBookSnapshot>, settings: Settings, fees: FeeCache,
                       clock: (nat, nat) -> int)

  ghost function Offer(scan: Scan, i: nat, j: nat): Option<ArbitrageOpportunity>
    requires i < |scan.snapshots| && j < |scan.snapshots|
  {
    Candidate(scan.pair, scan.snapshots[i], scan.snapshots[j], scan.settings, scan.fees, scan.clock(i, j))
  }

  ghost predicate Offers(scan: Scan, opp: ArbitrageOpportunity) {
    exists i: nat, j: nat :: i < |scan.snapshots| && j < |scan.snapshots| && i != j && Offer(scan, i, j) == Some(opp)
  }

  /** It was found between two of the books served, both younger than 5001 ms at
      the clock reading for the two. */
  ghost predicate FromFreshBooks(snapshots: seq<OrderBookSnapshot>, clock: (nat, nat) -> int,
                                 opp: ArbitrageOpportunity)
  {
    exists i: nat, j: nat :: i < |snapshots| && j < |snapshots| && i != j
      && opp.buyExchange == snapshots[i].exchange && opp.sellExchange == snapshots[j].exchange
      && clock(i, j) - snapshots[i].localTimestamp < 5001 * 1000000
      && clock(i, j) - snapshots[j].localTimestamp < 5001 * 1000000
  }

  lemma OffersAreFresh(scan: Scan, opp: ArbitrageOpportunity)
    requires Offers(scan, opp)
    ensures opp.pair == scan.pair && FromFreshBooks(scan.snapshots, scan.clock, opp)
  {
    hide Candidate;
    var i: nat, j: nat :| i < |scan.snapshots| && j < |scan.snapshots| && i != j && Offer(scan, i, j) == Some(opp);
    EmittedIsFresh(scan.pair, scan.snapshots[i], scan.snapshots[j], scan.settings, scan.fees, scan.clock(i, j));
    OfferRoute(scan.pair, scan.snapshots[i], scan.snapshots[j], scan.settings, scan.fees, scan.clock(i, j));
  }

  lemma OfferRoute(pair: string, buy: OrderBookSnapshot, sell: OrderBookSnapshot, settings: Settings, fees: FeeCache,
                   now: int)
    requires Candidate(pair, buy, sell, settings, fees, now).Some?
    ensures var opp := Candidate(pair, buy, sell, settings, fees, now).value;
      opp.pair == pair && opp.buyExchange == buy.exchange && opp.sellExchange == sell.exchange
  {
    hide QuickFilters, Sized;
  }

  /** (i, j) comes before (row, column) in the order of the two loops. */
  ghost predicate Scanned(i: nat, j: nat, row: nat, column: nat) {
    i != j && (i < row || (i == row && j < column))
  }

  /** The pair at (i, j) offers it, and every pair scanned earlier offers less. */
  ghost predicate FirstAt(scan: Scan, opp: ArbitrageOpportunity, i: nat, j: nat) {
    && i < |scan.snapshots| && j < |scan.snapshots| && i != j && Offer(scan, i, j) == Some(opp)
    && forall x: nat, y: nat :: x < |scan.snapshots| && y < |scan.snapshots| && Scanned(x, y, i, j) ==>
      Offer(scan, x, y).Some? ==> Offer(scan, x, y).value.netSpreadBps < opp.netSpreadBps
  }

  /** The opportunity beats the minimum strictly, is beaten by no ordered pair
      of books, and is the first such in the order of the loops. */
  ghost predicate IsBest(scan: Scan, opp: ArbitrageOpportunity) {
    && (exists i: nat, j: nat :: FirstAt(scan, opp, i, j)) && opp.netSpreadBps > scan.settings.minNetBps
    && forall other :: Offers(scan, other) ==> other.netSpreadBps <= opp.netSpreadBps
  }

  ghost predicate NothingAboveMinimum(scan: Scan) {
    forall opp :: Offers(scan, opp) ==> opp.netSpreadBps <= scan.settings.minNetBps
  }

  /** The best among the pairs scanned so far. */
  ghost predicate BestSoFar(scan: Scan, row: nat, column: nat, best: Option<ArbitrageOpportunity>, bestNetBps: real)
    requires row <= |scan.snapshots|
    requires column <= |scan.snapshots|
  {
    && (best.None? ==> bestNetBps == scan.settings.minNetBps)
    && (best.Some? ==>
         && (exists i: nat, j: nat :: FirstAt(scan, best.value, i, j))
         && bestNetBps == best.value.netSpreadBps > scan.settings.minNetBps)
    && forall i: nat, j: nat :: i < |scan.snapshots| && j < |scan.snapshots| && Scanned(i, j, row, column) ==>
      Offer(scan, i, j).Some? ==> Offer(scan, i, j).value.netSpreadBps <= bestNetBps
  }

  method ChooseBest(scan: Scan) returns (best: Option<ArbitrageOpportunity>)
    ensures best.Some? ==> IsBest(scan, best.value)
    ensures best.None? ==> NothingAboveMinimum(scan)
  {
    hide Candidate;
    var bestNetBps := scan.settings.minNetBps;
    best := None;
    var n := |scan.snapshots|;
    for i := 0 to n
      invariant BestSoFar(scan, i, 0, best, bestNetBps)
    {
      for j := 0 to n
        invariant BestSoFar(scan, i, j, best, bestNetBps)
      {
        if i == j {
          continue;
        }
        var offer := Evaluate(scan.pair, scan.snapshots[i], scan.snapshots[j], scan.settings, scan.fees,
                              scan.clock(i, j));
        assert offer == Offer(scan, i, j);
        if offer.Some? && offer.value.netSpreadBps > bestNetBps {
          bestNetBps := offer.value.netSpreadBps;
          best := offer;
          assert FirstAt(scan, offer.value, i, j);
        }
      }
    }
    forall opp | Offers(scan, opp) ensures opp.netSpreadBps <= bestNetBps {
      var i: nat, j: nat :| i < n && j < n && i != j && Offer(scan, i, j) == Some(opp);
      assert Scanned(i, j, n, 0);
    }
  }

  class SpreadDetector {
    const settings: Settings
    var lastTradeTime: map<string, int>
    ghost var attempts: seq<Attempt>

    ghost predicate Valid()
      reads this
    {
      lastTradeTime == TimesAfter(attempts, |attempts|)
    }

    constructor (settings: Settings)
      ensures Valid() && attempts == [] && this.settings == settings
    {
      this.settings := settings;
      lastTradeTime := map[];
      attempts := [];
    }

    /** Fires at most once, with a best opportunity of the scan, found between two
        fresh books; it stays silent exactly when nothing beats the minimum or the
        best one's route is cooling down. */
    method ScanPair(pair: string, snapshots: seq<OrderBookSnapshot>, fees: FeeCache,
                    clock: (nat, nat) -> int, now: int)
      returns (fired: Option<ArbitrageOpportunity>)
      requires Valid()
      modifies this
      ensures Valid()
      ensures var scan := Scan(pair, snapshots, settings, fees, clock);
        if |snapshots| < 2 || NothingAboveMinimum(scan) then
          fired.None? && attempts == old(attempts) && lastTradeTime == old(lastTradeTime)
        else
          exists best :: IsBest(scan, best)
            && attempts == old(attempts) + [Attempt(pair, best.buyExchange, best.sellExchange, now)]
            && fired == if Admitted(attempts, |old(attempts)|) then Some(best) else None
      ensures fired.Some? ==> FromFreshBooks(snapshots, clock, fired.value)
    {
      hide Candidate, Admitted, FromFreshBooks;
      if |snapshots| < 2 {
        return None;
      }
      var scan := Scan(pair, snapshots, settings, fees, clock);
      var best := ChooseBest(scan);
      if best.None? {
        return None;
      }
      var opp := best.value;
      FirstIsOffered(scan, opp);
      assert !NothingAboveMinimum(scan);
      OffersAreFresh(scan, opp);
      var key := CooldownKey(opp.pair, opp.buyExchange, opp.sellExchange);
      ghost var attempt := Attempt(pair, opp.buyExchange, opp.sellExchange, now);
      TimesOfPrefix(attempts, attempt, |attempts|);
      AdmittedLast(attempts, attempt);
      attempts := attempts + [attempt];
      if InCooldown(lastTradeTime, key, now) {
        return None;
      }
      lastTradeTime := lastTradeTime[key := now];
      fired := Some(opp);
    }
  }

  lemma FirstIsOffered(scan: Scan, opp: ArbitrageOpportunity)
    requires exists i: nat, j: nat :: FirstAt(scan, opp, i, j)
    ensures Offers(scan, opp)
  {
    hide Candidate;
  }

  lemma AdmittedLast(attempts: seq<Attempt>, a: Attempt)
    ensures Admitted(attempts + [a], |attempts|) <==> !InCooldown(TimesAfter(attempts, |attempts|), KeyOf(a), a.now)
    ensures TimesAfter(attempts + [a], |attempts| + 1)
         == if InCooldown(TimesAfter(attempts, |attempts|), KeyOf(a), a.now) then TimesAfter(attempts, |attempts|)
            else TimesAfter(attempts, |attempts|)[KeyOf(a) := a.now]
  {
    TimesOfPrefix(attempts, a, |attempts|);
  }
}
