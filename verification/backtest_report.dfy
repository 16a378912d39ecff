/** The one-pass metrics over recorded trades (src/backtest/backtest_report.cpp). */
module BacktestReports {
  import opened Types
  import opened RealFacts

  datatype Metrics = Metrics(totalPnl: real, totalTrades: nat, winningTrades: nat, winRate: real, maxDrawdown: real,
                             profitFactor: real, avgTradePnl: real, totalFees: real,
                             pnlPerPair: map<string, real>, equityCurve: seq<real>)

  const NO_METRICS := Metrics(0.0, 0, 0, 0.0, 0.0, 0.0, 0.0, 0.0, map[], [])

  // ----- independent definitions -----

  /** The equity after the first n trades; 0 before any. */
  ghost function Equity(trades: seq<TradeRecord>, n: nat): real
    requires n <= |trades|
  {
    if n == 0 then 0.0 else Equity(trades, n - 1) + trades[n - 1].realizedPnl
  }

  ghost function Wins(trades: seq<TradeRecord>, n: nat): real
    requires n <= |trades|
  {
    if n == 0 then 0.0
    else Wins(trades, n - 1) + if trades[n - 1].realizedPnl > 0.0 then trades[n - 1].realizedPnl else 0.0
  }

  ghost function Losses(trades: seq<TradeRecord>, n: nat): real
    requires n <= |trades|
  {
    if n == 0 then 0.0
    else Losses(trades, n - 1) + if trades[n - 1].realizedPnl > 0.0 then 0.0 else -trades[n - 1].realizedPnl
  }

  ghost function WinCount(trades: seq<TradeRecord>, n: nat): nat
    requires n <= |trades|
  {
    if n == 0 then 0 else WinCount(trades, n - 1) + if trades[n - 1].realizedPnl > 0.0 then 1 else 0
  }

  ghost function FeeSum(trades: seq<TradeRecord>, n: nat): real
    requires n <= |trades|
  {
    if n == 0 then 0.0
    else FeeSum(trades, n - 1) + (trades[n - 1].buyResult.feePaid + trades[n - 1].sellResult.feePaid)
  }

  ghost function PairPnl(trades: seq<TradeRecord>, n: nat, pair: string): real
    requires n <= |trades|
  {
    if n == 0 then 0.0
    else PairPnl(trades, n - 1, pair) + if trades[n - 1].pair == pair then trades[n - 1].realizedPnl else 0.0
  }

  ghost predicate Traded(trades: seq<TradeRecord>, n: nat, pair: string)
    requires n <= |trades|
  {
    exists i :: 0 <= i < n && trades[i].pair == pair
  }

  /** A drop from some point of the curve to the same or a later one. */
  ghost predicate IsDrop(trades: seq<TradeRecord>, n: nat, drop: real)
    requires n <= |trades|
  {
    exists i, j :: 0 <= i <= j <= n && drop == Equity(trades, i) - Equity(trades, j)
  }

  /** The largest drop on the curve that starts at 0. */
  ghost predicate IsMaxDrawdown(trades: seq<TradeRecord>, n: nat, drawdown: real)
    requires n <= |trades|
  {
    && IsDrop(trades, n, drawdown)
    && forall i, j :: 0 <= i <= j <= n ==> Equity(trades, i) - Equity(trades, j) <= drawdown
  }

  ghost predicate IsPeak(trades: seq<TradeRecord>, n: nat, peak: real)
    requires n <= |trades|
  {
    && (exists i :: 0 <= i <= n && peak == Equity(trades, i))
    && forall i :: 0 <= i <= n ==> Equity(trades, i) <= peak
  }

  /** There is only one largest drop. */
  lemma MaxDrawdownUnique(trades: seq<TradeRecord>, n: nat, a: real, b: real)
    requires n <= |trades| && IsMaxDrawdown(trades, n, a) && IsMaxDrawdown(trades, n, b)
    ensures a == b
  {
  }

  // ----- one step of the loop -----

  lemma PeakStep(trades: seq<TradeRecord>, n: nat, peak: real)
    requires n < |trades| && IsPeak(trades, n, peak)
    ensures var e := Equity(trades, n + 1); IsPeak(trades, n + 1, if e > peak then e else peak)
  {
    hide Equity;
    var e := Equity(trades, n + 1);
    if e <= peak {
      var i :| 0 <= i <= n && peak == Equity(trades, i);
      assert 0 <= i <= n + 1 && peak == Equity(trades, i);
    }
  }

  /** Every new drop starts at the running peak or higher up the old curve. */
  lemma DrawdownStep(trades: seq<TradeRecord>, n: nat, peak: real, drawdown: real)
    requires n < |trades| && IsPeak(trades, n + 1, peak) && IsMaxDrawdown(trades, n, drawdown)
    ensures var drop := peak - Equity(trades, n + 1);
      IsMaxDrawdown(trades, n + 1, if drop > drawdown then drop else drawdown)
  {
    hide Equity;
    var drop := peak - Equity(trades, n + 1);
    var top :| 0 <= top <= n + 1 && peak == Equity(trades, top);
    assert IsDrop(trades, n + 1, drop);
    var i, j :| 0 <= i <= j <= n && drawdown == Equity(trades, i) - Equity(trades, j);
    assert 0 <= i <= j <= n + 1 && drawdown == Equity(trades, i) - Equity(trades, j);
    assert IsDrop(trades, n + 1, drawdown);
  }

  ghost predicate PairsUpTo(trades: seq<TradeRecord>, n: nat, pnlPerPair: map<string, real>)
    requires n <= |trades|
  {
    && (forall p :: p in pnlPerPair <==> Traded(trades, n, p))
    && (forall p :: p in pnlPerPair ==> pnlPerPair[p] == PairPnl(trades, n, p))
  }

  lemma {:induction false} UntradedIsZero(trades: seq<TradeRecord>, n: nat, pair: string)
    requires n <= |trades| && !Traded(trades, n, pair)
    ensures PairPnl(trades, n, pair) == 0.0
  {
    if n > 0 {
      assert trades[n - 1].pair != pair;
      assert !Traded(trades, n - 1, pair);
      UntradedIsZero(trades, n - 1, pair);
    }
  }

  lemma PairsStep(trades: seq<TradeRecord>, n: nat, pnlPerPair: map<string, real>)
    requires n < |trades| && PairsUpTo(trades, n, pnlPerPair)
    ensures var t := trades[n];
      var before := if t.pair in pnlPerPair then pnlPerPair[t.pair] else 0.0;
      PairsUpTo(trades, n + 1, pnlPerPair[t.pair := before + t.realizedPnl])
  {
    var t := trades[n];
    if t.pair !in pnlPerPair {
      UntradedIsZero(trades, n, t.pair);
    }
    forall p ensures Traded(trades, n + 1, p) <==> Traded(trades, n, p) || p == t.pair {
      if Traded(trades, n, p) {
        var i :| 0 <= i < n && trades[i].pair == p;
        assert i < n + 1 && trades[i].pair == p;
      }
    }
  }

  // ----- the loop -----

  method ComputeMetrics(trades: seq<TradeRecord>) returns (m: Metrics)
    ensures m.totalTrades == |trades|
    ensures m.totalPnl == Equity(trades, |trades|)
    ensures IsMaxDrawdown(trades, |trades|, m.maxDrawdown)
    ensures PairsUpTo(trades, |trades|, m.pnlPerPair)
    ensures m.winningTrades == WinCount(trades, |trades|) && m.totalFees == FeeSum(trades, |trades|)
    ensures |m.equityCurve| == |trades|
    ensures forall i :: 0 <= i < |trades| ==> m.equityCurve[i] == Equity(trades, i + 1)
    ensures trades != [] ==> m.avgTradePnl * |trades| as real == m.totalPnl
    ensures trades != [] ==> m.winRate * |trades| as real == m.winningTrades as real * 100.0
    ensures var wins, losses := Wins(trades, |trades|), Losses(trades, |trades|);
      m.profitFactor == if losses > 0.0 then wins / losses else if wins > 0.0 then 999.0 else 0.0
  {
    hide Equity, IsMaxDrawdown, IsPeak, PairsUpTo;
    NothingYet(trades);
    if trades == [] {
      return NO_METRICS;
    }
    var totalPnl, totalFees, wins, losses := 0.0, 0.0, 0.0, 0.0;
    var cumulative, peak, maxDd := 0.0, 0.0, 0.0;
    var winning: nat := 0;
    var pnlPerPair: map<string, real> := map[];
    var curve: seq<real> := [];
    for n := 0 to |trades|
      invariant totalPnl == cumulative == Equity(trades, n)
      invariant totalFees == FeeSum(trades, n) && winning == WinCount(trades, n)
      invariant wins == Wins(trades, n) && losses == Losses(trades, n)
      invariant IsPeak(trades, n, peak) && IsMaxDrawdown(trades, n, maxDd)
      invariant PairsUpTo(trades, n, pnlPerPair)
      invariant |curve| == n && forall i :: 0 <= i < n ==> curve[i] == Equity(trades, i + 1)
    {
      var t := trades[n];
      EquityStep(trades, n);
      PeakStep(trades, n, peak);
      PairsStep(trades, n, pnlPerPair);
      totalPnl := totalPnl + t.realizedPnl;
      totalFees := totalFees + (t.buyResult.feePaid + t.sellResult.feePaid);
      pnlPerPair := pnlPerPair[t.pair := (if t.pair in pnlPerPair then pnlPerPair[t.pair] else 0.0) + t.realizedPnl];
      if t.realizedPnl > 0.0 {
        winning := winning + 1;
        wins := wins + t.realizedPnl;
      } else {
        losses := losses + (if t.realizedPnl < 0.0 then -t.realizedPnl else t.realizedPnl);
      }
      cumulative := cumulative + t.realizedPnl;
      curve := curve + [cumulative];
      if cumulative > peak {
        peak := cumulative;
      }
      DrawdownStep(trades, n, peak, maxDd);
      var dd := peak - cumulative;
      if dd > maxDd {
        maxDd := dd;
      }
    }
    var count := |trades| as real;
    QuotientTimes(totalPnl, count);
    PercentTimes(winning as real, count);
    m := Metrics(totalPnl, |trades|, winning, winning as real / count * 100.0, maxDd,
                 if losses > 0.0 then wins / losses else if wins > 0.0 then 999.0 else 0.0,
                 totalPnl / count, totalFees, pnlPerPair, curve);
  }

  lemma EquityStep(trades: seq<TradeRecord>, n: nat)
    requires n < |trades|
    ensures Equity(trades, n + 1) == Equity(trades, n) + trades[n].realizedPnl
  {
  }

  lemma NothingYet(trades: seq<TradeRecord>)
    ensures Equity(trades, 0) == 0.0
    ensures IsPeak(trades, 0, 0.0) && IsMaxDrawdown(trades, 0, 0.0) && PairsUpTo(trades, 0, map[])
  {
    assert Equity(trades, 0) - Equity(trades, 0) == 0.0;
  }

  // ----- the totals agree -----

  /** The final equity is what was won less what was lost. */
  lemma {:induction false} EquityIsWinsLessLosses(trades: seq<TradeRecord>, n: nat)
    requires n <= |trades|
    ensures Equity(trades, n) == Wins(trades, n) - Losses(trades, n)
    ensures Wins(trades, n) >= 0.0 && Losses(trades, n) >= 0.0
  {
    if n > 0 {
      EquityIsWinsLessLosses(trades, n - 1);
    }
  }

  ghost function SumOver(pairs: seq<string>, pnlPerPair: map<string, real>): real
    requires forall i :: 0 <= i < |pairs| ==> pairs[i] in pnlPerPair
  {
    if pairs == [] then 0.0 else pnlPerPair[pairs[0]] + SumOver(pairs[1..], pnlPerPair)
  }

  ghost function SumPairPnl(trades: seq<TradeRecord>, n: nat, pairs: seq<string>): real
    requires n <= |trades|
  {
    if pairs == [] then 0.0 else PairPnl(trades, n, pairs[0]) + SumPairPnl(trades, n, pairs[1..])
  }

  lemma {:induction false} SumPairStep(trades: seq<TradeRecord>, n: nat, pairs: seq<string>)
    requires n < |trades| && Distinct(pairs)
    ensures SumPairPnl(trades, n + 1, pairs)
         == SumPairPnl(trades, n, pairs) + if trades[n].pair in pairs then trades[n].realizedPnl else 0.0
  {
    if pairs != [] {
      SumPairStep(trades, n, pairs[1..]);
    }
  }

  lemma {:induction false} SumPairZero(trades: seq<TradeRecord>, pairs: seq<string>)
    ensures SumPairPnl(trades, 0, pairs) == 0.0
  {
    if pairs != [] {
      SumPairZero(trades, pairs[1..]);
    }
  }

  lemma {:induction false} EquityByPair(trades: seq<TradeRecord>, n: nat, pairs: seq<string>)
    requires n <= |trades| && Distinct(pairs)
    requires forall i :: 0 <= i < n ==> trades[i].pair in pairs
    ensures SumPairPnl(trades, n, pairs) == Equity(trades, n)
  {
    if n == 0 {
      SumPairZero(trades, pairs);
    } else {
      EquityByPair(trades, n - 1, pairs);
      SumPairStep(trades, n - 1, pairs);
    }
  }

  lemma {:induction false} SumsAgree(trades: seq<TradeRecord>, n: nat, pairs: seq<string>,
                                     pnlPerPair: map<string, real>)
    requires n <= |trades| && PairsUpTo(trades, n, pnlPerPair)
    requires forall i :: 0 <= i < |pairs| ==> pairs[i] in pnlPerPair
    ensures SumOver(pairs, pnlPerPair) == SumPairPnl(trades, n, pairs)
  {
    hide PairPnl, Traded;
    if pairs != [] {
      SumsAgree(trades, n, pairs[1..], pnlPerPair);
    }
  }

  /** The per-pair profits, summed over the pairs in any order, are the total. */
  lemma PairsSumToTotal(trades: seq<TradeRecord>, pnlPerPair: map<string, real>, pairs: seq<string>)
    requires PairsUpTo(trades, |trades|, pnlPerPair)
    requires Distinct(pairs) && forall p :: p in pairs <==> p in pnlPerPair
    ensures SumOver(pairs, pnlPerPair) == Equity(trades, |trades|)
  {
    hide PairPnl, Equity, SumOver, SumPairPnl;
    forall i | 0 <= i < |trades| ensures trades[i].pair in pairs {
      assert Traded(trades, |trades|, trades[i].pair);
    }
    SumsAgree(trades, |trades|, pairs, pnlPerPair);
    EquityByPair(trades, |trades|, pairs);
  }
}
