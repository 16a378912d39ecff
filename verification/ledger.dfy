/** Balances of assets on exchanges, as both executors keep them. */
module Ledgers {
  import opened Types
  import opened RealFacts

  type Balances = map<Exchange, map<string, real>>

  /** A missing entry counts as zero, as a default-inserted one would. */
  function Balance(b: Balances, e: Exchange, asset: string): real {
    if e in b && asset in b[e] then b[e][asset] else 0.0
  }

  function Adjust(b: Balances, e: Exchange, asset: string, delta: real): Balances {
    var assets := if e in b then b[e] else map[];
    b[e := assets[asset := Balance(b, e, asset) + delta]]
  }

  /** What a set of exchanges holds of an asset. */
  ghost function Held(b: Balances, exchanges: set<Exchange>, asset: string): real {
    (if BINANCE in exchanges then Balance(b, BINANCE, asset) else 0.0)
    + (if OKX in exchanges then Balance(b, OKX, asset) else 0.0)
    + (if BYBIT in exchanges then Balance(b, BYBIT, asset) else 0.0)
    + (if MEXC in exchanges then Balance(b, MEXC, asset) else 0.0)
    + (if GATEIO in exchanges then Balance(b, GATEIO, asset) else 0.0)
  }

  const ALL_EXCHANGES := {BINANCE, OKX, BYBIT, MEXC, GATEIO}

  ghost function AssetTotal(b: Balances, asset: string): real {
    Held(b, ALL_EXCHANGES, asset)
  }

  lemma AdjustTotals(b: Balances, e: Exchange, asset: string, delta: real, other: string)
    ensures AssetTotal(Adjust(b, e, asset, delta), other)
         == AssetTotal(b, other) + if other == asset then delta else 0.0
  {
    var b' := Adjust(b, e, asset, delta);
    forall x: Exchange, a ensures Balance(b', x, a) == Balance(b, x, a) + if x == e && a == asset then delta else 0.0 {
    }
  }

  lemma AdjustBalance(b: Balances, e: Exchange, asset: string, delta: real, x: Exchange, a: string)
    ensures Balance(Adjust(b, e, asset, delta), x, a) == Balance(b, x, a) + if x == e && a == asset then delta else 0.0
  {
  }

  lemma HeldOneMore(b: Balances, exchanges: set<Exchange>, e: Exchange, asset: string)
    requires e !in exchanges
    ensures Held(b, exchanges + {e}, asset) == Held(b, exchanges, asset) + Balance(b, e, asset)
  {
  }

  lemma TotalIsHeldByKeys(b: Balances, asset: string)
    ensures AssetTotal(b, asset) == Held(b, b.Keys, asset)
  {
  }

  /** Equal shares add up to what was shared. */
  lemma {:induction false} SharesAddUp(b: Balances, s: set<Exchange>, asset: string, share: real)
    requires forall e :: e in s ==> Balance(b, e, asset) == share
    ensures Held(b, s, asset) == |s| as real * share
    decreases |s|
  {
    hide Held, Balance;
    if s == {} {
      HeldByNone(b, asset);
    } else {
      var e :| e in s;
      var rest := s - {e};
      SharesAddUp(b, rest, asset, share);
      HeldOneMore(b, rest, e, asset);
      assert rest + {e} == s;
      Distribute(share, |rest| as real, 1.0);
    }
  }

  lemma HeldByNone(b: Balances, asset: string)
    ensures Held(b, {}, asset) == 0.0
  {
  }
}
