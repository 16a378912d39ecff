/** Splitting a trading pair at its first dash. */
module Assets {
  function DashAt(pair: string): (i: nat)
    ensures i <= |pair|
    ensures i < |pair| ==> pair[i] == '-'
    ensures forall k :: 0 <= k < i ==> pair[k] != '-'
  {
    if pair == "" || pair[0] == '-' then 0 else 1 + DashAt(pair[1..])
  }

  function BaseAsset(pair: string): string {
    pair[..DashAt(pair)]
  }

  /** Without a dash each executor has its own default quote asset. */
  function QuoteAsset(pair: string, default: string): string {
    if DashAt(pair) < |pair| then pair[DashAt(pair) + 1..] else default
  }

  /** A well-formed pair names both its assets. */
  lemma PairAssets(base: string, quote: string, default: string)
    requires forall k :: 0 <= k < |base| ==> base[k] != '-'
    ensures BaseAsset(base + "-" + quote) == base && QuoteAsset(base + "-" + quote, default) == quote
  {
    var pair := base + "-" + quote;
    assert forall k :: 0 <= k < |base| ==> pair[k] == base[k];
    assert pair[|base|] == '-';
    assert DashAt(pair) == |base|;
    assert pair[..|base|] == base && pair[|base| + 1..] == quote;
  }

  /** A pair without a dash is all base, in the default quote asset. */
  lemma DashlessPair(pair: string, default: string)
    requires '-' !in pair
    ensures BaseAsset(pair) == pair && QuoteAsset(pair, default) == default
  {
    assert DashAt(pair) == |pair|;
    assert pair[..|pair|] == pair;
  }
}
