/** What a backtest simulates, in terms of the signals it is given. */
module BacktestPaths {
  import opened Wrappers
  import opened Transcendental
  import opened BinaryMarket
  import opened LogitMoves
  import opened Backtest

  /** The price before observation `i`: the one before it, and at first the first market price. */
  function PriceBefore(m: Math, obs: seq<Observation>, r: real, i: nat): real
    requires i < |obs|
  {
    if i == 0 then Bounded(obs[0].marketPrice) else Path(m, obs, r)[i - 1]
  }

  lemma {:induction false} BeforeIsOnThePath(m: Math, obs: seq<Observation>, r: real, i: nat)
    requires m.Lawful() && i < |obs|
    ensures PriceBefore(m, obs, r, i) == m.Sigmoid(PathLogit(m, obs, r, i))
  {
    if i == 0 {
      PriceOfLogit(m, obs[0].marketPrice);
    }
  }

  lemma PathMoves(m: Math, obs: seq<Observation>, r: real, i: nat)
    requires i < |obs|
    ensures PathLogit(m, obs, r, i + 1) ==
      Towards(PathLogit(m, obs, r, i), m.Logit((obs[i].signal + 1.0) / 2.0), r)
  {
  }

  /** Every observation moves the price towards `(signal + 1) / 2`, and all the way exactly at full pace. */
  lemma {:induction false} PathFollowsTheSignals(m: Math, obs: seq<Observation>, r: real, i: nat)
    requires m.Lawful() && 0.0 < r <= 1.0 && i < |obs|
    ensures MovesTowards(PriceBefore(m, obs, r, i), Path(m, obs, r)[i], Bounded((obs[i].signal + 1.0) / 2.0), r)
  {
    var target := (obs[i].signal + 1.0) / 2.0;
    BeforeIsOnThePath(m, obs, r, i);
    PathMoves(m, obs, r, i);
    PriceOfLogit(m, target);
    PricesMove(m, PathLogit(m, obs, r, i), m.Logit(target), r);
  }

  /** At full pace the path is the signals themselves, as probabilities. */
  lemma {:induction false} FullPaceTracksTheSignals(m: Math, obs: seq<Observation>, i: nat)
    requires m.Lawful() && i < |obs|
    ensures Path(m, obs, 1.0)[i] == Bounded((obs[i].signal + 1.0) / 2.0)
  {
    PathFollowsTheSignals(m, obs, 1.0, i);
  }

  /** A neutral signal pulls the price towards one half, from either side. */
  lemma {:induction false} NeutralPullsToOneHalf(m: Math, obs: seq<Observation>, r: real, i: nat)
    requires m.Lawful() && 0.0 < r <= 1.0 && i < |obs| && obs[i].signal == 0.0
    ensures MovesTowards(PriceBefore(m, obs, r, i), Path(m, obs, r)[i], 0.5, r)
  {
    PathFollowsTheSignals(m, obs, r, i);
  }

  /** No signal is lower in `obs` than in `other`, nor is the opening price. */
  predicate AtLeast(obs: seq<Observation>, other: seq<Observation>) {
    && |obs| == |other|
    && (obs != [] ==> obs[0].marketPrice >= other[0].marketPrice)
    && forall i :: 0 <= i < |obs| ==> obs[i].signal >= other[i].signal
  }

  lemma {:induction false} LogitsAreMonotone(m: Math, obs: seq<Observation>, other: seq<Observation>, r: real, n: nat)
    requires m.Lawful() && 0.0 < r <= 1.0 && AtLeast(obs, other) && obs != [] && n <= |obs|
    ensures PathLogit(m, obs, r, n) >= PathLogit(m, other, r, n)
  {
    if n == 0 {
      LogitIsMonotone(m, other[0].marketPrice, obs[0].marketPrice);
    } else {
      var i := n - 1;
      LogitsAreMonotone(m, obs, other, r, i);
      PathMoves(m, obs, r, i);
      PathMoves(m, other, r, i);
      LogitIsMonotone(m, (other[i].signal + 1.0) / 2.0, (obs[i].signal + 1.0) / 2.0);
      TowardsIsMonotone(PathLogit(m, other, r, i), PathLogit(m, obs, r, i),
        m.Logit((other[i].signal + 1.0) / 2.0), m.Logit((obs[i].signal + 1.0) / 2.0), r);
    }
  }

  /** Raising a signal, or the opening price, never lowers a price of the path. */
  lemma {:induction false} PathIsMonotone(m: Math, obs: seq<Observation>, other: seq<Observation>, r: real, i: nat)
    requires m.Lawful() && 0.0 < r <= 1.0 && AtLeast(obs, other) && i < |obs|
    ensures Path(m, obs, r)[i] >= Path(m, other, r)[i]
  {
    LogitsAreMonotone(m, obs, other, r, i + 1);
    SigmoidIsMonotone(m, PathLogit(m, other, r, i + 1), PathLogit(m, obs, r, i + 1));
  }
}
