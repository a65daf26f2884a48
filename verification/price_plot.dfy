/**
 * The decision logic of price_plot.py: the buy/wait recommendation ladder of
 * `get_recommendation`, the price part of `generate_dummy_past_prices`, and the
 * file-name sanitiser of `plot_price_trend`.
 */
module PricePlot {
  import opened Wrappers
  import opened Stats

  /** The history frame handed to `get_recommendation`: its `price` column, if it has one. */
  datatype Frame = Frame(priceColumn: Option<seq<real>>)

  /** The category of the returned message (its display text and percentages are left out). */
  datatype Verdict =
    | InvalidPrice        // "Invalid price data"
    | InsufficientData    // "Insufficient historical data for recommendation"
    | BuyNowTargetMet     // "BUY NOW – Price is at or below your target!"
    | BuyNowNearLow       // "BUY NOW – Near historical low!"
    | FairDeal            // "FAIR DEAL – Below average price"
    | WaitSignificant     // "WAIT – Price is significantly higher than usual"
    | Wait                // "WAIT – Price is higher than usual"
    | FairPrice           // "FAIR PRICE – Close to average price"

  /** Python's `not current_price or current_price <= 0` is false: a present, positive price. */
  predicate ValidPrice(current: Option<real>)
  {
    current.Some? && current.value > 0.0
  }

  /** The frame exists, is not empty and has a `price` column. */
  predicate HasPrices(history: Option<Frame>)
  {
    history.Some? && history.value.priceColumn.Some? && |history.value.priceColumn.value| > 0
  }

  /** Rank of a verdict from "buy" to "wait", for comparing two verdicts. */
  function Rank(v: Verdict): nat
  {
    match v
    case BuyNowTargetMet => 0
    case BuyNowNearLow => 1
    case FairDeal => 2
    case FairPrice => 3
    case Wait => 4
    case WaitSignificant => 5
    case InsufficientData => 6
    case InvalidPrice => 7
  }

  /**
   * The first-match-wins ladder, reached with a positive current price and the
   * lowest and average prices of the history. Each verdict is characterised by
   * the band of current prices it covers.
   */
  function Ladder(current: real, target: real, low: real, avg: real): (r: Verdict)
    requires current > 0.0
    ensures r == BuyNowTargetMet <==> current <= target
    ensures r == BuyNowNearLow <==> target < current <= low * 1.05
    ensures r == FairDeal <==> target < current && low * 1.05 < current && current <= avg * 0.95
    ensures r == WaitSignificant <==> target < current && low * 1.05 < current && avg * 1.15 <= current
    ensures r == Wait <==>
              target < current && low * 1.05 < current && avg * 1.1 <= current < avg * 1.15
    ensures r == FairPrice <==>
              target < current && low * 1.05 < current && avg * 0.95 < current < avg * 1.1
    ensures Rank(r) <= 5
  {
    if current <= target then BuyNowTargetMet
    else if current <= low * 1.05 then BuyNowNearLow
    else if current <= avg * 0.95 then FairDeal
    else if current >= avg * 1.15 then WaitSignificant
    else if current >= avg * 1.1 then Wait
    else FairPrice
  }

  /**
   * `get_recommendation(current_price, df, target_price)`: the price guard comes
   * before any look at the history, the history guard before the ladder.
   */
  function Recommend(current: Option<real>, history: Option<Frame>, target: real): (r: Verdict)
    ensures r == InvalidPrice <==> !ValidPrice(current)
    ensures r == InsufficientData <==> ValidPrice(current) && !HasPrices(history)
    ensures ValidPrice(current) && HasPrices(history) ==>
              var prices := history.value.priceColumn.value;
              r == Ladder(current.value, target, Min(prices), Mean(prices))
  {
    if !ValidPrice(current) then InvalidPrice
    else if !HasPrices(history) then InsufficientData
    else
      var prices := history.value.priceColumn.value;
      Ladder(current.value, target, Min(prices), Mean(prices))
  }

  /** The prices of a frame that has them. */
  function Prices(history: Option<Frame>): (prices: seq<real>)
    requires HasPrices(history)
    ensures |prices| > 0
  {
    history.value.priceColumn.value
  }

  /**
   * A lower current price never gets a later ("more wait") verdict: for a fixed
   * history and target, the ladder is monotone in the current price.
   */
  lemma RecommendMonotone(c1: real, c2: real, history: Option<Frame>, target: real)
    requires 0.0 < c1 <= c2
    requires HasPrices(history)
    ensures Rank(Recommend(Some(c1), history, target)) <= Rank(Recommend(Some(c2), history, target))
  {
    var prices := Prices(history);
    var low, avg := Min(prices), Mean(prices);
    var v1 := Ladder(c1, target, low, avg);
    var v2 := Ladder(c2, target, low, avg);
    if v2 == FairPrice {
      assert c1 < avg * 1.1;
    } else if v2 == Wait {
      assert c1 < avg * 1.15;
    }
  }

  /**
   * "BUY NOW" (either kind) is returned exactly when the target is met or the
   * current price is within 5% above every observed price.
   */
  lemma BuyExactly(current: real, history: Option<Frame>, target: real)
    requires current > 0.0
    requires HasPrices(history)
    ensures var r := Recommend(Some(current), history, target);
            (r == BuyNowTargetMet || r == BuyNowNearLow) <==>
            (current <= target ||
             forall i :: 0 <= i < |Prices(history)| ==> current <= Prices(history)[i] * 1.05)
  {
    var prices := Prices(history);
    var low := Min(prices);
    if forall i :: 0 <= i < |prices| ==> current <= prices[i] * 1.05 {
      var j :| 0 <= j < |prices| && prices[j] == low;
    } else {
      var j :| 0 <= j < |prices| && current > prices[j] * 1.05;
      assert prices[j] in prices;
    }
  }

  /** A "FAIR DEAL" price is strictly below the average and above the target. */
  lemma FairDealBelowAverage(current: real, history: Option<Frame>, target: real)
    requires HasPrices(history)
    requires Recommend(Some(current), history, target) == FairDeal
    ensures target < current < Mean(Prices(history))
  {
  }

  /** A "WAIT" of either kind is only returned above the target and above the average. */
  lemma WaitAboveAverage(current: real, history: Option<Frame>, target: real)
    requires HasPrices(history)
    requires Recommend(Some(current), history, target) in {Wait, WaitSignificant}
    ensures target < current
    ensures Mean(Prices(history)) < current
  {
  }

  /** The recommendation depends on the history only through its multiset of prices. */
  lemma RecommendIgnoresOrder(current: Option<real>, s: seq<real>, t: seq<real>, target: real)
    requires multiset(s) == multiset(t)
    ensures Recommend(current, Some(Frame(Some(s))), target) == Recommend(current, Some(Frame(Some(t))), target)
  {
    assert |s| == |multiset(s)| == |multiset(t)| == |t|;
    if |s| > 0 {
      MinPermutation(s, t);
      MeanPermutation(s, t);
    }
  }

  /**
   * Rule order matters: a price at or below the target is "BUY NOW" even when it
   * is far above the average, where a later rule alone would say "WAIT".
   */
  lemma TargetRuleComesFirst()
    ensures Recommend(Some(95.0), Some(Frame(Some([50.0, 50.0]))), 100.0) == BuyNowTargetMet
    ensures Ladder(95.0, 0.0, 50.0, 50.0) == WaitSignificant
  {
    assert Min([50.0, 50.0]) == 50.0;
    assert Sum([50.0, 50.0]) == 100.0;
  }

  /**
   * With history 50 and 150 (low 50, mean 100) and no target, the verdicts
   * that read the mean: 90 is a fair deal, 112 a wait, 100 a fair price.
   */
  lemma MeanVerdictsExample()
    ensures Recommend(Some(90.0), Some(Frame(Some([50.0, 150.0]))), 0.0) == FairDeal
    ensures Recommend(Some(112.0), Some(Frame(Some([50.0, 150.0]))), 0.0) == Wait
    ensures Recommend(Some(100.0), Some(Frame(Some([50.0, 150.0]))), 0.0) == FairPrice
  {
    assert Min([50.0, 150.0]) == 50.0;
    assert Sum([50.0, 150.0]) == 200.0;
  }

  /** With the lowest observation at 100, a current price of 104 is near the low. */
  lemma NearLowExample()
    ensures Recommend(Some(104.0), Some(Frame(Some([100.0, 120.0]))), 90.0) == BuyNowNearLow
  {
    assert Min([100.0, 120.0]) == 100.0;
  }

  /*
   * generate_dummy_past_prices: twelve monthly prices, each the current price
   * perturbed by one draw of `random.uniform(-0.1, 0.1)`. The draws are passed in.
   */

  /** The simulated prices: draw `k` perturbs the current price by `noise[k]`. */
  function SyntheticPrices(current: real, noise: seq<real>): (prices: seq<real>)
    ensures |prices| == |noise|
  {
    seq(|noise|, k requires 0 <= k < |noise| => current * (1.0 + noise[k]))
  }

  /** The guard rejects a missing or non-positive price with an empty frame; otherwise one price per draw, oldest month first. */
  method GenerateDummyPastPrices(current: Option<real>, noise: seq<real>) returns (frame: Frame)
    requires |noise| == 12
    ensures !ValidPrice(current) ==> frame == Frame(None)
    ensures ValidPrice(current) ==> frame == Frame(Some(SyntheticPrices(current.value, noise)))
  {
    if !ValidPrice(current) {
      return Frame(None);
    }
    var data: seq<real> := [];
    var i := 12;
    while i > 0
      invariant 0 <= i <= 12
      invariant data == SyntheticPrices(current.value, noise[..12 - i])
    {
      data := data + [current.value * (1.0 + noise[12 - i])];
      i := i - 1;
    }
    assert noise[..12] == noise;
    return Frame(Some(data));
  }

  /** A perturbation of at most 10% keeps a positive price within 10% of where it was. */
  lemma PerturbationBounds(current: real, n: real)
    requires current > 0.0
    requires -0.1 <= n <= 0.1
    ensures current * 0.9 <= current * (1.0 + n) <= current * 1.1
  {
    assert current * (1.0 + n) == current + current * n;
    assert current * n <= current * 0.1;
    assert current * n >= current * -0.1;
  }

  /**
   * Against a synthetic history the current price is never "significantly
   * higher than usual": the average stays within 10% of the current price.
   */
  lemma SyntheticHistoryNeverWaitSignificant(current: real, noise: seq<real>, target: real)
    requires current > 0.0
    requires |noise| == 12
    requires forall k :: 0 <= k < |noise| ==> -0.1 <= noise[k] <= 0.1
    ensures var r := Recommend(Some(current), Some(Frame(Some(SyntheticPrices(current, noise)))), target);
            r != WaitSignificant && r != InsufficientData && r != InvalidPrice
  {
    var prices := SyntheticPrices(current, noise);
    forall k | 0 <= k < |prices| ensures current * 0.9 <= prices[k] <= current * 1.1 {
      assert prices[k] == current * (1.0 + noise[k]);
      PerturbationBounds(current, noise[k]);
    }
    MeanBounds(prices, current * 0.9, current * 1.1);
  }

  /**
   * The stored history is rounded to cents, so each stored price may sit up to
   * half a cent away from its perturbed value. From 0.2 upwards the property
   * survives that: the average stays above current / 1.15.
   */
  lemma RoundedHistoryNeverWaitSignificant(current: real, noise: seq<real>, stored: seq<real>, target: real)
    requires current >= 0.2
    requires |noise| == 12 && |stored| == 12
    requires forall k :: 0 <= k < |noise| ==> -0.1 <= noise[k] <= 0.1
    requires forall k :: 0 <= k < |stored| ==> -0.005 <= stored[k] - current * (1.0 + noise[k]) <= 0.005
    ensures var r := Recommend(Some(current), Some(Frame(Some(stored))), target);
            r != WaitSignificant && r != InsufficientData && r != InvalidPrice
  {
    forall k | 0 <= k < |stored| ensures current * 0.9 - 0.005 <= stored[k] <= current * 1.1 + 0.005 {
      RoundedBounds(current, noise[k], stored[k]);
    }
    MeanBounds(stored, current * 0.9 - 0.005, current * 1.1 + 0.005);
  }

  /**
   * Below that bound rounding does matter: at 0.014 every draw may be stored as
   * 0.01 (with no perturbation it is 0.004 away), and against twelve such
   * prices the verdict is "significantly higher than usual".
   */
  lemma RoundingBreaksSmallPrices(stored: seq<real>)
    requires |stored| == 12
    requires forall k :: 0 <= k < |stored| ==> stored[k] == 0.01
    ensures forall k :: 0 <= k < |stored| ==> -0.005 <= stored[k] - 0.014 * (1.0 + 0.0) <= 0.005
    ensures Recommend(Some(0.014), Some(Frame(Some(stored))), 0.0) == WaitSignificant
  {
    ConstantHistory(stored, 0.01);
  }

  /** A price stored within half a cent of a perturbed price stays within 10% and half a cent. */
  lemma RoundedBounds(current: real, n: real, p: real)
    requires current > 0.0
    requires -0.1 <= n <= 0.1
    requires -0.005 <= p - current * (1.0 + n) <= 0.005
    ensures current * 0.9 - 0.005 <= p <= current * 1.1 + 0.005
  {
    PerturbationBounds(current, n);
  }

  /** A history of one repeated price has that price as its minimum and its mean. */
  lemma ConstantHistory(prices: seq<real>, c: real)
    requires |prices| > 0
    requires forall k :: 0 <= k < |prices| ==> prices[k] == c
    ensures Min(prices) == c && Mean(prices) == c
  {
    MeanBounds(prices, c, c);
  }

  /*
   * plot_price_trend: the chart file name keeps alphanumeric characters, spaces
   * and hyphens, turns every other character into '_', and is cut to 50
   * characters. `isAlnum` stands for Python's `str.isalnum`.
   */

  const MaxNameLength: nat := 50

  /** Whether the comprehension keeps a character as it is. */
  predicate Kept(isAlnum: char -> bool, c: char)
  {
    isAlnum(c) || c == ' ' || c == '-'
  }

  /** The comprehension over the whole name. */
  function Sanitized(isAlnum: char -> bool, name: string): (r: string)
    ensures |r| == |name|
    ensures forall i :: 0 <= i < |name| ==> r[i] == (if Kept(isAlnum, name[i]) then name[i] else '_')
  {
    if name == [] then []
    else [if Kept(isAlnum, name[0]) then name[0] else '_'] + Sanitized(isAlnum, name[1..])
  }

  /** The safe file-name stem: the sanitised name cut to its first 50 characters. */
  function SafeName(isAlnum: char -> bool, name: string): (r: string)
    ensures |r| == if |name| < MaxNameLength then |name| else MaxNameLength
    ensures forall i :: 0 <= i < |r| ==> Kept(isAlnum, r[i]) || r[i] == '_'
    ensures forall i :: 0 <= i < |r| ==> (Kept(isAlnum, name[i]) ==> r[i] == name[i])
    ensures forall i :: 0 <= i < |r| ==> (!Kept(isAlnum, name[i]) ==> r[i] == '_')
  {
    var full := Sanitized(isAlnum, name);
    if |full| <= MaxNameLength then full else full[..MaxNameLength]
  }

  /** Sanitising a safe name changes nothing. */
  lemma SafeNameIdempotent(isAlnum: char -> bool, name: string)
    ensures SafeName(isAlnum, SafeName(isAlnum, name)) == SafeName(isAlnum, name)
  {
    var once := SafeName(isAlnum, name);
    var twice := SafeName(isAlnum, once);
    assert |twice| == |once|;
    forall i | 0 <= i < |once| ensures twice[i] == once[i] {
    }
  }

  /** Only the first 50 characters of the product name matter. */
  lemma SafeNameOnlyPrefix(isAlnum: char -> bool, name: string, other: string)
    requires |name| >= MaxNameLength && |other| >= MaxNameLength
    requires name[..MaxNameLength] == other[..MaxNameLength]
    ensures SafeName(isAlnum, name) == SafeName(isAlnum, other)
  {
    var a, b := SafeName(isAlnum, name), SafeName(isAlnum, other);
    forall i | 0 <= i < MaxNameLength ensures a[i] == b[i] {
      assert name[i] == name[..MaxNameLength][i] == other[..MaxNameLength][i] == other[i];
    }
  }
}
