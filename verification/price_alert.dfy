/**
 * price_alert.py: `PriceAlertSystem.check_and_alert`. The class holds no state,
 * so the check is a function of the product's price and the target.
 */
module PriceAlert {
  import opened Wrappers
  import PricePlot
  import WebScraping

  /** "Alert triggered!" or "No alert - price above target." */
  datatype AlertStatus = AlertTriggered | NoAlert

  /**
   * `check_and_alert(product_data, target_price)`, where `price` is
   * `product_data.get('price')` (None when the key is missing or holds None).
   */
  function CheckAndAlert(price: Option<real>, target: real): (r: AlertStatus)
    ensures r == AlertTriggered <==> price.Some? && price.value <= target
  {
    if price.Some? && price.value <= target then AlertTriggered else NoAlert
  }

  /** A price that triggers the alert triggers it for every higher target as well. */
  lemma AlertMonotoneInTarget(price: Option<real>, target: real, higher: real)
    requires target <= higher
    requires CheckAndAlert(price, target) == AlertTriggered
    ensures CheckAndAlert(price, higher) == AlertTriggered
  {
  }

  /**
   * For a valid price and a usable history, the alert fires exactly when the
   * recommendation is "BUY NOW – at or below your target".
   */
  lemma AlertAgreesWithRecommendation(current: real, history: Option<PricePlot.Frame>, target: real)
    requires current > 0.0
    requires PricePlot.HasPrices(history)
    ensures CheckAndAlert(Some(current), target) == AlertTriggered <==>
            PricePlot.Recommend(Some(current), history, target) == PricePlot.BuyNowTargetMet
  {
  }

  /**
   * A page where no price span yields a number is extracted with the default
   * price 0.0, which the alert takes as a price at or below any non-negative
   * target, while the recommendation rejects it as invalid.
   */
  lemma MissingPriceTriggersAlert(page: WebScraping.Page, url: string, target: real,
                                  history: Option<PricePlot.Frame>)
    requires forall k :: 0 <= k < |WebScraping.PriceSelectors| ==>
               !WebScraping.Yields(page, WebScraping.PriceSelectors[k])
    requires target >= 0.0
    ensures WebScraping.Extracted(page, url).Ok?
    ensures var price := WebScraping.Extracted(page, url).value.price;
            && CheckAndAlert(Some(price), target) == AlertTriggered
            && PricePlot.Recommend(Some(price), history, target) == PricePlot.InvalidPrice
  {
    WebScraping.NoPriceGivesZero(page, url);
  }
}
