# PyTrackers price tracker — verified model of its decision logic

PyTrackers tracks the price of a product page: `WebScraper` reads the product
title and price from the fetched page, `PriceAlertSystem` says whether the price
has reached the user's target, and `price_plot.py` turns the current price and a
price history into a buy/wait recommendation and names the chart file. This
project models those pieces in Dafny and proves what they promise.

| module | file | models |
|---|---|---|
| `Stats` | `stats.dfy` | `min` and `mean` of the history's `price` column, with order-independence and bounds |
| `PricePlot` | `price_plot.dfy` | `get_recommendation`, the price part of `generate_dummy_past_prices`, the `safe_name` of `plot_price_trend` |
| `PriceText` | `price_text.dfy` | the price cleaning of `_extract_details`: `re.search(r'[\d,]+\.?\d*')`, comma removal, `float` |
| `WebScraping` | `web_scraping.dfy` | `_extract_details` (a method with the selector loop and its early `break`) and `scrape_product` |
| `PriceAlert` | `price_alert.dfy` | `check_and_alert` |
| `Wrappers` | `wrappers.dfy` | `Option` (Python's `None`) and `Result` (a raised error) |

Prices are exact `real`s. The recommendation is an enumeration (`Verdict`)
instead of the formatted message. The parsed page is a map from each
`soup.find('span', ...)` query to the text of the span it finds. The regular
expression is a hand-written scanner. It is proved to return the leftmost match
of the pattern, and the longest match at that start. For this pattern the
longest match is also the greedy one that `re.search` returns.

`_extract_details` runs one cascade over four price selectors and keeps the
price at `0.0` when none of them yields a number.

## Model

| member | source | states |
|---|---|---|
| `PricePlot.Recommend` | price_plot.py:104-136 | An absent, zero or negative current price gives "Invalid price data" whatever the history. A valid price with no frame, no `price` column or no rows gives "Insufficient historical data". Otherwise the ladder decides on the history's minimum and mean. |
| `PricePlot.Ladder` | price_plot.py:125-136 | Each of the six verdicts holds exactly on its own band of current prices. Target met: at or below the target. Near low: above the target, at most 1.05 × min. Fair deal: neither, and at most 0.95 × avg. Significantly higher: none of these, and at least 1.15 × avg. Plain wait: only in [1.10·avg, 1.15·avg). Fair price: exactly when every earlier rule fails. |
| `PricePlot.RecommendMonotone` | price_plot.py:125-136 | With history and target fixed, a lower current price never gets a later verdict in the order buy-target, buy-near-low, fair deal, fair price, wait, wait significantly. |
| `PricePlot.BuyExactly` | price_plot.py:125-128 | One of the two "BUY NOW" verdicts is returned exactly when the target is met or the price is within 5% above every observed price. |
| `PricePlot.FairDealBelowAverage` | price_plot.py:129-130 | A "FAIR DEAL" price is above the target and strictly below the average. |
| `PricePlot.WaitAboveAverage` | price_plot.py:131-134 | Either "WAIT" is only returned for a price above the target and above the average. |
| `PricePlot.RecommendIgnoresOrder` | price_plot.py:116-117 | Reordering the history's prices never changes the recommendation. |
| `PricePlot.TargetRuleComesFirst` | price_plot.py:125-132 | Rule order decides: 95 against target 100 and history [50, 50] is "BUY NOW (target)". Without the target rule the same price would be "WAIT (significantly higher)". |
| `PricePlot.NearLowExample` | price_plot.py:127-128 | With lowest price 100, a price of 104 above the target is "BUY NOW (near historical low)". |
| `PricePlot.MeanVerdictsExample` | price_plot.py:116-136 | With history 50 and 150 (lowest 50, average 100) and target 0: 90 is "FAIR DEAL", 112 is "WAIT (higher than usual)" and 100 is "FAIR PRICE". |
| `PricePlot.GenerateDummyPastPrices` | price_plot.py:15-33 | An absent or non-positive price gives an empty frame. Otherwise the frame has twelve prices, one per draw in order. Draw k gives current × (1 + noise[k]). |
| `PricePlot.PerturbationBounds` | price_plot.py:27 | A draw in [-0.1, 0.1] keeps a simulated price within 10% of the current price. |
| `PricePlot.SyntheticHistoryNeverWaitSignificant` | price_plot.py:27 | Against a generated history the verdict is never "significantly higher than usual" and never invalid or insufficient. |
| `PricePlot.RoundedHistoryNeverWaitSignificant` | price_plot.py:27-30 | The same holds when each stored price is up to half a cent away from its perturbed value, as `round(..., 2)` leaves it, for current prices of at least 0.2. |
| `PricePlot.RoundingBreaksSmallPrices` | price_plot.py:27-30 | Below that bound rounding matters. At 0.014, twelve stored prices of 0.01 are within half a cent of the unperturbed price, and they make the verdict "WAIT (significantly higher)". |
| `PricePlot.ConstantHistory` | price_plot.py:116-117 | A history of one repeated price has that price as its minimum and as its mean. |
| `PricePlot.Sanitized` | price_plot.py:81-82 | The comprehension keeps the length and works position by position. Alphanumeric characters, spaces and hyphens stay. Every other character becomes `_`. |
| `PricePlot.SafeName` | price_plot.py:81-83 | The safe name has length min(\|name\|, 50) and holds only alphanumerics, spaces, hyphens and `_`. It keeps the kept characters of the name at their positions and has `_` where the name has any other character. |
| `PricePlot.SafeNameIdempotent` | price_plot.py:81-83 | Sanitising a safe name again changes nothing. |
| `PricePlot.SafeNameOnlyPrefix` | price_plot.py:83 | Two names with the same first 50 characters get the same safe name. |
| `Stats.Min` | price_plot.py:116 | The minimum is one of the observations and is at most every observation. |
| `Stats.Mean` | price_plot.py:117 | The average price is never below the lowest price. |
| `Stats.DeviationsFromMeanCancel` | price_plot.py:117 | The deviations of the prices from `c` sum to zero exactly when `c` is the average. This makes the average the arithmetic mean. |
| `Stats.SumDeviations` | price_plot.py:117 | Subtracting `c` from every price lowers the sum by the number of prices times `c`. |
| `Stats.MeanBounds` | price_plot.py:117 | If every observation lies in [lo, hi], so does the mean. |
| `Stats.SumPermutation` | price_plot.py:117 | The sum depends only on the multiset of prices. |
| `Stats.MinPermutation` | price_plot.py:116 | The minimum depends only on the multiset of prices. |
| `Stats.MeanPermutation` | price_plot.py:117 | The mean depends only on the multiset of prices. |
| `PriceText.Search` | web_scraping.py:71 | The search fails exactly when the text has no digit and no comma. Otherwise its span is non-empty and inside the text. |
| `PriceText.SearchIsLeftmostLongest` | web_scraping.py:71 | With no result, no substring matches `[\d,]+\.?\d*`. A returned span matches the pattern. No match starts earlier, and no longer match starts at the same place. |
| `PriceText.RemoveCommas` | web_scraping.py:73 | The result has no comma and is no longer than the input. |
| `PriceText.RemoveCommasKeeps` | web_scraping.py:73 | Every character of the result comes from the input. A string without commas is returned unchanged. |
| `PriceText.RemoveCommasKeepsDigits` | web_scraping.py:73 | The result has a digit exactly when the input has one. |
| `PriceText.CleanedShape` | web_scraping.py:71-73 | The cleaned string is the matched stretch of the text with its commas removed. It is digits, then optionally one dot and digits. It has a digit exactly when the match has one. |
| `PriceText.Cleaned` | web_scraping.py:71-73 | There is no cleaned string exactly when the text has no digit and no comma. A cleaned string has no comma. |
| `PriceText.DecimalShapeFacts` | web_scraping.py:71-73 | A cleaned string holds only digits and at most one dot. |
| `PriceText.ParseFloat` | web_scraping.py:74 | A successful conversion is never negative. |
| `PriceText.ParseFloatSucceeds` | web_scraping.py:74 | `float` succeeds on a digits-and-dots string exactly when it has a digit and at most one dot: `''` and `'.'` raise. |
| `PriceText.ParseFloatDigits` | web_scraping.py:74 | A plain digit string converts to its decimal value. |
| `PriceText.ParseFloatDecimal` | web_scraping.py:74 | A string `w.f` of digits converts to the digits of `w` and `f` read as one number, divided by 10 to the power of the length of `f` (`'1299.50'` is 129950 / 100). |
| `PriceText.DigitsValueConcat` | web_scraping.py:74 | Appending digits `f` to `w` multiplies the value of `w` by 10 to the power of the length of `f` and adds the value of `f`. |
| `PriceText.ParsePriceOutcomes` | web_scraping.py:71-74 | There are three outcomes. No match: exactly when the text has no digit and no comma. A raised ValueError: exactly when the match has no digit, for example only commas. Otherwise a price of at least zero. |
| `PriceText.ParsePrice` | web_scraping.py:71-74 | A string `float` rejects is the match with its commas removed. A parsed price is never negative. |
| `PriceText.RupeeExample` | web_scraping.py:71-74 | "₹1,299.00" gives 1299.0. |
| `PriceText.CommasOnlyExample` | web_scraping.py:71-74 | "Price: ,," matches ",,", which cleans to the empty string that `float` rejects. |
| `PriceText.NatDigitsValue` | web_scraping.py:74 | Reading back the decimal digits of a natural number gives the number. |
| `PriceText.ParseWholeNumber` | web_scraping.py:71-74 | A whole number written in decimal is parsed back to itself. |
| `PriceText.SearchPrefix` | web_scraping.py:71 | A prefix without digits or commas moves the match by its own length and changes nothing else. |
| `PriceText.ParsePriceIgnoresPrefix` | web_scraping.py:71-74 | Text without digits or commas before the price does not change what is parsed. Examples are a currency sign, "Rs." or "MRP:". |
| `WebScraping.Strip` | web_scraping.py:55 | The stripped text is the text with only white space cut from its two ends, and neither of its ends is white space. It is empty exactly when the text is all white space. |
| `WebScraping.StripUnique` | web_scraping.py:55 | Those two properties determine the result: any cut of white space from both ends that leaves no white space at either end is the stripped text. |
| `WebScraping.TitleOf` | web_scraping.py:46-55 | With a title span the name is its text with the surrounding white space cut off. Without one it is "Unknown Product". |
| `WebScraping.TitleIgnoresOtherSpans` | web_scraping.py:53-55 | Removing a span other than the title's leaves the name unchanged. |
| `WebScraping.Yields` | web_scraping.py:66-72 | A selector yields exactly when its span exists and its raw text holds a digit or a comma. Stripping first makes no difference. |
| `WebScraping.FirstPriceText` | web_scraping.py:65-72 | The cascade finds nothing exactly when no price span exists with a matching text. What it finds has a match. |
| `WebScraping.Extracted` | web_scraping.py:42-77 | A successful result always carries the input url and the title-or-default name. |
| `WebScraping.ExtractDetails` | web_scraping.py:42-77 | The loop returns what the cascade specification gives. It fills in the defaults, overwrites the name, tries the four selectors in order and stops at the first that yields. A `float` failure is raised as an error. |
| `WebScraping.ScrapeProduct` | web_scraping.py:18-40 | A failed fetch or a raised extraction error gives None. Otherwise the result is the extracted record, with the input url. |
| `WebScraping.FirstPriceTextIsFirst` | web_scraping.py:65-75 | The cascade returns the text of the first yielding selector, whatever the later ones hold. |
| `WebScraping.NoPriceGivesZero` | web_scraping.py:46-50 | When no selector yields a number, the result is a normal return. It has price 0.0, the title or "Unknown Product", and the input url. |
| `WebScraping.FirstYieldingSelectorWins` | web_scraping.py:58-75 | The price is the parse of the first yielding selector's text, or the ValueError `float` raises on it. |
| `WebScraping.FirstPriceTextSkips` | web_scraping.py:66-75 | Removing a span that does not yield does not change what the cascade finds. |
| `WebScraping.NonNumericSpanIsSkipped` | web_scraping.py:66-75 | A span that exists but has no digit and no comma does not stop the cascade. The result is as if the span were absent. |
| `WebScraping.LaterSpansIgnored` | web_scraping.py:65-75 | Once a selector yields, the spans of the later selectors make no difference. |
| `WebScraping.ExtractFailsOnlyWithoutDigits` | web_scraping.py:71-74 | Extraction raises exactly when the first matching price text has no digit in its match. |
| `WebScraping.StripUnchanged` | web_scraping.py:68 | Text that starts and ends with a non-space character is its own strip. |
| `WebScraping.CascadeExample` | web_scraping.py:46-75 | On a page whose only spans are a blank "a-price-whole" and an "a-offscreen" holding "₹1,299.00", the blank span is passed over. The result is price 1299.0, "Unknown Product" and the input url. |
| `PriceAlert.CheckAndAlert` | price_alert.py:8-13 | The alert fires exactly when a price is present and at most the target. Equality fires it. An absent or None price never fires it. |
| `PriceAlert.AlertMonotoneInTarget` | price_alert.py:10 | A price that fires the alert fires it for every higher target. |
| `PriceAlert.AlertAgreesWithRecommendation` | price_alert.py:10 | For a valid price and a usable history, the alert fires exactly when the recommendation is "BUY NOW (target)". |
| `PriceAlert.MissingPriceTriggersAlert` | price_alert.py:9-12 | A page with no usable price span is extracted at the default 0.0. The alert treats that as a price at or below any non-negative target, while the recommendation rejects it as invalid. |

## Left out

- Fetching and parsing: the `requests.get` call with its headers and timeout, `raise_for_status`, and the BeautifulSoup parse (web_scraping.py:11-31). `ScrapeProduct` gets the parsed page, or None for a failed fetch.
- `get_text()`: the page map holds each span's text, and only the first span per query (`soup.find`).
- `print` output and the progress messages.
- The percentage figures of the messages (price_plot.py:121-122) and all message texts. `highest_price` (price_plot.py:118) is computed but never used.
- Division by zero in those percentages: numpy gives `inf` there, not an exception, and the verdict does not depend on the result.
- The `except` branch of `get_recommendation` (price_plot.py:138-140): with a numeric target nothing in the modelled code raises. A None or non-numeric target is not modelled.
- Floating point: prices are exact reals. There is no rounding error and no NaN, so pandas' NaN-skipping `min`/`mean` is not modelled.
- `Recommend`: takes the history's `price` column as a sequence of reals; a frame whose column holds non-numbers is not modelled.
- `SyntheticHistoryNeverWaitSignificant`: relies on leaving out `round(..., 2)` (price_plot.py:30). With rounding it can fail for some current prices below about 0.164: at 0.014 every stored price can be 0.01, which gives "WAIT (significantly higher)" (`RoundingBreaksSmallPrices`). `RoundedHistoryNeverWaitSignificant` states the property with the rounding error, for current prices of at least 0.2.
- `GenerateDummyPastPrices`: leaves out `round(..., 2)`, the month labels built with `DateOffset` and `strftime`, and the `except` branch (price_plot.py:20-39). The `random.uniform(-0.1, 0.1)` draws are a parameter; their range is stated where it is used, in `SyntheticHistoryNeverWaitSignificant`.
- The chart itself: the matplotlib figure, `os.makedirs`, the timestamped file name and `savefig` (price_plot.py:42-101, apart from lines 81-83), and `cleanup_old_charts` (price_plot.py:143-169). These are file-system effects that depend on the wall clock.
- `SafeName`: `str.isalnum` is the parameter `isAlnum`, since Python's Unicode character tables are not part of this model.
- `Strip`: removes ASCII white space only; the Unicode spaces `str.strip()` also removes are not modelled.
- `PriceText.Search`: `\d` is ASCII `0`-`9`. Python also matches other Unicode decimal digits, and `float` accepts them.
- `PriceText.ParseFloat`: is defined only on strings of digits and dots, which is everything the cleaning produces. Signs, exponents, `inf` and `nan`, which `float` also reads, never reach it.
- sample.py (Flask routes, `save_to_csv`, HTML messages) and app.py (template routes): web glue, not part of this model.
- `WebScraper.__init__` (request headers) and `PriceAlertSystem.__init__` (does nothing): neither holds state the modelled code uses.
