/**
 * web_scraping.py: `WebScraper._extract_details`, which reads the product title
 * and the price out of a parsed product page, and the error handling of
 * `scrape_product` around it. Fetching and HTML parsing happen before; the
 * parsed page is given as the answers to the `soup.find('span', ...)` queries.
 */
module WebScraping {
  import opened Wrappers
  import opened PriceText

  /** A `soup.find('span', {...})` query: a span by class or by id. */
  datatype Selector = ByClass(name: string) | ById(name: string)

  /** A parsed page: for each query, the text of the first span it finds, if any. */
  type Page = map<Selector, string>

  const TitleSelector: Selector := ById("productTitle")

  /** The price queries, in the order they are tried. */
  const PriceSelectors: seq<Selector> := [
    ByClass("a-price-whole"),
    ByClass("a-offscreen"),
    ById("priceblock_ourprice"),
    ById("priceblock_dealprice")
  ]

  const UnknownProduct: string := "Unknown Product"

  /** The `product_data` dictionary. */
  datatype ProductData = ProductData(url: string, productName: string, price: real)

  /** `float()` raised on the cleaned price string. */
  datatype ExtractError = ValueError(cleaned: string)

  /** The white space `str.strip()` removes, restricted to ASCII. */
  predicate IsSpace(c: char)
  {
    c == ' ' || '\U{09}' <= c <= '\U{0D}' || '\U{1C}' <= c <= '\U{1F}'
  }

  /** The first index at or after `i` that is not white space. */
  function SkipSpaces(s: string, i: nat): (k: nat)
    requires i <= |s|
    ensures i <= k <= |s|
    ensures forall j :: i <= j < k ==> IsSpace(s[j])
    ensures k < |s| ==> !IsSpace(s[k])
    decreases |s| - i
  {
    if i == |s| || !IsSpace(s[i]) then i else SkipSpaces(s, i + 1)
  }

  /** The end of `s[lo..hi]` once its trailing white space is dropped. */
  function TrimEnd(s: string, lo: nat, hi: nat): (k: nat)
    requires lo <= hi <= |s|
    ensures lo <= k <= hi
    ensures forall j :: k <= j < hi ==> IsSpace(s[j])
    ensures k > lo ==> !IsSpace(s[k - 1])
    decreases hi - lo
  {
    if hi == lo || !IsSpace(s[hi - 1]) then hi else TrimEnd(s, lo, hi - 1)
  }

  /** `r` is `s[lo..hi]` for some `lo` and `hi` with only white space outside them. */
  ghost predicate TrimmedFrom(r: string, s: string)
  {
    exists lo: nat, hi: nat :: lo <= hi <= |s| && r == s[lo..hi] &&
      (forall j :: 0 <= j < lo ==> IsSpace(s[j])) &&
      (forall j :: hi <= j < |s| ==> IsSpace(s[j]))
  }

  /** Neither end of `r` is white space. */
  predicate Tight(r: string)
  {
    r == [] || (!IsSpace(r[0]) && !IsSpace(r[|r| - 1]))
  }

  /** `str.strip()`: the text without its leading and trailing white space. */
  function Strip(s: string): (r: string)
    ensures TrimmedFrom(r, s) && Tight(r)
    ensures r == [] <==> forall j :: 0 <= j < |s| ==> IsSpace(s[j])
  {
    var lo := SkipSpaces(s, 0);
    var hi := TrimEnd(s, lo, |s|);
    assert lo <= hi <= |s| && s[lo..hi] == s[lo..hi] &&
      (forall j :: 0 <= j < lo ==> IsSpace(s[j])) &&
      (forall j :: hi <= j < |s| ==> IsSpace(s[j]));
    s[lo..hi]
  }

  /**
   * The two properties of `Strip` pin it down: any way of cutting only white
   * space off both ends that leaves no white space at either end gives `Strip(s)`.
   */
  lemma StripUnique(s: string, r: string)
    requires TrimmedFrom(r, s) && Tight(r)
    ensures r == Strip(s)
  {
    var lo: nat, hi: nat :| lo <= hi <= |s| && r == s[lo..hi] &&
      (forall j :: 0 <= j < lo ==> IsSpace(s[j])) &&
      (forall j :: hi <= j < |s| ==> IsSpace(s[j]));
    if lo == hi {
      forall j | 0 <= j < |s| ensures IsSpace(s[j]) {
      }
    } else {
      assert s[lo] == r[0] && s[hi - 1] == r[|r| - 1];
      SkipSpacesAt(s, lo);
      TrimEndAt(s, lo, hi);
    }
  }

  /** The first non-space index is `lo` when everything before it is white space and `s[lo]` is not. */
  lemma SkipSpacesAt(s: string, lo: nat)
    requires lo < |s| && !IsSpace(s[lo])
    requires forall j :: 0 <= j < lo ==> IsSpace(s[j])
    ensures SkipSpaces(s, 0) == lo
  {
    var k := SkipSpaces(s, 0);
    assert k < |s| ==> !IsSpace(s[k]);
  }

  /** Trimming `s[lo..]` ends at `hi` when everything from `hi` on is white space and `s[hi - 1]` is not. */
  lemma TrimEndAt(s: string, lo: nat, hi: nat)
    requires lo < hi <= |s| && !IsSpace(s[hi - 1])
    requires forall j :: hi <= j < |s| ==> IsSpace(s[j])
    ensures TrimEnd(s, lo, |s|) == hi
  {
    var k := TrimEnd(s, lo, |s|);
    assert k > lo ==> !IsSpace(s[k - 1]);
  }

  /** The product name: the stripped title text, or the default when the page has no title span. */
  function TitleOf(page: Page): (r: string)
    ensures TitleSelector in page ==> TrimmedFrom(r, page[TitleSelector]) && Tight(r)
    ensures TitleSelector !in page ==> r == UnknownProduct
  {
    if TitleSelector in page then Strip(page[TitleSelector]) else UnknownProduct
  }

  /**
   * The span of `sel` exists and its stripped text contains a digit or a comma;
   * since white space is neither, that is the same as the span's raw text having one.
   */
  predicate Yields(page: Page, sel: Selector)
    ensures Yields(page, sel) <==> sel in page && !NoDigitOrComma(page[sel])
  {
    sel in page && (YieldsRaw(page[sel]); Search(Strip(page[sel])).Some?)
  }

  /** The stripped text has a digit or a comma exactly when the raw text has one. */
  lemma YieldsRaw(s: string)
    ensures Search(Strip(s)).Some? <==> !NoDigitOrComma(s)
  {
    var lo := SkipSpaces(s, 0);
    PriceCharInside(s, lo, TrimEnd(s, lo, |s|));
  }

  /** White space is neither a digit nor a comma, so cutting it off keeps every such character. */
  lemma PriceCharInside(s: string, lo: nat, hi: nat)
    requires lo <= hi <= |s|
    requires forall j :: 0 <= j < lo ==> IsSpace(s[j])
    requires forall j :: hi <= j < |s| ==> IsSpace(s[j])
    ensures NoDigitOrComma(s[lo..hi]) <==> NoDigitOrComma(s)
  {
    var inner := s[lo..hi];
    if !NoDigitOrComma(s) {
      var j :| 0 <= j < |s| && IsDigitOrComma(s[j]);
      assert lo <= j < hi;
      assert inner[j - lo] == s[j];
    }
    if !NoDigitOrComma(inner) {
      var i :| 0 <= i < |inner| && IsDigitOrComma(inner[i]);
      assert inner[i] == s[lo + i];
    }
  }

  /** The stripped text of the first selector of `sels` that yields a match. */
  function FirstPriceText(page: Page, sels: seq<Selector>): (r: Option<string>)
    ensures r.None? <==> forall k :: 0 <= k < |sels| ==> !Yields(page, sels[k])
    ensures r.Some? ==> Search(r.value).Some?
  {
    if sels == [] then None
    else if Yields(page, sels[0]) then Some(Strip(page[sels[0]]))
    else FirstPriceText(page, sels[1..])
  }

  /**
   * What `_extract_details(soup, url)` returns, or the error it raises: the
   * price of the first selector that yields a match, 0.0 when none does.
   */
  function Extracted(page: Page, url: string): (r: Result<ProductData, ExtractError>)
    ensures r.Ok? ==> r.value.url == url && r.value.productName == TitleOf(page)
  {
    match FirstPriceText(page, PriceSelectors)
    case None => Ok(ProductData(url, TitleOf(page), 0.0))
    case Some(text) =>
      var parsed := ParsePrice(text);
      if parsed.Unparsable? then Err(ValueError(parsed.cleaned))
      else Ok(ProductData(url, TitleOf(page), parsed.value))
  }

  /** `_extract_details`: fill the defaults, overwrite the name, try the price queries until one yields. */
  method ExtractDetails(page: Page, url: string) returns (result: Result<ProductData, ExtractError>)
    ensures result == Extracted(page, url)
  {
    var data := ProductData(url, UnknownProduct, 0.0);
    if TitleSelector in page {
      data := data.(productName := Strip(page[TitleSelector]));
    }
    var i := 0;
    while i < |PriceSelectors|
      invariant 0 <= i <= |PriceSelectors|
      invariant data == ProductData(url, TitleOf(page), 0.0)
      invariant FirstPriceText(page, PriceSelectors) == FirstPriceText(page, PriceSelectors[i..])
    {
      var selector := PriceSelectors[i];
      if selector in page {
        var priceText := Strip(page[selector]);
        var priceMatch := Search(priceText);
        if priceMatch.Some? {
          var cleanPrice := RemoveCommas(priceText[priceMatch.value.start..priceMatch.value.end]);
          CleanedShape(priceText);
          DecimalShapeFacts(cleanPrice);
          var price := ParseFloat(cleanPrice);
          if price.None? {
            return Err(ValueError(cleanPrice));
          }
          data := data.(price := price.value);
          break;
        }
      }
      assert PriceSelectors[i..][1..] == PriceSelectors[i + 1..];
      i := i + 1;
    }
    return Ok(data);
  }

  /**
   * `scrape_product`: `fetched` is the parsed page, or None when the request or
   * its status check raised. Every raised error becomes None.
   */
  method ScrapeProduct(fetched: Option<Page>, url: string) returns (r: Option<ProductData>)
    ensures fetched.None? ==> r.None?
    ensures fetched.Some? ==> (r.None? <==> Extracted(fetched.value, url).Err?)
    ensures r.Some? ==> r.value == Extracted(fetched.value, url).value && r.value.url == url
  {
    if fetched.None? {
      return None;
    }
    var details := ExtractDetails(fetched.value, url);
    if details.Err? {
      return None;
    }
    return Some(details.value);
  }

  /** The cascade picks the first yielding selector: those before it are passed over, those after it are not looked at. */
  lemma {:induction false} FirstPriceTextIsFirst(page: Page, sels: seq<Selector>, k: nat)
    requires k < |sels|
    requires Yields(page, sels[k])
    requires forall j :: 0 <= j < k ==> !Yields(page, sels[j])
    ensures FirstPriceText(page, sels) == Some(Strip(page[sels[k]]))
  {
    if k > 0 {
      assert !Yields(page, sels[0]);
      FirstPriceTextIsFirst(page, sels[1..], k - 1);
    }
  }

  /**
   * When no price span yields a number the result is the defaults: price 0.0,
   * the title (or "Unknown Product") and the url. This is a normal return.
   */
  lemma NoPriceGivesZero(page: Page, url: string)
    requires forall k :: 0 <= k < |PriceSelectors| ==> !Yields(page, PriceSelectors[k])
    ensures Extracted(page, url) == Ok(ProductData(url, TitleOf(page), 0.0))
  {
  }

  /**
   * The price comes from the first selector, in the fixed order, whose span
   * exists and whose text matches: its parse, or the error float() raises on it.
   */
  lemma FirstYieldingSelectorWins(page: Page, url: string, k: nat)
    requires k < |PriceSelectors|
    requires Yields(page, PriceSelectors[k])
    requires forall j :: 0 <= j < k ==> !Yields(page, PriceSelectors[j])
    ensures var parsed := ParsePrice(Strip(page[PriceSelectors[k]]));
            && (parsed.Parsed? ==> Extracted(page, url) == Ok(ProductData(url, TitleOf(page), parsed.value)))
            && (parsed.Unparsable? ==> Extracted(page, url) == Err(ValueError(parsed.cleaned)))
            && !parsed.NoMatch?
  {
    FirstPriceTextIsFirst(page, PriceSelectors, k);
    ParsePriceOutcomes(Strip(page[PriceSelectors[k]]));
  }

  /** Removing a span that does not yield leaves the cascade's choice unchanged. */
  lemma {:induction false} FirstPriceTextSkips(page: Page, sels: seq<Selector>, sel: Selector)
    requires sel in page && !Yields(page, sel)
    ensures FirstPriceText(page - {sel}, sels) == FirstPriceText(page, sels)
  {
    if sels != [] {
      assert Yields(page - {sel}, sels[0]) == Yields(page, sels[0]);
      FirstPriceTextSkips(page, sels[1..], sel);
    }
  }

  /**
   * A span that exists but whose text has no digit and no comma does not stop
   * the cascade: the result is as if the span were absent.
   */
  lemma NonNumericSpanIsSkipped(page: Page, url: string, sel: Selector)
    requires sel != TitleSelector
    requires sel in page
    requires NoDigitOrComma(page[sel])
    ensures Extracted(page - {sel}, url) == Extracted(page, url)
  {
    assert !Yields(page, sel);
    FirstPriceTextSkips(page, PriceSelectors, sel);
    TitleIgnoresOtherSpans(page, sel);
  }

  /** Removing a span other than the title's leaves the product name as it was. */
  lemma TitleIgnoresOtherSpans(page: Page, sel: Selector)
    requires sel != TitleSelector
    ensures TitleOf(page - {sel}) == TitleOf(page)
  {
    if TitleSelector in page {
      assert (page - {sel})[TitleSelector] == page[TitleSelector];
    }
  }

  /** Once a selector yields, the spans of the later selectors make no difference. */
  lemma LaterSpansIgnored(page: Page, other: Page, url: string, k: nat)
    requires k < |PriceSelectors|
    requires Yields(page, PriceSelectors[k])
    requires forall j :: 0 <= j < k ==> !Yields(page, PriceSelectors[j])
    requires forall j :: 0 <= j <= k ==> (PriceSelectors[j] in page <==> PriceSelectors[j] in other)
    requires forall j :: 0 <= j <= k && PriceSelectors[j] in page ==> page[PriceSelectors[j]] == other[PriceSelectors[j]]
    requires TitleOf(page) == TitleOf(other)
    ensures Extracted(page, url) == Extracted(other, url)
  {
    assert forall j :: 0 <= j <= k ==> Yields(page, PriceSelectors[j]) == Yields(other, PriceSelectors[j]);
    FirstPriceTextIsFirst(page, PriceSelectors, k);
    FirstPriceTextIsFirst(other, PriceSelectors, k);
  }

  /**
   * `_extract_details` raises exactly when the first matching price text has
   * no digit in its match (a run of commas, perhaps with a dot).
   */
  lemma ExtractFailsOnlyWithoutDigits(page: Page, url: string)
    ensures Extracted(page, url).Err? <==>
              FirstPriceText(page, PriceSelectors).Some? &&
              var text := FirstPriceText(page, PriceSelectors).value;
              !HasDigit(text[Search(text).value.start..Search(text).value.end])
  {
    if FirstPriceText(page, PriceSelectors).Some? {
      ParsePriceOutcomes(FirstPriceText(page, PriceSelectors).value);
    }
  }

  /**
   * The pages of the cascade example: a blank whole-price span, an off-screen
   * span holding "₹1,299.00", and nothing else.
   */
  predicate ExampleSpans(page: Page)
  {
    page.Keys == {PriceSelectors[0], PriceSelectors[1]} &&
    page[PriceSelectors[0]] == " " && page[PriceSelectors[1]] == "\U{20B9}1,299.00"
  }

  /** A blank "a-price-whole" span is passed over and "a-offscreen" supplies ₹1,299.00. */
  lemma CascadeExample(page: Page, url: string)
    requires ExampleSpans(page)
    ensures Extracted(page, url) == Ok(ProductData(url, UnknownProduct, 1299.0))
  {
    var text := page[PriceSelectors[1]];
    ExampleFirstText(page);
    ExamplePrice(page);
    ExampleHasNoTitle(page);
    PricedWithoutTitle(page, url, text, 1299.0);
  }

  /** The example page has no title span: both its keys are class queries. */
  lemma ExampleHasNoTitle(page: Page)
    requires ExampleSpans(page)
    ensures TitleSelector !in page
  {
    assert TitleSelector.ById? && PriceSelectors[0].ByClass? && PriceSelectors[1].ByClass?;
  }

  /** A page without a title span whose first yielding text parses to `v` extracts as `v`. */
  lemma PricedWithoutTitle(page: Page, url: string, text: string, v: real)
    requires TitleSelector !in page
    requires FirstPriceText(page, PriceSelectors) == Some(text)
    requires ParsePrice(text) == Parsed(v)
    ensures Extracted(page, url) == Ok(ProductData(url, UnknownProduct, v))
  {
  }

  lemma ExamplePrice(page: Page)
    requires ExampleSpans(page)
    ensures ParsePrice(page[PriceSelectors[1]]) == Parsed(1299.0)
  {
    RupeeExample();
  }

  lemma ExampleFirstText(page: Page)
    requires ExampleSpans(page)
    ensures FirstPriceText(page, PriceSelectors) == Some(page[PriceSelectors[1]])
  {
    ExampleYields(page);
    ExampleStripped(page);
    SecondYields(page, PriceSelectors, page[PriceSelectors[1]]);
  }

  /** When only the second query yields, the cascade returns its stripped text. */
  lemma SecondYields(page: Page, sels: seq<Selector>, text: string)
    requires |sels| >= 2 && !Yields(page, sels[0]) && Yields(page, sels[1])
    requires Strip(page[sels[1]]) == text
    ensures FirstPriceText(page, sels) == Some(text)
  {
    var rest := sels[1..];
    assert rest[0] == sels[1];
    assert FirstPriceText(page, rest) == Some(text);
  }

  /** On the example page the blank span does not yield and the rupee span does. */
  lemma ExampleYields(page: Page)
    requires ExampleSpans(page)
    ensures !Yields(page, PriceSelectors[0]) && Yields(page, PriceSelectors[1])
  {
    var blank := page[PriceSelectors[0]];
    assert !IsDigitOrComma(blank[0]);
    var text := page[PriceSelectors[1]];
    assert IsDigitOrComma(text[1]);
  }

  lemma ExampleStripped(page: Page)
    requires ExampleSpans(page)
    ensures Strip(page[PriceSelectors[1]]) == page[PriceSelectors[1]]
  {
    StripUnchanged(page[PriceSelectors[1]]);
  }

  /** Text that begins and ends with a non-space character is its own strip. */
  lemma StripUnchanged(s: string)
    requires s != [] && !IsSpace(s[0]) && !IsSpace(s[|s| - 1])
    ensures Strip(s) == s
  {
    assert SkipSpaces(s, 0) == 0;
    assert TrimEnd(s, 0, |s|) == |s|;
  }
}
