/**
 * The price-cleaning step of `WebScraper._extract_details`: `re.search` with the
 * pattern `[\d,]+\.?\d*`, removal of the commas from the match, and `float` of
 * what is left. The regular expression is a hand-written scanner here, proved
 * to return the leftmost match and, at that start, the longest one.
 */
module PriceText {
  import opened Wrappers

  predicate IsDigit(c: char)
  {
    '0' <= c <= '9'
  }

  /** The character class `[\d,]`. */
  predicate IsDigitOrComma(c: char)
  {
    IsDigit(c) || c == ','
  }

  /** Text in which the character class `[\d,]` finds nothing. */
  predicate NoDigitOrComma(s: string)
  {
    forall j :: 0 <= j < |s| ==> !IsDigitOrComma(s[j])
  }

  predicate AllDigits(s: string)
  {
    forall i :: 0 <= i < |s| ==> IsDigit(s[i])
  }

  /** Text made only of digits and dots, which is all the cleaning leaves. */
  predicate DigitsAndDots(s: string)
  {
    forall i :: 0 <= i < |s| ==> IsDigit(s[i]) || s[i] == '.'
  }

  predicate AllDigitsOrCommas(s: string)
  {
    forall i :: 0 <= i < |s| ==> IsDigitOrComma(s[i])
  }

  /**
   * The language of `[\d,]+\.?\d*`: a non-empty run of digits and commas, an
   * optional dot, then any digits.
   */
  ghost predicate InPattern(s: string)
  {
    exists k: nat, m: nat :: MatchShape(s, k, m)
  }

  /** The first index at or after `i` holding a digit or a comma (or the end of `t`). */
  function SkipToRun(t: string, i: nat): (k: nat)
    requires i <= |t|
    ensures i <= k <= |t|
    ensures forall j :: i <= j < k ==> !IsDigitOrComma(t[j])
    ensures k < |t| ==> IsDigitOrComma(t[k])
    decreases |t| - i
  {
    if i == |t| || IsDigitOrComma(t[i]) then i else SkipToRun(t, i + 1)
  }

  /** The end of the run of digits and commas that starts at `i`. */
  function RunEnd(t: string, i: nat): (k: nat)
    requires i <= |t|
    ensures i <= k <= |t|
    ensures forall j :: i <= j < k ==> IsDigitOrComma(t[j])
    ensures k < |t| ==> !IsDigitOrComma(t[k])
    decreases |t| - i
  {
    if i == |t| || !IsDigitOrComma(t[i]) then i else RunEnd(t, i + 1)
  }

  /** The end of the run of digits that starts at `i`. */
  function DigitsEnd(t: string, i: nat): (k: nat)
    requires i <= |t|
    ensures i <= k <= |t|
    ensures forall j :: i <= j < k ==> IsDigit(t[j])
    ensures k < |t| ==> !IsDigit(t[k])
    decreases |t| - i
  {
    if i == |t| || !IsDigit(t[i]) then i else DigitsEnd(t, i + 1)
  }

  /** Bounds of a match in the searched text. */
  datatype Span = Span(start: nat, end: nat)

  /**
   * `re.search(r'[\d,]+\.?\d*', t)`: skip to the first digit or comma, take the
   * whole run of digits and commas, then a dot and the digits after it if a dot
   * follows the run.
   */
  function Search(t: string): (m: Option<Span>)
    ensures m.None? <==> NoDigitOrComma(t)
    ensures m.Some? ==> m.value.start < m.value.end <= |t|
  {
    var i := SkipToRun(t, 0);
    if i == |t| then None
    else
      var e := RunEnd(t, i);
      if e < |t| && t[e] == '.' then Some(Span(i, DigitsEnd(t, e + 1)))
      else Some(Span(i, e))
  }

  /** `str.replace(',', '')`. */
  function RemoveCommas(s: string): (r: string)
    ensures |r| <= |s|
    ensures forall i :: 0 <= i < |r| ==> r[i] != ','
  {
    if s == [] then []
    else if s[0] == ',' then RemoveCommas(s[1..])
    else [s[0]] + RemoveCommas(s[1..])
  }

  /** Removing commas keeps the other characters, and nothing else. */
  lemma {:induction false} RemoveCommasKeeps(s: string)
    ensures forall i :: 0 <= i < |RemoveCommas(s)| ==> RemoveCommas(s)[i] in s
    ensures (forall i :: 0 <= i < |s| ==> s[i] != ',') ==> RemoveCommas(s) == s
  {
    if s != [] {
      RemoveCommasKeeps(s[1..]);
      var r := RemoveCommas(s[1..]);
      assert forall x :: x in s[1..] ==> x in s;
      if s[0] != ',' {
        assert forall i :: 1 <= i < |r| + 1 ==> RemoveCommas(s)[i] == r[i - 1];
      }
    }
  }

  /** The cleaned price string of a text, or None when the pattern does not match. */
  function Cleaned(t: string): (r: Option<string>)
    ensures r.None? <==> NoDigitOrComma(t)
    ensures r.Some? ==> forall i :: 0 <= i < |r.value| ==> r.value[i] != ','
  {
    match Search(t)
    case None => None
    case Some(span) => Some(RemoveCommas(t[span.start..span.end]))
  }

  /** Every match of the pattern is non-empty and begins with a digit or a comma. */
  lemma PatternStart(s: string)
    requires InPattern(s)
    ensures |s| > 0 && IsDigitOrComma(s[0])
  {
    var k: nat, m: nat :| MatchShape(s, k, m);
    assert s[..k][0] == s[0];
  }

  /** The shape of a match, with its two split points named. */
  predicate MatchShape(s: string, k: nat, m: nat)
  {
    1 <= k <= m <= |s| && m <= k + 1 &&
    AllDigitsOrCommas(s[..k]) && (m == k + 1 ==> s[k] == '.') && AllDigits(s[m..])
  }

  /** The span the scanner returns is a match of the pattern. */
  lemma SearchMatches(t: string)
    requires Search(t).Some?
    ensures InPattern(t[Search(t).value.start..Search(t).value.end])
  {
    var i := SkipToRun(t, 0);
    assert i < |t|;
    var r := RunEnd(t, i);
    SearchIs(t, i, r);
    RunMatches(t, i, r);
  }

  /** A run of digits and commas, with the dot and digits that may follow, is a match. */
  lemma RunMatches(t: string, i: nat, r: nat)
    requires i < |t| && IsDigitOrComma(t[i]) && RunEnd(t, i) == r
    ensures i < MatchEnd(t, r) && InPattern(t[i..MatchEnd(t, r)])
  {
    var e := MatchEnd(t, r);
    var s := t[i..e];
    var k := r - i;
    assert i < r <= e;
    RunPart(t, i, r, e);
    if r < |t| && t[r] == '.' {
      DigitsPart(t, i, r, e);
      assert s[k] == t[r];
      assert MatchShape(s, k, k + 1);
    } else {
      assert |s| == k && s[k..] == [];
      assert MatchShape(s, k, k);
    }
  }

  lemma RunPart(t: string, i: nat, r: nat, e: nat)
    requires i <= r <= e <= |t| && RunEnd(t, i) == r
    ensures AllDigitsOrCommas(t[i..e][..r - i])
  {
    var run := t[i..e][..r - i];
    forall j | 0 <= j < |run| ensures IsDigitOrComma(run[j]) {
      assert run[j] == t[i + j];
    }
  }

  lemma DigitsPart(t: string, i: nat, r: nat, e: nat)
    requires i <= r < e <= |t| && e == DigitsEnd(t, r + 1)
    ensures AllDigits(t[i..e][r - i + 1..])
  {
    var digits := t[i..e][r - i + 1..];
    forall j | 0 <= j < |digits| ensures IsDigit(digits[j]) {
      assert digits[j] == t[r + 1 + j];
    }
  }

  /**
   * A stretch that starts where the scanner's match starts and ends past it has
   * no way to split into the pattern's parts.
   */
  lemma LongerIsNoMatch(t: string, e': nat, k: nat, m: nat)
    requires Search(t).Some?
    requires Search(t).value.end < e' <= |t|
    ensures !MatchShape(t[Search(t).value.start..e'], k, m)
  {
    var i := Search(t).value.start;
    var end := Search(t).value.end;
    var r := RunEnd(t, i);
    var s := t[i..e'];
    assert r <= end && r - i < |s|;
    assert s[r - i] == t[r] && !IsDigitOrComma(t[r]);
    if !(1 <= k <= m <= |s| && m <= k + 1) {
      // the split points are out of shape
    } else if k > r - i {
      // the digits-and-commas part would hold t[r]
      var run := s[..k];
      assert run[r - i] == t[r];
      assert !AllDigitsOrCommas(run);
    } else if m == k {
      // the trailing digits would hold t[r]
      var digits := s[m..];
      assert digits[r - i - m] == t[r];
      assert !AllDigits(digits);
    } else if k < r - i {
      // the dot would sit inside the run
      assert s[k] == t[i + k] && IsDigitOrComma(t[i + k]);
    } else if t[r] != '.' {
      assert s[k] == t[r];
    } else {
      // the trailing digits would hold the character that ended the scanner's digits
      var d := DigitsEnd(t, r + 1);
      assert end == d && d < e' && !IsDigit(t[d]);
      var digits := s[m..];
      assert digits[d - i - m] == t[d];
      assert !AllDigits(digits);
    }
  }

  /** No longer match starts where the scanner's match starts. */
  lemma SearchLongest(t: string, e': nat)
    requires Search(t).Some?
    requires Search(t).value.end < e' <= |t|
    ensures !InPattern(t[Search(t).value.start..e'])
  {
    forall k: nat, m: nat ensures !MatchShape(t[Search(t).value.start..e'], k, m) {
      LongerIsNoMatch(t, e', k, m);
    }
  }

  /** No match starts before the scanner's match, or anywhere when the scanner finds none. */
  lemma SearchLeftmost(t: string, i': nat, e': nat)
    requires i' <= e' <= |t|
    requires Search(t).None? || i' < Search(t).value.start
    ensures !InPattern(t[i'..e'])
  {
    if InPattern(t[i'..e']) {
      PatternStart(t[i'..e']);
    }
  }

  /**
   * The scanner agrees with `re.search`: it fails exactly when no substring
   * matches, and otherwise returns the leftmost match, longest at its start
   * (for this pattern the greedy match and the longest one coincide).
   */
  lemma SearchIsLeftmostLongest(t: string)
    ensures Search(t).None? ==> forall i, e :: 0 <= i <= e <= |t| ==> !InPattern(t[i..e])
    ensures Search(t).Some? ==>
              var span := Search(t).value;
              && InPattern(t[span.start..span.end])
              && (forall i, e :: 0 <= i < span.start && i <= e <= |t| ==> !InPattern(t[i..e]))
              && (forall e :: span.end < e <= |t| ==> !InPattern(t[span.start..e]))
  {
    forall i, e | 0 <= i <= e <= |t| && (Search(t).None? || i < Search(t).value.start)
      ensures !InPattern(t[i..e])
    {
      SearchLeftmost(t, i, e);
    }
    if Search(t).Some? {
      SearchMatches(t);
      forall e | Search(t).value.end < e <= |t| ensures !InPattern(t[Search(t).value.start..e]) {
        SearchLongest(t, e);
      }
    }
  }

  /** `RemoveCommas` distributes over concatenation. */
  lemma {:induction false} RemoveCommasConcat(a: string, b: string)
    ensures RemoveCommas(a + b) == RemoveCommas(a) + RemoveCommas(b)
  {
    if a == [] {
      assert a + b == b;
    } else {
      assert (a + b)[1..] == a[1..] + b;
      RemoveCommasConcat(a[1..], b);
      if a[0] != ',' {
        assert RemoveCommas(a + b) == [a[0]] + (RemoveCommas(a[1..]) + RemoveCommas(b));
      }
    }
  }

  predicate HasDigit(s: string)
  {
    exists i :: 0 <= i < |s| && IsDigit(s[i])
  }

  predicate AtMostOneDot(s: string)
  {
    forall i, j :: 0 <= i < j < |s| && s[i] == '.' ==> s[j] != '.'
  }

  /** The cleaned string: digits, then optionally a dot followed by digits. */
  predicate DecimalShape(c: string)
  {
    var p := DigitsEnd(c, 0);
    p == |c| || (c[p] == '.' && AllDigits(c[p + 1..]))
  }

  /** A non-empty string has a digit when its head is one or its tail has one. */
  lemma HasDigitCons(s: string)
    requires s != []
    ensures HasDigit(s) <==> IsDigit(s[0]) || HasDigit(s[1..])
  {
    if HasDigit(s[1..]) {
      var j :| 0 <= j < |s[1..]| && IsDigit(s[1..][j]);
      assert s[j + 1] == s[1..][j];
    }
    if HasDigit(s) && !IsDigit(s[0]) {
      var j :| 0 <= j < |s| && IsDigit(s[j]);
      assert s[1..][j - 1] == s[j];
    }
  }

  /** Removing commas keeps every digit. */
  lemma {:induction false} RemoveCommasKeepsDigits(s: string)
    ensures HasDigit(RemoveCommas(s)) <==> HasDigit(s)
  {
    if s != [] {
      RemoveCommasKeepsDigits(s[1..]);
      HasDigitCons(s);
      if s[0] != ',' {
        var r := RemoveCommas(s);
        assert r[1..] == RemoveCommas(s[1..]);
        HasDigitCons(r);
      }
    }
  }

  /** A decimal-shaped string holds only digits and dots, and at most one dot. */
  lemma DecimalShapeFacts(c: string)
    requires DecimalShape(c)
    ensures DigitsAndDots(c)
    ensures AtMostOneDot(c)
  {
    var p := DigitsEnd(c, 0);
    if p < |c| {
      forall i | p + 1 <= i < |c| ensures IsDigit(c[i]) {
        assert c[p + 1..][i - p - 1] == c[i];
      }
    }
  }

  /** The commas-removed run of digits and commas is all digits. */
  lemma CleanRunDigits(run: string)
    requires AllDigitsOrCommas(run)
    ensures AllDigits(RemoveCommas(run))
  {
    var w := RemoveCommas(run);
    RemoveCommasKeeps(run);
    forall j | 0 <= j < |w| ensures IsDigit(w[j]) {
      assert w[j] in run;
    }
  }

  /**
   * What the cleaning produces is digits, then optionally a dot and digits,
   * taken from one contiguous stretch of the text with only its commas removed;
   * it holds a digit exactly when the matched stretch does.
   */
  lemma CleanedShape(t: string)
    requires Cleaned(t).Some?
    ensures var c := Cleaned(t).value;
            var span := Search(t).value;
            && c == RemoveCommas(t[span.start..span.end])
            && DecimalShape(c)
            && (HasDigit(c) <==> HasDigit(t[span.start..span.end]))
  {
    var span := Search(t).value;
    var i := span.start;
    var r := RunEnd(t, i);
    var run := t[i..r];
    var tail := t[r..span.end];
    assert t[i..span.end] == run + tail;
    RemoveCommasConcat(run, tail);
    CleanRunDigits(run);
    var whole := RemoveCommas(run);
    TailShape(t, r, span.end);
    var c := whole + tail;
    DigitsPrefixEnd(whole, tail);
    DecimalOfParts(whole, tail);
    RemoveCommasKeepsDigits(t[i..span.end]);
  }

  /** What follows the run in the match is empty, or a dot and digits (so it has no comma). */
  lemma TailShape(t: string, r: nat, end: nat)
    requires Search(t).Some? && Search(t).value.end == end
    requires r == RunEnd(t, Search(t).value.start)
    ensures r <= end
    ensures var tail := t[r..end];
            && (tail != [] ==> tail[0] == '.' && AllDigits(tail[1..]))
            && RemoveCommas(tail) == tail
  {
    var tail := t[r..end];
    if tail != [] {
      assert tail[1..] == t[r + 1..end];
    }
    RemoveCommasKeeps(tail);
  }

  /** Digits followed by nothing, or by a dot and digits, are decimal-shaped. */
  lemma DecimalOfParts(whole: string, tail: string)
    requires AllDigits(whole)
    requires tail != [] ==> tail[0] == '.' && AllDigits(tail[1..])
    ensures DecimalShape(whole + tail)
  {
    var c := whole + tail;
    DigitsPrefixEnd(whole, tail);
    if tail != [] {
      assert c[|whole| + 1..] == tail[1..];
    }
  }

  /** Scanning digits over `whole + tail` stops where `whole` ends when `tail` does not start with a digit. */
  lemma DigitsPrefixEnd(whole: string, tail: string)
    requires AllDigits(whole)
    requires tail != [] ==> !IsDigit(tail[0])
    ensures DigitsEnd(whole + tail, 0) == |whole|
  {
    var c := whole + tail;
    assert forall j :: 0 <= j < |whole| ==> IsDigit(c[j]);
    assert tail != [] ==> c[|whole|] == tail[0];
  }

  /*
   * float() of the cleaned string. Only strings of digits and dots reach it.
   */

  function DigitValue(c: char): nat
    requires IsDigit(c)
  {
    c as int - '0' as int
  }

  /** The value of a string of decimal digits, most significant first. */
  function DigitsValue(d: string): nat
    requires AllDigits(d)
  {
    if d == [] then 0 else DigitsValue(d[..|d| - 1]) * 10 + DigitValue(d[|d| - 1])
  }

  function Pow10(n: nat): (p: nat)
    ensures p > 0
  {
    if n == 0 then 1 else 10 * Pow10(n - 1)
  }

  /**
   * `float(s)` for a string of digits and dots: the whole part and the fraction
   * may each be empty but not both ("12." and ".5" parse, "" and "." raise),
   * and a second dot raises.
   */
  function ParseFloat(s: string): (v: Option<real>)
    requires DigitsAndDots(s)
    ensures v.Some? ==> v.value >= 0.0
  {
    var p := DigitsEnd(s, 0);
    var whole := s[..p];
    assert AllDigits(whole);
    if p == |s| then
      if p == 0 then None else Some(DigitsValue(whole) as real)
    else
      var frac := s[p + 1..];
      if !AllDigits(frac) || (p == 0 && frac == []) then None
      else Some(DecimalValue(whole, frac))
  }

  /** The value of the decimal numeral `whole.frac`. */
  function DecimalValue(whole: string, frac: string): real
    requires AllDigits(whole) && AllDigits(frac)
  {
    DigitsValue(whole) as real + DigitsValue(frac) as real / Pow10(|frac|) as real
  }

  /** float() succeeds exactly on strings with a digit and at most one dot. */
  lemma ParseFloatSucceeds(s: string)
    requires DigitsAndDots(s)
    ensures ParseFloat(s).Some? <==> HasDigit(s) && AtMostOneDot(s)
  {
    var p := DigitsEnd(s, 0);
    if p < |s| {
      var frac := s[p + 1..];
      assert s[p] == '.';
      if !AllDigits(frac) {
        var j :| 0 <= j < |frac| && !IsDigit(frac[j]);
        assert s[p + 1 + j] == frac[j] == '.';
      } else {
        forall j | p + 1 <= j < |s| ensures IsDigit(s[j]) {
          assert s[j] == frac[j - p - 1];
        }
        if frac != [] {
          assert IsDigit(s[p + 1]);
        }
      }
    } else if p > 0 {
      assert IsDigit(s[0]);
    }
  }

  /** A plain digit string parses to its decimal value. */
  lemma ParseFloatDigits(d: string)
    requires d != [] && AllDigits(d)
    ensures ParseFloat(d) == Some(DigitsValue(d) as real)
  {
    assert d[..DigitsEnd(d, 0)] == d;
  }

  /**
   * A decimal string parses to its digits read as one whole number and scaled
   * down by one power of ten per fractional digit: "499.50" is 49950 / 100.
   */
  lemma ParseFloatDecimal(w: string, f: string)
    requires AllDigits(w) && AllDigits(f) && |w| + |f| > 0
    ensures AllDigits(w + f)
    ensures ParseFloat(w + "." + f) == Some(DigitsValue(w + f) as real / Pow10(|f|) as real)
  {
    ParseFloatParts(w, f);
    DecimalValueShift(w, f);
  }

  /** `w.f` is the numeral `wf` divided by ten to the number of fractional digits. */
  lemma DecimalValueShift(w: string, f: string)
    requires AllDigits(w) && AllDigits(f)
    ensures AllDigits(w + f)
    ensures DecimalValue(w, f) == DigitsValue(w + f) as real / Pow10(|f|) as real
  {
    DigitsValueConcat(w, f);
    ShiftFraction(DigitsValue(w + f), DigitsValue(w), DigitsValue(f), Pow10(|f|));
  }

  /** The whole part of "w.f" is read from `w` and the fraction from `f`. */
  lemma ParseFloatParts(w: string, f: string)
    requires AllDigits(w) && AllDigits(f) && |w| + |f| > 0
    ensures ParseFloat(w + "." + f) == Some(DecimalValue(w, f))
  {
    var s := w + "." + f;
    assert s == w + ("." + f);
    DigitsPrefixEnd(w, "." + f);
    var p := DigitsEnd(s, 0);
    assert p == |w| && p < |s|;
    var whole, frac := s[..p], s[p + 1..];
    assert whole == w;
    assert frac == f;
    assert AllDigits(frac) && !(p == 0 && frac == []);
  }

  /** Appending digits shifts the value left by one decimal place per digit. */
  lemma {:induction false} DigitsValueConcat(w: string, f: string)
    requires AllDigits(w) && AllDigits(f)
    ensures AllDigits(w + f)
    ensures DigitsValue(w + f) == DigitsValue(w) * Pow10(|f|) + DigitsValue(f)
  {
    AllDigitsConcat(w, f);
    if f == [] {
      assert w + f == w;
    } else {
      var u := w + f;
      var init := f[..|f| - 1];
      var d := DigitValue(f[|f| - 1]);
      assert u[..|u| - 1] == w + init;
      assert u[|u| - 1] == f[|f| - 1];
      DigitsValueConcat(w, init);
      assert DigitsValue(u) == DigitsValue(w + init) * 10 + d;
      assert DigitsValue(f) == DigitsValue(init) * 10 + d;
      ShiftStep(DigitsValue(w), Pow10(|init|), DigitsValue(init), d);
    }
  }

  lemma AllDigitsConcat(w: string, f: string)
    requires AllDigits(w) && AllDigits(f)
    ensures AllDigits(w + f)
  {
    forall j | 0 <= j < |w + f| ensures IsDigit((w + f)[j]) {
      if j >= |w| {
        assert (w + f)[j] == f[j - |w|];
      }
    }
  }

  /** One more digit: (a * p + b) * 10 + d is a * (10 * p) + (b * 10 + d). */
  lemma ShiftStep(a: nat, p: nat, b: nat, d: nat)
    ensures (a * p + b) * 10 + d == a * (10 * p) + (b * 10 + d)
  {
  }

  /** (a * p + b) / p is a + b / p. */
  lemma ShiftFraction(n: nat, a: nat, b: nat, p: nat)
    requires p > 0 && n == a * p + b
    ensures (n as real) / (p as real) == a as real + (b as real) / (p as real)
  {
    var q := p as real;
    assert ((a * p + b) as real) == (a as real) * q + b as real;
    assert ((a as real) * q + b as real) / q == (a as real) * q / q + (b as real) / q;
  }

  /** What the price text yields: no match, a match float() rejects, or a price. */
  datatype PriceParse = NoMatch | Unparsable(cleaned: string) | Parsed(value: real)

  /** Lines 71-74 of the extractor: search, strip the commas, convert. */
  function ParsePrice(text: string): (r: PriceParse)
    ensures r.Unparsable? ==>
              Search(text).Some? &&
              r.cleaned == RemoveCommas(text[Search(text).value.start..Search(text).value.end])
    ensures r.Parsed? ==> r.value >= 0.0
  {
    match Cleaned(text)
    case None => NoMatch
    case Some(c) =>
      CleanedShape(text);
      DecimalShapeFacts(c);
      match ParseFloat(c)
      case None => Unparsable(c)
      case Some(v) => Parsed(v)
  }

  /**
   * The three outcomes: no match exactly when the text has no digit and no
   * comma; a ValueError exactly when the matched stretch has no digit (only
   * commas, perhaps with a dot); otherwise a non-negative price.
   */
  lemma ParsePriceOutcomes(text: string)
    ensures ParsePrice(text) == NoMatch <==> NoDigitOrComma(text)
    ensures ParsePrice(text).Unparsable? <==>
              Search(text).Some? && !HasDigit(text[Search(text).value.start..Search(text).value.end])
    ensures ParsePrice(text).Unparsable? ==> !HasDigit(ParsePrice(text).cleaned)
    ensures ParsePrice(text).Parsed? ==> ParsePrice(text).value >= 0.0
  {
    if Cleaned(text).Some? {
      var c := Cleaned(text).value;
      CleanedShape(text);
      DecimalShapeFacts(c);
      ParseFloatSucceeds(c);
    }
  }

  /** A rupee price with a thousands separator and paise: "₹1,299.00" gives 1299.0. */
  lemma RupeeExample()
    ensures ParsePrice("\U{20B9}1,299.00") == Parsed(1299.0)
  {
    var t := "\U{20B9}1,299.00";
    RupeeCleaned();
    RupeeFloat();
    ParsedFromCleaned(t, "1299.00", 1299.0);
  }

  /** A text whose cleaned match converts to `v` parses to `v`. */
  lemma ParsedFromCleaned(text: string, c: string, v: real)
    requires Cleaned(text) == Some(c)
    requires DigitsAndDots(c)
    requires ParseFloat(c) == Some(v)
    ensures ParsePrice(text) == Parsed(v)
  {
  }

  lemma RupeeCleaned()
    ensures Cleaned("\U{20B9}1,299.00") == Some("1299.00")
  {
    var t := "\U{20B9}1,299.00";
    RupeeSearch();
    assert t[1..9] == "1,299.00";
    RupeeCommas();
  }

  lemma RupeeCommas()
    ensures RemoveCommas("1,299.00") == "1299.00"
  {
    assert RemoveCommas("00") == "00";
    assert RemoveCommas(".00") == ".00";
    assert RemoveCommas("299.00") == "299.00";
    assert RemoveCommas(",299.00") == "299.00";
  }

  lemma RupeeSearch()
    ensures Search("\U{20B9}1,299.00") == Some(Span(1, 9))
  {
    var t := "\U{20B9}1,299.00";
    assert SkipToRun(t, 0) == 1;
    assert RunEnd(t, 6) == 6;
    assert RunEnd(t, 1) == 6;
    assert DigitsEnd(t, 9) == 9;
    assert DigitsEnd(t, 7) == 9;
  }

  lemma RupeeFloat()
    ensures ParseFloat("1299.00") == Some(1299.0)
  {
    var c := "1299.00";
    assert DigitsEnd(c, 4) == 4;
    assert DigitsEnd(c, 0) == 4;
    assert c[..4] == "1299";
    assert c[5..] == "00";
    assert DigitsValue("00") == 0;
    FourDigits();
  }

  lemma FourDigits()
    ensures DigitsValue("1299") == 1299
  {
    assert "1299"[..3] == "129";
    assert "129"[..2] == "12";
    assert "12"[..1] == "1";
    assert "1"[..0] == "";
  }

  /** A match of commas only cleans to the empty string, which float() rejects. */
  lemma CommasOnlyExample()
    ensures ParsePrice("Price: ,,") == Unparsable("")
  {
    var t := "Price: ,,";
    assert SkipToRun(t, 0) == 7;
    assert RunEnd(t, 7) == 9;
    assert RemoveCommas(t[7..9]) == "";
  }

  /** The digit character for 0..9. */
  function DigitChar(k: nat): (c: char)
    requires k < 10
    ensures IsDigit(c) && DigitValue(c) == k
  {
    ('0' as int + k) as char
  }

  /** The decimal rendering of a natural number, most significant digit first. */
  function NatDigits(n: nat): (d: string)
    ensures d != [] && AllDigits(d)
  {
    if n < 10 then [DigitChar(n)] else NatDigits(n / 10) + [DigitChar(n % 10)]
  }

  /** Reading the digits back gives the number. */
  lemma {:induction false} NatDigitsValue(n: nat)
    ensures DigitsValue(NatDigits(n)) == n
  {
    if n >= 10 {
      NatDigitsValue(n / 10);
      var d := NatDigits(n);
      assert d[..|d| - 1] == NatDigits(n / 10);
    }
  }

  /** A whole number written in decimal is read back as that number. */
  lemma ParseWholeNumber(n: nat)
    ensures ParsePrice(NatDigits(n)) == Parsed(n as real)
  {
    var d := NatDigits(n);
    assert IsDigitOrComma(d[0]);
    assert SkipToRun(d, 0) == 0;
    assert RunEnd(d, 0) == |d|;
    assert d[0..|d|] == d;
    RemoveCommasKeeps(d);
    ParseFloatDigits(d);
    NatDigitsValue(n);
  }

  /*
   * Text before the price that holds no digit and no comma (a currency sign,
   * "Rs.", "MRP:", white space) does not change what is parsed.
   */

  /** A match moved `n` characters to the right; no match stays no match. */
  function Moved(m: Option<Span>, n: nat): Option<Span>
  {
    match m
    case None => None
    case Some(span) => Some(Span(n + span.start, n + span.end))
  }

  /** `u` is `t` with `n` characters in front of it. */
  predicate ShiftedBy(u: string, t: string, n: nat)
  {
    |u| == n + |t| && forall j :: 0 <= j < |t| ==> u[n + j] == t[j]
  }

  /** Looking for the run passes over a front part without digits or commas. */
  lemma {:induction false} SkipToRunFront(u: string, n: nat, k: nat)
    requires k <= n <= |u|
    requires NoDigitOrComma(u[..n])
    ensures SkipToRun(u, k) == SkipToRun(u, n)
    decreases n - k
  {
    if k < n {
      assert u[..n][k] == u[k];
      SkipToRunFront(u, n, k + 1);
    }
  }

  lemma {:induction false} SkipToRunShift(u: string, t: string, n: nat, i: nat)
    requires ShiftedBy(u, t, n) && i <= |t|
    ensures SkipToRun(u, n + i) == n + SkipToRun(t, i)
    decreases |t| - i
  {
    if i < |t| {
      assert u[n + i] == t[i];
      SkipToRunShift(u, t, n, i + 1);
    }
  }

  lemma {:induction false} RunEndShift(u: string, t: string, n: nat, i: nat)
    requires ShiftedBy(u, t, n) && i <= |t|
    ensures RunEnd(u, n + i) == n + RunEnd(t, i)
    decreases |t| - i
  {
    if i < |t| {
      assert u[n + i] == t[i];
      RunEndShift(u, t, n, i + 1);
    }
  }

  lemma {:induction false} DigitsEndShift(u: string, t: string, n: nat, i: nat)
    requires ShiftedBy(u, t, n) && i <= |t|
    ensures DigitsEnd(u, n + i) == n + DigitsEnd(t, i)
    decreases |t| - i
  {
    if i < |t| {
      assert u[n + i] == t[i];
      DigitsEndShift(u, t, n, i + 1);
    }
  }

  /** Where a match whose run ends at `r` ends: after the dot and its digits, if a dot follows. */
  function MatchEnd(t: string, r: nat): (e: nat)
    requires r <= |t|
    ensures r <= e <= |t|
  {
    if r < |t| && t[r] == '.' then DigitsEnd(t, r + 1) else r
  }

  /** The scanner's match, given where its run starts and ends. */
  lemma SearchIs(t: string, i: nat, r: nat)
    requires i < |t| && SkipToRun(t, 0) == i && RunEnd(t, i) == r
    ensures Search(t) == Some(Span(i, MatchEnd(t, r)))
  {
  }

  /** The scanner's positions in `u` are those in `t` moved by `n`. */
  predicate ScanShifted(u: string, t: string, n: nat)
  {
    |u| == n + |t| && SkipToRun(u, 0) == n + SkipToRun(t, 0) &&
    (SkipToRun(t, 0) < |t| ==>
       var i := SkipToRun(t, 0);
       var r := RunEnd(t, i);
       RunEnd(u, n + i) == n + r && MatchEnd(u, n + r) == n + MatchEnd(t, r))
  }

  lemma ShiftedScan(u: string, t: string, n: nat)
    requires ShiftedBy(u, t, n) && NoDigitOrComma(u[..n])
    ensures ScanShifted(u, t, n)
  {
    ScanStartShift(u, t, n);
    var i := SkipToRun(t, 0);
    if i < |t| {
      RunEndShift(u, t, n, i);
      MatchEndShift(u, t, n, RunEnd(t, i));
    }
  }

  lemma ScanStartShift(u: string, t: string, n: nat)
    requires ShiftedBy(u, t, n) && NoDigitOrComma(u[..n])
    ensures |u| == n + |t| && SkipToRun(u, 0) == n + SkipToRun(t, 0)
  {
    SkipToRunFront(u, n, 0);
    SkipToRunShift(u, t, n, 0);
  }

  lemma MatchEndShift(u: string, t: string, n: nat, r: nat)
    requires ShiftedBy(u, t, n) && r <= |t|
    ensures MatchEnd(u, n + r) == n + MatchEnd(t, r)
  {
    if r < |t| {
      assert u[n + r] == t[r];
      if t[r] == '.' {
        DigitsEndShift(u, t, n, r + 1);
      }
    }
  }

  lemma SearchFromScan(u: string, t: string, n: nat)
    requires ScanShifted(u, t, n)
    ensures Search(u) == Moved(Search(t), n)
  {
    var i := SkipToRun(t, 0);
    if i == |t| {
      assert Search(t) == None && Search(u) == None;
    } else {
      var r := RunEnd(t, i);
      SearchIs(t, i, r);
      SearchIs(u, n + i, n + r);
    }
  }

  /** A front part without digits or commas moves the match by its length. */
  lemma SearchShift(u: string, t: string, n: nat)
    requires ShiftedBy(u, t, n) && NoDigitOrComma(u[..n])
    ensures Search(u) == Moved(Search(t), n)
  {
    ShiftedScan(u, t, n);
    SearchFromScan(u, t, n);
  }

  /** A prefix without digits or commas moves the match by its length. */
  lemma SearchPrefix(prefix: string, t: string)
    requires NoDigitOrComma(prefix)
    ensures Search(prefix + t) == Moved(Search(t), |prefix|)
  {
    PrefixShifted(prefix, t);
    SearchShift(prefix + t, t, |prefix|);
  }

  lemma PrefixShifted(prefix: string, t: string)
    requires NoDigitOrComma(prefix)
    ensures ShiftedBy(prefix + t, t, |prefix|) && NoDigitOrComma((prefix + t)[..|prefix|])
  {
    var u := prefix + t;
    assert u[..|prefix|] == prefix;
    forall j | 0 <= j < |t| ensures u[|prefix| + j] == t[j] {
    }
  }

  /** A prefix without digits or commas changes where the match is, not what it is. */
  lemma ParsePriceIgnoresPrefix(prefix: string, t: string)
    requires NoDigitOrComma(prefix)
    ensures ParsePrice(prefix + t) == ParsePrice(t)
  {
    CleanedIgnoresPrefix(prefix, t);
  }

  lemma CleanedIgnoresPrefix(prefix: string, t: string)
    requires NoDigitOrComma(prefix)
    ensures Cleaned(prefix + t) == Cleaned(t)
  {
    PrefixShifted(prefix, t);
    CleanedShift(prefix + t, t, |prefix|);
  }

  /** A front part without digits or commas leaves the cleaned match as it is. */
  lemma CleanedShift(u: string, t: string, n: nat)
    requires ShiftedBy(u, t, n) && NoDigitOrComma(u[..n])
    ensures Cleaned(u) == Cleaned(t)
  {
    SearchShift(u, t, n);
    if Search(t).Some? {
      SliceShift(u, t, n, Search(t).value.start, Search(t).value.end);
    }
  }

  lemma SliceShift(u: string, t: string, n: nat, a: nat, b: nat)
    requires ShiftedBy(u, t, n) && a <= b <= |t|
    ensures u[n + a..n + b] == t[a..b]
  {
    var m, w := u[n + a..n + b], t[a..b];
    forall k | 0 <= k < |w| ensures m[k] == w[k] {
      assert m[k] == u[n + (a + k)];
    }
  }
}
