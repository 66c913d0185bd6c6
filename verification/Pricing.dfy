/** Converting an amount to its RLUSD equivalent, by a fixed rate or by a live one with an age limit. */
module Pricing {
  import opened Wrappers
  import opened Decimals
  import Arith

  datatype Quote = Bare(rate: Decimal) | Timed(rate: Decimal, asOf: real)

  /** What the injected price function and clock answer during one call. */
  datatype Feed = Feed(quote: Quote, clock: real)

  datatype RateError = RateTooOld | RateNotPositive

  datatype RateProvider = StaticRate(xrpToRlusd: Decimal) | CallableRate(maxAgeS: Option<real>) {

    /** A static rate is checked when the provider is built. */
    predicate Valid() {
      StaticRate? ==> xrpToRlusd.coef > 0
    }

    function Rate(feed: Feed): (r: Result<Decimal, RateError>)
      requires Valid()
      ensures r.Ok? ==> r.value.coef > 0
    {
      match this
      case StaticRate(rate) => Ok(rate)
      case CallableRate(maxAge) =>
        if feed.quote.Timed? && maxAge.Some? && feed.clock - feed.quote.asOf > maxAge.value then Err(RateTooOld)
        else if Value(feed.quote.rate) <= 0.0 then PositiveValue(feed.quote.rate); Err(RateNotPositive)
        else PositiveValue(feed.quote.rate); Ok(feed.quote.rate)
    }

    /** Only XRP is converted: every other asset counts at face value. */
    function ToRlusd(feed: Feed, asset: string, amount: Decimal): Result<Decimal, RateError>
      requires Valid()
    {
      if asset == "XRP" then
        var rate :- Rate(feed);
        Ok(Mul(amount, rate))
      else
        Ok(amount)
    }
  }

  /**
   Whether a value can be had depends on the asset and the feed, never on the amount; and the order of
   amounts is kept.
   */
  lemma ConversionKeepsOrder(p: RateProvider, feed: Feed, asset: string, a: Decimal, b: Decimal)
    requires p.Valid() && Value(a) <= Value(b)
    ensures var va, vb := p.ToRlusd(feed, asset, a), p.ToRlusd(feed, asset, b);
            va.Ok? == vb.Ok? && (va.Ok? ==> Value(va.value) <= Value(vb.value))
  {
    if asset == "XRP" && p.Rate(feed).Ok? {
      MulOrder(a, b, p.Rate(feed).value);
    }
  }

  /** The live rate is positive and, if it carries a time and a limit is set, no older than that limit. */
  predicate FreshRate(p: RateProvider, feed: Feed)
    requires p.CallableRate?
  {
    Value(feed.quote.rate) > 0.0
    && (feed.quote.Timed? && p.maxAgeS.Some? ==> feed.clock - feed.quote.asOf <= p.maxAgeS.value)
  }

  /** The live rate carries a time from before the limit. */
  predicate TooOld(p: RateProvider, feed: Feed) {
    p.CallableRate? && feed.quote.Timed? && p.maxAgeS.Some? && feed.quote.asOf < feed.clock - p.maxAgeS.value
  }

  /** Whether a rate can be had: a static one always, a live one when it is fresh. */
  predicate UsableRate(p: RateProvider, feed: Feed) {
    p.StaticRate? || FreshRate(p, feed)
  }

  function RateOf(p: RateProvider, feed: Feed): Decimal {
    if p.StaticRate? then p.xrpToRlusd else feed.quote.rate
  }

  /** Whether an amount of the asset can be valued. */
  predicate Priced(p: RateProvider, feed: Feed, asset: string) {
    asset == "XRP" ==> UsableRate(p, feed)
  }

  /** What an amount is worth in RLUSD: XRP at the rate, to 28 digits, and everything else at face value. */
  function Worth(p: RateProvider, feed: Feed, asset: string, amount: Decimal): real {
    if asset == "XRP" then Value(Mul(amount, RateOf(p, feed))) else Value(amount)
  }

  /**
   The value every decision rests on: XRP alone needs a rate, and counts with it; any other asset counts at
   its face value, exactly.
   */
  lemma ValuedAtWorth(p: RateProvider, feed: Feed, asset: string, amount: Decimal)
    requires p.Valid()
    ensures var v := p.ToRlusd(feed, asset, amount);
            (v.Ok? <==> Priced(p, feed, asset))
            && (v.Ok? ==> Value(v.value) == Worth(p, feed, asset, amount))
            && (v.Ok? && asset != "XRP" ==> Value(v.value) == Value(amount))
            && (v == Err(RateTooOld) <==> asset == "XRP" && TooOld(p, feed))
            && (v == Err(RateNotPositive) <==> asset == "XRP" && p.CallableRate? && !TooOld(p, feed)
                                               && Value(feed.quote.rate) <= 0.0)
  {
    if asset == "XRP" {
      RateIs(p, feed);
    }
  }

  lemma RateIs(p: RateProvider, feed: Feed)
    requires p.Valid()
    ensures p.Rate(feed).Ok? <==> UsableRate(p, feed)
    ensures p.Rate(feed).Ok? ==> p.Rate(feed).value == RateOf(p, feed)
  {
    if p.CallableRate? {
      RateIsFresh(p, feed);
    }
  }

  lemma RateIsFresh(p: RateProvider, feed: Feed)
    requires p.CallableRate?
    ensures p.Rate(feed).Ok? <==> FreshRate(p, feed)
    ensures p.Rate(feed).Ok? ==> p.Rate(feed).value == feed.quote.rate
  {
  }

  /** The rational value of a number of drops at a rate, as a decimal with all its digits. */
  function ExactValue(drops: nat, rate: Decimal): Decimal {
    Decimal(drops * rate.coef, rate.exp - 6)
  }

  lemma ExactValueIs(drops: nat, rate: Decimal)
    ensures Value(ExactValue(drops, rate)) == drops as real / 1000000.0 * Value(rate)
  {
    ProductValue(Decimal(drops, -6), rate);
    MicroValue(drops);
    SameProduct(Value(Decimal(drops, -6)), drops as real / 1000000.0, Value(rate));
  }

  lemma SameProduct(x: real, y: real, z: real)
    requires x == y
    ensures x * z == y * z
  {
  }

  /** With at most 18 digits of drops and 10 digits of rate nothing is rounded: the value is the exact product. */
  lemma ShortConversionIsExact(p: RateProvider, feed: Feed, drops: nat)
    requires p.Valid() && p.Rate(feed).Ok?
    requires Digits(drops) <= 18 && Digits(p.Rate(feed).value.coef) <= 10
    ensures p.ToRlusd(feed, "XRP", DropsToXrp(Decimal(drops, 0))) == Ok(ExactValue(drops, p.Rate(feed).value))
  {
    var rate := p.Rate(feed).value;
    ShortProduct(drops, rate.coef, 18, 10);
    assert DropsToXrp(Decimal(drops, 0)) == Decimal(drops, -6);
  }

  lemma ShortProduct(a: nat, b: nat, i: nat, j: nat)
    requires Digits(a) <= i && Digits(b) <= j && i + j == PRECISION
    ensures a * b >= 0 && Digits(a * b) <= PRECISION
  {
    PowMono(Digits(a), i);
    PowMono(Digits(b), j);
    PowAdd(i, j);
    ProductDigits(a, b, Pow10(i), Pow10(j));
  }

  lemma ProductDigits(a: nat, b: nat, p: nat, q: nat)
    requires a < p && b < q && p * q == Pow10(PRECISION)
    ensures a * b >= 0 && Digits(a * b) <= PRECISION
  {
    ProductBelow(a, b, p, q);
    DigitsBound(a * b, PRECISION);
  }

  lemma ProductBelow(a: nat, b: nat, p: nat, q: nat)
    requires a < p && b < q
    ensures 0 <= a * b < p * q
  {
    Arith.MulMono(a, p, b);
    Arith.MulMono(b + 1, q, p);
  }

  lemma MicroValue(drops: nat)
    ensures Value(Decimal(drops, -6)) == drops as real / 1000000.0
  {
    var x := drops as real;
    assert Shift(x, -2) == Shift(x, -1) / 10.0;
    assert Shift(x, -4) == Shift(x, -3) / 10.0 == Shift(x, -2) / 100.0;
    assert Shift(x, -6) == Shift(x, -5) / 10.0 == Shift(x, -4) / 100.0;
  }

  /**
   Rounding can only make a value look smaller against a limit of at most 28 digits, and then it
   lands exactly on the limit.
   */
  lemma RoundedComparison(v: Decimal, limit: Decimal)
    requires Fits(limit.coef)
    ensures Value(Rounded(v)) > Value(limit) <==> Value(v) > Value(limit) && Value(Rounded(v)) != Value(limit)
  {
    RoundedExactIff(limit);
    if Value(v) <= Value(limit) {
      RoundedMono(v, limit);
    } else {
      RoundedMono(limit, v);
    }
  }
}
