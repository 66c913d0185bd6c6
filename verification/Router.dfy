/** Choosing the assurance lane of a payment from its value. */
module Router {
  import opened Wrappers
  import opened Decimals
  import opened Intents
  import opened Pricing

  datatype Tier = ChannelCustody | FastPath | QuorumBackstop

  datatype RoutingDecision = RoutingDecision(tier: Tier, valueRlusd: Decimal, reasons: seq<string>)

  datatype TierRouter = TierRouter(channelCeiling: Decimal, fastPathCeiling: Decimal, provider: RateProvider) {

    predicate Valid() {
      provider.Valid() && 0.0 < Value(channelCeiling) < Value(fastPathCeiling)
    }

    function Route(feed: Feed, intent: PaymentIntent): Result<RoutingDecision, RateError>
      requires Valid()
    {
      var value :- provider.ToRlusd(feed, intent.asset, intent.amount);
      if intent.rwa.Some? && intent.rwa.value.isRwa then
        Ok(RoutingDecision(QuorumBackstop, value, ["rwa_requires_full_compliance_review"]))
      else if Value(value) <= Value(channelCeiling) then
        Ok(RoutingDecision(ChannelCustody, value, ["low_value_high_frequency"]))
      else if Value(value) <= Value(fastPathCeiling) then
        Ok(RoutingDecision(FastPath, value, ["mid_value"]))
      else
        Ok(RoutingDecision(QuorumBackstop, value, ["high_value"]))
    }
  }

  /** A signer without a router sends everything to the backstop. */
  function LaneOf(router: Option<TierRouter>, feed: Feed, intent: PaymentIntent): Result<Tier, RateError>
    requires router.Some? ==> router.value.Valid()
  {
    if router.None? then Ok(QuorumBackstop)
    else
      var decision :- router.value.Route(feed, intent);
      Ok(decision.tier)
  }

  /** How much scrutiny a lane applies. */
  function Weight(t: Tier): nat {
    match t
    case ChannelCustody => 0
    case FastPath => 1
    case QuorumBackstop => 2
  }

  predicate IsRwa(intent: PaymentIntent) {
    intent.rwa.Some? && intent.rwa.value.isRwa
  }

  /**
   The lane of every payment: an asset transfer goes to the backstop whatever its value, and anything else
   where its worth falls between the ceilings.
   */
  lemma LaneIff(r: TierRouter, feed: Feed, intent: PaymentIntent)
    requires r.Valid()
    ensures var d := r.Route(feed, intent);
            var worth := Worth(r.provider, feed, intent.asset, intent.amount);
            (d.Ok? <==> Priced(r.provider, feed, intent.asset))
            && (d.Ok? ==> Value(d.value.valueRlusd) == worth)
            && (d.Ok? && IsRwa(intent) ==>
                  d.value.tier == QuorumBackstop && d.value.reasons == ["rwa_requires_full_compliance_review"])
            && (d.Ok? && !IsRwa(intent) ==>
                  (d.value.tier == ChannelCustody <==> worth <= Value(r.channelCeiling))
                  && (d.value.tier == FastPath <==> Value(r.channelCeiling) < worth <= Value(r.fastPathCeiling))
                  && (d.value.tier == QuorumBackstop <==> worth > Value(r.fastPathCeiling))
                  && (d.value.reasons == ["low_value_high_frequency"] <==> d.value.tier == ChannelCustody)
                  && (d.value.reasons == ["mid_value"] <==> d.value.tier == FastPath)
                  && (d.value.reasons == ["high_value"] <==> d.value.tier == QuorumBackstop))
  {
    ValuedAtWorth(r.provider, feed, intent.asset, intent.amount);
  }

  /** Other than XRP, an asset is routed by its face value, and always can be. */
  lemma FaceValueLanes(router: Option<TierRouter>, feed: Feed, intent: PaymentIntent)
    requires (router.Some? ==> router.value.Valid()) && intent.asset != "XRP"
    ensures var lane := LaneOf(router, feed, intent);
            lane.Ok?
            && (lane.value == ChannelCustody <==>
                router.Some? && !IsRwa(intent) && Value(intent.amount) <= Value(router.value.channelCeiling))
            && (lane.value == QuorumBackstop <==>
                router.None? || IsRwa(intent) || Value(intent.amount) > Value(router.value.fastPathCeiling))
  {
    if router.Some? {
      LaneIff(router.value, feed, intent);
    }
  }

  /**
   At one price, a larger amount of the same asset never gets a lighter lane, in spite of the
   rounding of the conversion; making the payment an asset transfer never lightens it either.
   */
  lemma LargerNeverLighter(r: TierRouter, feed: Feed, small: PaymentIntent, large: PaymentIntent)
    requires r.Valid()
    requires small.asset == large.asset && Value(small.amount) <= Value(large.amount)
    requires IsRwa(small) ==> IsRwa(large)
    ensures var a, b := r.Route(feed, small), r.Route(feed, large);
            a.Ok? == b.Ok? && (a.Ok? ==> Weight(a.value.tier) <= Weight(b.value.tier))
  {
    ConversionKeepsOrder(r.provider, feed, small.asset, small.amount, large.amount);
  }

  /** The same from the drops on the wire: two roundings, one in each conversion, and still no lighter lane. */
  lemma MoreDropsNeverLighter(r: TierRouter, feed: Feed, small: PaymentIntent, large: PaymentIntent, drops: Decimal,
                              moreDrops: Decimal)
    requires r.Valid() && Value(drops) <= Value(moreDrops)
    requires small.asset == large.asset == "XRP" && small.rwa == large.rwa == None
    requires small.amount == DropsToXrp(drops) && large.amount == DropsToXrp(moreDrops)
    ensures var a, b := r.Route(feed, small), r.Route(feed, large);
            a.Ok? == b.Ok? && (a.Ok? ==> Weight(a.value.tier) <= Weight(b.value.tier))
  {
    ShiftSum(drops.coef as real, drops.exp, -6);
    ShiftSum(moreDrops.coef as real, moreDrops.exp, -6);
    ShiftOrder(Value(drops), Value(moreDrops), -6);
    RoundedMono(Decimal(drops.coef, drops.exp - 6), Decimal(moreDrops.coef, moreDrops.exp - 6));
    LargerNeverLighter(r, feed, small, large);
  }

  /** For drops of at most 18 digits and rates of at most 10, the lane is that of the exact rational value. */
  lemma ShortDropsRouteExactly(r: TierRouter, feed: Feed, intent: PaymentIntent, drops: nat)
    requires r.Valid() && r.provider.Rate(feed).Ok?
    requires Digits(drops) <= 18 && Digits(r.provider.Rate(feed).value.coef) <= 10
    requires intent.asset == "XRP" && intent.amount == DropsToXrp(Decimal(drops, 0)) && !IsRwa(intent)
    ensures var exact := Value(ExactValue(drops, r.provider.Rate(feed).value));
            r.Route(feed, intent).Ok?
            && (r.Route(feed, intent).value.tier == ChannelCustody <==> exact <= Value(r.channelCeiling))
            && (r.Route(feed, intent).value.tier == QuorumBackstop <==> exact > Value(r.fastPathCeiling))
  {
    ShortConversionIsExact(r.provider, feed, drops);
  }
}
