/**
 The risk engine: a sliding log of recent payments, a breaker that freezes on the first RED
 verdict until a human reset, and an audit log of every verdict.
 */
module RiskEngine {
  import opened Wrappers
  import opened Decimals
  import opened Intents
  import opened Pricing
  import opened SlidingWindow
  import opened RwaRule

  datatype RiskLevel = GREEN | YELLOW | RED

  /** What makes two payments repeats of one another; amounts are compared by value. */
  datatype Transfer = Transfer(destination: string, asset: string, amount: real)

  datatype Policy = Policy(
    whitelist: set<string>,
    threshold: Decimal,
    windowS: real,
    limit: int,
    provider: RateProvider)

  datatype Verdict = Verdict(
    intent: PaymentIntent,
    level: RiskLevel,
    rlusdEquivalent: Decimal,
    amountFlag: bool,
    whitelistFlag: bool,
    frequencyFlag: bool,
    repeatCount: nat,
    rwaFindings: seq<Finding>,
    firedReasons: seq<string>,
    wasTripped: bool,
    tripped: bool,
    trippedNow: bool,
    tripReasons: seq<string>)

  datatype State = State(log: seq<Stamped<Transfer>>, tripped: bool, tripReasons: seq<string>, audit: seq<Verdict>)

  const FROZEN := Finding("circuit_breaker_frozen", SevRed)

  function What(intent: PaymentIntent): Transfer {
    Transfer(intent.destination, intent.asset, Value(intent.amount))
  }

  function EntryOf(intent: PaymentIntent): Stamped<Transfer> {
    Stamped(intent.timestamp, What(intent))
  }

  function Codes(fired: seq<Finding>): seq<string> {
    seq(|fired|, i requires 0 <= i < |fired| => fired[i].code)
  }

  function LevelOf(fired: seq<Finding>): RiskLevel {
    if AnyRed(fired) then RED else if fired != [] then YELLOW else GREEN
  }

  function EngineFindings(amountFlag: bool, whitelistFlag: bool, frequencyFlag: bool): seq<Finding> {
    Add(Add(Add([], amountFlag, Finding("value_threshold_exceeded", SevYellow)),
            whitelistFlag, Finding("untrusted_destination", SevRed)),
        frequencyFlag, Finding("transaction_loop_detected", SevRed))
  }

  /** A frozen engine adds that to what fired, once. */
  function Reported(fired: seq<Finding>, frozen: bool): seq<Finding> {
    if frozen && FROZEN.code !in Codes(fired) then fired + [FROZEN] else fired
  }

  /** The verdict on an intent valued at `rlusd`, from the state before it. */
  function Judge(p: Policy, s: State, intent: PaymentIntent, rlusd: Decimal): Verdict {
    var amountFlag := Value(rlusd) > Value(p.threshold);
    var whitelistFlag := intent.destination !in p.whitelist;
    var repeats := Matches(Pruned(s.log, intent.timestamp, p.windowS), What(intent)) + 1;
    var frequencyFlag := repeats > p.limit;
    var rwaFindings := if intent.rwa.Some? then Findings(intent.rwa.value) else [];
    var fired := EngineFindings(amountFlag, whitelistFlag, frequencyFlag) + rwaFindings;
    var level := if s.tripped then RED else LevelOf(fired);
    var reported := Reported(fired, s.tripped);
    var trippedNow := level == RED && !s.tripped;
    Verdict(intent, level, rlusd, amountFlag, whitelistFlag, frequencyFlag, repeats, rwaFindings, Codes(reported),
            s.tripped, s.tripped || trippedNow, trippedNow,
            if trippedNow then Codes(reported) else s.tripReasons)
  }

  /** The state after a verdict. */
  function After(p: Policy, s: State, v: Verdict): State {
    State(Pruned(s.log, v.intent.timestamp, p.windowS) + [EntryOf(v.intent)], v.tripped, v.tripReasons, s.audit + [v])
  }

  /** One call of `evaluate`: no price, no verdict, and nothing changes. */
  function Evaluated(p: Policy, s: State, feed: Feed, intent: PaymentIntent): (State, Result<Verdict, RateError>)
    requires p.provider.Valid()
  {
    match p.provider.ToRlusd(feed, intent.asset, intent.amount)
    case Err(e) => (s, Err(e))
    case Ok(rlusd) => var v := Judge(p, s, intent, rlusd); (After(p, s, v), Ok(v))
  }

  function WasReset(s: State): State {
    s.(tripped := false, tripReasons := [])
  }

  const INITIAL := State([], false, [], [])

  // ---------------------------------------------------------------- the engine as an object

  class Engine {
    const policy: Policy
    var recentTxLog: seq<Stamped<Transfer>>
    var circuitBreakerTripped: bool
    var tripReasons: seq<string>
    var auditLog: seq<Verdict>

    ghost function View(): State
      reads this
    {
      State(recentTxLog, circuitBreakerTripped, tripReasons, auditLog)
    }

    constructor (policy: Policy)
      ensures this.policy == policy && View() == INITIAL
    {
      this.policy := policy;
      recentTxLog, circuitBreakerTripped, tripReasons, auditLog := [], false, [], [];
    }

    method PruneLog(now: real)
      modifies this`recentTxLog
      ensures recentTxLog == Pruned(old(recentTxLog), now, policy.windowS)
    {
      while recentTxLog != [] && now - recentTxLog[0].time > policy.windowS
        invariant Pruned(recentTxLog, now, policy.windowS) == Pruned(old(recentTxLog), now, policy.windowS)
        decreases |recentTxLog|
      {
        recentTxLog := recentTxLog[1..];
      }
    }

    method Evaluate(feed: Feed, intent: PaymentIntent) returns (r: Result<Verdict, RateError>)
      requires policy.provider.Valid()
      modifies this
      ensures (View(), r) == Evaluated(policy, old(View()), feed, intent)
    {
      var price := policy.provider.ToRlusd(feed, intent.asset, intent.amount);
      if price.Err? {
        return Err(price.error);
      }
      var rlusd := price.value;
      var amountFlag := Value(rlusd) > Value(policy.threshold);
      var whitelistFlag := intent.destination !in policy.whitelist;

      PruneLog(intent.timestamp);
      var repeatCount := Matches(recentTxLog, What(intent)) + 1;
      var frequencyFlag := repeatCount > policy.limit;
      recentTxLog := recentTxLog + [EntryOf(intent)];

      var fired, rwaFindings := FireRules(amountFlag, whitelistFlag, frequencyFlag, intent.rwa);
      var level := LevelOf(fired);
      var wasTripped := circuitBreakerTripped;
      if wasTripped {
        level := RED;
        if FROZEN.code !in Codes(fired) {
          fired := fired + [FROZEN];
        }
      }
      var trippedNow := false;
      if level == RED && !circuitBreakerTripped {
        circuitBreakerTripped := true;
        trippedNow := true;
        tripReasons := Codes(fired);
      }
      var v := Verdict(intent, level, rlusd, amountFlag, whitelistFlag, frequencyFlag, repeatCount, rwaFindings,
                       Codes(fired), wasTripped, circuitBreakerTripped, trippedNow, tripReasons);
      auditLog := auditLog + [v];
      return Ok(v);
    }

    /** The rules in their reporting order; the compliance findings come last. */
    method FireRules(amountFlag: bool, whitelistFlag: bool, frequencyFlag: bool, rwa: Option<RwaTransfer>)
      returns (fired: seq<Finding>, rwaFindings: seq<Finding>)
      ensures rwaFindings == if rwa.Some? then Findings(rwa.value) else []
      ensures fired == EngineFindings(amountFlag, whitelistFlag, frequencyFlag) + rwaFindings
    {
      fired := [];
      if amountFlag {
        fired := fired + [Finding("value_threshold_exceeded", SevYellow)];
      }
      if whitelistFlag {
        fired := fired + [Finding("untrusted_destination", SevRed)];
      }
      if frequencyFlag {
        fired := fired + [Finding("transaction_loop_detected", SevRed)];
      }
      rwaFindings := EvaluateRwa(rwa);
      fired := fired + rwaFindings;
    }

    method ResetCircuitBreaker(reason: string)
      modifies this`circuitBreakerTripped, this`tripReasons
      ensures View() == WasReset(old(View()))
    {
      circuitBreakerTripped := false;
      tripReasons := [];
    }
  }

  // ---------------------------------------------------------------- what one verdict means

  /**
   GREEN is exactly: not frozen, within the threshold, to a trusted payee, not a repeat too many, and no
   compliance finding.
   */
  lemma GreenIff(p: Policy, s: State, intent: PaymentIntent, rlusd: Decimal)
    ensures var v := Judge(p, s, intent, rlusd);
            v.level == GREEN <==>
            !s.tripped && Value(rlusd) <= Value(p.threshold) && intent.destination in p.whitelist
            && v.repeatCount <= p.limit && v.rwaFindings == []
    ensures var v := Judge(p, s, intent, rlusd);
            v.level == RED <==>
            s.tripped || intent.destination !in p.whitelist || v.repeatCount > p.limit || AnyRed(v.rwaFindings)
  {
    var v := Judge(p, s, intent, rlusd);
    var over, unknown := Finding("value_threshold_exceeded", SevYellow), Finding("untrusted_destination", SevRed);
    var loop := Finding("transaction_loop_detected", SevRed);
    var f1 := Add([], v.amountFlag, over);
    var f2 := Add(f1, v.whitelistFlag, unknown);
    AddRed([], v.amountFlag, over);
    AddRed(f1, v.whitelistFlag, unknown);
    AddRed(f2, v.frequencyFlag, loop);
    RedEither(EngineFindings(v.amountFlag, v.whitelistFlag, v.frequencyFlag), v.rwaFindings);
  }

  /** The engine, from `s`, gives the intent a GREEN verdict. */
  predicate JudgedGreen(p: Policy, s: State, feed: Feed, intent: PaymentIntent)
    requires p.provider.Valid()
  {
    var r := Evaluated(p, s, feed, intent).1;
    r.Ok? && r.value.level == GREEN
  }

  /** XRP that is judged GREEN at a live rate is within the threshold at a rate that is positive and not too old. */
  lemma GreenXrpIsFreshlyPriced(p: Policy, s: State, feed: Feed, intent: PaymentIntent)
    requires p.provider.Valid() && p.provider.CallableRate? && intent.asset == "XRP"
    requires JudgedGreen(p, s, feed, intent)
    ensures FreshRate(p.provider, feed) && Value(Mul(intent.amount, feed.quote.rate)) <= Value(p.threshold)
  {
    RateIsFresh(p.provider, feed);
    GreenIff(p, s, intent, Evaluated(p, s, feed, intent).1.value.rlusdEquivalent);
  }

  lemma RedEither(a: seq<Finding>, b: seq<Finding>)
    ensures AnyRed(a + b) <==> AnyRed(a) || AnyRed(b)
  {
    if AnyRed(a) {
      var i :| 0 <= i < |a| && a[i].severity == SevRed;
      assert (a + b)[i] == a[i];
    }
    if AnyRed(b) {
      var i :| 0 <= i < |b| && b[i].severity == SevRed;
      assert (a + b)[|a| + i] == b[i];
    }
  }

  // ---------------------------------------------------------------- what one evaluation means, from its intent

  /** Two payments are repeats exactly when payee, asset and value are the same. */
  lemma SameTransferIff(a: PaymentIntent, b: PaymentIntent)
    ensures What(a) == What(b) <==>
            a.destination == b.destination && a.asset == b.asset && Value(a.amount) == Value(b.amount)
    ensures EntryOf(a).time == a.timestamp
  {
  }

  /** The intent moves `what`, and is stamped in the closed interval from `lo` to `hi`. */
  predicate MovesIn(intent: PaymentIntent, what: Transfer, lo: real, hi: real) {
    intent.destination == what.destination && intent.asset == what.asset && Value(intent.amount) == what.amount
    && lo <= intent.timestamp <= hi
  }

  /** The intent's place among its repeats that the pruned log still holds. */
  function RepeatCount(p: Policy, s: State, intent: PaymentIntent): nat {
    Matches(Pruned(s.log, intent.timestamp, p.windowS), What(intent)) + 1
  }

  /** The asset transfer, if the payment is one, meets all four conditions of compliance. */
  predicate Compliant(intent: PaymentIntent) {
    intent.rwa.Some? && intent.rwa.value.isRwa ==>
      Authorized(intent.rwa.value) && Transferable(intent.rwa.value) && Credentialed(intent.rwa.value)
      && InsideDomain(intent.rwa.value)
  }

  predicate ClawbackExposed(intent: PaymentIntent) {
    intent.rwa.Some? && intent.rwa.value.isRwa && intent.rwa.value.clawbackEnabled
  }

  /**
   The level of every evaluation, from the intent, the policy and the state: there is a verdict exactly when
   the asset can be priced; it is RED when frozen, untrusted, a repeat too many or not compliant, otherwise
   YELLOW when over the threshold or exposed to clawback, and GREEN in no other case.
   */
  lemma LevelIff(p: Policy, s: State, feed: Feed, intent: PaymentIntent)
    requires p.provider.Valid()
    ensures var r := Evaluated(p, s, feed, intent).1;
            var red := s.tripped || intent.destination !in p.whitelist || RepeatCount(p, s, intent) > p.limit
                       || !Compliant(intent);
            var over := Worth(p.provider, feed, intent.asset, intent.amount) > Value(p.threshold);
            (r.Ok? <==> Priced(p.provider, feed, intent.asset))
            && (r.Err? ==> Evaluated(p, s, feed, intent).0 == s)
            && (r.Ok? ==>
                  r.value.intent == intent
                  && Value(r.value.rlusdEquivalent) == Worth(p.provider, feed, intent.asset, intent.amount)
                  && (r.value.level == RED <==> red)
                  && (r.value.level == YELLOW <==> !red && (over || ClawbackExposed(intent)))
                  && (r.value.level == GREEN <==> !red && !over && !ClawbackExposed(intent)))
  {
    ValuedAtWorth(p.provider, feed, intent.asset, intent.amount);
    if Priced(p.provider, feed, intent.asset) {
      var rlusd := p.provider.ToRlusd(feed, intent.asset, intent.amount).value;
      GreenIff(p, s, intent, rlusd);
      if intent.rwa.Some? {
        FindingsName(intent.rwa.value);
        NothingFoundIff(intent.rwa.value);
        if intent.rwa.value.isRwa {
          RedFreeIff(intent.rwa.value);
        }
      }
    }
  }

  /** Of these terms, a payment is one that the value, payee and velocity rules let through at this moment. */
  predicate LetThrough(p: Policy, s: State, feed: Feed, payee: string, asset: string, amount: Decimal, now: real) {
    !s.tripped && payee in p.whitelist
    && Priced(p.provider, feed, asset) && Worth(p.provider, feed, asset, amount) <= Value(p.threshold)
    && Matches(Pruned(s.log, now, p.windowS), Transfer(payee, asset, Value(amount))) + 1 <= p.limit
  }

  /** GREEN is what is let through on its terms and has nothing against its compliance. */
  lemma GreenIffLetThrough(p: Policy, s: State, feed: Feed, intent: PaymentIntent)
    requires p.provider.Valid()
    ensures JudgedGreen(p, s, feed, intent) <==>
            LetThrough(p, s, feed, intent.destination, intent.asset, intent.amount, intent.timestamp)
            && (intent.rwa.Some? ==> Findings(intent.rwa.value) == [])
  {
    LevelIff(p, s, feed, intent);
    if intent.rwa.Some? {
      NothingFoundIff(intent.rwa.value);
    }
  }

  /**
   An asset other than XRP is GREEN exactly at a face value within the threshold, on an open engine, to a
   trusted payee, not a repeat too many, compliant and free of clawback.
   */
  lemma FaceValueGreenIff(p: Policy, s: State, feed: Feed, intent: PaymentIntent)
    requires p.provider.Valid() && intent.asset != "XRP"
    ensures JudgedGreen(p, s, feed, intent) <==>
            Value(intent.amount) <= Value(p.threshold)
            && !s.tripped && intent.destination in p.whitelist && RepeatCount(p, s, intent) <= p.limit
            && Compliant(intent) && !ClawbackExposed(intent)
  {
    LevelIff(p, s, feed, intent);
  }

  /** What an evaluation leaves behind, from its level: the breaker, its reasons, and what it found. */
  lemma BreakerIff(p: Policy, s: State, feed: Feed, intent: PaymentIntent)
    requires p.provider.Valid() && Evaluated(p, s, feed, intent).1.Ok?
    ensures var (s', r) := Evaluated(p, s, feed, intent);
            var v := r.value;
            (s'.tripped <==> s.tripped || v.level == RED)
            && s'.tripReasons == (if v.level == RED && !s.tripped then v.firedReasons else s.tripReasons)
            && s'.audit == s.audit + [v]
            && v.wasTripped == s.tripped && v.tripped == s'.tripped && v.tripReasons == s'.tripReasons
            && (v.trippedNow <==> v.level == RED && !s.tripped)
            && v.repeatCount == RepeatCount(p, s, intent)
            && (v.amountFlag <==> Worth(p.provider, feed, intent.asset, intent.amount) > Value(p.threshold))
            && (v.whitelistFlag <==> intent.destination !in p.whitelist)
            && (v.frequencyFlag <==> v.repeatCount > p.limit)
  {
    ValuedAtWorth(p.provider, feed, intent.asset, intent.amount);
    LevelIff(p, s, feed, intent);
  }

  /**
   The reasons accumulate, on a frozen engine too: each condition that is not met is named, by its code, and
   no other code of the engine's own or of the compliance rule is given.
   */
  lemma ReasonsReported(p: Policy, s: State, feed: Feed, intent: PaymentIntent)
    requires p.provider.Valid() && Evaluated(p, s, feed, intent).1.Ok?
    ensures var codes := Evaluated(p, s, feed, intent).1.value.firedReasons;
            ("value_threshold_exceeded" in codes <==>
             Worth(p.provider, feed, intent.asset, intent.amount) > Value(p.threshold))
            && ("untrusted_destination" in codes <==> intent.destination !in p.whitelist)
            && ("transaction_loop_detected" in codes <==> RepeatCount(p, s, intent) > p.limit)
            && ("circuit_breaker_frozen" in codes <==> s.tripped)
            && forall code :: StartsWithR(code) ==>
                                (code in codes <==> intent.rwa.Some? && HasCode(Findings(intent.rwa.value), code))
  {
    ValuedAtWorth(p.provider, feed, intent.asset, intent.amount);
    if intent.rwa.Some? {
      RwaCodes(intent.rwa.value);
    }
    var v := Evaluated(p, s, feed, intent).1.value;
    ReportedCodes(v.amountFlag, v.whitelistFlag, v.frequencyFlag, v.rwaFindings, s.tripped);
  }

  lemma ReportedCodes(amountFlag: bool, whitelistFlag: bool, frequencyFlag: bool, rwaFindings: seq<Finding>,
                      frozen: bool)
    requires forall c :: c in Codes(rwaFindings) ==> StartsWithR(c)
    ensures var own := EngineFindings(amountFlag, whitelistFlag, frequencyFlag);
            var codes := Codes(Reported(own + rwaFindings, frozen));
            ("value_threshold_exceeded" in codes <==> amountFlag)
            && ("untrusted_destination" in codes <==> whitelistFlag)
            && ("transaction_loop_detected" in codes <==> frequencyFlag)
            && ("circuit_breaker_frozen" in codes <==> frozen)
            && forall code :: StartsWithR(code) ==> (code in codes <==> HasCode(rwaFindings, code))
  {
    var own := EngineFindings(amountFlag, whitelistFlag, frequencyFlag);
    OwnCodes(amountFlag, whitelistFlag, frequencyFlag);
    CodesConcat(own, rwaFindings);
    CodesConcat(own + rwaFindings, [FROZEN]);
    assert Codes([FROZEN]) == [FROZEN.code];
    assert Codes(Reported(own + rwaFindings, frozen))
        == Codes(own) + Codes(rwaFindings) + if frozen then [FROZEN.code] else [];
    forall code ensures code in Codes(rwaFindings) <==> HasCode(rwaFindings, code) {
      CodesHave(rwaFindings, code);
    }
  }

  lemma CodesHave(fs: seq<Finding>, code: string)
    ensures code in Codes(fs) <==> HasCode(fs, code)
  {
    if i :| 0 <= i < |fs| && fs[i].code == code {
      assert Codes(fs)[i] == code;
    }
  }

  lemma CodesConcat(a: seq<Finding>, b: seq<Finding>)
    ensures Codes(a + b) == Codes(a) + Codes(b)
  {
  }

  lemma OwnCodes(amountFlag: bool, whitelistFlag: bool, frequencyFlag: bool)
    ensures var codes := Codes(EngineFindings(amountFlag, whitelistFlag, frequencyFlag));
            ("value_threshold_exceeded" in codes <==> amountFlag)
            && ("untrusted_destination" in codes <==> whitelistFlag)
            && ("transaction_loop_detected" in codes <==> frequencyFlag)
            && forall c :: c in codes ==> !StartsWithR(c) && c != FROZEN.code
  {
    var f1 := Add([], amountFlag, Finding("value_threshold_exceeded", SevYellow));
    var f2 := Add(f1, whitelistFlag, Finding("untrusted_destination", SevRed));
    assert Codes(f1) == if amountFlag then ["value_threshold_exceeded"] else [];
    assert Codes(f2) == Codes(f1) + if whitelistFlag then ["untrusted_destination"] else [];
    assert Codes(EngineFindings(amountFlag, whitelistFlag, frequencyFlag))
        == Codes(f2) + if frequencyFlag then ["transaction_loop_detected"] else [];
  }

  /** The compliance codes share their first letter with none of the engine's own. */
  lemma RwaCodes(rwa: RwaTransfer)
    ensures forall c :: c in Codes(Findings(rwa)) ==> StartsWithR(c)
  {
    if rwa.isRwa {
      var f1 := Add([], rwa.requiresAuthorization && rwa.destinationAuthorized != Some(true), NOT_AUTHORIZED);
      var f2 := Add(f1, rwa.transferDisabled && !rwa.destinationIsIssuer, NOT_PERMITTED);
      var f3 := Add(f2, Missing(rwa.requiredCredentials, rwa.destinationCredentials) != [], MISSING_CREDENTIAL);
      var f4 := Add(f3, HasDomain(rwa.domainId) && rwa.destinationInDomain != Some(true), OUTSIDE_DOMAIN);
      AddCode(f1, rwa.transferDisabled && !rwa.destinationIsIssuer, NOT_PERMITTED);
      AddCode(f2, Missing(rwa.requiredCredentials, rwa.destinationCredentials) != [], MISSING_CREDENTIAL);
      AddCode(f3, HasDomain(rwa.domainId) && rwa.destinationInDomain != Some(true), OUTSIDE_DOMAIN);
      AddCode(f4, rwa.clawbackEnabled, CLAWBACK);
    }
  }

  predicate StartsWithR(code: string) {
    code != "" && code[0] == 'r'
  }

  lemma AddCode(fs: seq<Finding>, condition: bool, f: Finding)
    requires (forall c :: c in Codes(fs) ==> StartsWithR(c)) && StartsWithR(f.code)
    ensures forall c :: c in Codes(Add(fs, condition, f)) ==> StartsWithR(c)
  {
    assert Codes(Add(fs, condition, f)) == Codes(fs) + if condition then [f.code] else [];
  }
}
