/**
 The risk-gated signer: type gate, intent, lane, risk verdict, treasury guard, agent identity, and
 only then a multisignature.
 */
module ExternalSigner {
  import opened Wrappers
  import opened Decimals
  import opened Intents
  import opened Pricing
  import opened Router
  import opened RwaRule
  import opened RiskEngine
  import opened Flags
  import LedgerReader
  import TreasuryGuard
  import AgentIdentity
  import EngineRuns
  import Sorting

  /** An Amount on the wire; a numeral that does not parse is None. */
  datatype Amount =
    | Drops(drops: Option<Decimal>)
    | Token(currency: Option<string>, mptIssuanceId: Option<string>, value: Option<Decimal>)
    | OtherShape

  /** A transaction; `rest` stands for every field the gate does not read. */
  datatype Transaction = Transaction(txType: string, destination: Option<string>, amount: Amount, rest: string)

  /** How a signer is set up. None means that the optional part is not given. */
  datatype Setup = Setup(
    backends: seq<string>,
    router: Option<TierRouter>,
    signableTypes: set<string>,
    readerWired: bool,
    requiredCredentials: seq<Credential>,
    domainId: Option<string>,
    guardWired: bool,
    expectedSigners: Option<set<string>>,
    expectedQuorum: Option<int>,
    identityPages: Option<nat>,
    recognizedIssuers: seq<string>,
    requiredCredentialType: Option<string>,
    identitySubjects: Option<seq<string>>) {

    predicate Valid() {
      backends != [] && (router.Some? ==> router.value.Valid())
    }

    function ExpectedSigners(): set<string> {
      if expectedSigners.Some? then expectedSigners.value else set b | b in backends
    }

    function ExpectedQuorum(): int {
      if expectedQuorum.Some? then expectedQuorum.value else |backends|
    }

    /** The accounts whose identity is asked for, in the order in which they are asked. */
    function Subjects(): seq<string> {
      Sorting.SortedUnique(if identitySubjects.Some? then identitySubjects.value else backends)
    }

    function QueryFor(subject: string, unixTime: int): AgentIdentity.Query
      requires identityPages.Some?
    {
      var requiredType := if requiredCredentialType.Some? then requiredCredentialType.value else "";
      AgentIdentity.Query(subject, recognizedIssuers, requiredType, identityPages.value, unixTime)
    }
  }

  /** What the outside world answers during one call. */
  datatype World = World(
    timestamp: real,
    unixTime: int,
    routerFeed: Feed,
    engineFeed: Feed,
    ledger: LedgerReader.Ledger,
    treasury: TreasuryGuard.Response,
    credentials: string -> AgentIdentity.Answers,
    backendsSign: bool)

  datatype Refusal =
    | UnsupportedType(txType: string) | NoDestination | Unparsable | UnrecognizedAmount | NoComplianceReader
    | Withheld(level: RiskLevel)
    | TreasuryViolated(violation: TreasuryGuard.ConfigError)
    | IdentityUnverified(subject: string, error: AgentIdentity.IdentityError)

  /** A refusal, or some other exception that reaches the caller as it is. */
  datatype Failure =
    | Refused(refusal: Refusal)
    | PriceFailed(rate: RateError)
    | LedgerFailed(read: LedgerReader.ReadError)
    | BackendFailed

  datatype Signed = Signed(tx: Transaction, signers: seq<string>)

  datatype SignDecision = Judged(tier: Tier, level: RiskLevel, firedReasons: seq<string>) | NotSigned(refusal: Refusal)

  // ---------------------------------------------------------------- intent

  /** The intent read from a payment; nothing unreadable becomes a zero. */
  function IntentOf(c: Setup, tx: Transaction, w: World): Result<PaymentIntent, Failure> {
    if tx.destination.None? || tx.destination.value == "" then Err(Refused(NoDestination))
    else
      var destination := tx.destination.value;
      match tx.amount
      case Drops(drops) =>
        if drops.None? then Err(Refused(Unparsable))
        else Ok(PaymentIntent(destination, "XRP", DropsToXrp(drops.value), w.timestamp, None))
      case Token(currency, mpt, value) =>
        if mpt.Some? then
          if !c.readerWired then Err(Refused(NoComplianceReader))
          else
            match LedgerReader.Resolve(w.ledger, mpt.value, destination, c.requiredCredentials, c.domainId)
            case Err(e) => Err(LedgerFailed(e))
            case Ok(rwa) =>
              if value.None? then Err(Refused(Unparsable))
              else Ok(PaymentIntent(destination, "MPT:" + mpt.value, value.value, w.timestamp, Some(rwa)))
        else if value.None? then Err(Refused(Unparsable))
        else
          var asset := if currency.Some? then currency.value else "?";
          Ok(PaymentIntent(destination, asset, value.value, w.timestamp, None))
      case OtherShape => Err(Refused(UnrecognizedAmount))
  }

  /** The first subject, if any, whose identity is not verified. */
  function FirstUnverified(c: Setup, w: World, subjects: seq<string>): Option<Refusal>
    requires c.identityPages.Some?
  {
    if subjects == [] then None
    else
      match AgentIdentity.Verified(w.credentials(subjects[0]), c.QueryFor(subjects[0], w.unixTime))
      case Err(e) => Some(IdentityUnverified(subjects[0], e))
      case Ok(_) => FirstUnverified(c, w, subjects[1..])
  }

  /** What stands between a GREEN verdict and the signature. */
  function LastGates(c: Setup, w: World): Option<Refusal> {
    var checked := TreasuryGuard.Checked(w.treasury, c.ExpectedSigners(), c.ExpectedQuorum());
    if c.guardWired && checked.Err? then Some(TreasuryViolated(checked.error))
    else if c.identityPages.Some? then FirstUnverified(c, w, c.Subjects())
    else None
  }

  // ---------------------------------------------------------------- one call

  /** The intent that reaches the risk engine, or how the call ends before it does. */
  function ToJudge(c: Setup, tx: Transaction, w: World): Result<(PaymentIntent, Tier), Failure>
    requires c.Valid()
  {
    if tx.txType !in c.signableTypes then Err(Refused(UnsupportedType(tx.txType)))
    else
      var intent :- IntentOf(c, tx, w);
      var tier := LaneOf(c.router, w.routerFeed, intent);
      if tier.Err? then Err(PriceFailed(tier.error)) else Ok((intent, tier.value))
  }

  datatype Step = Step(engine: State, decision: Option<SignDecision>, outcome: Result<Signed, Failure>)

  function SignStep(c: Setup, p: Policy, s: State, tx: Transaction, w: World): Step
    requires c.Valid() && p.provider.Valid()
  {
    match ToJudge(c, tx, w)
    case Err(f) =>
      Step(s, if f == Refused(UnsupportedType(tx.txType)) then Some(NotSigned(f.refusal)) else None, Err(f))
    case Ok((intent, tier)) =>
      var (s', judged) := Evaluated(p, s, w.engineFeed, intent);
      match judged
      case Err(e) => Step(s', None, Err(PriceFailed(e)))
      case Ok(v) =>
        var decision := Judged(tier, v.level, v.firedReasons);
        if v.level != GREEN then Step(s', Some(decision), Err(Refused(Withheld(v.level))))
        else
          match LastGates(c, w)
          case Some(refusal) => Step(s', Some(NotSigned(refusal)), Err(Refused(refusal)))
          case None =>
            Step(s', Some(decision), if w.backendsSign then Ok(Signed(tx, c.backends)) else Err(BackendFailed))
  }

  class Signer {
    const setup: Setup
    const risk: Engine
    var lastDecision: Option<SignDecision>

    constructor (setup: Setup, risk: Engine)
      requires setup.Valid()
      ensures this.setup == setup && this.risk == risk && lastDecision == None
    {
      this.setup, this.risk := setup, risk;
      lastDecision := None;
    }

    method Sign(tx: Transaction, w: World) returns (r: Result<Signed, Failure>)
      requires setup.Valid() && risk.policy.provider.Valid()
      modifies this, risk
      ensures Step(risk.View(), lastDecision, r) == SignStep(setup, risk.policy, old(risk.View()), tx, w)
    {
      lastDecision := None;
      if tx.txType !in setup.signableTypes {
        lastDecision := Some(NotSigned(UnsupportedType(tx.txType)));
        return Err(Refused(UnsupportedType(tx.txType)));
      }
      var intent := IntentOf(setup, tx, w);
      if intent.Err? {
        return Err(intent.error);
      }
      var tier := LaneOf(setup.router, w.routerFeed, intent.value);
      if tier.Err? {
        return Err(PriceFailed(tier.error));
      }
      var verdict := risk.Evaluate(w.engineFeed, intent.value);
      if verdict.Err? {
        return Err(PriceFailed(verdict.error));
      }
      lastDecision := Some(Judged(tier.value, verdict.value.level, verdict.value.firedReasons));
      if verdict.value.level != GREEN {
        return Err(Refused(Withheld(verdict.value.level)));
      }
      var refusal := CheckLastGates(w);
      if refusal.Some? {
        lastDecision := Some(NotSigned(refusal.value));
        return Err(Refused(refusal.value));
      }
      if !w.backendsSign {
        return Err(BackendFailed);
      }
      return Ok(Signed(tx, setup.backends));
    }

    method CheckLastGates(w: World) returns (refusal: Option<Refusal>)
      ensures refusal == LastGates(setup, w)
    {
      if setup.guardWired {
        var outcome := TreasuryGuard.Verify(w.treasury, setup.ExpectedSigners(), setup.ExpectedQuorum());
        if outcome.Err? {
          return Some(TreasuryViolated(outcome.error));
        }
      }
      if setup.identityPages.None? {
        return None;
      }
      var subjects := setup.Subjects();
      for i := 0 to |subjects|
        invariant FirstUnverified(setup, w, subjects) == FirstUnverified(setup, w, subjects[i..])
      {
        var client := new AgentIdentity.Client(w.credentials(subjects[i]));
        var identity := AgentIdentity.VerifyIdentity(client, setup.QueryFor(subjects[i], w.unixTime));
        if identity.Err? {
          return Some(IdentityUnverified(subjects[i], identity.error));
        }
        assert subjects[i..][1..] == subjects[i + 1..];
      }
      return None;
    }
  }

  // ---------------------------------------------------------------- what a signature means

  /** A subject's verification fails, and with this error. */
  predicate Fails(c: Setup, w: World, subject: string, e: AgentIdentity.IdentityError)
    requires c.identityPages.Some?
  {
    AgentIdentity.Verified(w.credentials(subject), c.QueryFor(subject, w.unixTime)) == Err(e)
  }

  predicate FailsAtAll(c: Setup, w: World, subject: string)
    requires c.identityPages.Some?
  {
    AgentIdentity.Verified(w.credentials(subject), c.QueryFor(subject, w.unixTime)).Err?
  }

  lemma {:induction false} AllVerified(c: Setup, w: World, subjects: seq<string>)
    requires c.identityPages.Some?
    ensures FirstUnverified(c, w, subjects).None? <==>
            forall a :: a in subjects ==> AgentIdentity.Verified(w.credentials(a), c.QueryFor(a, w.unixTime)).Ok?
  {
    if subjects != [] {
      AllVerified(c, w, subjects[1..]);
      assert subjects == [subjects[0]] + subjects[1..];
    }
  }

  /** The engine evaluation, if any, that a call amounts to. */
  function EvaluationOf(c: Setup, tx: Transaction, w: World): Option<EngineRuns.Op>
    requires c.Valid()
  {
    match ToJudge(c, tx, w)
    case Err(_) => None
    case Ok((intent, _)) => Some(EngineRuns.Evaluate(w.engineFeed, intent))
  }

  // ---------------------------------------------------------------- the terms of a payment

  /**
   What a transaction pays: this asset, in this amount. XRP is given in drops; a token goes by its issuance
   identifier or by its currency code, and its amount is the value given.
   */
  predicate Terms(tx: Transaction, asset: string, amount: Decimal) {
    match tx.amount
    case Drops(drops) => drops.Some? && asset == "XRP" && amount == DropsToXrp(drops.value)
    case Token(currency, mpt, value) =>
      value == Some(amount)
      && (mpt.Some? ==> asset == "MPT:" + mpt.value)
      && (mpt.None? ==> if currency.Some? then asset == currency.value else asset == "?")
    case OtherShape => false
  }

  predicate IsMpt(tx: Transaction) {
    tx.amount.Token? && tx.amount.mptIssuanceId.Some?
  }

  /** A payment without payee or terms cannot be read, nor an MPT transfer whose compliance cannot be resolved. */
  predicate Readable(c: Setup, tx: Transaction, w: World) {
    tx.destination != None && tx.destination != Some("")
    && (tx.amount.Drops? ==> tx.amount.drops.Some?) && (tx.amount.Token? ==> tx.amount.value.Some?)
    && tx.amount != OtherShape
    && (IsMpt(tx) ==> c.readerWired && ResolvedFor(c, tx, w).Ok?)
  }

  function ResolvedFor(c: Setup, tx: Transaction, w: World): Result<RwaTransfer, LedgerReader.ReadError>
    requires IsMpt(tx) && tx.destination.Some?
  {
    LedgerReader.Resolve(w.ledger, tx.amount.mptIssuanceId.value, tx.destination.value, c.requiredCredentials,
                         c.domainId)
  }

  /**
   The intent judged says what the transaction does. There is one exactly when the payment can be read; it
   has the transaction's payee, asset and amount, and for an MPT transfer its resolved compliance.
   */
  lemma IntentIsPayment(c: Setup, tx: Transaction, w: World)
    ensures IntentOf(c, tx, w).Ok? <==> Readable(c, tx, w)
    ensures IntentOf(c, tx, w).Ok? ==>
              var intent := IntentOf(c, tx, w).value;
              tx.destination == Some(intent.destination) && Terms(tx, intent.asset, intent.amount)
              && intent.timestamp == w.timestamp
              && intent.rwa == if IsMpt(tx) then Some(ResolvedFor(c, tx, w).value) else None
  {
  }

  /** With a guard wired, the treasury is what is expected of it; by default that is all backends, and all of them. */
  ghost predicate TreasuryInOrder(c: Setup, w: World) {
    var signers := if c.expectedSigners.Some? then c.expectedSigners.value else set b | b in c.backends;
    var quorum := if c.expectedQuorum.Some? then c.expectedQuorum.value else |c.backends|;
    c.guardWired ==> TreasuryGuard.Accepts(w.treasury, signers, quorum)
  }

  /** With a verifier wired, each subject, by default each backend, is verified now against what is configured. */
  predicate IdentitiesInOrder(c: Setup, w: World) {
    c.identityPages.Some? ==>
      forall a :: a in (if c.identitySubjects.Some? then c.identitySubjects.value else c.backends) ==>
                    c.requiredCredentialType.Some?
                    && AgentIdentity.Verified(w.credentials(a), IdentityQuery(c, w, a)).Ok?
  }

  function IdentityQuery(c: Setup, w: World, account: string): AgentIdentity.Query
    requires c.identityPages.Some? && c.requiredCredentialType.Some?
  {
    AgentIdentity.Query(account, c.recognizedIssuers, c.requiredCredentialType.value, c.identityPages.value, w.unixTime)
  }

  lemma GatesIff(c: Setup, w: World)
    ensures LastGates(c, w).None? <==> TreasuryInOrder(c, w) && IdentitiesInOrder(c, w)
  {
    TreasuryGuard.CheckedMeaning(w.treasury, c.ExpectedSigners(), c.ExpectedQuorum());
    if c.identityPages.Some? {
      var subjects := if c.identitySubjects.Some? then c.identitySubjects.value else c.backends;
      AllVerified(c, w, c.Subjects());
      Sorting.SortedUniqueMeaning(subjects);
      forall a | a in subjects
        ensures !FailsAtAll(c, w, a) <==>
                c.requiredCredentialType.Some?
                && AgentIdentity.Verified(w.credentials(a), IdentityQuery(c, w, a)).Ok?
      {
        AgentIdentity.VerifiedIff(w.credentials(a), c.QueryFor(a, w.unixTime));
      }
    }
  }

  /**
   A signature is produced exactly when the transaction is of a signable type and can be read, the payment
   is let through on its own terms, an MPT transfer is compliant and free of clawback, its lane can be
   priced, every wired check passes, and the backends sign. It is then a signature of that transaction by
   all backends.
   */
  lemma SignedIff(c: Setup, p: Policy, s: State, tx: Transaction, w: World, asset: string, amount: Decimal)
    requires c.Valid() && p.provider.Valid() && Terms(tx, asset, amount)
    ensures var step := SignStep(c, p, s, tx, w);
            (step.outcome.Ok? <==>
             tx.txType in c.signableTypes && Readable(c, tx, w)
             && LetThrough(p, s, w.engineFeed, tx.destination.value, asset, amount, w.timestamp)
             && (IsMpt(tx) ==> Findings(ResolvedFor(c, tx, w).value) == [])
             && (c.router.Some? ==> Priced(c.router.value.provider, w.routerFeed, asset))
             && TreasuryInOrder(c, w) && IdentitiesInOrder(c, w) && w.backendsSign)
            && (step.outcome.Ok? ==> step.outcome.value == Signed(tx, c.backends))
  {
    IntentIsPayment(c, tx, w);
    GatesIff(c, w);
    if Readable(c, tx, w) {
      var intent := IntentOf(c, tx, w).value;
      if c.router.Some? {
        LaneIff(c.router.value, w.routerFeed, intent);
      }
      GreenIffLetThrough(p, s, w.engineFeed, intent);
    }
  }

  /** Whatever is signed was judged GREEN as what it is, with every check in order. */
  lemma SignedIsGreen(c: Setup, p: Policy, s: State, tx: Transaction, w: World)
    requires c.Valid() && p.provider.Valid() && SignStep(c, p, s, tx, w).outcome.Ok?
    ensures IntentOf(c, tx, w).Ok? && JudgedGreen(p, s, w.engineFeed, IntentOf(c, tx, w).value)
    ensures TreasuryInOrder(c, w) && IdentitiesInOrder(c, w)
  {
    GatesIff(c, w);
  }

  /** Nothing without terms is ever signed. */
  lemma NoTermsNoSignature(c: Setup, p: Policy, s: State, tx: Transaction, w: World)
    requires c.Valid() && p.provider.Valid() && SignStep(c, p, s, tx, w).outcome.Ok?
    ensures exists asset, amount :: Terms(tx, asset, amount)
  {
    IntentIsPayment(c, tx, w);
  }

  // ---------------------------------------------------------------- refusals and recorded decisions

  /** The payment is of a signable type, and says to whom it goes. */
  predicate Addressed(c: Setup, tx: Transaction) {
    tx.txType in c.signableTypes && tx.destination != None && tx.destination != Some("")
  }

  predicate NumeralMissing(tx: Transaction) {
    tx.amount == Drops(None) || (tx.amount.Token? && tx.amount.value == None)
  }

  /** What every refusal before the engine says of the payment, and when it is given. */
  lemma RefusalsMean(c: Setup, p: Policy, s: State, tx: Transaction, w: World)
    requires c.Valid() && p.provider.Valid()
    ensures var r := SignStep(c, p, s, tx, w).outcome;
            (forall t :: r == Err(Refused(UnsupportedType(t))) <==> tx.txType !in c.signableTypes && t == tx.txType)
            && (r == Err(Refused(NoDestination)) <==> tx.txType in c.signableTypes && !Addressed(c, tx))
            && (r == Err(Refused(UnrecognizedAmount)) <==> Addressed(c, tx) && tx.amount == OtherShape)
            && (r == Err(Refused(NoComplianceReader)) <==> Addressed(c, tx) && IsMpt(tx) && !c.readerWired)
            && (forall e :: r == Err(LedgerFailed(e)) <==>
                            Addressed(c, tx) && IsMpt(tx) && c.readerWired && ResolvedFor(c, tx, w) == Err(e))
            && (r == Err(Refused(Unparsable)) <==>
                Addressed(c, tx) && NumeralMissing(tx)
                && (IsMpt(tx) ==> c.readerWired && ResolvedFor(c, tx, w).Ok?))
  {
    var r := SignStep(c, p, s, tx, w).outcome;
    forall f: Failure | BeforeEngine(f) ensures r == Err(f) <==> Unread(c, tx, w) == Err(f) {
      UnreadIsOutcome(c, p, s, tx, w, f);
    }
    UnreadMeans(c, tx, w, r);
  }

  /** A failure that can only come before the engine is asked, and not from a price. */
  predicate BeforeEngine(f: Failure) {
    f.LedgerFailed?
    || (f.Refused? && !f.refusal.Withheld? && !f.refusal.TreasuryViolated? && !f.refusal.IdentityUnverified?)
  }

  function Unread(c: Setup, tx: Transaction, w: World): Result<PaymentIntent, Failure> {
    if tx.txType !in c.signableTypes then Err(Refused(UnsupportedType(tx.txType))) else IntentOf(c, tx, w)
  }

  lemma UnreadIsOutcome(c: Setup, p: Policy, s: State, tx: Transaction, w: World, f: Failure)
    requires c.Valid() && p.provider.Valid() && BeforeEngine(f)
    ensures SignStep(c, p, s, tx, w).outcome == Err(f) <==> Unread(c, tx, w) == Err(f)
  {
    GateRefusals(c, w);
  }

  lemma UnreadMeans(c: Setup, tx: Transaction, w: World, r: Result<Signed, Failure>)
    requires forall f: Failure | BeforeEngine(f) :: r == Err(f) <==> Unread(c, tx, w) == Err(f)
    ensures forall t :: r == Err(Refused(UnsupportedType(t))) <==> tx.txType !in c.signableTypes && t == tx.txType
    ensures r == Err(Refused(NoDestination)) <==> tx.txType in c.signableTypes && !Addressed(c, tx)
    ensures r == Err(Refused(UnrecognizedAmount)) <==> Addressed(c, tx) && tx.amount == OtherShape
    ensures r == Err(Refused(NoComplianceReader)) <==> Addressed(c, tx) && IsMpt(tx) && !c.readerWired
    ensures forall e :: r == Err(LedgerFailed(e)) <==>
                        Addressed(c, tx) && IsMpt(tx) && c.readerWired && ResolvedFor(c, tx, w) == Err(e)
    ensures r == Err(Refused(Unparsable)) <==>
            Addressed(c, tx) && NumeralMissing(tx) && (IsMpt(tx) ==> c.readerWired && ResolvedFor(c, tx, w).Ok?)
  {
  }

  lemma GateRefusals(c: Setup, w: World)
    ensures var refusal := LastGates(c, w);
            refusal.Some? ==> refusal.value.TreasuryViolated? || refusal.value.IdentityUnverified?
  {
    if c.identityPages.Some? {
      FirstIsIdentity(c, w, c.Subjects());
    }
  }

  lemma {:induction false} FirstIsIdentity(c: Setup, w: World, subjects: seq<string>)
    requires c.identityPages.Some?
    ensures FirstUnverified(c, w, subjects).Some? ==> FirstUnverified(c, w, subjects).value.IdentityUnverified?
  {
    if subjects != [] {
      FirstIsIdentity(c, w, subjects[1..]);
    }
  }

  /** The lane of these terms: the backstop without a router and for an MPT transfer, and else by worth. */
  predicate InLane(c: Setup, tx: Transaction, w: World, asset: string, amount: Decimal, tier: Tier) {
    if c.router.None? || IsMpt(tx) then tier == QuorumBackstop
    else
      var worth := Worth(c.router.value.provider, w.routerFeed, asset, amount);
      (tier == ChannelCustody <==> worth <= Value(c.router.value.channelCeiling))
      && (tier == QuorumBackstop <==> worth > Value(c.router.value.fastPathCeiling))
  }

  /**
   What a call leaves on record. A type that is not signed is recorded as refused, and an unreadable or
   unpriced payment leaves no decision and an untouched engine. Otherwise the engine has judged the payment,
   last in its audit log. Unless that was GREEN the signature is withheld for its level; if it was, the
   treasury and the identities decide, and a refusal of theirs takes the place of the verdict on record.
   */
  lemma DecisionIff(c: Setup, p: Policy, s: State, tx: Transaction, w: World, asset: string, amount: Decimal,
                    step: Step)
    requires c.Valid() && p.provider.Valid() && Terms(tx, asset, amount) && step == SignStep(c, p, s, tx, w)
    ensures var priced := (c.router.Some? ==> Priced(c.router.value.provider, w.routerFeed, asset))
                          && Priced(p.provider, w.engineFeed, asset);
            var inOrder := TreasuryInOrder(c, w) && IdentitiesInOrder(c, w);
            if tx.txType !in c.signableTypes then
              step.decision == Some(NotSigned(UnsupportedType(tx.txType))) && step.engine == s
            else if !Readable(c, tx, w) || !priced then
              step.decision == None && step.engine == s && step.outcome.Err?
              && (Readable(c, tx, w) ==> step.outcome.error.PriceFailed?)
            else
              |step.engine.audit| == |s.audit| + 1
              && var v := step.engine.audit[|s.audit|];
                 v.intent.destination == tx.destination.value && v.intent.asset == asset && v.intent.amount == amount
                 && (v.level != GREEN ==> step.outcome == Err(Refused(Withheld(v.level))))
                 && (v.level == GREEN && inOrder ==>
                       step.outcome == if w.backendsSign then Ok(Signed(tx, c.backends)) else Err(BackendFailed))
                 && (v.level == GREEN && !inOrder ==>
                       step.decision.Some? && step.decision.value.NotSigned?
                       && step.outcome == Err(Refused(step.decision.value.refusal)))
                 && (v.level != GREEN || inOrder ==>
                       step.decision.Some? && step.decision.value.Judged?
                       && step.decision.value.level == v.level && step.decision.value.firedReasons == v.firedReasons
                       && InLane(c, tx, w, asset, amount, step.decision.value.tier))
  {
    IntentIsPayment(c, tx, w);
    if Readable(c, tx, w) && tx.txType in c.signableTypes {
      var intent := IntentOf(c, tx, w).value;
      ReadDecision(c, p, s, tx, w, intent, step);
      assert IsMpt(tx) ==> IsRwa(intent);
      if c.router.Some? {
        LaneIff(c.router.value, w.routerFeed, intent);
      }
      ValuedAtWorth(p.provider, w.engineFeed, asset, amount);
    }
  }

  /** The same from the intent read. */
  lemma ReadDecision(c: Setup, p: Policy, s: State, tx: Transaction, w: World, intent: PaymentIntent, step: Step)
    requires c.Valid() && p.provider.Valid() && tx.txType in c.signableTypes && IntentOf(c, tx, w) == Ok(intent)
    requires step == SignStep(c, p, s, tx, w)
    ensures var lane, judged := LaneOf(c.router, w.routerFeed, intent), Evaluated(p, s, w.engineFeed, intent).1;
            var inOrder := TreasuryInOrder(c, w) && IdentitiesInOrder(c, w);
            if lane.Err? || judged.Err? then
              step.decision == None && step.engine == s
              && step.outcome == Err(PriceFailed(if lane.Err? then lane.error else judged.error))
            else
              var v := judged.value;
              step.engine.audit == s.audit + [v] && v.intent == intent
              && (v.level != GREEN ==> step.outcome == Err(Refused(Withheld(v.level))))
              && (v.level == GREEN && inOrder ==>
                    step.outcome == if w.backendsSign then Ok(Signed(tx, c.backends)) else Err(BackendFailed))
              && (v.level == GREEN && !inOrder ==>
                    step.decision.Some? && step.decision.value.NotSigned?
                    && step.outcome == Err(Refused(step.decision.value.refusal)))
              && (v.level != GREEN || inOrder ==>
                    step.decision == Some(Judged(lane.value, v.level, v.firedReasons)))
  {
    GatesIff(c, w);
  }

  /**
   No token leaves the treasury above the threshold at its face value: a signed token payment, MPT or issued
   currency, whose currency code is not XRP has a value within the threshold, and goes to a trusted payee.
   */
  lemma SignedTokenWithinThreshold(c: Setup, p: Policy, s: State, tx: Transaction, w: World)
    requires c.Valid() && p.provider.Valid() && SignStep(c, p, s, tx, w).outcome.Ok?
    requires tx.amount.Token? && (tx.amount.mptIssuanceId.Some? || tx.amount.currency != Some("XRP"))
    ensures tx.amount.value.Some? && Value(tx.amount.value.value) <= Value(p.threshold)
    ensures tx.destination.Some? && tx.destination.value in p.whitelist
  {
    NoTermsNoSignature(c, p, s, tx, w);
    var asset, amount :| Terms(tx, asset, amount);
    if tx.amount.mptIssuanceId.Some? {
      assert asset[0] == 'M' && "XRP"[0] == 'X';
    }
    SignedIff(c, p, s, tx, w, asset, amount);
  }

  /**
   A refusal names the first thing in the way: the treasury's violation before any identity, and of the
   subjects, without repetitions and in the order of their addresses, the first that is not verified.
   */
  lemma RefusalNamesFirst(c: Setup, w: World)
    ensures var refusal := LastGates(c, w);
            (refusal.Some? && refusal.value.TreasuryViolated? <==>
             c.guardWired && !TreasuryGuard.Accepts(w.treasury, c.ExpectedSigners(), c.ExpectedQuorum()))
            && (refusal.Some? && refusal.value.TreasuryViolated? ==>
                TreasuryGuard.Violates(w.treasury, c.ExpectedSigners(), c.ExpectedQuorum(), refusal.value.violation))
            && (refusal.Some? && refusal.value.IdentityUnverified? ==>
                c.identityPages.Some? && Fails(c, w, refusal.value.subject, refusal.value.error)
                && forall a :: a in c.Subjects() && Sorting.Before(a, refusal.value.subject) ==> !FailsAtAll(c, w, a))
    ensures Sorting.Sorted(c.Subjects())
    ensures forall a :: a in c.Subjects() <==>
                        a in if c.identitySubjects.Some? then c.identitySubjects.value else c.backends
  {
    TreasuryGuard.CheckedMeaning(w.treasury, c.ExpectedSigners(), c.ExpectedQuorum());
    Sorting.SortedUniqueMeaning(if c.identitySubjects.Some? then c.identitySubjects.value else c.backends);
    if c.identityPages.Some? {
      FirstUnverifiedIsFirst(c, w, c.Subjects());
    }
  }

  lemma {:induction false} FirstUnverifiedIsFirst(c: Setup, w: World, subjects: seq<string>)
    requires c.identityPages.Some? && Sorting.Sorted(subjects)
    ensures var refusal := FirstUnverified(c, w, subjects);
            refusal.Some? ==>
              refusal.value.IdentityUnverified? && refusal.value.subject in subjects
              && Fails(c, w, refusal.value.subject, refusal.value.error)
              && forall a :: a in subjects && Sorting.Before(a, refusal.value.subject) ==> !FailsAtAll(c, w, a)
  {
    if subjects != [] {
      var first, rest := subjects[0], subjects[1..];
      assert subjects == [first] + rest;
      if FailsAtAll(c, w, first) {
        forall a | a in subjects ensures !Sorting.Before(a, first) {
          Sorting.BeforeIsOrder(a, first);
          if a != first {
            var i :| 0 <= i < |subjects| && subjects[i] == a;
          }
        }
      } else {
        FirstUnverifiedIsFirst(c, w, rest);
      }
    }
  }

  /** Drops are stated in XRP rounded to 28 digits, so exactly if and only if no non-zero digit lies beyond them. */
  lemma DropsStatedExactlyIff(c: Setup, tx: Transaction, w: World)
    requires IntentOf(c, tx, w).Ok? && tx.amount.Drops?
    ensures tx.amount.drops.Some?
    ensures Value(IntentOf(c, tx, w).value.amount) == Shift(Value(tx.amount.drops.value), -6) <==>
            Fits(tx.amount.drops.value.coef)
  {
    var drops := tx.amount.drops.value;
    ShiftSum(drops.coef as real, drops.exp, -6);
    RoundedExactIff(Decimal(drops.coef, drops.exp - 6));
  }

  /** On the engine a call is one evaluation of the transaction's intent, or nothing at all. */
  lemma EngineSees(c: Setup, p: Policy, s: State, tx: Transaction, w: World)
    requires c.Valid() && p.provider.Valid()
    ensures var op := EvaluationOf(c, tx, w);
            SignStep(c, p, s, tx, w).engine == if op.Some? then EngineRuns.Step(p, s, op.value).0 else s
    ensures SignStep(c, p, s, tx, w).outcome.Ok? ==>
            EvaluationOf(c, tx, w).Some? && EvaluationOf(c, tx, w).value.Evaluate?
            && EngineRuns.HasLevel(EngineRuns.Step(p, s, EvaluationOf(c, tx, w).value).1, GREEN)
            && IntentOf(c, tx, w) == Ok(EvaluationOf(c, tx, w).value.intent)
  {
  }

  /**
   A signed token transfer goes to a trusted payee, is of a token without clawback, and meets every
   condition of compliance on the ledger snapshot: fully when there is no domain or the domain lists
   text types only, and otherwise with membership under the keys the reader looks up.
   */
  lemma SignedTokenIsCompliant(c: Setup, p: Policy, s: State, tx: Transaction, w: World)
    requires c.Valid() && p.provider.Valid()
    requires SignStep(c, p, s, tx, w).outcome.Ok? && tx.amount.Token? && tx.amount.mptIssuanceId.Some?
    ensures var id := tx.amount.mptIssuanceId.value;
            w.ledger.issuance(id).Found? && LedgerReader.DomainFound(w.ledger, c.domainId)
            && LedgerReader.CompliantApartFromDomain(w.ledger, id, tx.destination.value, c.requiredCredentials)
            && (LedgerReader.TextDomain(w.ledger, c.domainId) ==>
                LedgerReader.Compliant(w.ledger, id, tx.destination.value, c.requiredCredentials, c.domainId))
            && (HasDomain(c.domainId) ==>
                var listed := w.ledger.acceptedCredentials(c.domainId.value).node;
                LedgerReader.LookedUpMember(w.ledger, tx.destination.value, listed))
            && !HasFlag(w.ledger.issuance(id).node.flags, 0x40)
            && tx.destination.value in p.whitelist
  {
    var id := tx.amount.mptIssuanceId.value;
    SignedIsGreen(c, p, s, tx, w);
    var intent := IntentOf(c, tx, w).value;
    var v := Evaluated(p, s, w.engineFeed, intent).1.value;
    GreenIff(p, s, intent, v.rlusdEquivalent);
    LedgerReader.RedFreeIffLookedUp(w.ledger, id, tx.destination.value, c.requiredCredentials, c.domainId);
    if LedgerReader.TextDomain(w.ledger, c.domainId) {
      LedgerReader.RedFreeIffCompliant(w.ledger, id, tx.destination.value, c.requiredCredentials, c.domainId);
    }
  }

  /** A signed XRP payment was worth no more than the threshold at a live rate that was positive and not too old. */
  lemma SignedXrpIsFreshlyPriced(c: Setup, p: Policy, s: State, tx: Transaction, w: World)
    requires c.Valid() && p.provider.Valid() && p.provider.CallableRate?
    requires SignStep(c, p, s, tx, w).outcome.Ok? && tx.amount.Drops?
    ensures tx.amount.drops.Some? && FreshRate(p.provider, w.engineFeed)
    ensures Value(Mul(DropsToXrp(tx.amount.drops.value), w.engineFeed.quote.rate)) <= Value(p.threshold)
  {
    SignedIsGreen(c, p, s, tx, w);
    GreenXrpIsFreshlyPriced(p, s, w.engineFeed, IntentOf(c, tx, w).value);
  }

  /**
   With both live checks wired and the default sets, a signature shows that the accounts on the
   ledger's signer list are exactly the backends, and that each of them holds a credential of exactly
   the required type from a recognised issuer, accepted and unexpired.
   */
  lemma SignedByAccreditedQuorum(c: Setup, p: Policy, s: State, tx: Transaction, w: World, quorum: int,
                                 entries: seq<TreasuryGuard.SignerEntry>)
    requires c.Valid() && p.provider.Valid()
    requires c.guardWired && c.identityPages.Some?
    requires c.expectedSigners.None? && c.expectedQuorum.None? && c.identitySubjects.None?
    requires TreasuryGuard.OnLedger(w.treasury, quorum, entries)
    requires SignStep(c, p, s, tx, w).outcome.Ok?
    ensures TreasuryGuard.Members(entries) == (set b | b in c.backends) && quorum == |c.backends|
    ensures forall b :: b in c.backends ==> HoldsProof(c, w, b)
    ensures TreasuryGuard.NeedsTwo(w.treasury.accountData.value, quorum, entries)
  {
    SignedIsGreen(c, p, s, tx, w);
    TreasuryGuard.AcceptsIffNeedsTwo(w.treasury, quorum, entries, c.ExpectedSigners(), c.ExpectedQuorum());
    Sorting.SortedUniqueMeaning(c.backends);
    forall b | b in c.backends ensures HoldsProof(c, w, b) {
      AgentIdentity.VerifiedHolds(w.credentials(b), IdentityQuery(c, w, b));
    }
  }

  /** On some page of the account's credentials there is one that shows its identity. */
  ghost predicate HoldsProof(c: Setup, w: World, account: string)
    requires c.identityPages.Some?
  {
    c.requiredCredentialType.Some?
    && exists m, o :: w.credentials(account)(m).Page? && o in w.credentials(account)(m).objects
                      && AgentIdentity.ShowsIdentity(o, IdentityQuery(c, w, account))
  }
}
