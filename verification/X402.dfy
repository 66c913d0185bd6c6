/**
 The x402 payer: a quote becomes an intent, the intent is judged, and the payment signed is built from
 the same quote.
 */
module X402 {
  import opened Arith
  import opened Wrappers
  import opened Decimals
  import opened Intents
  import opened Pricing
  import opened Router
  import opened RiskEngine
  import EngineRuns
  import Hex

  datatype TagField = NoTag | Tag(n: int) | NotAnInteger

  /** A quote; an amount that does not parse is None. */
  datatype Requirements = Requirements(
    scheme: Option<string>,
    network: Option<string>,
    asset: Option<string>,
    amount: Option<Decimal>,
    payTo: Option<string>,
    invoiceId: Option<string>,
    issuer: Option<string>,
    sourceTag: TagField,
    destinationTag: TagField,
    maxTimeoutSeconds: int) {

    function Asset(): string {
      if asset.None? || asset.value == "" then "XRP" else asset.value
    }

    predicate IsXrp() {
      Hex.UpperCase(Asset()) == "XRP"
    }
  }

  datatype Binding = InMemos | InInvoiceId | InBoth

  datatype Setup = Setup(
    address: string,
    backends: seq<string>,
    router: Option<TierRouter>,
    binding: Binding,
    auditMemo: bool) {

    predicate Valid() {
      router.Some? ==> router.value.Valid()
    }
  }

  /**
   What the outside world answers during one call; `currencyHex` is None for an invalid currency code, and
   `hashOf` is the ledger's hash.
   */
  datatype World = World(
    timestamp: real,
    routerFeed: Feed,
    engineFeed: Feed,
    currencyHex: string -> Option<string>,
    ledgerIndex: Option<int>,
    autofill: Option<Autofill>,
    backendsSign: bool,
    hashOf: Blob -> string)

  datatype Autofill = Autofill(sequence: int, fee: int)

  datatype WireAmount = WireDrops(drops: int) | WireIssued(currencyHex: string, issuer: string, value: Decimal)

  datatype Memo = InvoiceMemo(invoiceId: string) | AuditMemo(decision: Decision, invoiceId: string)

  datatype Payment = Payment(
    account: string,
    destination: string,
    amount: WireAmount,
    sendMax: Option<WireAmount>,
    memos: seq<Memo>,
    invoiceIdField: Option<string>,
    sourceTag: int,
    destinationTag: Option<int>,
    lastLedgerSequence: int)

  /** A signed blob, as an ideal injective encoding of what was signed and by whom. */
  datatype Blob = Blob(payment: Payment, filled: Autofill, signers: seq<string>)

  datatype Header = Header(blob: Blob, invoiceId: string)

  datatype Decision = Decision(tier: Tier, level: RiskLevel, firedReasons: seq<string>, rlusdEquivalent: Decimal)

  datatype Refusal =
    | UnsupportedScheme | UnsupportedNetwork | InvalidCurrency | MissingIssuer | NoInvoice | NoPayee | Unparsable
    | NotWholeDrops | Withheld(level: RiskLevel) | BadSourceTag | BadDestinationTag

  datatype Failure = Refused(refusal: Refusal) | PriceFailed(rate: RateError) | NetworkFailed | BackendFailed

  const DEFAULT_SOURCE_TAG: int := 804681468

  const NETWORKS: set<string> := {"xrpl:0", "xrpl:1", "xrpl:2"}

  // ---------------------------------------------------------------- reading the quote

  function Supported(q: Requirements, w: World): Option<Refusal> {
    if q.scheme != Some("exact") then Some(UnsupportedScheme)
    else if q.network.None? || q.network.value !in NETWORKS then Some(UnsupportedNetwork)
    else if q.IsXrp() then None
    else if w.currencyHex(q.Asset()).None? then Some(InvalidCurrency)
    else if q.issuer.None? || q.issuer.value == "" then Some(MissingIssuer)
    else None
  }

  /** The invoice named by the caller, or else the quote's own. */
  function Invoice(q: Requirements, given: Option<string>): Option<string> {
    if given.Some? && given.value != "" then given
    else if q.invoiceId.Some? && q.invoiceId.value != "" then q.invoiceId
    else None
  }

  predicate IsWhole(d: Decimal) {
    d.exp >= 0 || d.coef % Pow10(-d.exp) == 0
  }

  /** The integer a whole decimal denotes. */
  function Whole(d: Decimal): int
    requires IsWhole(d)
  {
    if d.exp >= 0 then d.coef * Pow10(d.exp) else d.coef / Pow10(-d.exp)
  }

  function ParseDrops(q: Requirements): (r: Result<Decimal, Failure>)
    ensures r.Ok? ==> q.amount == Some(r.value) && IsWhole(r.value) && Value(r.value) >= 0.0
  {
    if q.amount.None? then Err(Refused(Unparsable))
    else if Value(q.amount.value) < 0.0 || !IsWhole(q.amount.value) then Err(Refused(NotWholeDrops))
    else Ok(q.amount.value)
  }

  function IntentOf(q: Requirements, w: World): Result<PaymentIntent, Failure> {
    if q.payTo.None? || q.payTo.value == "" then Err(Refused(NoPayee))
    else if q.IsXrp() then
      var drops :- ParseDrops(q);
      Ok(PaymentIntent(q.payTo.value, "XRP", DropsToXrp(drops), w.timestamp, None))
    else if q.amount.None? then Err(Refused(Unparsable))
    else Ok(PaymentIntent(q.payTo.value, q.Asset(), q.amount.value, w.timestamp, None))
  }

  // ---------------------------------------------------------------- building the payment

  function Memos(c: Setup, invoice: string, decision: Decision): seq<Memo> {
    (if c.binding == InInvoiceId then [] else [InvoiceMemo(invoice)])
    + if c.auditMemo then [AuditMemo(decision, invoice)] else []
  }

  function SourceTag(q: Requirements): int {
    if q.sourceTag.Tag? then q.sourceTag.n else DEFAULT_SOURCE_TAG
  }

  function AmountOf(q: Requirements, w: World): Result<WireAmount, Failure> {
    if q.IsXrp() then
      var drops :- ParseDrops(q);
      Ok(WireDrops(Whole(drops)))
    else if w.currencyHex(q.Asset()).None? then Err(Refused(InvalidCurrency))
    else if q.issuer.None? then Err(Refused(MissingIssuer))
    else if q.amount.None? then Err(Refused(Unparsable))
    else Ok(WireIssued(w.currencyHex(q.Asset()).value, q.issuer.value, q.amount.value))
  }

  /** Timeouts are rounded up to ledgers of five seconds, with two to spare. */
  function LedgerDelta(timeoutSeconds: int): int {
    (timeoutSeconds + 4) / 5 + 2
  }

  function BuildPayment(c: Setup, q: Requirements, w: World, invoice: string,
                        decision: Decision): Result<Payment, Failure>
    requires q.payTo.Some?
  {
    if q.sourceTag.NotAnInteger? then Err(Refused(BadSourceTag))
    else if q.destinationTag.NotAnInteger? then Err(Refused(BadDestinationTag))
    else
      var amount :- AmountOf(q, w);
      if w.ledgerIndex.None? then Err(NetworkFailed)
      else
        Ok(Payment(c.address, q.payTo.value, amount, if q.IsXrp() then None else Some(amount),
                   Memos(c, invoice, decision), if c.binding == InMemos then None else Some(invoice),
                   SourceTag(q), if q.destinationTag.Tag? then Some(q.destinationTag.n) else None,
                   w.ledgerIndex.value + LedgerDelta(q.maxTimeoutSeconds)))
  }

  // ---------------------------------------------------------------- one call

  /** The invoice, intent and lane that reach the risk engine, or how the call ends before it does. */
  function ToJudge(c: Setup, q: Requirements, w: World,
                   given: Option<string>): Result<(string, PaymentIntent, Tier), Failure>
    requires c.Valid()
  {
    if Supported(q, w).Some? then Err(Refused(Supported(q, w).value))
    else if Invoice(q, given).None? then Err(Refused(NoInvoice))
    else
      var intent :- IntentOf(q, w);
      var tier := LaneOf(c.router, w.routerFeed, intent);
      if tier.Err? then Err(PriceFailed(tier.error)) else Ok((Invoice(q, given).value, intent, tier.value))
  }

  function SignPayment(c: Setup, w: World, payment: Payment): Result<Blob, Failure> {
    if w.autofill.None? then Err(NetworkFailed)
    else if !w.backendsSign then Err(BackendFailed)
    else Ok(Blob(payment, w.autofill.value, c.backends))
  }

  /** What the payer remembers of its last attempt and of its last signed payment. */
  datatype Memory = Memory(lastDecision: Option<Decision>, lastBlob: Option<Blob>, lastHash: Option<string>)

  datatype Step = Step(engine: State, memory: Memory, outcome: Result<Header, Failure>)

  function PayStep(c: Setup, p: Policy, s: State, m: Memory, q: Requirements, w: World, given: Option<string>): Step
    requires c.Valid() && p.provider.Valid()
  {
    match ToJudge(c, q, w, given)
    case Err(f) => Step(s, m, Err(f))
    case Ok((invoice, intent, tier)) =>
      var (s', judged) := Evaluated(p, s, w.engineFeed, intent);
      match judged
      case Err(e) => Step(s', m, Err(PriceFailed(e)))
      case Ok(v) =>
        var decision := Decision(tier, v.level, v.firedReasons, v.rlusdEquivalent);
        var m' := m.(lastDecision := Some(decision));
        if v.level != GREEN then Step(s', m', Err(Refused(Withheld(v.level))))
        else
          match BuildPayment(c, q, w, invoice, decision)
          case Err(f) => Step(s', m', Err(f))
          case Ok(payment) =>
            match SignPayment(c, w, payment)
            case Err(f) => Step(s', m', Err(f))
            case Ok(blob) =>
              Step(s', m'.(lastBlob := Some(blob), lastHash := Some(w.hashOf(blob))), Ok(Header(blob, invoice)))
  }

  class Payer {
    const setup: Setup
    const risk: Engine
    var lastDecision: Option<Decision>
    var lastBlob: Option<Blob>
    var lastHash: Option<string>

    ghost function Remembered(): Memory
      reads this
    {
      Memory(lastDecision, lastBlob, lastHash)
    }

    constructor (setup: Setup, risk: Engine)
      requires setup.Valid()
      ensures this.setup == setup && this.risk == risk && Remembered() == Memory(None, None, None)
    {
      this.setup, this.risk := setup, risk;
      lastDecision, lastBlob, lastHash := None, None, None;
    }

    method CreatePaymentHeader(q: Requirements, w: World, given: Option<string>) returns (r: Result<Header, Failure>)
      requires setup.Valid() && risk.policy.provider.Valid()
      modifies this, risk
      ensures Step(risk.View(), Remembered(), r)
           == PayStep(setup, risk.policy, old(risk.View()), old(Remembered()), q, w, given)
    {
      var unsupported := Supported(q, w);
      if unsupported.Some? {
        return Err(Refused(unsupported.value));
      }
      var invoice := Invoice(q, given);
      if invoice.None? {
        return Err(Refused(NoInvoice));
      }
      var intent := IntentOf(q, w);
      if intent.Err? {
        return Err(intent.error);
      }
      var tier := LaneOf(setup.router, w.routerFeed, intent.value);
      if tier.Err? {
        return Err(PriceFailed(tier.error));
      }
      var verdict := risk.Evaluate(w.engineFeed, intent.value);
      if verdict.Err? {
        return Err(PriceFailed(verdict.error));
      }
      var v := verdict.value;
      var decision := Decision(tier.value, v.level, v.firedReasons, v.rlusdEquivalent);
      lastDecision := Some(decision);
      if verdict.value.level != GREEN {
        return Err(Refused(Withheld(verdict.value.level)));
      }
      var payment := BuildPayment(setup, q, w, invoice.value, decision);
      if payment.Err? {
        return Err(payment.error);
      }
      var blob := SignPayment(setup, w, payment.value);
      if blob.Err? {
        return Err(blob.error);
      }
      lastBlob := Some(blob.value);
      lastHash := Some(w.hashOf(blob.value));
      return Ok(Header(blob.value, invoice.value));
    }
  }

  // ---------------------------------------------------------------- what is audited is what is signed

  /** The engine evaluation, if any, that a call amounts to. */
  function EvaluationOf(c: Setup, q: Requirements, w: World, given: Option<string>): Option<EngineRuns.Op>
    requires c.Valid()
  {
    match ToJudge(c, q, w, given)
    case Err(_) => None
    case Ok((_, intent, _)) => Some(EngineRuns.Evaluate(w.engineFeed, intent))
  }

  lemma EngineSees(c: Setup, p: Policy, s: State, m: Memory, q: Requirements, w: World, given: Option<string>)
    requires c.Valid() && p.provider.Valid()
    ensures var op := EvaluationOf(c, q, w, given);
            PayStep(c, p, s, m, q, w, given).engine == if op.Some? then EngineRuns.Step(p, s, op.value).0 else s
    ensures PayStep(c, p, s, m, q, w, given).outcome.Ok? ==>
            EvaluationOf(c, q, w, given).Some? && EvaluationOf(c, q, w, given).value.Evaluate?
            && EngineRuns.HasLevel(EngineRuns.Step(p, s, EvaluationOf(c, q, w, given).value).1, GREEN)
            && IntentOf(q, w) == Ok(EvaluationOf(c, q, w, given).value.intent)
  {
  }

  /** Failing leaves the last blob and hash as they were; succeeding replaces both, with those of the header. */
  lemma OnlySuccessReplacesBlob(c: Setup, p: Policy, s: State, m: Memory, q: Requirements, w: World,
                                given: Option<string>)
    requires c.Valid() && p.provider.Valid()
    ensures var step := PayStep(c, p, s, m, q, w, given);
            if step.outcome.Ok? then
              step.memory.lastBlob == Some(step.outcome.value.blob)
              && step.memory.lastHash == Some(w.hashOf(step.outcome.value.blob))
            else
              step.memory.lastBlob == m.lastBlob && step.memory.lastHash == m.lastHash
  {
  }

  lemma WholeValue(d: Decimal)
    requires IsWhole(d)
    ensures Value(d) == Whole(d) as real
    ensures Value(Decimal(d.coef, d.exp - 6)) == Value(Decimal(Whole(d), -6))
  {
    if d.exp >= 0 {
      Rescale(d.coef, 0, d.exp);
      Rescale(d.coef, -6, d.exp);
    } else {
      DivMod(d.coef, Pow10(-d.exp));
      Rescale(Whole(d), d.exp, -d.exp);
      Rescale(Whole(d), d.exp - 6, -d.exp);
    }
  }

  // ---------------------------------------------------------------- the terms of a quote

  /** A quote is in XRP when it names no asset, or spells XRP in any mixture of cases. */
  predicate QuotesXrp(q: Requirements) {
    q.asset == None
    || q.asset.value in {"", "XRP", "XRp", "XrP", "Xrp", "xRP", "xRp", "xrP", "xrp"}
  }

  lemma IsXrpIff(q: Requirements)
    ensures q.IsXrp() <==> QuotesXrp(q)
    ensures !QuotesXrp(q) ==> q.asset == Some(q.Asset())
  {
    if q.IsXrp() && q.asset.Some? && q.asset.value != "" {
      var a, u := q.asset.value, Hex.UpperCase(q.asset.value);
      assert |a| == 3 && u[0] == 'X' && u[1] == 'R' && u[2] == 'P';
      UpperIs(a[0], 'X', 'x');
      UpperIs(a[1], 'R', 'r');
      UpperIs(a[2], 'P', 'p');
      ThreeLetters(a);
    }
    if QuotesXrp(q) {
      XrpSpellings(q.Asset());
    }
  }

  lemma ThreeLetters(a: string)
    requires |a| == 3 && (a[0] == 'X' || a[0] == 'x') && (a[1] == 'R' || a[1] == 'r') && (a[2] == 'P' || a[2] == 'p')
    ensures a in {"XRP", "XRp", "XrP", "Xrp", "xRP", "xRp", "xrP", "xrp"}
  {
    assert a == [a[0], a[1], a[2]];
  }

  lemma UpperIs(c: char, upper: char, lower: char)
    requires 'A' <= upper <= 'Z' && lower as int == upper as int + 32 && Hex.UpperChar(c) == upper
    ensures c == upper || c == lower
  {
  }

  lemma XrpSpellings(a: string)
    requires |a| == 3 && (a[0] == 'X' || a[0] == 'x') && (a[1] == 'R' || a[1] == 'r') && (a[2] == 'P' || a[2] == 'p')
    ensures Hex.UpperCase(a) == "XRP"
  {
  }

  /** A number of drops is whole and not negative. */
  ghost predicate WholeDrops(d: Decimal) {
    exists n: nat :: IsNumber(d, n)
  }

  predicate IsNumber(d: Decimal, n: nat) {
    Value(d) == n as real
  }

  lemma WholeIff(d: Decimal)
    ensures IsWhole(d) && Value(d) >= 0.0 <==> WholeDrops(d)
  {
    if IsWhole(d) && Value(d) >= 0.0 {
      WholeValue(d);
      assert IsNumber(d, Whole(d));
    }
    if n: nat :| IsNumber(d, n) {
      NumberIsWhole(d, n);
    }
  }

  lemma NumberIsWhole(d: Decimal, n: nat)
    requires IsNumber(d, n)
    ensures IsWhole(d)
  {
    if d.exp < 0 {
      Rescale(n, d.exp, -d.exp);
      ValueOrder(d.coef, n * Pow10(-d.exp), d.exp);
      ValueOrder(n * Pow10(-d.exp), d.coef, d.exp);
      DivModIs(d.coef, Pow10(-d.exp), n, 0);
    }
  }

  /** What a quote asks for: this asset, in this amount, as the risk rules see it. */
  ghost predicate Quoted(q: Requirements, asset: string, amount: Decimal) {
    q.amount.Some?
    && if QuotesXrp(q) then WholeDrops(q.amount.value) && asset == "XRP" && amount == DropsToXrp(q.amount.value)
       else q.asset == Some(asset) && amount == q.amount.value
  }

  /** A quote this payer can serve: the exact scheme, an XRPL network, and for a token a currency and issuer. */
  predicate Serves(q: Requirements, w: World) {
    q.scheme == Some("exact")
    && (q.network == Some("xrpl:0") || q.network == Some("xrpl:1") || q.network == Some("xrpl:2"))
    && (QuotesXrp(q) || (w.currencyHex(q.asset.value).Some? && q.issuer != None && q.issuer != Some("")))
  }

  /** The invoice a payment is for: the one given by the caller if any, and else the quote's own. */
  predicate ForInvoice(q: Requirements, given: Option<string>, invoice: string) {
    invoice != "" && if given == None || given == Some("") then q.invoiceId == Some(invoice) else given == Some(invoice)
  }

  predicate HasInvoice(q: Requirements, given: Option<string>) {
    (given != None && given != Some("")) || (q.invoiceId != None && q.invoiceId != Some(""))
  }

  /**
   The intent judged is what is quoted: there is one exactly when payee and amount can be read, drops being a
   whole number; it has the quote's payee, asset and amount, and is never an asset transfer.
   */
  lemma IntentIsQuote(q: Requirements, w: World)
    ensures IntentOf(q, w).Ok? <==>
            q.payTo != None && q.payTo != Some("") && q.amount.Some?
            && (QuotesXrp(q) ==> WholeDrops(q.amount.value))
    ensures IntentOf(q, w).Ok? ==>
              var intent := IntentOf(q, w).value;
              q.payTo == Some(intent.destination) && Quoted(q, intent.asset, intent.amount)
              && intent.timestamp == w.timestamp && intent.rwa == None
  {
    IsXrpIff(q);
    if q.amount.Some? {
      WholeIff(q.amount.value);
    }
  }

  lemma ServesIff(q: Requirements, w: World)
    ensures Supported(q, w).None? <==> Serves(q, w)
  {
    IsXrpIff(q);
  }

  /**
   A payment is signed exactly when the quote can be served, is for an invoice, has a payee, whole drops and
   usable tags, is let through on its own terms, its lane can be priced, the network answers and the backends
   sign.
   */
  lemma PaidIff(c: Setup, p: Policy, s: State, m: Memory, q: Requirements, w: World, given: Option<string>,
                asset: string, amount: Decimal)
    requires c.Valid() && p.provider.Valid() && Quoted(q, asset, amount)
    ensures PayStep(c, p, s, m, q, w, given).outcome.Ok? <==>
            Serves(q, w) && HasInvoice(q, given) && q.payTo != None && q.payTo != Some("")
            && (c.router.Some? ==> Priced(c.router.value.provider, w.routerFeed, asset))
            && LetThrough(p, s, w.engineFeed, q.payTo.value, asset, amount, w.timestamp)
            && !q.sourceTag.NotAnInteger? && !q.destinationTag.NotAnInteger?
            && w.ledgerIndex.Some? && w.autofill.Some? && w.backendsSign
  {
    ServesIff(q, w);
    IntentIsQuote(q, w);
    if Unread(q, w, given).Ok? {
      var intent := IntentOf(q, w).value;
      PaidOnce(c, p, s, m, q, w, given, intent);
      if c.router.Some? {
        LaneIff(c.router.value, w.routerFeed, intent);
      }
      GreenIffLetThrough(p, s, w.engineFeed, intent);
    } else {
      UnreadLeavesAll(c, p, s, m, q, w, given);
    }
  }

  /** The same from the intent read. */
  lemma PaidOnce(c: Setup, p: Policy, s: State, m: Memory, q: Requirements, w: World, given: Option<string>,
                 intent: PaymentIntent)
    requires c.Valid() && p.provider.Valid() && Unread(q, w, given) == Ok(intent)
    ensures PayStep(c, p, s, m, q, w, given).outcome.Ok? <==>
            LaneOf(c.router, w.routerFeed, intent).Ok? && JudgedGreen(p, s, w.engineFeed, intent)
            && !q.sourceTag.NotAnInteger? && !q.destinationTag.NotAnInteger?
            && w.ledgerIndex.Some? && w.autofill.Some? && w.backendsSign
  {
  }

  /** Nothing that cannot be read is ever paid. */
  lemma NoTermsNoPayment(c: Setup, p: Policy, s: State, m: Memory, q: Requirements, w: World, given: Option<string>)
    requires c.Valid() && p.provider.Valid() && PayStep(c, p, s, m, q, w, given).outcome.Ok?
    ensures exists asset, amount :: Quoted(q, asset, amount)
  {
    IntentIsQuote(q, w);
  }

  // ---------------------------------------------------------------- what is built

  /**
   The amount paid is the quote's. XRP is the quoted number of drops, which the intent states in XRP rounded
   to 28 digits, so exactly if and only if the quote has no further non-zero digits. Any other asset is the
   currency quoted, of the issuer quoted, in the very amount quoted and judged; and no more of it is spent.
   */
  predicate Pays(q: Requirements, w: World, intent: PaymentIntent, payment: Payment) {
    q.amount.Some?
    && if QuotesXrp(q) then
         payment.sendMax == None && intent.asset == "XRP"
         && payment.amount.WireDrops? && payment.amount.drops as real == Value(q.amount.value)
         && (Value(intent.amount) == Value(Decimal(payment.amount.drops, -6)) <==> Fits(q.amount.value.coef))
       else
         payment.sendMax == Some(payment.amount) && q.asset == Some(intent.asset) && payment.amount.WireIssued?
         && Some(payment.amount.currencyHex) == w.currencyHex(q.asset.value)
         && Some(payment.amount.issuer) == q.issuer
         && payment.amount.value == q.amount.value == intent.amount
  }

  lemma QuotePaysIntent(c: Setup, q: Requirements, w: World, invoice: string, decision: Decision)
    requires IntentOf(q, w).Ok? && BuildPayment(c, q, w, invoice, decision).Ok?
    ensures Pays(q, w, IntentOf(q, w).value, BuildPayment(c, q, w, invoice, decision).value)
  {
    IsXrpIff(q);
    if q.IsXrp() {
      var drops := ParseDrops(q).value;
      WholeValue(drops);
      RoundedExactIff(Decimal(drops.coef, drops.exp - 6));
    }
  }

  /** The payment names the invoice where it should: in a memo, in the field for it, or in both. */
  predicate BoundTo(c: Setup, payment: Payment, invoice: string) {
    (InvoiceMemo(invoice) in payment.memos <==> c.binding == InMemos || c.binding == InBoth)
    && payment.invoiceIdField == if c.binding == InInvoiceId || c.binding == InBoth then Some(invoice) else None
  }

  /** The tag quoted, or the default when none is; never one that is not a number. */
  predicate TagIs(quoted: TagField, tag: int, default: int) {
    quoted == Tag(tag) || (quoted == NoTag && tag == default)
  }

  /**
   The payment is for the quote: from the treasury to the payee, for the invoice, with the quoted tags, or the
   default source tag, with the decision on it if that is wanted, and expiring when it should.
   */
  predicate IsFor(c: Setup, q: Requirements, w: World, invoice: string, decision: Decision, payment: Payment) {
    payment.account == c.address && Some(payment.destination) == q.payTo
    && BoundTo(c, payment, invoice)
    && (AuditMemo(decision, invoice) in payment.memos <==> c.auditMemo)
    && TagIs(q.sourceTag, payment.sourceTag, 804681468)
    && (q.destinationTag == NoTag <==> payment.destinationTag == None)
    && (payment.destinationTag.Some? ==> q.destinationTag == Tag(payment.destinationTag.value))
    && w.ledgerIndex.Some?
    && q.maxTimeoutSeconds <= 5 * (payment.lastLedgerSequence - w.ledgerIndex.value - 2) < q.maxTimeoutSeconds + 5
  }

  lemma BuiltIsFor(c: Setup, q: Requirements, w: World, invoice: string, decision: Decision)
    requires q.payTo.Some? && BuildPayment(c, q, w, invoice, decision).Ok?
    ensures IsFor(c, q, w, invoice, decision, BuildPayment(c, q, w, invoice, decision).value)
  {
    var memos := Memos(c, invoice, decision);
    assert c.binding != InInvoiceId ==> memos[0] == InvoiceMemo(invoice);
    assert c.auditMemo ==> memos[|memos| - 1] == AuditMemo(decision, invoice);
  }

  /**
   Every header pays what its quote asks, in the terms of the intent judged GREEN on this call: payee, amount,
   currency and issuer, with an equal SendMax for a token; it is bound to the invoice as configured, carries
   exactly the quoted tags and the decision recorded, and expires two ledgers after the quoted timeout,
   counted in whole ledgers of five seconds.
   */
  lemma AuditedIsSigned(c: Setup, p: Policy, s: State, m: Memory, q: Requirements, w: World, given: Option<string>)
    requires c.Valid() && p.provider.Valid()
    requires PayStep(c, p, s, m, q, w, given).outcome.Ok?
    ensures var step := PayStep(c, p, s, m, q, w, given);
            var blob, invoice := step.outcome.value.blob, step.outcome.value.invoiceId;
            |step.engine.audit| == |s.audit| + 1 && step.memory.lastDecision.Some?
            && var v := step.engine.audit[|s.audit|];
               v.level == GREEN
               && blob.payment.destination == v.intent.destination && Pays(q, w, v.intent, blob.payment)
               && Some(blob.filled) == w.autofill && blob.signers == c.backends
               && ForInvoice(q, given, invoice)
               && IsFor(c, q, w, invoice, step.memory.lastDecision.value, blob.payment)
  {
    var intent, decision, invoice, payment := HeaderBuilt(c, p, s, m, q, w, given);
    BuiltIsFor(c, q, w, invoice, decision);
    QuotePaysIntent(c, q, w, invoice, decision);
  }

  lemma HeaderBuilt(c: Setup, p: Policy, s: State, m: Memory, q: Requirements, w: World, given: Option<string>)
    returns (intent: PaymentIntent, decision: Decision, invoice: string, payment: Payment)
    requires c.Valid() && p.provider.Valid() && PayStep(c, p, s, m, q, w, given).outcome.Ok?
    ensures IntentOf(q, w) == Ok(intent) && Invoice(q, given) == Some(invoice) && q.payTo == Some(intent.destination)
    ensures BuildPayment(c, q, w, invoice, decision) == Ok(payment) && w.autofill.Some?
    ensures var step := PayStep(c, p, s, m, q, w, given);
            step.outcome == Ok(Header(Blob(payment, w.autofill.value, c.backends), invoice))
            && step.memory.lastDecision == Some(decision)
            && |step.engine.audit| == |s.audit| + 1
            && step.engine.audit[|s.audit|].level == GREEN && step.engine.audit[|s.audit|].intent == intent
  {
    var judge := ToJudge(c, q, w, given).value;
    invoice, intent := judge.0, judge.1;
    var v := Evaluated(p, s, w.engineFeed, intent).1.value;
    decision := Decision(judge.2, v.level, v.firedReasons, v.rlusdEquivalent);
    payment := BuildPayment(c, q, w, invoice, decision).value;
  }

  /**
   The decision on record. A call that the engine judges leaves that judgement, in its lane, whether or not a
   payment comes of it; any other call leaves the engine and the record as they were.
   */
  lemma DecisionIff(c: Setup, p: Policy, s: State, m: Memory, q: Requirements, w: World, given: Option<string>)
    requires c.Valid() && p.provider.Valid()
    ensures var step := PayStep(c, p, s, m, q, w, given);
            var judged := Serves(q, w) && HasInvoice(q, given) && IntentOf(q, w).Ok?
                          && (c.router.Some? ==>
                                Priced(c.router.value.provider, w.routerFeed, IntentOf(q, w).value.asset))
                          && Priced(p.provider, w.engineFeed, IntentOf(q, w).value.asset);
            if !judged then
              step.engine == s && step.memory == m && step.outcome.Err?
            else
              |step.engine.audit| == |s.audit| + 1 && step.memory.lastDecision.Some?
              && var v, d := step.engine.audit[|s.audit|], step.memory.lastDecision.value;
                 v.intent == IntentOf(q, w).value
                 && d.level == v.level && d.firedReasons == v.firedReasons && d.rlusdEquivalent == v.rlusdEquivalent
                 && LaneOf(c.router, w.routerFeed, v.intent) == Ok(d.tier)
                 && (v.level != GREEN ==> step.outcome == Err(Refused(Withheld(v.level))))
                 && (v.level == GREEN ==> FailsAfter(q, w, step.outcome))
  {
    ServesIff(q, w);
    if IntentOf(q, w).Ok? && Serves(q, w) && HasInvoice(q, given) {
      var intent := IntentOf(q, w).value;
      ReadDecision(c, p, s, m, q, w, given, intent);
      if c.router.Some? {
        LaneIff(c.router.value, w.routerFeed, intent);
      }
      ValuedAtWorth(p.provider, w.engineFeed, intent.asset, intent.amount);
    } else {
      UnreadLeavesAll(c, p, s, m, q, w, given);
    }
  }

  /** What can still stop a payment that is judged GREEN: its tags, the network, or the backends, in this order. */
  predicate FailsAfter(q: Requirements, w: World, r: Result<Header, Failure>) {
    var tagged := !q.sourceTag.NotAnInteger? && !q.destinationTag.NotAnInteger?;
    var online := w.ledgerIndex.Some? && w.autofill.Some?;
    (r == Err(Refused(BadSourceTag)) <==> q.sourceTag.NotAnInteger?)
    && (r == Err(Refused(BadDestinationTag)) <==> !q.sourceTag.NotAnInteger? && q.destinationTag.NotAnInteger?)
    && (r == Err(NetworkFailed) <==> tagged && !online)
    && (r == Err(BackendFailed) <==> tagged && online && !w.backendsSign)
  }

  lemma UnreadLeavesAll(c: Setup, p: Policy, s: State, m: Memory, q: Requirements, w: World, given: Option<string>)
    requires c.Valid() && p.provider.Valid() && Unread(q, w, given).Err?
    ensures var step := PayStep(c, p, s, m, q, w, given);
            step.engine == s && step.memory == m && step.outcome == Err(Unread(q, w, given).error)
  {
  }

  /** The same from the intent read. */
  lemma ReadDecision(c: Setup, p: Policy, s: State, m: Memory, q: Requirements, w: World, given: Option<string>,
                     intent: PaymentIntent)
    requires c.Valid() && p.provider.Valid() && Unread(q, w, given) == Ok(intent)
    ensures var step := PayStep(c, p, s, m, q, w, given);
            var lane, judged := LaneOf(c.router, w.routerFeed, intent), Evaluated(p, s, w.engineFeed, intent).1;
            if lane.Err? || judged.Err? then
              step.engine == s && step.memory == m && step.outcome.Err?
            else
              var v := judged.value;
              step.engine.audit == s.audit + [v] && v.intent == intent
              && step.memory.lastDecision == Some(Decision(lane.value, v.level, v.firedReasons, v.rlusdEquivalent))
              && (v.level != GREEN ==> step.outcome == Err(Refused(Withheld(v.level))))
              && (v.level == GREEN ==> FailsAfter(q, w, step.outcome))
  {
  }

  // ---------------------------------------------------------------- refusals

  /** The intent of a quote that can be served and is for an invoice, or why there is none. */
  function Unread(q: Requirements, w: World, given: Option<string>): Result<PaymentIntent, Failure> {
    if Supported(q, w).Some? then Err(Refused(Supported(q, w).value))
    else if Invoice(q, given).None? then Err(Refused(NoInvoice))
    else IntentOf(q, w)
  }

  /** What every refusal of a quote says of it, and when it is given: the first thing that is wrong with it. */
  lemma RefusalsMean(c: Setup, p: Policy, s: State, m: Memory, q: Requirements, w: World, given: Option<string>)
    requires c.Valid() && p.provider.Valid()
    ensures var r := PayStep(c, p, s, m, q, w, given).outcome;
            var exact, xrpl := q.scheme == Some("exact"), q.network in {Some("xrpl:0"), Some("xrpl:1"), Some("xrpl:2")};
            (r == Err(Refused(UnsupportedScheme)) <==> !exact)
            && (r == Err(Refused(UnsupportedNetwork)) <==> exact && !xrpl)
            && (r == Err(Refused(InvalidCurrency)) <==>
                exact && xrpl && !QuotesXrp(q) && w.currencyHex(q.asset.value).None?)
            && (r == Err(Refused(MissingIssuer)) <==>
                exact && xrpl && !QuotesXrp(q) && w.currencyHex(q.asset.value).Some?
                && (q.issuer == None || q.issuer == Some("")))
            && (r == Err(Refused(NoInvoice)) <==> Serves(q, w) && !HasInvoice(q, given))
            && (r == Err(Refused(NoPayee)) <==>
                Serves(q, w) && HasInvoice(q, given) && (q.payTo == None || q.payTo == Some("")))
            && (r == Err(Refused(Unparsable)) <==>
                Serves(q, w) && HasInvoice(q, given) && q.payTo != None && q.payTo != Some("") && q.amount == None)
            && (r == Err(Refused(NotWholeDrops)) <==>
                Serves(q, w) && HasInvoice(q, given) && q.payTo != None && q.payTo != Some("") && q.amount.Some?
                && QuotesXrp(q) && !WholeDrops(q.amount.value))
  {
    var r := PayStep(c, p, s, m, q, w, given).outcome;
    forall f: Failure | AboutQuote(f) ensures r == Err(f) <==> Unread(q, w, given) == Err(f) {
      UnreadIsOutcome(c, p, s, m, q, w, given, f);
    }
    UnreadMeans(q, w, given, r);
  }

  /** A refusal of the quote itself. */
  predicate AboutQuote(f: Failure) {
    f.Refused? && !f.refusal.Withheld? && f.refusal != BadSourceTag && f.refusal != BadDestinationTag
  }

  lemma UnreadIsOutcome(c: Setup, p: Policy, s: State, m: Memory, q: Requirements, w: World, given: Option<string>,
                        f: Failure)
    requires c.Valid() && p.provider.Valid() && AboutQuote(f)
    ensures PayStep(c, p, s, m, q, w, given).outcome == Err(f) <==> Unread(q, w, given) == Err(f)
  {
  }

  lemma UnreadMeans(q: Requirements, w: World, given: Option<string>, r: Result<Header, Failure>)
    requires forall f: Failure | AboutQuote(f) :: r == Err(f) <==> Unread(q, w, given) == Err(f)
    ensures var exact, xrpl := q.scheme == Some("exact"), q.network in {Some("xrpl:0"), Some("xrpl:1"), Some("xrpl:2")};
            (r == Err(Refused(UnsupportedScheme)) <==> !exact)
            && (r == Err(Refused(UnsupportedNetwork)) <==> exact && !xrpl)
            && (r == Err(Refused(InvalidCurrency)) <==>
                exact && xrpl && !QuotesXrp(q) && w.currencyHex(q.asset.value).None?)
            && (r == Err(Refused(MissingIssuer)) <==>
                exact && xrpl && !QuotesXrp(q) && w.currencyHex(q.asset.value).Some?
                && (q.issuer == None || q.issuer == Some("")))
    ensures r == Err(Refused(NoInvoice)) <==> Serves(q, w) && !HasInvoice(q, given)
    ensures var named := Serves(q, w) && HasInvoice(q, given);
            var payee := named && q.payTo != None && q.payTo != Some("");
            (r == Err(Refused(NoPayee)) <==> named && !payee)
            && (r == Err(Refused(Unparsable)) <==> payee && q.amount == None)
            && (r == Err(Refused(NotWholeDrops)) <==>
                payee && q.amount.Some? && QuotesXrp(q) && !WholeDrops(q.amount.value))
  {
    IsXrpIff(q);
    ServesIff(q, w);
    if q.amount.Some? {
      WholeIff(q.amount.value);
    }
  }

  /** A signed XRP payment was worth no more than the threshold at a live rate that was positive and not too old. */
  lemma PaidXrpIsFreshlyPriced(c: Setup, p: Policy, s: State, m: Memory, q: Requirements, w: World,
                               given: Option<string>)
    requires c.Valid() && p.provider.Valid() && p.provider.CallableRate? && q.IsXrp()
    requires PayStep(c, p, s, m, q, w, given).outcome.Ok?
    ensures IntentOf(q, w).Ok? && FreshRate(p.provider, w.engineFeed)
    ensures Value(Mul(IntentOf(q, w).value.amount, w.engineFeed.quote.rate)) <= Value(p.threshold)
  {
    GreenXrpIsFreshlyPriced(p, s, w.engineFeed, IntentOf(q, w).value);
  }
}
