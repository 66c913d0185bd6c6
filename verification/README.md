# QuorumVault: a verified model of the signing gate

QuorumVault puts a risk engine between an AI agent and a 2-of-2 treasury on the XRP Ledger. This project
models that gate in Dafny, from the arithmetic its decisions rest on up to whole runs of the deployed
system, and proves what each part promises.

`dafny verify dfyconfig.toml` checks everything.

## How it is laid out

| layer | files |
|---|---|
| numbers and text | `Arith`, `Flags`, `Decimals` (28-digit half-even decimals), `Hex`, `Utf8`, `Sorting` |
| valuation and lanes | `Pricing`, `Router` |
| judging a payment | `Intents`, `RwaRule`, `SlidingWindow`, `RiskEngine`, `EngineRuns`, `ClockCondition`, `FastPath` |
| reading the ledger | `LedgerReader`, `TreasuryGuard`, `AgentIdentity` |
| the two front doors | `ExternalSigner`, `X402`, and `FrontDoors`, which runs both on one engine |
| keys and channels | `Kms`, `Keystore`, `Channels` |
| the legacy protocol | `LegacyReset` |

Objects whose methods update fields are classes: the two engines, the fast path, both signers, the channel
state and lane, the keystore, the ledger client, the override authority. Their methods are proved against step
functions on values, and the guarantees are lemmas about whole runs
of those step functions. Exceptions are `Err` results.

The main results, hardest first:

* **Velocity over whole runs.** `EngineRuns.GreensBounded`, `FrontDoors.SignaturesBounded`: however calls and resets
  interleave, and through both front doors together, no closed interval as long as the window holds more than
  `limit` signatures for one payee, asset and amount, provided the clock does not run backwards.
  For the engine the exact condition on the clock is `ClockCondition.BoundHoldsIff`; that proviso is its ordinary
  case, and for the fast path and the two doors together it is a sufficient one.
* **The freeze.** The breaker is tripped exactly when a verdict since the last reset was RED, remembers the first
  one, and nothing is signed until a reset.
* **What a signature means.** `ExternalSigner.SignedIff` and `X402.PaidIff` say exactly when there is one, from payee,
  asset and amount of the transaction or quote itself. `SignedByAccreditedQuorum` reaches down to the ledger: the
  signer list is the backends, nothing short of two of them can authorise, and each holds an accepted, unexpired
  credential of the exact type from a recognised issuer.
* **Verifiers against ledger semantics.** The treasury guard accepts if and only if no coalition smaller than two
  can act; the identity verdict does not depend on paging or order; a token transfer is free of RED findings if
  and only if it is compliant on the snapshot, for any domain that lists text types.
* **Numbers.** Rounding is correct, to the nearest decimal of 28 digits, and never lightens the lane of a larger
  payment; low-S normalisation keeps ECDSA verification; key compression loses nothing; UTF-8 and hexadecimal
  round-trip both ways.
* **Custody.** Channel claims only grow and pay out no more than was audited; a reset token issued while tripped
  works at most once; a sealed seed opens in its own slot only, also after the file has been saved and loaded.

Where the code does not do what is hoped for, the exact condition is proved:

* A clock that steps back. For every limit, stepping past the window and back gives twice the limit in GREEN verdicts at
  one time (`EngineRuns.ClockBackDefeatsLimit`). The bound holds on every run with given timestamps if and only if the
  deque never drops an entry too soon, which is a matter of the timestamps alone (`ClockCondition.BoundHoldsIff`).
* A domain's credential type that is not UTF-8 text, or is spaced out. It is looked up under another key, so the check
  passes a destination that holds only another type and refuses one that holds the listed type
  (`LedgerReader.OtherTypePasses`; the one byte FF in `LoneByteIsNotText`). Membership is that of the ledger, on every
  ledger, if and only if all listed types are text (`LedgerReader.MembershipFaithfulIff`).
* Drops with non-zero digits past the 28th are stated to the engine rounded, and no others
  (`X402.QuotePaysIntent`, `ExternalSigner.DropsStatedExactlyIff`).
* A legacy reset token can be used twice if and only if it was issued while nothing was tripped
  (`LegacyReset.SecondUseIffUntripped`).
* A signer listed twice would pass the treasury guard and could act alone (`TreasuryGuard.DuplicateEntryActsAlone`). For
  any list, two are needed if and only if no account reaches the quorum with all its entries together
  (`TreasuryGuard.NeedsTwoIff`).
* A slot can be mistaken for another, colon-free one if and only if its address or algorithm has a colon
  (`Keystore.SharedAadIff`, `Keystore.MovedEntryOpensIff`).

## Assumptions

Decimals are finite. Timestamps are real numbers and epoch times integers. One call sees one ledger snapshot,
one clock and one price reading per provider. Hashes, tokens, claim signatures, sealed texts and signed blobs are
ideal: injective, and made only by their owner. The curve is any commutative group with the right order in which
opposite points share their x coordinate; the field modulus is any odd prime.

## Model

| member | source | states |
|---|---|---|
| FrontDoors.SignaturesBounded | quorumvault/policy/risk_engine.py:62-87 | over any interleaving of wallet-skill calls, x402 calls and resets on one engine with a clock that never runs backwards, any closed interval no longer than the window holds at most `frequency_limit` signatures for one destination, asset and amount |
| FrontDoors.NoSignatureWhileFrozen | quorumvault/integrations/external_signer.py:250-261 | after a RED verdict through either door, any later signature through either door has a reset between |
| FrontDoors.EngineRunsInside | quorumvault/integrations/x402_signer.py:227-240 | the shared engine goes through exactly a run of its own, one evaluation per call that reaches it |
| FrontDoors.StepOnEngine | quorumvault/integrations/external_signer.py:248-261 | a signature of either door comes only with a GREEN verdict, in the same call, on the intent read from the thing signed |
| FrontDoors.RemembersLastPayment | quorumvault/integrations/x402_signer.py:208-253 | through failures, the other door and resets, the remembered blob and hash are those of the last payment signed, to the payee and in the amount judged; none is remembered exactly if none was signed |
| EngineRuns.GreensBounded | quorumvault/policy/risk_engine.py:62-87 | for non-decreasing timestamps, at most `frequency_limit` GREEN verdicts on one transfer in any closed interval of window length, resets included |
| EngineRuns.GreensBoundedBeforeDrift | quorumvault/policy/risk_engine.py:62-87 | for any timestamps, the same bound from `lo` on as long as nothing is stamped more than a window after `lo` |
| EngineRuns.ClockBackDefeatsLimit | quorumvault/policy/risk_engine.py:62-87 | for every limit: from an open engine with nothing logged, the limit in repeats, one other transfer past the window, and the repeats again at the first time give twice the limit in GREEN verdicts at one time |
| ClockCondition.BoundHoldsIff | quorumvault/policy/risk_engine.py:62-87 | for an engine that can give a GREEN verdict, the velocity bound holds on every run with given timestamps, in every interval of window length, if and only if in no such interval a payment has been dropped by the time a later one is judged with which more than the limit have fallen in it |
| ClockCondition.LogIsDeque | quorumvault/policy/risk_engine.py:62-67 | in any order of timestamps the log is the history without its first entries, as many as the timestamps alone determine |
| ClockCondition.OrderedNeverForgets | quorumvault/policy/risk_engine.py:62-67 | timestamps that never decrease meet that condition |
| EngineRuns.BreakerRemembersRed | quorumvault/policy/risk_engine.py:109-119 | tripped exactly when some verdict since the last reset was RED; the trip reasons are those of the first such verdict, and empty otherwise |
| EngineRuns.FrozenUntilReset | quorumvault/policy/risk_engine.py:109-147 | between a RED verdict and a later one that is not RED lies a reset |
| EngineRuns.LogIsWindow | quorumvault/policy/risk_engine.py:62-67 | for any timestamp order the pruned deque is a suffix of the full history, missing only entries more than a window older than a time seen |
| EngineRuns.LogIsRecentHistory | quorumvault/policy/risk_engine.py:62-67 | for non-decreasing timestamps pruning leaves exactly the history inside the window |
| EngineRuns.RepeatsAreExact | quorumvault/policy/risk_engine.py:75-84 | for non-decreasing timestamps, the repeat count is one plus the number of earlier judged intents with the same payee, asset and value in the window ending now |
| EngineRuns.AuditLogIsComplete | quorumvault/policy/risk_engine.py:121-147 | the audit log is every verdict ever given, in order; resets do not shorten it |
| RiskEngine.GreenIff | quorumvault/policy/risk_engine.py:70-113 | GREEN exactly when not frozen, within the threshold, to a whitelisted payee, not a repeat too many and without compliance findings; RED exactly when frozen, untrusted, looping or non-compliant |
| RiskEngine.LevelIff | quorumvault/policy/risk_engine.py:69-125 | the level of every evaluation, from the intent: no verdict, and no change, exactly when the asset cannot be priced; RED when frozen, untrusted, a repeat too many or not compliant; else YELLOW when worth more than the threshold or exposed to clawback; GREEN in no other case |
| RiskEngine.FaceValueGreenIff | quorumvault/policy/risk_engine.py:59-113 | an asset other than XRP is GREEN exactly when its face value is within the threshold and nothing else is against it |
| RiskEngine.BreakerIff | quorumvault/policy/risk_engine.py:109-138 | what an evaluation leaves: tripped from the first RED on, with that verdict's reasons; every flag of the verdict says what holds of the intent |
| RiskEngine.ReasonsReported | quorumvault/policy/risk_engine.py:69-113 | on an open or frozen engine alike, each reason is fired exactly when its own condition holds of intent, policy and state: worth over the threshold, payee not trusted, a repeat too many, frozen, and each compliance code when the rule gives it |
| RiskEngine.Engine.PruneLog | quorumvault/policy/risk_engine.py:62-67 | the loop drops the head while it is older than the window |
| RiskEngine.Engine.Evaluate | quorumvault/policy/risk_engine.py:69-138 | the verdict and whole new state of one evaluation; without a price nothing changes |
| RiskEngine.Engine.ResetCircuitBreaker | quorumvault/policy/risk_engine.py:140-147 | clears breaker and trip reasons, and leaves the log and audit log |
| RwaRule.EvaluateRwa | quorumvault/policy/rwa_rule.py:45-103 | the findings list grown branch by branch is the list the transfer deserves, and empty without an asset |
| RwaRule.RedFreeIff | quorumvault/policy/rwa_rule.py:45-103 | no RED finding exactly under the four compliance conditions; then clawback alone can remain, as YELLOW |
| RwaRule.FindingsName | quorumvault/policy/rwa_rule.py:45-103 | each code is found exactly when its own condition fails, or clawback is enabled |
| SlidingWindow.PrunedIsRecent | quorumvault/tiers/fast_path.py:55-57 | head pruning refines filtering by age when times never decrease |
| SlidingWindow.WindowCountsAll | quorumvault/policy/risk_engine.py:75-84 | a pruned log still counts every entry of the history in an interval that no time seen has left behind |
| FastPath.VelocityBoundedFastPath.Prune | quorumvault/tiers/fast_path.py:55-57 | the loop drops approvals older than the window |
| FastPath.VelocityBoundedFastPath.Evaluate | quorumvault/tiers/fast_path.py:59-83 | the decision and new approval log of one evaluation |
| FastPath.ApprovalsBounded | quorumvault/tiers/fast_path.py:55-76 | for non-decreasing timestamps, at most `frequency_limit` approvals in any closed interval of window length |
| FastPath.ApprovalsBoundedBeforeDrift | quorumvault/tiers/fast_path.py:55-76 | the same for any timestamps, from `lo` on, while nothing seen is more than a window after `lo` |
| FastPath.ApprovedIff | quorumvault/tiers/fast_path.py:59-83 | for every intent on every run with non-decreasing timestamps: approved exactly when worth no more than the ceiling while fewer than `limit` approvals lie in the window; under the ceiling it escalates only when exactly the budget lies there, consuming nothing; approvals expire at the current ledger plus the expiry |
| FastPath.OverCeilingEscalates | quorumvault/tiers/fast_path.py:59-67 | in any order of timestamps, an intent worth more than the ceiling escalates with that reason and leaves approvals and log as they were; an unpriced one is not decided |
| FastPath.LogWithinBudget | quorumvault/tiers/fast_path.py:69-76 | the approval log never outgrows the limit |
| FastPath.LogIsWindowOfApprovals | quorumvault/tiers/fast_path.py:55-76 | in any order of timestamps the log is a suffix of the approvals missing only outdated ones |
| ExternalSigner.Signer.Sign | quorumvault/integrations/external_signer.py:204-271 | outcome, recorded decision and engine state of one call, for every branch from type gate to multisignature |
| ExternalSigner.Signer.CheckLastGates | quorumvault/integrations/external_signer.py:309-404 | treasury check, then every subject's identity in sorted order; the first failure is the refusal |
| ExternalSigner.RefusalNamesFirst | quorumvault/integrations/external_signer.py:309-404 | a treasury refusal carries a true violation and comes exactly when the guard does not accept; an identity refusal names the least unverified subject and its error |
| ExternalSigner.SignedXrpIsFreshlyPriced | quorumvault/policy/pricing.py:95-109 | a signed XRP payment, under a live rate, was worth no more than the threshold at a rate that is positive and, when timed and limited, not too old |
| ExternalSigner.SignedIff | quorumvault/integrations/external_signer.py:229-271 | from the transaction's own payee, asset and amount: a signature is produced exactly when the type is signable, the payment can be read, its worth, payee and repeats are let through, an MPT transfer has no finding, its lane can be priced, every wired check passes and the backends sign; it then covers that transaction and all backends |
| ExternalSigner.SignedTokenWithinThreshold | quorumvault/integrations/external_signer.py:468-480 | a signed token whose currency code is not XRP, issued currency or MPT, has a value within the threshold and goes to a whitelisted payee |
| ExternalSigner.DecisionIff | quorumvault/integrations/external_signer.py:229-271 | the recorded decision and engine state of every call: refused type, nothing for an unreadable or unpriced payment, else the verdict in its lane, or the refusal of treasury or identity in its place |
| ExternalSigner.RefusalsMean | quorumvault/integrations/external_signer.py:229-246 | each refusal before the engine, and each failed resolution, is given exactly when it is the first thing wrong with the payment |
| ExternalSigner.GatesIff | quorumvault/integrations/external_signer.py:309-404 | nothing stands between GREEN and the signature exactly when the guard, if wired, accepts the configured or default signers and quorum, and every configured or default subject is verified at the time of the call |
| ExternalSigner.IntentIsPayment | quorumvault/integrations/external_signer.py:443-484 | there is an intent exactly when payee and amount can be read and an MPT transfer resolved; it has the transaction's payee, its asset (XRP, the issuance, or the currency code) and its amount, and an MPT transfer's resolved compliance |
| ExternalSigner.DropsStatedExactlyIff | quorumvault/integrations/external_signer.py:462-466 | drops are stated exactly when no non-zero digit lies past the 28th |
| ExternalSigner.SignedTokenIsCompliant | quorumvault/integrations/external_signer.py:406-425 | a signed MPT transfer goes to a whitelisted payee, is of a token without clawback, and is compliant on the ledger snapshot: in full when the domain, if any, lists text types, and otherwise with membership under the keys the reader looks up |
| ExternalSigner.SignedByAccreditedQuorum | quorumvault/integrations/external_signer.py:321-404 | with both live checks and default sets, a signature shows that the ledger's signer list is exactly the backends, that authorising takes two of them, and that each holds a proving credential |
| TreasuryGuard.Verify | quorumvault/policy/treasury_guard.py:156-215 | accepts exactly when there is no regular key, the account has lsfDisableMaster as one of the bits of its flags, and the live list is accepted; each error is a true violation, with everything checked before it in order |
| TreasuryGuard.CheckSignerList | quorumvault/policy/treasury_guard.py:218-272 | the loop reports the first fault in order; it accepts exactly one list with the expected quorum and members in which no entry's weight reaches it |
| TreasuryGuard.FirstUnsoundMeaning | quorumvault/policy/treasury_guard.py:247-266 | a fault reported for an entry is that of the first unsound one; none is reported exactly when all are sound |
| TreasuryGuard.AcceptsIffNeedsTwo | quorumvault/policy/treasury_guard.py:156-272 | for an account as the ledger keeps it, the guard lets a signature through exactly when quorum and members are the expected ones and every authorisation takes at least two listed signers, the master key being one unless the flag bit is set |
| Flags.BitIff | quorumvault/policy/treasury_guard.py:208-214 | the flag test holds exactly when the mask's bit is one of those that add up to the number |
| TreasuryGuard.TwoSignersBothNeeded | quorumvault/policy/treasury_guard.py:247-272 | with two expected signers every authorisation contains both |
| TreasuryGuard.NeedsTwoIff | quorumvault/policy/treasury_guard.py:247-272 | for any list at all, duplicates included, with the keys off: two members are needed exactly when no account reaches the quorum with everything listed under its name |
| TreasuryGuard.DuplicateEntryActsAlone | quorumvault/policy/treasury_guard.py:247-272 | for every quorum, the guard accepts one account listed twice, with weights that reach it only together, beside another; the first can then act alone |
| AgentIdentity.FetchCredentials | quorumvault/policy/agent_identity.py:327-380 | the page loop collects what the marker chain holds, within `max_pages` requests |
| AgentIdentity.JudgeCredentials | quorumvault/policy/agent_identity.py:239-310 | the scanning loop and its flags give the verdict of the set of credentials |
| AgentIdentity.VerifyIdentity | quorumvault/policy/agent_identity.py:215-273 | the outcome of a verification, with at most `max_pages` reads |
| AgentIdentity.PagingIrrelevant | quorumvault/policy/agent_identity.py:327-380 | verdict and refusal reason are the same for any two splits and orders of the same held credentials |
| AgentIdentity.VerifiedIff | quorumvault/policy/agent_identity.py:215-380 | for any server, looping or endless markers included: verified exactly when a type is required and some chain of pages within the limit ends on which the account is the subject of a credential of that type, from a recognised issuer, with lsfAccepted, whose expiry has not come |
| AgentIdentity.RefusalIff | quorumvault/policy/agent_identity.py:239-310 | each refusal reason is given exactly for its own kind of nearest miss among what the account holds |
| AgentIdentity.RefusedUnread | quorumvault/policy/agent_identity.py:222-236 | without a named issuer an account is refused as such and in no other case; one that the ledger does not have, as missing |
| AgentIdentity.VerifiedChain | quorumvault/policy/agent_identity.py:327-380 | on a chain that ends, the verdict is that of what the whole chain holds, and a chain longer than the limit is refused as too long whatever it holds |
| AgentIdentity.VerifiedHolds | quorumvault/policy/agent_identity.py:245-258 | a verified account is the subject of a credential of exactly the required type, from a recognised issuer, accepted and unexpired, on some page the server gave |
| LedgerReader.AcceptedCredentials | quorumvault/policy/ledger_reader.py:285-306 | the loop over a domain's entries collects each with its decoded type; a missing domain is an error |
| LedgerReader.ResolvedIffRead | quorumvault/policy/ledger_reader.py:199-283 | a context is resolved exactly when every read it rests on was answered |
| LedgerReader.UnresolvedIff | quorumvault/policy/ledger_reader.py:199-306 | a missing issuance, and a missing domain once everything before it was read, are refused as such |
| LedgerReader.RedFreeIffLookedUp | quorumvault/policy/ledger_reader.py:199-245 | resolving and then judging finds nothing RED exactly when authorisation, transferability and required credentials are met on the snapshot and, for a domain, something is held under a key the reader looks up |
| LedgerReader.RedFreeIffCompliant | quorumvault/policy/ledger_reader.py:199-245 | without a domain, or with one that lists text types, that is exactly being compliant on the snapshot, with the domain's credentials under the keys it lists them by |
| LedgerReader.MembershipFaithfulIff | quorumvault/policy/ledger_reader.py:285-329 | membership as looked up is membership as listed, on every ledger and for every account, exactly when every listed type is the hexadecimal, without white space, of UTF-8 text |
| LedgerReader.OtherTypePasses | quorumvault/policy/ledger_reader.py:98-110 | with any other type, a destination that holds only the type looked up in its place passes without a finding, and one that holds the listed type is found outside the domain |
| LedgerReader.LoneByteIsNotText | quorumvault/policy/ledger_reader.py:98-110 | the type FF is such a type, looked up as 4646 |
| LedgerReader.AnyHeldMeaning | quorumvault/policy/ledger_reader.py:226-231 | domain membership is holding any listed credential, and an unreadable one matters only before a held one |
| LedgerReader.HeldOfMeaning | quorumvault/policy/ledger_reader.py:222-224 | the credentials resolved are exactly the required ones that are validly held |
| LedgerReader.TypeRoundTrip | quorumvault/policy/ledger_reader.py:87-110 | decoding an encoded type gives it back |
| LedgerReader.LookupKeyIff | quorumvault/policy/ledger_reader.py:98-110 | a listed type is looked up under its own key exactly when it is the hexadecimal, without white space, of UTF-8 text |
| Utf8.DecodeEncode | quorumvault/policy/ledger_reader.py:87-95 | strict UTF-8 decoding (sections 3 and 4 of RFC 3629) inverts encoding on every string of scalar values |
| Utf8.EncodeDecode | quorumvault/policy/ledger_reader.py:107-110 | re-encoding whatever decodes gives the same bytes, so no overlong or surrogate form is let in |
| Utf8.EncodedForm | quorumvault/policy/ledger_reader.py:87-95 | the bytes of each scalar value are those of section 3 of RFC 3629 |
| Utf8.EncodeAppend | quorumvault/policy/ledger_reader.py:87-95 | a string is encoded character by character, in order |
| Hex.UpperFrom | quorumvault/policy/ledger_reader.py:107-108 | reading hexadecimal and writing it back gives its upper case, or something shorter if white space was skipped |
| Hex.SkippedIff | quorumvault/policy/ledger_reader.py:107-108 | the six ASCII white-space characters are skipped between pairs of digits, and anything else that is no digit is an error |
| Sorting.SortedIsUnique | quorumvault/integrations/external_signer.py:388 | the sorted list depends only on which subjects there are |
| Sorting.BeforeIff | quorumvault/integrations/external_signer.py:388 | the order is that of a dictionary over code points |
| Decimals.RoundedMono | quorumvault/policy/pricing.py:62-68 | rounding to 28 digits keeps the order of values, whatever the exponents |
| Decimals.RoundedExactIff | quorumvault/integrations/external_signer.py:462-466 | rounding leaves a value as it is exactly when its digits past the 28th are zero |
| Decimals.RoundedIsNearest | quorumvault/integrations/external_signer.py:462-466 | no decimal of at most 28 digits, whatever its exponent, is nearer to a value than the value rounded |
| Decimals.RoundedFits | quorumvault/integrations/external_signer.py:462-466 | rounding leaves at most 28 digits |
| Decimals.MulIsNearest | quorumvault/policy/pricing.py:62-68 | a product is the decimal of at most 28 digits nearest to the exact one |
| Decimals.RelativeError | quorumvault/policy/pricing.py:62-68 | rounding a decimal is off its value by at most five parts in 10^28 |
| Pricing.ConversionKeepsOrder | quorumvault/policy/pricing.py:62-68 | conversion keeps the order of amounts, and succeeds or fails whatever the amount |
| Pricing.ValuedAtWorth | quorumvault/policy/pricing.py:62-119 | XRP alone needs a rate, static or live and fresh, and is worth its rounded product with it; any other asset counts at its face value; and which error a missing rate gives |
| Pricing.ShortConversionIsExact | quorumvault/policy/pricing.py:62-68 | drops of 18 digits at a rate of 10 digits convert without rounding |
| Pricing.ExactValueIs | quorumvault/integrations/external_signer.py:462-466 | that unrounded value is drops divided by a million times the rate |
| Pricing.RoundedComparison | quorumvault/tiers/router.py:71-74 | against a limit of at most 28 digits rounding can only lose an excess, and only by landing on the limit |
| Router.LargerNeverLighter | quorumvault/tiers/router.py:61-75 | at one price a larger amount, or making the payment an asset transfer, never gets a lighter lane |
| Router.LaneIff | quorumvault/tiers/router.py:61-75 | the lane, value and reason of every payment: an asset transfer goes to the backstop whatever its value, anything else where its worth falls between the ceilings |
| Router.FaceValueLanes | quorumvault/tiers/router.py:61-75 | an asset other than XRP always has a lane, by its face value; without a router that is the backstop |
| Router.MoreDropsNeverLighter | quorumvault/tiers/router.py:61-75 | the same from the drops on the wire, through both roundings |
| Router.ShortDropsRouteExactly | quorumvault/tiers/router.py:71-75 | for short drops and rates the lane is that of the exact rational value |
| X402.Payer.CreatePaymentHeader | quorumvault/integrations/x402_signer.py:208-253 | outcome, recorded decision, last blob, its hash, and engine state of one call, for every branch |
| X402.AuditedIsSigned | quorumvault/integrations/x402_signer.py:224-253 | every header pays the payee judged GREEN in that call, from the treasury, in the quoted drops or in the quoted currency of the quoted issuer and amount with an equal SendMax; bound to the invoice as configured, with exactly the quoted tags (or the default source tag), the decision recorded, and expiry |
| X402.PaidIff | quorumvault/integrations/x402_signer.py:208-253 | from the quote's own payee, asset and amount: a payment is signed exactly when the quote can be served, is for an invoice, has whole drops and usable tags, is let through and priced, the network answers and the backends sign |
| X402.NoTermsNoPayment | quorumvault/integrations/x402_signer.py:285-299 | whatever is paid has a quoted asset and amount, drops being a whole number |
| X402.IntentIsQuote | quorumvault/integrations/x402_signer.py:285-305 | there is an intent exactly when payee and amount can be read, drops being whole and not negative; it has the quote's payee, asset and amount |
| X402.DecisionIff | quorumvault/integrations/x402_signer.py:224-253 | a call the engine judges records that judgement in its lane, and then fails only for tags, network or backends; any other call changes nothing |
| X402.RefusalsMean | quorumvault/integrations/x402_signer.py:256-300 | each refusal of a quote is given exactly when it is the first thing wrong with it |
| X402.QuotePaysIntent | quorumvault/integrations/x402_signer.py:285-327 | the amount and SendMax built are those of the quote, issuer included, and equal the amount judged; for drops exactly when no non-zero digit lies past the 28th |
| X402.PaidXrpIsFreshlyPriced | quorumvault/policy/pricing.py:95-109 | the same of an XRP payment through this door: within the threshold at a live rate fit for use |
| Kms.CanonicalVerifies | quorumvault/signing/kms_backend.py:85-90 | normalising keeps a signature valid or invalid for every digest and key (section 4.1.4 of SEC 1), whichever inverse of the original S it is checked with |
| Kms.CanonicalIsLow | quorumvault/signing/kms_backend.py:85-90 | the result is at most N/2, normalising again changes nothing, and it is a proper S exactly when the input was |
| Kms.CanonicalMergesTwins | quorumvault/signing/kms_backend.py:85-90 | proper signatures get the same form exactly when they are equal or each other's malleation |
| Kms.CompressLossless | quorumvault/signing/kms_backend.py:68-82 | points of the curve have the same compressed form exactly when they are the same (section 2.3.3 of SEC 1) |
| Kms.CompressShape | quorumvault/signing/kms_backend.py:81-82 | the form has 66 digits: the prefix of y's parity, then the digits that spell x |
| Channels.ChannelCustodyLane.OpenChannel | quorumvault/tiers/channel_custody.py:55-99 | what opening gives, for every branch |
| Channels.ChannelCustodyLane.AuthorizePayment | quorumvault/tiers/channel_custody.py:102-134 | signature and new authorised amount, for every branch; a failure changes nothing |
| Channels.ChannelGuarantee | quorumvault/tiers/channel_custody.py:55-134 | on every confirmed channel of every run the largest signed claim is the authorised amount, at most the capacity, at most the cap; paid plus remaining is the capacity |
| Channels.EveryOpenIsAudited | quorumvault/tiers/channel_custody.py:70-99 | on every run, every channel was opened by the treasury to its payee, with its capacity and key, under the quorum's signature and without the auditor's objection |
| Channels.ClaimsNeverDecrease | quorumvault/tiers/channel_custody.py:113-134 | a new claim is for no less than any before on its channel, and for no other channel |
| Channels.AuthorizedIff | quorumvault/tiers/channel_custody.py:113-134 | exactly the amounts from the authorised one to the capacity can be signed for, with the channel's key only |
| Channels.RedeemableIff | quorumvault/tiers/channel_custody.py:137-164 | the lane builds a claim that the ledger pays exactly when the amount was signed for, is more than was paid, and no auditor objects |
| Channels.RedeemConserves | quorumvault/tiers/channel_custody.py:137-164 | a paid claim moves exactly its increase, within what was authorised, and touches no other channel |
| Channels.ExposureBounded | quorumvault/tiers/channel_custody.py:70-79 | with n channels at most n times the cap is exposed |
| Channels.StepKeepsInv | quorumvault/signing/backend.py:59-75 | every open, confirmation, authorisation and claim keeps the channel invariant, signatures being bound to key, channel and amount |
| LegacyReset.RiskTelemetryEngine.Evaluate | legacy/xrpl_auditor_production_blueprint.py:122-188 | verdict and new state of one legacy evaluation |
| LegacyReset.LevelIff | legacy/xrpl_auditor_production_blueprint.py:122-171 | RED when frozen, untrusted or a repeat too many, else YELLOW when worth more than the threshold, XRP counting at 0.55; each reason is named exactly when it holds |
| LegacyReset.FrozenUntilReset | legacy/xrpl_auditor_production_blueprint.py:156-212 | as long as no reset goes through, a tripped breaker keeps its reasons and every verdict is RED |
| LegacyReset.RiskTelemetryEngine.ResetCircuitBreaker | legacy/xrpl_auditor_production_blueprint.py:198-212 | the reset goes through exactly on a token for the present pair, and is then logged on both sides |
| LegacyReset.EpisodeNeverRecurs | legacy/xrpl_auditor_production_blueprint.py:190-212 | the pair of trip-reason count and audit length never recurs with reasons present, unless nothing but denied resets happened |
| LegacyReset.TokenOnlyInItsEpisode | legacy/xrpl_auditor_production_blueprint.py:190-212 | a token issued while tripped works only before the next evaluation or reset |
| LegacyReset.TokenAtMostOnce | legacy/xrpl_auditor_production_blueprint.py:190-212 | such a token works at most once in any continuation |
| LegacyReset.SecondUseIffUntripped | legacy/xrpl_auditor_production_blueprint.py:198-212 | used twice in a row, a token works again exactly when the breaker was not tripped at issue |
| Keystore.Zeroize | quorumvault/signing/keystore.py:42-45 | every byte of the buffer is zero afterwards |
| Keystore.EncryptedKeystore.AddSeed | quorumvault/signing/keystore.py:167-194 | the whole new contents: the seed sealed in its slot, opening under its own key and no other, every other entry unchanged; nothing without a passphrase |
| Keystore.EncryptedKeystore.DecryptSeed | quorumvault/signing/keystore.py:196-212 | a fresh buffer with the plaintext of the alias's entry, or which of the two errors |
| Keystore.PassphraseIff | quorumvault/signing/keystore.py:54-63 | a given passphrase wins over the environment, and an empty one, wherever from, is none |
| Keystore.SealedSeedComesBack | quorumvault/signing/keystore.py:97-212 | sealed, saved, loaded and decrypted, a seed comes back under its passphrase and no other, and every other alias decrypts as before |
| Keystore.AadInjective | quorumvault/signing/keystore.py:66-68 | for colon-free addresses and algorithms, and any alias, the associated data tells slots apart |
| Keystore.AadSpells | quorumvault/signing/keystore.py:66-68 | the associated data is the UTF-8 of alias, address and algorithm with colons between |
| Keystore.SharedAadIff | quorumvault/signing/keystore.py:66-68 | a slot shares its associated data with some other, colon-free slot exactly when its own address or algorithm has a colon |
| Keystore.MovedEntryOpensIff | quorumvault/signing/keystore.py:196-209 | a sealed seed can be moved to some colon-free slot and still open exactly when it was sealed in one with a colon |
| Keystore.RelabelledNeverOpens | quorumvault/signing/keystore.py:196-209 | a relabelled entry opens exactly under its own label and key |
| Keystore.TransplantedFileRefused | quorumvault/signing/keystore.py:97-120 | an entry moved in the file opens only where it was, and only if unchanged |
| Keystore.SaveLoad | quorumvault/signing/keystore.py:97-155 | loading what was saved gives the same salt and entries |

## Left out

- Non-finite decimals (NaN, Infinity), the decimal module's exponent limits, and the spelling of numbers as strings.
- Floating-point rounding of timestamps, price ages and legacy amounts, which are real numbers here.
- `amount_overage`, `explain_my_position`, memo JSON and refusal messages: display text and figures no decision reads.
- Refusal alerts: purely observational.
- The static placeholder readers, guards and verifiers, and the not-wired warnings.
- Arguments that a constructor refuses (a rate, cap or expiry that is not positive, ceilings out of order, no backends): they are preconditions, gathered in `Valid`.
- Upper-casing outside ASCII in a ledger credential type, and in an asset name.
- Strings with lone surrogates, which Python can hold and a Dafny string cannot.
- Exceptions from malformed fields of a successful ledger answer, such as a flag that is not a number.
- Transaction encoding, autofill, signature combination and the hash function itself: the signed object stands for its blob.
- The hexadecimal spelling of salt, nonces and ciphertexts inside the keystore file.
- DER, SPKI and KMS transport, the ed25519 backend, scrypt and AES-GCM themselves, and the file system.
- That the secp256k1 field modulus is prime: the compression lemmas hold for every odd prime.
- `build_expiring_payment`, the fields of `PaymentChannelCreate`, and the legacy agents' signatures and broadcast: construction and comparison only.
