/** What an agent proposes: a payment intent, and its compliance context when it moves a tokenized asset. */
module Intents {
  import opened Wrappers
  import opened Decimals

  datatype Credential = Credential(issuer: string, credentialType: string)

  datatype RwaTransfer = RwaTransfer(
    isRwa: bool,
    requiresAuthorization: bool,
    destinationAuthorized: Option<bool>,
    transferDisabled: bool,
    destinationIsIssuer: bool,
    clawbackEnabled: bool,
    requiredCredentials: seq<Credential>,
    destinationCredentials: seq<Credential>,
    domainId: Option<string>,
    destinationInDomain: Option<bool>)

  datatype PaymentIntent = PaymentIntent(
    destination: string,
    asset: string,
    amount: Decimal,
    timestamp: real,
    rwa: Option<RwaTransfer>)
}
