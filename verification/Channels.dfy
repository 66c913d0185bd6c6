/**
 The channel-custody lane: audited opens, unaudited off-ledger claims that only grow, and what the
 ledger pays out for them. A claim signature is ideal: it binds its key, channel and amount.
 */
module Channels {
  import opened Wrappers
  import opened Arith

  datatype ClaimSignature = ClaimSignature(publicKey: string, channelId: string, amount: int)

  /** A signing key; one that does not work makes the call raise. */
  datatype Backend = Backend(publicKey: string, works: bool)

  datatype Failure =
    | OverCap | AuditorRejected | NoChannelId | OverCapacity | Decreasing | WrongKey | NegativeAmount | BackendFailed

  function AuthorizeChannelClaim(b: Backend, channelId: string, amount: int): Result<ClaimSignature, Failure> {
    if amount < 0 then Err(NegativeAmount)
    else if !b.works then Err(BackendFailed)
    else Ok(ClaimSignature(b.publicKey, channelId, amount))
  }

  datatype Channel = Channel(
    payer: string,
    payee: string,
    capacity: int,
    publicKey: string,
    channelId: Option<string>,
    authorized: int)

  /** The auditor's answer, if one is asked. */
  predicate Rejects(audit: Option<bool>) {
    audit == Some(false)
  }

  function Opened(cap: int, treasury: string, key: Backend, payee: string, capacity: int, audit: Option<bool>,
                  quorumSigns: bool): Result<Channel, Failure> {
    if capacity > cap then Err(OverCap)
    else if Rejects(audit) then Err(AuditorRejected)
    else if !quorumSigns then Err(BackendFailed)
    else Ok(Channel(treasury, payee, capacity, key.publicKey, None, 0))
  }

  /** What authorising a cumulative claim gives, and the channel afterwards. */
  function Authorized(ch: Channel, key: Backend, cumulative: int): (Channel, Result<ClaimSignature, Failure>) {
    if ch.channelId.None? then (ch, Err(NoChannelId))
    else if cumulative > ch.capacity then (ch, Err(OverCapacity))
    else if cumulative < ch.authorized then (ch, Err(Decreasing))
    else if key.publicKey != ch.publicKey then (ch, Err(WrongKey))
    else
      match AuthorizeChannelClaim(key, ch.channelId.value, cumulative)
      case Err(e) => (ch, Err(e))
      case Ok(signature) => (ch.(authorized := cumulative), Ok(signature))
  }

  datatype Claim = Claim(
    account: string,
    channelId: string,
    balance: int,
    amount: int,
    signature: ClaimSignature,
    publicKey: string)

  function BuildClaim(ch: Channel, balance: int, signature: ClaimSignature,
                      audit: Option<bool>): Result<Claim, Failure> {
    if ch.channelId.None? then Err(NoChannelId)
    else if balance > ch.capacity then Err(OverCapacity)
    else if Rejects(audit) then Err(AuditorRejected)
    else Ok(Claim(ch.payee, ch.channelId.value, balance, balance, signature, ch.publicKey))
  }

  class ChannelState {
    const payer: string
    const payee: string
    const capacityDrops: int
    const channelPublicKey: string
    var channelId: Option<string>
    var authorizedDrops: int

    ghost function View(): Channel
      reads this
    {
      Channel(payer, payee, capacityDrops, channelPublicKey, channelId, authorizedDrops)
    }

    constructor (payer: string, payee: string, capacityDrops: int, channelPublicKey: string)
      ensures View() == Channel(payer, payee, capacityDrops, channelPublicKey, None, 0)
    {
      this.payer, this.payee, this.capacityDrops := payer, payee, capacityDrops;
      this.channelPublicKey := channelPublicKey;
      channelId, authorizedDrops := None, 0;
    }
  }

  class ChannelCustodyLane {
    const capacityCapDrops: int

    constructor (capacityCapDrops: int)
      requires capacityCapDrops > 0
      ensures this.capacityCapDrops == capacityCapDrops
    {
      this.capacityCapDrops := capacityCapDrops;
    }

    method OpenChannel(treasury: string, key: Backend, payee: string, capacity: int, audit: Option<bool>,
                       quorumSigns: bool)
      returns (r: Result<ChannelState, Failure>)
      ensures var expected := Opened(capacityCapDrops, treasury, key, payee, capacity, audit, quorumSigns);
              match r
              case Ok(state) => fresh(state) && expected == Ok(state.View())
              case Err(e) => expected == Err(e)
    {
      if capacity > capacityCapDrops {
        return Err(OverCap);
      }
      if audit.Some? && !audit.value {
        return Err(AuditorRejected);
      }
      if !quorumSigns {
        return Err(BackendFailed);
      }
      var state := new ChannelState(treasury, payee, capacity, key.publicKey);
      return Ok(state);
    }

    method AuthorizePayment(key: Backend, state: ChannelState, cumulative: int)
      returns (r: Result<ClaimSignature, Failure>)
      modifies state`authorizedDrops
      ensures (state.View(), r) == Authorized(old(state.View()), key, cumulative)
    {
      if state.channelId.None? {
        return Err(NoChannelId);
      }
      if cumulative > state.capacityDrops {
        return Err(OverCapacity);
      }
      if cumulative < state.authorizedDrops {
        return Err(Decreasing);
      }
      if key.publicKey != state.channelPublicKey {
        return Err(WrongKey);
      }
      var signature := AuthorizeChannelClaim(key, state.channelId.value, cumulative);
      if signature.Ok? {
        state.authorizedDrops := cumulative;
      }
      return signature;
    }
  }

  // ---------------------------------------------------------------- lane and ledger together

  /** A channel as the lane tracks it, with what the ledger holds and has paid for it. */
  datatype Account = Account(channel: Channel, escrow: int, paid: int)

  /** All channels ever opened, and every claim signature ever made. */
  datatype Book = Book(accounts: seq<Account>, issued: set<ClaimSignature>)

  datatype Op =
    | Open(treasury: string, key: Backend, payee: string, capacity: int, audit: Option<bool>, quorumSigns: bool)
    | Confirm(i: nat, id: string)
    | Authorize(i: nat, key: Backend, cumulative: int)
    | Redeem(i: nat, claim: Claim)

  /** The ledger creates a channel only with a positive amount, and gives it an identifier of its own. */
  predicate CanConfirm(b: Book, i: nat, id: string) {
    i < |b.accounts| && b.accounts[i].channel.channelId.None? && b.accounts[i].channel.capacity > 0
    && forall j :: 0 <= j < |b.accounts| ==> b.accounts[j].channel.channelId != Some(id)
  }

  /**
   The ledger pays a claim on this channel, by its payee, within its amount, beyond what was paid, with a
   signature that was really made.
   */
  predicate Pays(b: Book, i: nat, claim: Claim) {
    i < |b.accounts|
    && var a := b.accounts[i];
       a.channel.channelId == Some(claim.channelId)
       && claim.account == a.channel.payee && claim.publicKey == a.channel.publicKey
       && claim.signature in b.issued
       && claim.signature == ClaimSignature(claim.publicKey, claim.channelId, claim.amount)
       && a.paid < claim.balance <= claim.amount <= a.channel.capacity
  }

  function Step(cap: int, b: Book, op: Op): Book {
    match op
    case Open(treasury, key, payee, capacity, audit, quorumSigns) =>
      (match Opened(cap, treasury, key, payee, capacity, audit, quorumSigns)
       case Err(_) => b
       case Ok(ch) => b.(accounts := b.accounts + [Account(ch, 0, 0)]))
    case Confirm(i, id) =>
      if !CanConfirm(b, i, id) then b
      else
        var a := b.accounts[i];
        b.(accounts := b.accounts[i := Account(a.channel.(channelId := Some(id)), a.channel.capacity, 0)])
    case Authorize(i, key, cumulative) =>
      if i >= |b.accounts| then b
      else
        var (ch, r) := Authorized(b.accounts[i].channel, key, cumulative);
        (match r
         case Err(_) => b
         case Ok(signature) => Book(b.accounts[i := b.accounts[i].(channel := ch)], b.issued + {signature}))
    case Redeem(i, claim) =>
      if !Pays(b, i, claim) then b
      else
        var a := b.accounts[i];
        b.(accounts := b.accounts[i := a.(escrow := a.escrow - (claim.balance - a.paid), paid := claim.balance)])
  }

  function Run(cap: int, ops: seq<Op>): Book {
    if ops == [] then Book([], {}) else Step(cap, Run(cap, ops[..|ops| - 1]), ops[|ops| - 1])
  }

  /** A claim on the channel for `amount` has been signed. */
  predicate IssuedFor(b: Book, ch: Channel, amount: int) {
    ch.channelId.Some? && ClaimSignature(ch.publicKey, ch.channelId.value, amount) in b.issued
  }

  /** What holds of one channel at every moment. */
  ghost predicate Sound(cap: int, b: Book, a: Account) {
    var ch := a.channel;
    ch.capacity <= cap
    && (ch.channelId.None? ==> ch.authorized == 0 && a.escrow == a.paid == 0)
    && (ch.channelId.Some? ==> 0 <= a.paid <= ch.authorized <= ch.capacity && a.escrow + a.paid == ch.capacity)
    && (forall s :: s in b.issued && ch.channelId == Some(s.channelId) ==>
                      s.publicKey == ch.publicKey && 0 <= s.amount <= ch.authorized)
    && (ch.authorized > 0 ==> IssuedFor(b, ch, ch.authorized))
  }

  ghost predicate AllSound(cap: int, b: Book) {
    forall i :: 0 <= i < |b.accounts| ==> Sound(cap, b, b.accounts[i])
  }

  predicate DistinctIds(accounts: seq<Account>) {
    forall i, j :: 0 <= i < j < |accounts| && accounts[i].channel.channelId.Some? ==>
      accounts[i].channel.channelId != accounts[j].channel.channelId
  }

  predicate HasId(accounts: seq<Account>, id: string) {
    exists i :: 0 <= i < |accounts| && accounts[i].channel.channelId == Some(id)
  }

  ghost predicate Placed(b: Book) {
    forall s :: s in b.issued ==> HasId(b.accounts, s.channelId)
  }

  ghost predicate Inv(cap: int, b: Book) {
    AllSound(cap, b) && DistinctIds(b.accounts) && Placed(b)
  }

  lemma StepKeepsInv(cap: int, b: Book, op: Op)
    requires Inv(cap, b)
    ensures Inv(cap, Step(cap, b, op))
  {
    match op
    case Open(_, _, _, _, _, _) => OpenKeepsInv(cap, b, op);
    case Confirm(i, id) =>
      if CanConfirm(b, i, id) {
        ConfirmKeepsInv(cap, b, i, id);
      }
    case Authorize(i, key, cumulative) =>
      if i < |b.accounts| && Authorized(b.accounts[i].channel, key, cumulative).1.Ok? {
        AuthorizeKeepsInv(cap, b, i, key, cumulative);
      }
    case Redeem(i, claim) =>
      if Pays(b, i, claim) {
        RedeemKeepsInv(cap, b, i, claim);
      }
  }

  /** Identifiers that were there still are. */
  lemma IdsKept(before: seq<Account>, after: seq<Account>, id: string)
    requires |before| <= |after| && HasId(before, id)
    requires forall i :: 0 <= i < |before| && before[i].channel.channelId.Some? ==>
                           after[i].channel.channelId == before[i].channel.channelId
    ensures HasId(after, id)
  {
    var i :| 0 <= i < |before| && before[i].channel.channelId == Some(id);
    assert after[i].channel.channelId == Some(id);
  }

  lemma PlacedKept(b: Book, after: seq<Account>)
    requires Placed(b) && |b.accounts| <= |after|
    requires forall i :: 0 <= i < |b.accounts| && b.accounts[i].channel.channelId.Some? ==>
                           after[i].channel.channelId == b.accounts[i].channel.channelId
    ensures Placed(b.(accounts := after))
  {
    forall s | s in b.issued ensures HasId(after, s.channelId) {
      IdsKept(b.accounts, after, s.channelId);
    }
  }

  lemma OpenKeepsInv(cap: int, b: Book, op: Op)
    requires Inv(cap, b) && op.Open?
    ensures Inv(cap, Step(cap, b, op))
  {
    var b' := Step(cap, b, op);
    PlacedKept(b, b'.accounts);
    forall i | 0 <= i < |b'.accounts| ensures Sound(cap, b', b'.accounts[i]) {
      assert i < |b.accounts| ==> Sound(cap, b, b.accounts[i]);
    }
  }

  lemma ConfirmKeepsInv(cap: int, b: Book, k: nat, id: string)
    requires Inv(cap, b) && CanConfirm(b, k, id)
    ensures Inv(cap, Step(cap, b, Confirm(k, id)))
  {
    var b' := Step(cap, b, Confirm(k, id));
    PlacedKept(b, b'.accounts);
    forall i | 0 <= i < |b'.accounts| ensures Sound(cap, b', b'.accounts[i]) {
      assert Sound(cap, b, b.accounts[i]);
      if i == k {
        assert !HasId(b.accounts, id);
      }
    }
  }

  lemma AuthorizeKeepsInv(cap: int, b: Book, k: nat, key: Backend, cumulative: int)
    requires Inv(cap, b) && k < |b.accounts| && Authorized(b.accounts[k].channel, key, cumulative).1.Ok?
    ensures Inv(cap, Step(cap, b, Authorize(k, key, cumulative)))
  {
    var b' := Step(cap, b, Authorize(k, key, cumulative));
    var signature := Authorized(b.accounts[k].channel, key, cumulative).1.value;
    assert Sound(cap, b, b.accounts[k]);
    PlacedKept(b, b'.accounts);
    assert b'.accounts[k].channel.channelId == Some(signature.channelId);
    assert Placed(b');
    forall i | 0 <= i < |b'.accounts| ensures Sound(cap, b', b'.accounts[i]) {
      assert Sound(cap, b, b.accounts[i]);
      if i != k {
        NewSignatureElsewhere(cap, b, b.accounts[i], signature);
      }
    }
  }

  /** A signature for another channel changes nothing here. */
  lemma NewSignatureElsewhere(cap: int, b: Book, a: Account, signature: ClaimSignature)
    requires Sound(cap, b, a) && a.channel.channelId != Some(signature.channelId)
    ensures Sound(cap, b.(issued := b.issued + {signature}), a)
  {
  }

  lemma RedeemKeepsInv(cap: int, b: Book, k: nat, claim: Claim)
    requires Inv(cap, b) && Pays(b, k, claim)
    ensures Inv(cap, Step(cap, b, Redeem(k, claim)))
  {
    var b' := Step(cap, b, Redeem(k, claim));
    assert Sound(cap, b, b.accounts[k]);
    PlacedKept(b, b'.accounts);
    forall i | 0 <= i < |b'.accounts| ensures Sound(cap, b', b'.accounts[i]) {
      assert Sound(cap, b, b.accounts[i]);
    }
  }

  lemma {:induction false} RunKeepsInv(cap: int, ops: seq<Op>)
    ensures Inv(cap, Run(cap, ops))
  {
    if ops != [] {
      RunKeepsInv(cap, ops[..|ops| - 1]);
      StepKeepsInv(cap, Run(cap, ops[..|ops| - 1]), ops[|ops| - 1]);
    }
  }

  // ---------------------------------------------------------------- what the lane does, call by call

  /**
   A channel is opened exactly within the cap, without the auditor's objection, under the quorum's signature;
   it is then the treasury's, to the named payee, of that capacity and key, with nothing authorised yet.
   */
  lemma OpenedIff(cap: int, treasury: string, key: Backend, payee: string, capacity: int, audit: Option<bool>,
                  quorumSigns: bool)
    ensures var r := Opened(cap, treasury, key, payee, capacity, audit, quorumSigns);
            (r.Ok? <==> capacity <= cap && audit != Some(false) && quorumSigns)
            && (r == Err(OverCap) <==> capacity > cap)
            && (r == Err(AuditorRejected) <==> capacity <= cap && audit == Some(false))
            && (r.Ok? ==>
                  r.value.payer == treasury && r.value.payee == payee && r.value.capacity == capacity
                  && r.value.publicKey == key.publicKey && r.value.channelId == None && r.value.authorized == 0)
  {
  }

  /** Operation `k` opened this channel, with the quorum's signature and no objection from the auditor. */
  predicate OpenedBy(op: Op, ch: Channel) {
    op.Open? && op.audit != Some(false) && op.quorumSigns
    && op.treasury == ch.payer && op.payee == ch.payee && op.capacity == ch.capacity && op.key.publicKey == ch.publicKey
  }

  /** On every run, every channel there is was opened so: no other way leads to one, and its terms stay as audited. */
  lemma {:induction false} EveryOpenIsAudited(cap: int, ops: seq<Op>, i: nat)
    requires i < |Run(cap, ops).accounts|
    ensures exists k :: 0 <= k < |ops| && OpenedBy(ops[k], Run(cap, ops).accounts[i].channel)
  {
    if ops != [] {
      var n := |ops| - 1;
      var before, after := Run(cap, ops[..n]), Run(cap, ops);
      if i < |before.accounts| {
        EveryOpenIsAudited(cap, ops[..n], i);
        var k :| 0 <= k < n && OpenedBy(ops[..n][k], before.accounts[i].channel);
        TermsStay(cap, before, ops[n], i);
        assert OpenedBy(ops[k], after.accounts[i].channel);
      } else {
        var op := ops[n];
        OpenedIff(cap, op.treasury, op.key, op.payee, op.capacity, op.audit, op.quorumSigns);
        assert OpenedBy(op, after.accounts[i].channel);
      }
    }
  }

  /** No operation changes what a channel was opened with. */
  lemma TermsStay(cap: int, b: Book, op: Op, i: nat)
    requires i < |b.accounts|
    ensures i < |Step(cap, b, op).accounts|
    ensures var ch, ch' := b.accounts[i].channel, Step(cap, b, op).accounts[i].channel;
            ch'.payer == ch.payer && ch'.payee == ch.payee
            && ch'.capacity == ch.capacity && ch'.publicKey == ch.publicKey
  {
  }

  /** Why an authorisation fails, and that a failed one changes nothing. */
  lemma AuthorizeRefusals(ch: Channel, key: Backend, cumulative: int)
    ensures var (ch', r) := Authorized(ch, key, cumulative);
            (r.Err? ==> ch' == ch) && (r.Ok? ==> ch' == ch.(authorized := cumulative))
            && (r == Err(NoChannelId) <==> ch.channelId == None)
            && (r == Err(OverCapacity) <==> ch.channelId.Some? && cumulative > ch.capacity)
            && (r == Err(Decreasing) <==>
                ch.channelId.Some? && cumulative <= ch.capacity && cumulative < ch.authorized)
            && (r == Err(WrongKey) <==>
                ch.channelId.Some? && ch.authorized <= cumulative <= ch.capacity && key.publicKey != ch.publicKey)
            && (r == Err(NegativeAmount) <==>
                ch.channelId.Some? && ch.authorized <= cumulative <= ch.capacity && key.publicKey == ch.publicKey
                && cumulative < 0)
  {
  }

  // ---------------------------------------------------------------- the guarantees

  /**
   At every moment of every run, on every channel the ledger has created: the largest claim signed is
   the authorised amount, which is at most the capacity, itself at most the audited cap; and what is
   paid, never more than authorised, together with what is left is the capacity.
   */
  lemma ChannelGuarantee(cap: int, ops: seq<Op>, i: nat)
    requires i < |Run(cap, ops).accounts| && Run(cap, ops).accounts[i].channel.channelId.Some?
    ensures var b := Run(cap, ops);
            var a := b.accounts[i];
            0 <= a.paid <= a.channel.authorized <= a.channel.capacity <= cap
            && a.paid + a.escrow == a.channel.capacity
            && (a.channel.authorized == 0 || IssuedFor(b, a.channel, a.channel.authorized))
            && forall x :: IssuedFor(b, a.channel, x) ==> 0 <= x <= a.channel.authorized
  {
    RunKeepsInv(cap, ops);
    assert Sound(cap, Run(cap, ops), Run(cap, ops).accounts[i]);
  }

  /** A claim, once signed, is for no less than any signed before on its channel, and never for another channel. */
  lemma ClaimsNeverDecrease(cap: int, ops: seq<Op>, i: nat, key: Backend, cumulative: int)
    requires i < |Run(cap, ops).accounts|
    requires Authorized(Run(cap, ops).accounts[i].channel, key, cumulative).1.Ok?
    ensures var b := Run(cap, ops);
            var signature := Authorized(b.accounts[i].channel, key, cumulative).1.value;
            (forall x :: IssuedFor(b, b.accounts[i].channel, x) ==> x <= signature.amount)
            && forall j :: 0 <= j < |b.accounts| && j != i ==>
                             b.accounts[j].channel.channelId != Some(signature.channelId)
  {
    RunKeepsInv(cap, ops);
    assert Sound(cap, Run(cap, ops), Run(cap, ops).accounts[i]);
  }

  /**
   On a channel the ledger has created, exactly the amounts from the authorised one up to the capacity
   can be signed for, and only with its own key.
   */
  lemma AuthorizedIff(cap: int, ops: seq<Op>, i: nat, key: Backend, cumulative: int)
    requires i < |Run(cap, ops).accounts| && Run(cap, ops).accounts[i].channel.channelId.Some? && key.works
    ensures var ch := Run(cap, ops).accounts[i].channel;
            var r := Authorized(ch, key, cumulative).1;
            (r.Ok? <==> ch.authorized <= cumulative <= ch.capacity && key.publicKey == ch.publicKey)
            && (r.Ok? ==> r.value == ClaimSignature(ch.publicKey, ch.channelId.value, cumulative))
  {
    ChannelGuarantee(cap, ops, i);
    AuthorizeRefusals(Run(cap, ops).accounts[i].channel, key, cumulative);
  }

  /**
   What the payee can redeem, exactly: the lane builds a claim and the ledger pays it if and only if the
   amount has been signed for, is more than was paid, and no auditor objects.
   */
  lemma RedeemableIff(cap: int, ops: seq<Op>, i: nat, amount: int, audit: Option<bool>)
    requires i < |Run(cap, ops).accounts| && Run(cap, ops).accounts[i].channel.channelId.Some?
    ensures var b := Run(cap, ops);
            var ch := b.accounts[i].channel;
            var claim := BuildClaim(ch, amount, ClaimSignature(ch.publicKey, ch.channelId.value, amount), audit);
            claim.Ok? && Pays(b, i, claim.value) <==>
            IssuedFor(b, ch, amount) && amount > b.accounts[i].paid && !Rejects(audit)
  {
    ChannelGuarantee(cap, ops, i);
  }

  /** A paid claim moves exactly its increase from the channel to the payee, and touches no other channel. */
  lemma RedeemConserves(cap: int, ops: seq<Op>, i: nat, claim: Claim)
    requires Pays(Run(cap, ops), i, claim)
    ensures var b := Run(cap, ops);
            var b' := Step(cap, b, Redeem(i, claim));
            b'.accounts[i].paid == claim.balance > b.accounts[i].paid
            && b.accounts[i].escrow - b'.accounts[i].escrow == b'.accounts[i].paid - b.accounts[i].paid
            && b'.accounts[i].escrow >= 0 && claim.balance <= b.accounts[i].channel.authorized
            && forall j :: 0 <= j < |b.accounts| && j != i ==> b'.accounts[j] == b.accounts[j]
  {
    RunKeepsInv(cap, ops);
    assert Sound(cap, Run(cap, ops), Run(cap, ops).accounts[i]);
  }

  /** The drops that can still leave the treasury's channels without an audit. */
  function Exposure(accounts: seq<Account>): int {
    if accounts == [] then 0
    else Exposure(accounts[..|accounts| - 1]) + accounts[|accounts| - 1].escrow
  }

  lemma {:induction false} ExposureOf(cap: int, b: Book, n: nat)
    requires cap > 0 && Inv(cap, b) && n <= |b.accounts|
    ensures 0 <= Exposure(b.accounts[..n]) <= n * cap
  {
    if n > 0 {
      ExposureOf(cap, b, n - 1);
      assert b.accounts[..n][..n - 1] == b.accounts[..n - 1];
      assert Sound(cap, b, b.accounts[n - 1]);
      MulSucc(n - 1, cap);
    }
  }

  /** With n channels opened, never more than n times the audited cap is exposed. */
  lemma ExposureBounded(cap: int, ops: seq<Op>)
    requires cap > 0
    ensures 0 <= Exposure(Run(cap, ops).accounts) <= |Run(cap, ops).accounts| * cap
  {
    var b := Run(cap, ops);
    RunKeepsInv(cap, ops);
    ExposureOf(cap, b, |b.accounts|);
    assert b.accounts[..|b.accounts|] == b.accounts;
  }
}
