/** Resolving the compliance context of a tokenized-asset transfer from one ledger snapshot. */
module LedgerReader {
  import opened Wrappers
  import opened Intents
  import opened RwaRule
  import opened Flags
  import Hex
  import Utf8

  /** A `ledger_entry` answer: a node, a well-formed "entryNotFound", or any other error or transport failure. */
  datatype Read<T> = Found(node: T) | NotFound | Failed

  datatype IssuanceNode = IssuanceNode(flags: int, issuer: string)
  datatype CredentialNode = CredentialNode(flags: int, expiration: Option<int>)
  datatype AcceptedEntry = AcceptedEntry(issuer: string, typeHex: string)

  /** One snapshot. A credential is keyed by subject, issuer and the hexadecimal of its type; absent flags read as 0. */
  datatype Ledger = Ledger(
    issuance: string -> Read<IssuanceNode>,
    mptokenFlags: (string, string) -> Read<int>,
    acceptedCredentials: string -> Read<seq<AcceptedEntry>>,
    credential: (string, string, string) -> Read<CredentialNode>,
    unixTime: int)

  datatype ReadError = ReadFailed | NoSuchIssuance | NoSuchDomain

  const MPT_REQUIRE_AUTH: int := 0x4
  const MPT_CAN_TRANSFER: int := 0x20
  const MPT_CAN_CLAWBACK: int := 0x40
  const MPTOKEN_AUTHORIZED: int := 0x2
  const CREDENTIAL_ACCEPTED: int := 0x1_0000
  const RIPPLE_EPOCH_OFFSET: int := 946684800

  predicate Expired(expiration: Option<int>, unixTime: int) {
    expiration.Some? && unixTime - RIPPLE_EPOCH_OFFSET >= expiration.value
  }

  // ---------------------------------------------------------------- credential types

  function TypeToHex(t: string): string {
    Hex.Upper(Utf8.Encode(t))
  }

  /** A type that is not the hexadecimal of UTF-8 text is kept as its raw hexadecimal. */
  function TypeFromHex(h: string): string {
    var bytes := Hex.FromHex(h);
    if bytes.None? then h
    else
      var text := Utf8.Decode(bytes.value);
      if text.None? then h else text.value
  }

  predicate IsText(h: string) {
    Hex.FromHex(h).Some? && Utf8.Decode(Hex.FromHex(h).value).Some?
  }

  /** The key under which a listed type is looked up again. */
  function LookupKey(h: string): string {
    TypeToHex(TypeFromHex(h))
  }

  lemma TypeRoundTrip(t: string)
    ensures TypeFromHex(TypeToHex(t)) == t
  {
    Utf8.DecodeEncode(t);
    Hex.FromUpper(Utf8.Encode(t));
  }

  /**
   A listed type is looked up under exactly the key it is listed by if, and only if, it is the
   hexadecimal, without white space, of UTF-8 text. One that is not text is looked up as the text it is
   spelled with.
   */
  lemma LookupKeyIff(h: string)
    ensures LookupKey(h) == Hex.UpperCase(h) <==> IsText(h) && Hex.NoSpace(h)
    ensures !IsText(h) ==> LookupKey(h) == Hex.Upper(Utf8.Encode(h))
  {
    if IsText(h) {
      Utf8.EncodeDecode(Hex.FromHex(h).value);
      Hex.UpperFrom(h);
    } else {
      Utf8.EncodeLength(h);
      assert h != "";
    }
  }

  // ---------------------------------------------------------------- reads

  function Holds(l: Ledger, destination: string, c: Credential): Result<bool, ReadError> {
    match l.credential(destination, c.issuer, TypeToHex(c.credentialType))
    case Failed => Err(ReadFailed)
    case NotFound => Ok(false)
    case Found(node) => Ok(Bit(node.flags, CREDENTIAL_ACCEPTED) && !Expired(node.expiration, l.unixTime))
  }

  /** The required credentials that are held; every one is read. */
  function HeldOf(l: Ledger, destination: string, required: seq<Credential>): Result<seq<Credential>, ReadError> {
    if required == [] then Ok([])
    else
      var first :- Holds(l, destination, required[0]);
      var rest :- HeldOf(l, destination, required[1..]);
      Ok((if first then [required[0]] else []) + rest)
  }

  /** Whether any credential is held; reading stops at the first that is. */
  function AnyHeld(l: Ledger, destination: string, cs: seq<Credential>): Result<bool, ReadError> {
    if cs == [] then Ok(false)
    else
      var first :- Holds(l, destination, cs[0]);
      if first then Ok(true) else AnyHeld(l, destination, cs[1..])
  }

  function Accepted(entries: seq<AcceptedEntry>): (cs: seq<Credential>)
    ensures |cs| == |entries|
  {
    seq(|entries|, i requires 0 <= i < |entries| => Credential(entries[i].issuer, TypeFromHex(entries[i].typeHex)))
  }

  /** The domain's credentials, as the reader collects them. */
  method AcceptedCredentials(l: Ledger, domainId: string) returns (r: Result<seq<Credential>, ReadError>)
    ensures r == match l.acceptedCredentials(domainId)
                 case Found(entries) => Ok(Accepted(entries))
                 case NotFound => Err(NoSuchDomain)
                 case Failed => Err(ReadFailed)
  {
    var answer := l.acceptedCredentials(domainId);
    if answer.NotFound? {
      return Err(NoSuchDomain);
    }
    if answer.Failed? {
      return Err(ReadFailed);
    }
    var accepted: seq<Credential> := [];
    for i := 0 to |answer.node|
      invariant accepted == Accepted(answer.node[..i])
    {
      var entry := answer.node[i];
      accepted := accepted + [Credential(entry.issuer, TypeFromHex(entry.typeHex))];
      assert Accepted(answer.node[..i + 1])[..i] == Accepted(answer.node[..i]);
    }
    assert answer.node[..|answer.node|] == answer.node;
    return Ok(accepted);
  }

  function InDomain(l: Ledger, destination: string, domainId: Option<string>): Result<Option<bool>, ReadError> {
    if !HasDomain(domainId) then Ok(None)
    else
      match l.acceptedCredentials(domainId.value)
      case NotFound => Err(NoSuchDomain)
      case Failed => Err(ReadFailed)
      case Found(entries) =>
        var any :- AnyHeld(l, destination, Accepted(entries));
        Ok(Some(any))
  }

  function Resolve(l: Ledger, issuanceId: string, destination: string, required: seq<Credential>,
                   domainId: Option<string>): Result<RwaTransfer, ReadError> {
    match l.issuance(issuanceId)
    case NotFound => Err(NoSuchIssuance)
    case Failed => Err(ReadFailed)
    case Found(node) =>
      var token := l.mptokenFlags(issuanceId, destination);
      if token.Failed? then Err(ReadFailed)
      else
        var authorized := token.Found? && Bit(token.node, MPTOKEN_AUTHORIZED);
        var held :- HeldOf(l, destination, required);
        var inDomain :- InDomain(l, destination, domainId);
        Ok(RwaTransfer(true, Bit(node.flags, MPT_REQUIRE_AUTH), Some(authorized), !Bit(node.flags, MPT_CAN_TRANSFER),
                       destination == node.issuer, Bit(node.flags, MPT_CAN_CLAWBACK), required, held, domainId,
                       inDomain))
  }

  // ---------------------------------------------------------------- what the ledger says

  /**
   A credential counts: its subject has accepted it (lsfAccepted), and its expiry, in seconds since the start
   of the year 2000, has not come.
   */
  ghost predicate Live(flags: int, expiration: Option<int>, unixTime: int) {
    HasFlag(flags, 0x1_0000) && (expiration.Some? ==> unixTime < 946684800 + expiration.value)
  }

  lemma LiveIff(flags: int, expiration: Option<int>, unixTime: int)
    ensures Bit(flags, CREDENTIAL_ACCEPTED) && !Expired(expiration, unixTime) <==> Live(flags, expiration, unixTime)
  {
    BitIff(flags, CREDENTIAL_ACCEPTED);
  }

  /** On the ledger, `destination` has an accepted and unexpired credential of this issuer under this key. */
  ghost predicate ValidlyHeld(l: Ledger, destination: string, issuer: string, key: string) {
    match l.credential(destination, issuer, key)
    case Found(node) => Live(node.flags, node.expiration, l.unixTime)
    case _ => false
  }

  predicate Readable(l: Ledger, destination: string, c: Credential) {
    !l.credential(destination, c.issuer, TypeToHex(c.credentialType)).Failed?
  }

  ghost predicate HeldOnLedger(l: Ledger, destination: string, c: Credential) {
    ValidlyHeld(l, destination, c.issuer, TypeToHex(c.credentialType))
  }

  /** Every unreadable credential comes after a held one. */
  ghost predicate ReadableUpToHeld(l: Ledger, destination: string, cs: seq<Credential>) {
    forall i :: 0 <= i < |cs| && !Readable(l, destination, cs[i]) ==>
                  exists j :: 0 <= j < i && HeldOnLedger(l, destination, cs[j])
  }

  lemma HoldsMeaning(l: Ledger, destination: string, c: Credential)
    ensures Holds(l, destination, c).Ok? <==> Readable(l, destination, c)
    ensures HeldOnLedger(l, destination, c) ==> Readable(l, destination, c)
    ensures Readable(l, destination, c) ==> (Holds(l, destination, c).value <==> HeldOnLedger(l, destination, c))
  {
    var answer := l.credential(destination, c.issuer, TypeToHex(c.credentialType));
    if answer.Found? {
      LiveIff(answer.node.flags, answer.node.expiration, l.unixTime);
    }
  }

  lemma {:induction false} HeldOfMeaning(l: Ledger, destination: string, required: seq<Credential>)
    ensures var r := HeldOf(l, destination, required);
            (r.Ok? <==> forall c :: c in required ==> Readable(l, destination, c))
            && (r.Ok? ==> forall c :: c in r.value <==> c in required && HeldOnLedger(l, destination, c))
  {
    if required != [] {
      var first := required[0];
      HeldOfMeaning(l, destination, required[1..]);
      HoldsMeaning(l, destination, first);
      assert required == [first] + required[1..];
      assert first in required && forall c :: c in required <==> c == first || c in required[1..];
    }
  }

  lemma {:induction false} AnyHeldMeaning(l: Ledger, destination: string, cs: seq<Credential>)
    ensures AnyHeld(l, destination, cs).Ok? <==> ReadableUpToHeld(l, destination, cs)
    ensures AnyHeld(l, destination, cs).Ok? ==>
            (AnyHeld(l, destination, cs).value <==> exists i :: 0 <= i < |cs| && HeldOnLedger(l, destination, cs[i]))
  {
    if cs != [] {
      HoldsMeaning(l, destination, cs[0]);
      AnyHeldMeaning(l, destination, cs[1..]);
      if Readable(l, destination, cs[0]) && !HeldOnLedger(l, destination, cs[0]) {
        SkipNotHeld(l, destination, cs[0], cs[1..]);
        assert cs == [cs[0]] + cs[1..];
      }
    }
  }

  /** A readable credential that is not held changes nothing. */
  lemma SkipNotHeld(l: Ledger, destination: string, c: Credential, rest: seq<Credential>)
    requires Readable(l, destination, c) && !HeldOnLedger(l, destination, c)
    ensures ReadableUpToHeld(l, destination, [c] + rest) <==> ReadableUpToHeld(l, destination, rest)
    ensures (exists i :: 0 <= i < |[c] + rest| && HeldOnLedger(l, destination, ([c] + rest)[i]))
            <==> exists i :: 0 <= i < |rest| && HeldOnLedger(l, destination, rest[i])
  {
    var cs := [c] + rest;
    assert forall i :: 0 <= i < |rest| ==> rest[i] == cs[i + 1];
    assert forall i :: 1 <= i < |cs| ==> cs[i] == rest[i - 1];
    if ReadableUpToHeld(l, destination, cs) {
      forall i | 0 <= i < |rest| && !Readable(l, destination, rest[i])
        ensures exists j :: 0 <= j < i && HeldOnLedger(l, destination, rest[j])
      {
        assert !Readable(l, destination, cs[i + 1]);
        var j :| 0 <= j < i + 1 && HeldOnLedger(l, destination, cs[j]);
        assert HeldOnLedger(l, destination, rest[j - 1]);
      }
    }
  }

  /**
   A context is resolved exactly when every read it rests on was answered: nothing unreadable is ever
   taken for an answer.
   */
  lemma ResolvedIffRead(l: Ledger, issuanceId: string, destination: string, required: seq<Credential>,
                        domainId: Option<string>)
    ensures Resolve(l, issuanceId, destination, required, domainId).Ok? <==>
            l.issuance(issuanceId).Found?
            && !l.mptokenFlags(issuanceId, destination).Failed?
            && (forall c :: c in required ==> Readable(l, destination, c))
            && (HasDomain(domainId) ==>
                l.acceptedCredentials(domainId.value).Found?
                && ReadableUpToHeld(l, destination, Accepted(l.acceptedCredentials(domainId.value).node)))
  {
    HeldOfMeaning(l, destination, required);
    if HasDomain(domainId) && l.acceptedCredentials(domainId.value).Found? {
      AnyHeldMeaning(l, destination, Accepted(l.acceptedCredentials(domainId.value).node));
    }
  }

  /** What cannot be resolved is refused for the first reason there is: no such asset, or no such domain. */
  lemma UnresolvedIff(l: Ledger, issuanceId: string, destination: string, required: seq<Credential>,
                      domainId: Option<string>)
    ensures var r := Resolve(l, issuanceId, destination, required, domainId);
            var read := l.issuance(issuanceId).Found? && !l.mptokenFlags(issuanceId, destination).Failed?
                        && forall c :: c in required ==> Readable(l, destination, c);
            (r == Err(NoSuchIssuance) <==> l.issuance(issuanceId) == NotFound)
            && (r == Err(NoSuchDomain) <==>
                read && domainId != None && domainId != Some("") && l.acceptedCredentials(domainId.value) == NotFound)
  {
    HeldOfMeaning(l, destination, required);
    HeldOfError(l, destination, required);
    if HasDomain(domainId) && l.acceptedCredentials(domainId.value).Found? {
      AnyHeldError(l, destination, Accepted(l.acceptedCredentials(domainId.value).node));
    }
  }

  lemma {:induction false} HeldOfError(l: Ledger, destination: string, required: seq<Credential>)
    ensures HeldOf(l, destination, required).Err? ==> HeldOf(l, destination, required) == Err(ReadFailed)
  {
    if required != [] {
      HeldOfError(l, destination, required[1..]);
    }
  }

  lemma {:induction false} AnyHeldError(l: Ledger, destination: string, cs: seq<Credential>)
    ensures AnyHeld(l, destination, cs).Err? ==> AnyHeld(l, destination, cs) == Err(ReadFailed)
  {
    if cs != [] {
      AnyHeldError(l, destination, cs[1..]);
    }
  }

  /** Some credential the domain lists is held under the very key it is listed by. */
  ghost predicate ListedMember(l: Ledger, destination: string, entries: seq<AcceptedEntry>) {
    exists e :: e in entries && ValidlyHeld(l, destination, e.issuer, Hex.UpperCase(e.typeHex))
  }

  /** Some credential is held under a key that the reader looks up for the domain. */
  ghost predicate LookedUpMember(l: Ledger, destination: string, entries: seq<AcceptedEntry>) {
    exists e :: e in entries && ValidlyHeld(l, destination, e.issuer, LookupKey(e.typeHex))
  }

  /**
   The three conditions that do not concern a domain, in the ledger's terms: a token with lsfMPTRequireAuth
   needs a holder with lsfMPTAuthorized, and one without lsfMPTCanTransfer moves to its issuer only.
   */
  ghost predicate CompliantApartFromDomain(l: Ledger, issuanceId: string, destination: string,
                                           required: seq<Credential>)
    requires l.issuance(issuanceId).Found?
  {
    var node := l.issuance(issuanceId).node;
    var token := l.mptokenFlags(issuanceId, destination);
    (HasFlag(node.flags, 0x4) ==> token.Found? && HasFlag(token.node, 0x2))
    && (HasFlag(node.flags, 0x20) || destination == node.issuer)
    && (forall c :: c in required ==> HeldOnLedger(l, destination, c))
  }

  /** What can be asked about a domain only once it has been found. */
  predicate DomainFound(l: Ledger, domainId: Option<string>) {
    HasDomain(domainId) ==> l.acceptedCredentials(domainId.value).Found?
  }

  /** The four conditions of compliance on the ledger; members of a domain are those who hold what it lists. */
  ghost predicate Compliant(l: Ledger, issuanceId: string, destination: string, required: seq<Credential>,
                            domainId: Option<string>)
    requires l.issuance(issuanceId).Found? && DomainFound(l, domainId)
  {
    CompliantApartFromDomain(l, issuanceId, destination, required)
    && (HasDomain(domainId) ==> ListedMember(l, destination, l.acceptedCredentials(domainId.value).node))
  }

  /** Every type is the hexadecimal, without white space, of UTF-8 text. */
  predicate AllText(entries: seq<AcceptedEntry>) {
    forall e :: e in entries ==> IsText(e.typeHex) && Hex.NoSpace(e.typeHex)
  }

  predicate TextDomain(l: Ledger, domainId: Option<string>)
    requires DomainFound(l, domainId)
  {
    HasDomain(domainId) ==> AllText(l.acceptedCredentials(domainId.value).node)
  }

  /**
   For every domain, text or not: a resolved transfer gets no RED finding exactly when it meets the other
   conditions and the destination holds something that is looked up for the domain; then its only
   possible finding is the YELLOW of a clawback-enabled token.
   */
  lemma RedFreeIffLookedUp(l: Ledger, issuanceId: string, destination: string, required: seq<Credential>,
                           domainId: Option<string>)
    requires Resolve(l, issuanceId, destination, required, domainId).Ok?
    ensures l.issuance(issuanceId).Found? && DomainFound(l, domainId)
    ensures var findings := Findings(Resolve(l, issuanceId, destination, required, domainId).value);
            (!AnyRed(findings) <==>
             CompliantApartFromDomain(l, issuanceId, destination, required)
             && (HasDomain(domainId) ==> LookedUpMember(l, destination, l.acceptedCredentials(domainId.value).node)))
            && (!AnyRed(findings) ==>
                findings == if HasFlag(l.issuance(issuanceId).node.flags, 0x40) then [CLAWBACK] else [])
  {
    var rwa := Resolve(l, issuanceId, destination, required, domainId).value;
    RedFreeIff(rwa);
    FlagsRead(l, issuanceId, destination);
    HeldOfMeaning(l, destination, required);
    if HasDomain(domainId) {
      DomainByEntries(l, destination, l.acceptedCredentials(domainId.value).node);
    }
  }

  lemma FlagsRead(l: Ledger, issuanceId: string, destination: string)
    requires l.issuance(issuanceId).Found?
    ensures var flags := l.issuance(issuanceId).node.flags;
            (Bit(flags, MPT_REQUIRE_AUTH) <==> HasFlag(flags, 0x4))
            && (Bit(flags, MPT_CAN_TRANSFER) <==> HasFlag(flags, 0x20))
            && (Bit(flags, MPT_CAN_CLAWBACK) <==> HasFlag(flags, 0x40))
    ensures var token := l.mptokenFlags(issuanceId, destination);
            token.Found? ==> (Bit(token.node, MPTOKEN_AUTHORIZED) <==> HasFlag(token.node, 0x2))
  {
    var flags := l.issuance(issuanceId).node.flags;
    BitIff(flags, MPT_REQUIRE_AUTH);
    BitIff(flags, MPT_CAN_TRANSFER);
    BitIff(flags, MPT_CAN_CLAWBACK);
    var token := l.mptokenFlags(issuanceId, destination);
    if token.Found? {
      BitIff(token.node, MPTOKEN_AUTHORIZED);
    }
  }

  /** With no domain, or one that lists text types, that is exactly being compliant on the ledger. */
  lemma RedFreeIffCompliant(l: Ledger, issuanceId: string, destination: string, required: seq<Credential>,
                            domainId: Option<string>)
    requires Resolve(l, issuanceId, destination, required, domainId).Ok?
    requires DomainFound(l, domainId) && TextDomain(l, domainId)
    ensures l.issuance(issuanceId).Found?
    ensures !AnyRed(Findings(Resolve(l, issuanceId, destination, required, domainId).value)) <==>
            Compliant(l, issuanceId, destination, required, domainId)
  {
    RedFreeIffLookedUp(l, issuanceId, destination, required, domainId);
    if HasDomain(domainId) {
      TextMembersAgree(l, destination, l.acceptedCredentials(domainId.value).node);
    }
  }

  lemma DomainByEntries(l: Ledger, destination: string, entries: seq<AcceptedEntry>)
    requires AnyHeld(l, destination, Accepted(entries)).Ok?
    ensures AnyHeld(l, destination, Accepted(entries)).value <==> LookedUpMember(l, destination, entries)
  {
    var cs := Accepted(entries);
    AnyHeldMeaning(l, destination, cs);
    if i :| 0 <= i < |cs| && HeldOnLedger(l, destination, cs[i]) {
      assert entries[i] in entries;
    }
    if e :| e in entries && ValidlyHeld(l, destination, e.issuer, LookupKey(e.typeHex)) {
      var i :| 0 <= i < |entries| && entries[i] == e;
      assert cs[i] == Credential(e.issuer, TypeFromHex(e.typeHex));
    }
  }

  lemma TextMembersAgree(l: Ledger, destination: string, entries: seq<AcceptedEntry>)
    requires AllText(entries)
    ensures ListedMember(l, destination, entries) <==> LookedUpMember(l, destination, entries)
  {
    forall e | e in entries ensures LookupKey(e.typeHex) == Hex.UpperCase(e.typeHex) {
      LookupKeyIff(e.typeHex);
    }
  }

  // ---------------------------------------------------------------- types that are not text

  /** What is looked up is always text, so a listed type that is not, or that is spaced out, never is. */
  lemma NeverLookedUp(h: string, other: string)
    requires !(IsText(h) && Hex.NoSpace(h))
    ensures LookupKey(other) != Hex.UpperCase(h)
  {
    var t := TypeFromHex(other);
    Utf8.DecodeEncode(t);
    Hex.FromUpper(Utf8.Encode(t));
    Hex.UpperHasNoSpace(Utf8.Encode(t));
    Hex.UpperCaseReadsSame(h);
    Hex.UpperCaseSpacesSame(h);
  }

  /** A ledger with a transferable token, one domain list, and one credential: accepted, unexpired, `holder`'s. */
  function LedgerWith(entries: seq<AcceptedEntry>, holder: string, issuer: string, key: string): Ledger {
    Ledger(_ => Found(IssuanceNode(0x20, "")),
           (_, _) => NotFound,
           _ => Found(entries),
           (s: string, i: string, k: string) =>
             if s == holder && i == issuer && k == key then Found(CredentialNode(0x1_0000, None))
             else NotFound,
           0)
  }

  /**
   Domain membership as the reader finds it is membership as the ledger has it, on every ledger and for
   every account, if and only if the domain lists text types only.
   */
  lemma MembershipFaithfulIff(entries: seq<AcceptedEntry>)
    ensures (forall l: Ledger, destination: string ::
               ListedMember(l, destination, entries) <==> LookedUpMember(l, destination, entries))
            <==> AllText(entries)
  {
    if AllText(entries) {
      forall l: Ledger, destination: string
        ensures ListedMember(l, destination, entries) <==> LookedUpMember(l, destination, entries)
      {
        TextMembersAgree(l, destination, entries);
      }
    } else {
      var e :| e in entries && !(IsText(e.typeHex) && Hex.NoSpace(e.typeHex));
      var l := LedgerWith(entries, "", e.issuer, Hex.UpperCase(e.typeHex));
      TransferableOnly();
      assert ListedMember(l, "", entries);
      forall x | x in entries ensures !ValidlyHeld(l, "", x.issuer, LookupKey(x.typeHex)) {
        NeverLookedUp(e.typeHex, x.typeHex);
      }
      assert !LookedUpMember(l, "", entries);
    }
  }

  /**
   With such a type the check errs in both directions. A destination that holds only the other type
   looked up in its place passes without a finding, though it holds nothing the domain lists; one that
   holds the listed type is found outside the domain.
   */
  lemma OtherTypePasses(issuer: string, h: string, destination: string, issuanceId: string, domain: string)
    requires !(IsText(h) && Hex.NoSpace(h)) && domain != ""
    ensures var listed := [AcceptedEntry(issuer, h)];
            var fooled := LedgerWith(listed, destination, issuer, LookupKey(h));
            var r := Resolve(fooled, issuanceId, destination, [], Some(domain));
            r.Ok? && Findings(r.value) == [] && !Compliant(fooled, issuanceId, destination, [], Some(domain))
    ensures var listed := [AcceptedEntry(issuer, h)];
            var strict := LedgerWith(listed, destination, issuer, Hex.UpperCase(h));
            var r := Resolve(strict, issuanceId, destination, [], Some(domain));
            r.Ok? && AnyRed(Findings(r.value)) && Compliant(strict, issuanceId, destination, [], Some(domain))
  {
    var e := AcceptedEntry(issuer, h);
    NeverLookedUp(h, h);
    TransferableOnly();
    assert forall x :: x in [e] ==> x == e;
    assert e in [e];
    var fooled := LedgerWith([e], destination, issuer, LookupKey(h));
    AllReadable(fooled, issuanceId, destination, domain);
    RedFreeIffLookedUp(fooled, issuanceId, destination, [], Some(domain));
    var strict := LedgerWith([e], destination, issuer, Hex.UpperCase(h));
    AllReadable(strict, issuanceId, destination, domain);
    RedFreeIffLookedUp(strict, issuanceId, destination, [], Some(domain));
  }

  lemma TransferableOnly()
    ensures HasFlag(0x20, 0x20) && !HasFlag(0x20, 0x4) && !HasFlag(0x20, 0x40) && HasFlag(0x1_0000, 0x1_0000)
  {
    BitIff(0x20, 0x20);
    BitIff(0x20, 0x4);
    BitIff(0x20, 0x40);
    BitIff(0x1_0000, 0x1_0000);
  }

  lemma AllReadable(l: Ledger, issuanceId: string, destination: string, domain: string)
    requires domain != "" && l.issuance(issuanceId).Found? && l.acceptedCredentials(domain).Found?
    requires !l.mptokenFlags(issuanceId, destination).Failed?
    requires forall i: string, k: string :: !l.credential(destination, i, k).Failed?
    ensures Resolve(l, issuanceId, destination, [], Some(domain)).Ok?
  {
    ResolvedIffRead(l, issuanceId, destination, [], Some(domain));
  }

  /** The one byte FF is such a type: it is looked up as the text "FF", that is 4646. */
  lemma LoneByteIsNotText()
    ensures !IsText("FF") && LookupKey("FF") == "4646"
  {
    Hex.ReadPair("FF");
    assert "FF"[2..] == "" && Hex.FromHex("") == Some([]);
    assert [255] + [] == [255];
    assert Hex.FromHex("FF") == Some([255]);
    assert Utf8.Encode("FF") == [70, 70] by {
      assert "FF"[1..] == "F" && "F"[1..] == "";
      assert Utf8.Encode("F") == [70];
    }
    assert [70, 70][1..] == [70] && [70][1..] == [];
    assert Hex.Upper([70]) == "46";
  }
}
