/**
 Agent identity: reading the credentials an account holds, page by page, and judging whether one of
 them is of the required type, from a recognised issuer, accepted and unexpired.
 */
module AgentIdentity {
  import opened Wrappers
  import opened LedgerReader
  import opened Flags
  import Hex

  /** An element of the `account_objects` array; absent flags and types read as 0 and "". */
  datatype Object = NoObject | Object(
    entryType: Option<string>,
    subject: Option<string>,
    issuer: Option<string>,
    credentialType: string,
    flags: int,
    expiration: Option<int>)

  datatype Page =
    | TransportFailure
    | ServerError(code: string)
    | NoResult
    | Page(objects: seq<Object>, marker: Option<string>)

  /** How the server answers each marker; None asks for the first page. */
  type Answers = Option<string> -> Page

  datatype IdentityError =
    | NoRecognizedIssuers | NoRequiredType | AccountMissing | Unreadable | TooManyPages
    | NotAccepted | HasExpired | UntrustedIssuer | WrongType | NoCredential

  /** What a verification is asked for. */
  datatype Query = Query(
    subject: string,
    recognizedIssuers: seq<string>,
    requiredType: string,
    maxPages: nat,
    unixTime: int)

  class Client {
    const answers: Answers
    var requests: seq<Option<string>>

    constructor (answers: Answers)
      ensures this.answers == answers && requests == []
    {
      this.answers := answers;
      requests := [];
    }

    method Request(marker: Option<string>) returns (page: Page)
      modifies this`requests
      ensures page == answers(marker) && requests == old(requests) + [marker]
    {
      requests := requests + [marker];
      page := answers(marker);
    }
  }

  /** Only a missing or empty marker ends the paging; an empty page does not. */
  predicate Ends(marker: Option<string>) {
    marker.None? || marker.value == ""
  }

  /** A credential the account holds, as against one it issued. */
  predicate IsHeldBy(o: Object, subject: string) {
    o.Object? && (o.entryType.None? || o.entryType.value == "Credential") && o.subject == Some(subject)
  }

  function HeldOn(objects: seq<Object>, subject: string): (held: seq<Object>)
    ensures forall o :: o in held <==> o in objects && IsHeldBy(o, subject)
  {
    if objects == [] then []
    else (if IsHeldBy(objects[0], subject) then [objects[0]] else []) + HeldOn(objects[1..], subject)
  }

  function PageError(p: Page): IdentityError
    requires !p.Page?
  {
    if p == ServerError("actNotFound") then AccountMissing else Unreadable
  }

  /** Everything held from `marker` on, within `n` more pages. */
  function Fetched(answers: Answers, subject: string, marker: Option<string>,
                   n: nat): Result<seq<Object>, IdentityError>
    decreases n
  {
    if n == 0 then Err(TooManyPages)
    else
      var page := answers(marker);
      if !page.Page? then Err(PageError(page))
      else if Ends(page.marker) then Ok(HeldOn(page.objects, subject))
      else
        var rest :- Fetched(answers, subject, page.marker, n - 1);
        Ok(HeldOn(page.objects, subject) + rest)
  }

  /** `first` and then whatever `rest` brings, unless it fails. */
  function Following(first: seq<Object>, rest: Result<seq<Object>, IdentityError>): Result<seq<Object>, IdentityError> {
    match rest
    case Ok(more) => Ok(first + more)
    case Err(e) => Err(e)
  }

  method FetchCredentials(client: Client, subject: string, maxPages: nat)
    returns (r: Result<seq<Object>, IdentityError>)
    modifies client
    ensures r == Fetched(client.answers, subject, None, maxPages)
    ensures |client.requests| <= |old(client.requests)| + maxPages
  {
    var found: seq<Object> := [];
    var marker: Option<string> := None;
    FollowingNothing(Fetched(client.answers, subject, marker, maxPages));
    for page := 0 to maxPages
      invariant |client.requests| == |old(client.requests)| + page
      invariant Fetched(client.answers, subject, None, maxPages)
             == Following(found, Fetched(client.answers, subject, marker, maxPages - page))
    {
      var response := client.Request(marker);
      if !response.Page? {
        return Err(PageError(response));
      }
      FollowingTwice(found, HeldOn(response.objects, subject),
                     Fetched(client.answers, subject, response.marker, maxPages - page - 1));
      found := CollectHeld(found, response.objects, subject);
      marker := response.marker;
      if Ends(marker) {
        return Ok(found);
      }
    }
    return Err(TooManyPages);
  }

  method CollectHeld(before: seq<Object>, objects: seq<Object>, subject: string) returns (found: seq<Object>)
    ensures found == before + HeldOn(objects, subject)
  {
    found := before;
    for i := 0 to |objects|
      invariant found + HeldOn(objects[i..], subject) == before + HeldOn(objects, subject)
    {
      assert objects[i..][1..] == objects[i + 1..];
      if IsHeldBy(objects[i], subject) {
        assert found + HeldOn(objects[i..], subject) == found + [objects[i]] + HeldOn(objects[i + 1..], subject);
        found := found + [objects[i]];
      }
    }
  }

  lemma FollowingNothing(rest: Result<seq<Object>, IdentityError>)
    ensures Following([], rest) == rest
  {
    assert rest.Ok? ==> [] + rest.value == rest.value;
  }

  lemma FollowingTwice(a: seq<Object>, b: seq<Object>, rest: Result<seq<Object>, IdentityError>)
    ensures Following(a, Following(b, rest)) == Following(a + b, rest)
  {
    if rest.Ok? {
      assert a + (b + rest.value) == a + b + rest.value;
    }
  }

  // ---------------------------------------------------------------- judging what is held

  predicate TypeMatches(o: Object, requiredHex: string)
    requires o.Object?
  {
    Hex.UpperCase(o.credentialType) == requiredHex
  }

  predicate Recognized(o: Object, issuers: set<string>)
    requires o.Object?
  {
    o.issuer.Some? && o.issuer.value in issuers
  }

  predicate Matching(o: Object, issuers: set<string>, requiredHex: string) {
    o.Object? && TypeMatches(o, requiredHex) && Recognized(o, issuers)
  }

  predicate IsAccepted(o: Object)
    requires o.Object?
  {
    Bit(o.flags, CREDENTIAL_ACCEPTED)
  }

  predicate IsExpired(o: Object, unixTime: int)
    requires o.Object?
  {
    Expired(o.expiration, unixTime)
  }

  /** Of the right type and issuer, accepted and unexpired. */
  predicate Proves(o: Object, issuers: set<string>, requiredHex: string, unixTime: int) {
    Matching(o, issuers, requiredHex) && IsAccepted(o) && !IsExpired(o, unixTime)
  }

  /**
   The verdict on a set of held credentials: one that proves identity, or else the most specific near miss.
   */
  function Verdict(held: set<Object>, issuers: set<string>, requiredHex: string,
                   unixTime: int): Result<(), IdentityError> {
    if exists o :: o in held && Proves(o, issuers, requiredHex, unixTime) then Ok(())
    else if exists o :: o in held && Matching(o, issuers, requiredHex) && !IsAccepted(o) then Err(NotAccepted)
    else if exists o :: o in held && Matching(o, issuers, requiredHex) && IsExpired(o, unixTime) then Err(HasExpired)
    else if exists o :: o in held && o.Object? && TypeMatches(o, requiredHex) && !Recognized(o, issuers) then
      Err(UntrustedIssuer)
    else if exists o :: o in held && o.Object? && Recognized(o, issuers) && !TypeMatches(o, requiredHex) then
      Err(WrongType)
    else Err(NoCredential)
  }

  function Elements(s: seq<Object>): set<Object> {
    set o | o in s
  }

  /** The named issuers among those configured. */
  function Issuers(configured: seq<string>): set<string> {
    set i | i in configured && i != ""
  }

  function RefusalReason(sawNotAccepted: bool, sawExpired: bool, sawUntrustedIssuer: bool,
                         sawWrongType: bool): IdentityError {
    if sawNotAccepted then NotAccepted
    else if sawExpired then HasExpired
    else if sawUntrustedIssuer then UntrustedIssuer
    else if sawWrongType then WrongType
    else NoCredential
  }

  method JudgeCredentials(credentials: seq<Object>, issuers: set<string>, requiredHex: string, unixTime: int)
    returns (r: Result<(), IdentityError>)
    requires forall o :: o in credentials ==> o.Object?
    ensures r == Verdict(Elements(credentials), issuers, requiredHex, unixTime)
  {
    var sawNotAccepted, sawExpired, sawUntrustedIssuer, sawWrongType := false, false, false, false;
    ghost var seen: set<Object> := {};
    for i := 0 to |credentials|
      invariant seen == Elements(credentials[..i])
      invariant forall o :: o in seen ==> o.Object? && !Proves(o, issuers, requiredHex, unixTime)
      invariant sawNotAccepted <==> exists o :: o in seen && Matching(o, issuers, requiredHex) && !IsAccepted(o)
      invariant sawExpired <==>
                exists o :: o in seen && Matching(o, issuers, requiredHex) && IsAccepted(o) && IsExpired(o, unixTime)
      invariant sawUntrustedIssuer <==> exists o :: o in seen && TypeMatches(o, requiredHex) && !Recognized(o, issuers)
      invariant sawWrongType <==> exists o :: o in seen && Recognized(o, issuers) && !TypeMatches(o, requiredHex)
    {
      var o := credentials[i];
      assert o in credentials;
      seen := seen + {o};
      assert credentials[..i + 1] == credentials[..i] + [o];
      var typeMatches := TypeMatches(o, requiredHex);
      var issuerRecognized := Recognized(o, issuers);
      if typeMatches && issuerRecognized {
        if !IsAccepted(o) {
          sawNotAccepted := true;
        } else if IsExpired(o, unixTime) {
          sawExpired := true;
        } else {
          assert o in Elements(credentials) && Proves(o, issuers, requiredHex, unixTime);
          return Ok(());
        }
      } else if typeMatches {
        sawUntrustedIssuer := true;
      } else if issuerRecognized {
        sawWrongType := true;
      }
    }
    assert credentials[..|credentials|] == credentials;
    return Err(RefusalReason(sawNotAccepted, sawExpired, sawUntrustedIssuer, sawWrongType));
  }

  /** The outcome of a whole verification. */
  function Verified(answers: Answers, q: Query): Result<(), IdentityError> {
    if Issuers(q.recognizedIssuers) == {} then Err(NoRecognizedIssuers)
    else if q.requiredType == "" then Err(NoRequiredType)
    else
      var held :- Fetched(answers, q.subject, None, q.maxPages);
      Verdict(Elements(held), Issuers(q.recognizedIssuers), TypeToHex(q.requiredType), q.unixTime)
  }

  method VerifyIdentity(client: Client, q: Query) returns (r: Result<(), IdentityError>)
    modifies client
    ensures r == Verified(client.answers, q)
    ensures |client.requests| <= |old(client.requests)| + q.maxPages
  {
    var issuers := Issuers(q.recognizedIssuers);
    if issuers == {} {
      return Err(NoRecognizedIssuers);
    }
    if q.requiredType == "" {
      return Err(NoRequiredType);
    }
    var credentials := FetchCredentials(client, q.subject, q.maxPages);
    if credentials.Err? {
      return Err(credentials.error);
    }
    FetchedAreHeld(client.answers, q.subject, None, q.maxPages);
    r := JudgeCredentials(credentials.value, issuers, TypeToHex(q.requiredType), q.unixTime);
  }

  lemma {:induction false} FetchedAreHeld(answers: Answers, subject: string, marker: Option<string>, n: nat)
    ensures var r := Fetched(answers, subject, marker, n);
            r.Ok? ==> forall o :: o in r.value ==> IsHeldBy(o, subject)
    decreases n
  {
    if n > 0 && answers(marker).Page? && !Ends(answers(marker).marker) {
      FetchedAreHeld(answers, subject, answers(marker).marker, n - 1);
    }
  }

  // ---------------------------------------------------------------- paging does not matter

  /** Following markers from `marker`, the server gives exactly these pages and then ends. */
  ghost predicate Chain(answers: Answers, marker: Option<string>, pages: seq<Page>)
    decreases |pages|
  {
    pages != [] && pages[0] == answers(marker) && pages[0].Page?
    && (pages[0].marker == None || pages[0].marker == Some("") <==> |pages| == 1)
    && (|pages| > 1 ==> Chain(answers, pages[0].marker, pages[1..]))
  }

  /** The credentials of the account found anywhere on the pages. */
  ghost function HeldAnywhere(pages: seq<Page>, subject: string): set<Object> {
    set p, o | p in pages && p.Page? && o in p.objects && HeldByAccount(o, subject) :: o
  }

  lemma {:induction false} FetchedChain(answers: Answers, subject: string, marker: Option<string>, pages: seq<Page>,
                                        n: nat)
    requires Chain(answers, marker, pages)
    ensures if |pages| <= n then Fetched(answers, subject, marker, n).Ok?
                                 && Elements(Fetched(answers, subject, marker, n).value) == HeldAnywhere(pages, subject)
            else Fetched(answers, subject, marker, n) == Err(TooManyPages)
    decreases n
  {
    if n > 0 {
      var first, rest := pages[0], pages[1..];
      assert pages == [first] + rest;
      var here := Elements(HeldOn(first.objects, subject));
      assert forall o :: IsHeldBy(o, subject) <==> HeldByAccount(o, subject);
      assert HeldAnywhere(pages, subject) == here + HeldAnywhere(rest, subject);
      if |pages| > 1 {
        FetchedChain(answers, subject, first.marker, rest, n - 1);
      } else {
        assert HeldAnywhere(rest, subject) == {};
      }
    }
  }

  /**
   The verdict, refusal reason included, depends only on the set of credentials held: it is the same
   for any two servers that split and order the same credentials differently, within the page limit.
   */
  lemma PagingIrrelevant(q: Query, answers: Answers, pages: seq<Page>, answers': Answers, pages': seq<Page>)
    requires Chain(answers, None, pages) && Chain(answers', None, pages')
    requires |pages| <= q.maxPages && |pages'| <= q.maxPages
    requires HeldAnywhere(pages, q.subject) == HeldAnywhere(pages', q.subject)
    ensures Verified(answers, q) == Verified(answers', q)
  {
    FetchedChain(answers, q.subject, None, pages, q.maxPages);
    FetchedChain(answers', q.subject, None, pages', q.maxPages);
  }

  // ---------------------------------------------------------------- what a verification shows

  /** The account holds this credential: it is one, and the account is its subject. */
  predicate HeldByAccount(o: Object, account: string) {
    o.Object? && (o.entryType == None || o.entryType == Some("Credential")) && o.subject == Some(account)
  }

  /** It is of the required type, to the byte, and its issuer is one of those recognised and named. */
  predicate RightTypeAndIssuer(o: Object, q: Query) {
    o.Object? && RightType(o, q) && RightIssuer(o, q)
  }

  predicate RightType(o: Object, q: Query)
    requires o.Object?
  {
    Hex.UpperCase(o.credentialType) == TypeToHex(q.requiredType)
  }

  predicate RightIssuer(o: Object, q: Query)
    requires o.Object?
  {
    o.issuer.Some? && o.issuer.value != "" && o.issuer.value in q.recognizedIssuers
  }

  /** It shows who the account is: held, of the right type and issuer, accepted, and not expired. */
  ghost predicate ShowsIdentity(o: Object, q: Query) {
    HeldByAccount(o, q.subject) && RightTypeAndIssuer(o, q) && Live(o.flags, o.expiration, q.unixTime)
  }

  /** Somewhere on these pages is a credential that shows who the account is. */
  ghost predicate ShownOn(pages: seq<Page>, q: Query) {
    exists p, o :: p in pages && p.Page? && o in p.objects && ShowsIdentity(o, q)
  }

  lemma ShowsIff(o: Object, q: Query)
    ensures ShowsIdentity(o, q) <==>
            IsHeldBy(o, q.subject) && Proves(o, Issuers(q.recognizedIssuers), TypeToHex(q.requiredType), q.unixTime)
  {
    if o.Object? {
      LiveIff(o.flags, o.expiration, q.unixTime);
    }
  }

  /** What the verdict finds is what the pages show. */
  lemma ShownIff(pages: seq<Page>, q: Query)
    ensures ShownOn(pages, q) <==> Verdict(HeldAnywhere(pages, q.subject), Issuers(q.recognizedIssuers),
                                           TypeToHex(q.requiredType), q.unixTime).Ok?
  {
    var held := HeldAnywhere(pages, q.subject);
    if p, o :| p in pages && p.Page? && o in p.objects && ShowsIdentity(o, q) {
      ShowsIff(o, q);
      assert o in held;
    }
    if o :| o in held && Proves(o, Issuers(q.recognizedIssuers), TypeToHex(q.requiredType), q.unixTime) {
      var p :| p in pages && p.Page? && o in p.objects && IsHeldBy(o, q.subject);
      ShowsIff(o, q);
    }
  }

  /** A credential shown has a recognised issuer, so some are configured. */
  lemma ShownNeedsIssuers(pages: seq<Page>, q: Query)
    requires ShownOn(pages, q)
    ensures Issuers(q.recognizedIssuers) != {}
  {
    var p, o :| p in pages && p.Page? && o in p.objects && ShowsIdentity(o, q);
    assert o.issuer.value in Issuers(q.recognizedIssuers);
  }

  /**
   A chain within the limit is judged on exactly what the account holds; a longer one is refused whatever
   it holds.
   */
  lemma VerifiedChain(q: Query, answers: Answers, pages: seq<Page>)
    requires Chain(answers, None, pages)
    ensures Verified(answers, q).Ok? <==> q.requiredType != "" && |pages| <= q.maxPages && ShownOn(pages, q)
    ensures Configured(q) && |pages| > q.maxPages ==> Verified(answers, q) == Err(TooManyPages)
  {
    FetchedChain(answers, q.subject, None, pages, q.maxPages);
    ShownIff(pages, q);
    if ShownOn(pages, q) {
      ShownNeedsIssuers(pages, q);
    }
    ConfiguredIff(q);
  }

  /** Some issuer is recognised, by a name that is not empty, and a type is required. */
  predicate Configured(q: Query) {
    (exists i :: i in q.recognizedIssuers && i != "") && q.requiredType != ""
  }

  lemma ConfiguredIff(q: Query)
    ensures Configured(q) <==> Issuers(q.recognizedIssuers) != {} && q.requiredType != ""
  {
    if i :| i in q.recognizedIssuers && i != "" {
      assert i in Issuers(q.recognizedIssuers);
    }
    if i :| i in Issuers(q.recognizedIssuers) {
      assert i in q.recognizedIssuers && i != "";
    }
  }

  /** An account without a configuration to check it by, or that the ledger does not have, is refused as such. */
  lemma RefusedUnread(answers: Answers, q: Query)
    ensures (forall i :: i in q.recognizedIssuers ==> i == "") <==> Verified(answers, q) == Err(NoRecognizedIssuers)
    ensures Configured(q) && q.maxPages > 0 && answers(None) == ServerError("actNotFound") ==>
            Verified(answers, q) == Err(AccountMissing)
  {
    ConfiguredIff(q);
    if forall i :: i in q.recognizedIssuers ==> i == "" {
      assert Issuers(q.recognizedIssuers) == {};
    } else {
      var i :| i in q.recognizedIssuers && i != "";
      assert i in Issuers(q.recognizedIssuers);
      FetchErrors(answers, q.subject, None, q.maxPages);
    }
  }

  lemma {:induction false} FetchErrors(answers: Answers, subject: string, marker: Option<string>, n: nat)
    ensures Fetched(answers, subject, marker, n) != Err(NoRecognizedIssuers)
    decreases n
  {
    if n > 0 && answers(marker).Page? && !Ends(answers(marker).marker) {
      FetchErrors(answers, subject, answers(marker).marker, n - 1);
    }
  }

  ghost predicate SomeLive(held: set<Object>, q: Query) {
    exists o :: o in held && RightTypeAndIssuer(o, q) && Live(o.flags, o.expiration, q.unixTime)
  }

  ghost predicate SomeUnaccepted(held: set<Object>, q: Query) {
    exists o :: o in held && RightTypeAndIssuer(o, q) && !HasFlag(o.flags, 0x1_0000)
  }

  predicate SomeNear(held: set<Object>, q: Query) {
    exists o :: o in held && RightTypeAndIssuer(o, q)
  }

  predicate SomeOfType(held: set<Object>, q: Query) {
    exists o :: o in held && o.Object? && RightType(o, q)
  }

  predicate SomeFromIssuer(held: set<Object>, q: Query) {
    exists o :: o in held && o.Object? && RightIssuer(o, q)
  }

  /**
   The refusal names the nearest miss. Among what the account holds there may be credentials of the right
   type and issuer, none of them live: then one is not accepted, or all have expired. Otherwise there is one
   of the type from a stranger; or else one of another type from a recognised issuer; or nothing near.
   */
  lemma RefusalIff(q: Query, answers: Answers, pages: seq<Page>)
    requires Chain(answers, None, pages) && |pages| <= q.maxPages && Configured(q)
    ensures var held := HeldAnywhere(pages, q.subject);
            var r := Verified(answers, q);
            (r == Err(NotAccepted) <==> !SomeLive(held, q) && SomeUnaccepted(held, q))
            && (r == Err(HasExpired) <==> !SomeLive(held, q) && !SomeUnaccepted(held, q) && SomeNear(held, q))
            && (r == Err(UntrustedIssuer) <==> !SomeNear(held, q) && SomeOfType(held, q))
            && (r == Err(WrongType) <==> !SomeOfType(held, q) && SomeFromIssuer(held, q))
            && (r == Err(NoCredential) <==> !SomeOfType(held, q) && !SomeFromIssuer(held, q))
  {
    ConfiguredIff(q);
    FetchedChain(answers, q.subject, None, pages, q.maxPages);
    NearestMiss(HeldAnywhere(pages, q.subject), q, Verified(answers, q));
  }

  lemma NearestMiss(held: set<Object>, q: Query, r: Result<(), IdentityError>)
    requires r == Verdict(held, Issuers(q.recognizedIssuers), TypeToHex(q.requiredType), q.unixTime)
    ensures r == Err(NotAccepted) <==> !SomeLive(held, q) && SomeUnaccepted(held, q)
    ensures r == Err(HasExpired) <==> !SomeLive(held, q) && !SomeUnaccepted(held, q) && SomeNear(held, q)
    ensures r == Err(UntrustedIssuer) <==> !SomeNear(held, q) && SomeOfType(held, q)
    ensures r == Err(WrongType) <==> !SomeOfType(held, q) && SomeFromIssuer(held, q)
    ensures r == Err(NoCredential) <==> !SomeOfType(held, q) && !SomeFromIssuer(held, q)
  {
    var issuers := Issuers(q.recognizedIssuers);
    forall o | o in held && o.Object?
      ensures (IsAccepted(o) <==> HasFlag(o.flags, 0x1_0000))
              && (IsAccepted(o) && !IsExpired(o, q.unixTime) <==> Live(o.flags, o.expiration, q.unixTime))
              && (RightIssuer(o, q) <==> Recognized(o, issuers))
    {
      BitIff(o.flags, CREDENTIAL_ACCEPTED);
      LiveIff(o.flags, o.expiration, q.unixTime);
    }
  }

  lemma {:induction false} FetchedHasChain(answers: Answers, subject: string, marker: Option<string>, n: nat)
    returns (pages: seq<Page>)
    requires Fetched(answers, subject, marker, n).Ok?
    ensures Chain(answers, marker, pages) && |pages| <= n
    decreases n
  {
    var page := answers(marker);
    if Ends(page.marker) {
      pages := [page];
    } else {
      var rest := FetchedHasChain(answers, subject, page.marker, n - 1);
      pages := [page] + rest;
      assert pages[1..] == rest;
    }
  }

  /**
   For any server at all, one whose markers loop or never end included: an account is verified exactly when
   a type is required and, within the page limit, a chain of pages ends on which it holds a credential of
   that type from a recognised issuer, accepted and unexpired.
   */
  lemma VerifiedIff(answers: Answers, q: Query)
    ensures Verified(answers, q).Ok? <==>
            q.requiredType != ""
            && exists pages :: Chain(answers, None, pages) && |pages| <= q.maxPages && ShownOn(pages, q)
  {
    if Verified(answers, q).Ok? {
      var pages := FetchedHasChain(answers, q.subject, None, q.maxPages);
      VerifiedChain(q, answers, pages);
    }
    if pages :| Chain(answers, None, pages) && |pages| <= q.maxPages && ShownOn(pages, q) {
      VerifiedChain(q, answers, pages);
    }
  }

  /** A verified account holds, on some page the server gave, a credential that shows who it is. */
  lemma {:induction false} VerifiedHolds(answers: Answers, q: Query)
    requires Verified(answers, q).Ok?
    ensures exists m, o :: answers(m).Page? && o in answers(m).objects && ShowsIdentity(o, q)
  {
    var held := Fetched(answers, q.subject, None, q.maxPages).value;
    var o :| o in Elements(held) && Proves(o, Issuers(q.recognizedIssuers), TypeToHex(q.requiredType), q.unixTime);
    var m := FetchedFrom(answers, q.subject, None, q.maxPages, o);
    ShowsIff(o, q);
  }

  lemma {:induction false} FetchedFrom(answers: Answers, subject: string, marker: Option<string>, n: nat, o: Object)
    returns (m: Option<string>)
    requires Fetched(answers, subject, marker, n).Ok? && o in Fetched(answers, subject, marker, n).value
    ensures answers(m).Page? && o in answers(m).objects && IsHeldBy(o, subject)
    decreases n
  {
    if o in HeldOn(answers(marker).objects, subject) {
      m := marker;
    } else {
      m := FetchedFrom(answers, subject, answers(marker).marker, n - 1, o);
    }
  }
}
