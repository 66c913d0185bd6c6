/**
 The live treasury guard: what one `account_info` answer must look like for a signature, and what
 that says about who can move the treasury's funds.
 */
module TreasuryGuard {
  import opened Wrappers
  import opened Flags

  datatype SignerEntry = NoEntry | SignerEntry(account: Option<string>, weight: int)

  /** A missing quorum or entries array is None; absent flags and weights read as 0. */
  datatype SignerList = NoObject | SignerList(quorum: Option<int>, entries: Option<seq<SignerEntry>>)

  datatype AccountData = AccountData(regularKey: Option<string>, flags: int, nestedLists: Option<seq<SignerList>>)

  /** An answer carries signer lists at its root in one API version and inside the account data in the other. */
  datatype Response =
    | TransportFailure
    | ServerError
    | NoResult
    | Answer(accountData: Option<AccountData>, rootLists: Option<seq<SignerList>>)

  datatype ConfigError =
    | Unreadable | NoAccountData | RegularKeySet | MasterEnabled | NoSignerList | SeveralSignerLists | MalformedList
    | WrongQuorum | NoEntries | MalformedEntry | MissingAccount | Unilateral(account: string) | WrongSigners

  const DISABLE_MASTER: int := 0x10_0000

  predicate MasterDisabled(data: AccountData) {
    Bit(data.flags, DISABLE_MASTER)
  }

  /** A key that is absent or empty. */
  predicate Unset(key: Option<string>) {
    key.None? || key.value == ""
  }

  function Lists(r: Response): Option<seq<SignerList>>
    requires r.Answer? && r.accountData.Some?
  {
    if r.rootLists.Some? then r.rootLists else r.accountData.value.nestedLists
  }

  /** The guard as written. What it reports is always a true violation. */
  method Verify(r: Response, expectedSigners: set<string>, expectedQuorum: int)
    returns (outcome: Result<(), ConfigError>)
    ensures outcome == Checked(r, expectedSigners, expectedQuorum)
    ensures outcome.Ok? <==> Accepts(r, expectedSigners, expectedQuorum)
    ensures outcome.Err? ==> Violates(r, expectedSigners, expectedQuorum, outcome.error)
  {
    CheckedMeaning(r, expectedSigners, expectedQuorum);
    if r.TransportFailure? || r.ServerError? || r.NoResult? {
      return Err(Unreadable);
    }
    if r.accountData.None? {
      return Err(NoAccountData);
    }
    if !Unset(r.accountData.value.regularKey) {
      return Err(RegularKeySet);
    }
    if !MasterDisabled(r.accountData.value) {
      return Err(MasterEnabled);
    }
    outcome := CheckSignerList(Lists(r), expectedSigners, expectedQuorum);
  }

  method CheckSignerList(lists: Option<seq<SignerList>>, expectedSigners: set<string>, expectedQuorum: int)
    returns (outcome: Result<(), ConfigError>)
    ensures outcome == ListChecked(lists, expectedSigners, expectedQuorum)
    ensures outcome.Ok? <==> ListAccepted(lists, expectedSigners, expectedQuorum)
    ensures outcome.Err? ==> ListViolates(lists, expectedSigners, expectedQuorum, outcome.error)
  {
    ListCheckedMeaning(lists, expectedSigners, expectedQuorum);
    if lists.None? || lists.value == [] {
      return Err(NoSignerList);
    }
    if |lists.value| != 1 {
      return Err(SeveralSignerLists);
    }
    var list := lists.value[0];
    if list.NoObject? {
      return Err(MalformedList);
    }
    if list.quorum != Some(expectedQuorum) {
      return Err(WrongQuorum);
    }
    if list.entries.None? || list.entries.value == [] {
      return Err(NoEntries);
    }
    var entries := list.entries.value;
    var actualSigners: set<string> := {};
    for i := 0 to |entries|
      invariant actualSigners == Members(entries[..i])
      invariant forall j :: 0 <= j < i ==> Fault(entries[j], expectedQuorum).None?
      invariant FirstUnsound(entries, expectedQuorum) == FirstUnsound(entries[i..], expectedQuorum)
    {
      var entry := entries[i];
      assert entries[i..][0] == entry && entries[i..][1..] == entries[i + 1..];
      if entry.NoEntry? {
        return Err(MalformedEntry);
      }
      if Unset(entry.account) {
        return Err(MissingAccount);
      }
      if entry.weight >= expectedQuorum {
        return Err(Unilateral(entry.account.value));
      }
      actualSigners := actualSigners + {entry.account.value};
      MembersStep(entries, i);
    }
    assert entries[..|entries|] == entries;
    if actualSigners != expectedSigners {
      return Err(WrongSigners);
    }
    return Ok(());
  }

  // ---------------------------------------------------------------- the outcome as a value

  /** What is wrong with an entry, if anything. */
  function Fault(e: SignerEntry, quorum: int): Option<ConfigError> {
    if e.NoEntry? then Some(MalformedEntry)
    else if Unset(e.account) then Some(MissingAccount)
    else if e.weight >= quorum then Some(Unilateral(e.account.value))
    else None
  }

  /** The fault of the first entry that has one. */
  function FirstUnsound(entries: seq<SignerEntry>, quorum: int): Option<ConfigError> {
    if entries == [] then None
    else if Fault(entries[0], quorum).Some? then Fault(entries[0], quorum)
    else FirstUnsound(entries[1..], quorum)
  }

  function ListChecked(lists: Option<seq<SignerList>>, expectedSigners: set<string>,
                       expectedQuorum: int): Result<(), ConfigError> {
    if lists.None? || lists.value == [] then Err(NoSignerList)
    else if |lists.value| != 1 then Err(SeveralSignerLists)
    else
      match lists.value[0]
      case NoObject => Err(MalformedList)
      case SignerList(quorum, entries) =>
        if quorum != Some(expectedQuorum) then Err(WrongQuorum)
        else if entries.None? || entries.value == [] then Err(NoEntries)
        else
          var unsound := FirstUnsound(entries.value, expectedQuorum);
          if unsound.Some? then Err(unsound.value)
          else if Members(entries.value) != expectedSigners then Err(WrongSigners)
          else Ok(())
  }

  function Checked(r: Response, expectedSigners: set<string>, expectedQuorum: int): Result<(), ConfigError> {
    if !r.Answer? then Err(Unreadable)
    else if r.accountData.None? then Err(NoAccountData)
    else if !Unset(r.accountData.value.regularKey) then Err(RegularKeySet)
    else if !MasterDisabled(r.accountData.value) then Err(MasterEnabled)
    else ListChecked(Lists(r), expectedSigners, expectedQuorum)
  }

  lemma {:induction false} FirstUnsoundMeaning(entries: seq<SignerEntry>, quorum: int)
    ensures FirstUnsound(entries, quorum).None? <==> forall i :: 0 <= i < |entries| ==> Sound(entries[i], quorum)
    ensures FirstUnsound(entries, quorum).Some? ==>
              exists i :: 0 <= i < |entries| && FaultIs(entries[i], quorum, FirstUnsound(entries, quorum).value)
                          && forall j :: 0 <= j < i ==> Sound(entries[j], quorum)
  {
    if entries != [] && Sound(entries[0], quorum) {
      FirstUnsoundMeaning(entries[1..], quorum);
      assert forall i :: 0 <= i < |entries| - 1 ==> entries[1..][i] == entries[i + 1];
      var fault := FirstUnsound(entries, quorum);
      if i :| fault.Some? && 0 <= i < |entries| - 1 && FaultIs(entries[1..][i], quorum, fault.value)
              && forall j :: 0 <= j < i ==> Sound(entries[1..][j], quorum) {
        assert FaultIs(entries[i + 1], quorum, fault.value);
        forall j | 0 <= j < i + 1 ensures Sound(entries[j], quorum) {
          assert j > 0 ==> Sound(entries[1..][j - 1], quorum);
        }
      }
    }
  }

  /** The guard accepts exactly what it should, and what it reports is a true violation. */
  lemma CheckedMeaning(r: Response, expectedSigners: set<string>, expectedQuorum: int)
    ensures Checked(r, expectedSigners, expectedQuorum).Ok? <==> Accepts(r, expectedSigners, expectedQuorum)
    ensures Checked(r, expectedSigners, expectedQuorum).Err? ==>
              Violates(r, expectedSigners, expectedQuorum, Checked(r, expectedSigners, expectedQuorum).error)
  {
    if r.Answer? && r.accountData.Some? {
      BitIff(r.accountData.value.flags, DISABLE_MASTER);
      ListCheckedMeaning(Lists(r), expectedSigners, expectedQuorum);
    }
  }

  lemma ListCheckedMeaning(lists: Option<seq<SignerList>>, expectedSigners: set<string>, expectedQuorum: int)
    ensures ListChecked(lists, expectedSigners, expectedQuorum).Ok? <==>
            ListAccepted(lists, expectedSigners, expectedQuorum)
    ensures ListChecked(lists, expectedSigners, expectedQuorum).Err? ==>
              ListViolates(lists, expectedSigners, expectedQuorum,
                           ListChecked(lists, expectedSigners, expectedQuorum).error)
  {
    if lists.Some? && |lists.value| == 1 && lists.value[0].SignerList? && lists.value[0].entries.Some? {
      var entries := lists.value[0].entries.value;
      FirstUnsoundMeaning(entries, expectedQuorum);
      assert forall i :: 0 <= i < |entries| ==> entries[i] in entries;
    }
  }

  // ---------------------------------------------------------------- what is accepted

  predicate Named(e: SignerEntry) {
    e.SignerEntry? && e.account.Some? && e.account.value != ""
  }

  predicate Sound(e: SignerEntry, quorum: int) {
    Named(e) && e.weight < quorum
  }

  /** The accounts a list of entries names. */
  function Members(entries: seq<SignerEntry>): (members: set<string>)
    ensures forall a :: a in members <==>
                        exists i :: 0 <= i < |entries| && entries[i].SignerEntry? && entries[i].account == Some(a)
  {
    set e | e in entries && e.SignerEntry? && e.account.Some? :: e.account.value
  }

  predicate NoRegularKey(data: AccountData) {
    data.regularKey == None || data.regularKey == Some("")
  }

  /** The master key cannot sign: the account has the flag lsfDisableMaster. */
  ghost predicate NoMasterKey(data: AccountData) {
    HasFlag(data.flags, 0x10_0000)
  }

  predicate ListAccepted(lists: Option<seq<SignerList>>, expectedSigners: set<string>, expectedQuorum: int) {
    lists.Some? && |lists.value| == 1 && lists.value[0].SignerList?
    && lists.value[0].quorum == Some(expectedQuorum)
    && lists.value[0].entries.Some? && lists.value[0].entries.value != []
    && (forall i :: 0 <= i < |lists.value[0].entries.value| ==> Sound(lists.value[0].entries.value[i], expectedQuorum))
    && Members(lists.value[0].entries.value) == expectedSigners
  }

  ghost predicate Accepts(r: Response, expectedSigners: set<string>, expectedQuorum: int) {
    r.Answer? && r.accountData.Some? && NoRegularKey(r.accountData.value) && NoMasterKey(r.accountData.value)
    && if r.rootLists.Some? then ListAccepted(r.rootLists, expectedSigners, expectedQuorum)
       else ListAccepted(r.accountData.value.nestedLists, expectedSigners, expectedQuorum)
  }

  /** What each error says; an error about keys or lists says too that everything checked before it was in order. */
  ghost predicate Violates(r: Response, expectedSigners: set<string>, expectedQuorum: int, e: ConfigError) {
    match e
    case Unreadable => !r.Answer?
    case NoAccountData => r.Answer? && r.accountData.None?
    case RegularKeySet => r.Answer? && r.accountData.Some? && !NoRegularKey(r.accountData.value)
    case MasterEnabled =>
      r.Answer? && r.accountData.Some? && NoRegularKey(r.accountData.value) && !NoMasterKey(r.accountData.value)
    case _ =>
      r.Answer? && r.accountData.Some? && NoRegularKey(r.accountData.value) && NoMasterKey(r.accountData.value)
      && if r.rootLists.Some? then ListViolates(r.rootLists, expectedSigners, expectedQuorum, e)
         else ListViolates(r.accountData.value.nestedLists, expectedSigners, expectedQuorum, e)
  }

  predicate ListViolates(lists: Option<seq<SignerList>>, expectedSigners: set<string>, expectedQuorum: int,
                         e: ConfigError) {
    if lists.None? || lists.value == [] then e == NoSignerList
    else if |lists.value| > 1 then e == SeveralSignerLists
    else
      match lists.value[0]
      case NoObject => e == MalformedList
      case SignerList(quorum, entries) =>
        if quorum != Some(expectedQuorum) then e == WrongQuorum
        else if entries == None || entries == Some([]) then e == NoEntries
        else if forall i :: 0 <= i < |entries.value| ==> Sound(entries.value[i], expectedQuorum) then
          e == WrongSigners && Members(entries.value) != expectedSigners
        else
          exists i :: 0 <= i < |entries.value| && FaultIs(entries.value[i], expectedQuorum, e)
                      && forall j :: 0 <= j < i ==> Sound(entries.value[j], expectedQuorum)
  }

  /** What an error says of the entry it is about. */
  predicate FaultIs(x: SignerEntry, quorum: int, e: ConfigError) {
    match e
    case MalformedEntry => x.NoEntry?
    case MissingAccount => x.SignerEntry? && !Named(x)
    case Unilateral(a) => Named(x) && x.account == Some(a) && x.weight >= quorum
    case _ => false
  }

  lemma MembersStep(entries: seq<SignerEntry>, i: nat)
    requires i < |entries| && entries[i].SignerEntry? && entries[i].account.Some?
    ensures Members(entries[..i + 1]) == Members(entries[..i]) + {entries[i].account.value}
  {
    assert entries[..i + 1] == entries[..i] + [entries[i]];
  }

  // ---------------------------------------------------------------- who can authorise

  /** The ways the ledger lets a transaction of the account be authorised. */
  datatype Authorisation = MasterKey | RegularKey | Coalition(parties: set<string>)

  function CoalitionWeight(entries: seq<SignerEntry>, parties: set<string>): int {
    if entries == [] then 0
    else
      var e := entries[0];
      (if e.SignerEntry? && e.account.Some? && e.account.value in parties then e.weight else 0)
      + CoalitionWeight(entries[1..], parties)
  }

  ghost predicate Authorises(data: AccountData, quorum: int, entries: seq<SignerEntry>, a: Authorisation) {
    match a
    case MasterKey => !NoMasterKey(data)
    case RegularKey => !NoRegularKey(data)
    case Coalition(parties) => CoalitionWeight(entries, parties) >= quorum
  }

  /** Nothing authorises short of two of the listed accounts acting together. */
  ghost predicate NeedsTwo(data: AccountData, quorum: int, entries: seq<SignerEntry>) {
    forall a: Authorisation ::
      Authorises(data, quorum, entries, a) ==> a.Coalition? && |a.parties * Members(entries)| >= 2
  }

  /**
   What every account on the ledger has: one list of named entries, none twice, and a positive quorum. The
   answer carries it at its root, or only inside the account data.
   */
  ghost predicate OnLedger(r: Response, quorum: int, entries: seq<SignerEntry>) {
    var list := SignerList(Some(quorum), Some(entries));
    r.Answer? && r.accountData.Some?
    && (r.rootLists == Some([list]) || (r.rootLists == None && r.accountData.value.nestedLists == Some([list])))
    && quorum > 0 && entries != [] && (forall i :: 0 <= i < |entries| ==> Named(entries[i])) && Distinct(entries)
  }

  predicate Distinct(entries: seq<SignerEntry>) {
    forall i, j :: 0 <= i < j < |entries| && entries[i].SignerEntry? && entries[j].SignerEntry? ==>
                     entries[i].account != entries[j].account
  }

  lemma {:induction false} OutsidersWeighNothing(entries: seq<SignerEntry>, parties: set<string>)
    requires parties !! Members(entries)
    ensures CoalitionWeight(entries, parties) == 0
  {
    if entries != [] {
      assert entries[0] in entries;
      assert forall e :: e in entries[1..] ==> e in entries;
      OutsidersWeighNothing(entries[1..], parties);
    }
  }

  /** A coalition with at most one listed account weighs no more than that account. */
  lemma {:induction false} OnePartyIsLight(entries: seq<SignerEntry>, parties: set<string>, party: string, quorum: int)
    requires quorum > 0 && Distinct(entries) && parties * Members(entries) <= {party}
    requires forall i :: 0 <= i < |entries| ==> Sound(entries[i], quorum)
    ensures CoalitionWeight(entries, parties) < quorum
  {
    if entries != [] {
      var e, rest := entries[0], entries[1..];
      assert e in entries && forall x :: x in rest ==> x in entries;
      if e.account.value in parties {
        assert e.account.value in parties * Members(entries);
        assert forall i :: 0 <= i < |rest| ==> rest[i].account != e.account;
        assert Members(rest) <= Members(entries) && e.account.value !in Members(rest);
        forall x | x in parties && x in Members(entries) ensures x == party {
          assert x in parties * Members(entries);
        }
        OutsidersWeighNothing(rest, parties);
      } else {
        assert parties * Members(rest) <= parties * Members(entries);
        OnePartyIsLight(rest, parties, party, quorum);
      }
    }
  }

  lemma {:induction false} AloneWeighs(entries: seq<SignerEntry>, k: nat)
    requires k < |entries| && Distinct(entries)
    requires forall i :: 0 <= i < |entries| ==> Named(entries[i])
    ensures Named(entries[k])
    ensures CoalitionWeight(entries, {entries[k].account.value}) == entries[k].weight
  {
    var rest := entries[1..];
    if k == 0 {
      assert forall e :: e in rest ==> e.account != entries[0].account;
      OutsidersWeighNothing(rest, {entries[0].account.value});
    } else {
      AloneWeighs(rest, k - 1);
      assert entries[0].account != entries[k].account;
    }
  }

  lemma AtMostOne(s: set<string>) returns (party: string)
    requires |s| < 2
    ensures s <= {party}
  {
    if s == {} {
      party := "";
    } else {
      party :| party in s;
      assert |s - {party}| == |s| - 1;
    }
  }

  /**
   For an account as the ledger keeps them, the guard lets a signature through exactly when quorum and
   members are the expected ones and no key and no single signer can authorise alone.
   */
  lemma AcceptsIffNeedsTwo(r: Response, quorum: int, entries: seq<SignerEntry>, expectedSigners: set<string>,
                           expectedQuorum: int)
    requires OnLedger(r, quorum, entries)
    ensures Checked(r, expectedSigners, expectedQuorum).Ok? <==>
            quorum == expectedQuorum && Members(entries) == expectedSigners
            && NeedsTwo(r.accountData.value, quorum, entries)
    ensures Checked(r, expectedSigners, expectedQuorum).Ok? <==> Accepts(r, expectedSigners, expectedQuorum)
  {
    CheckedMeaning(r, expectedSigners, expectedQuorum);
    var data := r.accountData.value;
    if Accepts(r, expectedSigners, expectedQuorum) {
      forall a: Authorisation | Authorises(data, quorum, entries, a)
        ensures a.Coalition? && |a.parties * Members(entries)| >= 2
      {
        if |a.parties * Members(entries)| < 2 {
          var party := AtMostOne(a.parties * Members(entries));
          OnePartyIsLight(entries, a.parties, party, quorum);
        }
      }
    }
    if NeedsTwo(data, quorum, entries) {
      assert !Authorises(data, quorum, entries, MasterKey) && !Authorises(data, quorum, entries, RegularKey);
      forall i | 0 <= i < |entries| ensures Sound(entries[i], quorum) {
        var alone := {entries[i].account.value};
        AloneWeighs(entries, i);
        if entries[i].weight >= quorum {
          assert Authorises(data, quorum, entries, Coalition(alone));
          FewInSingleton(entries[i].account.value, Members(entries));
        }
      }
    }
  }

  lemma FewInSingleton(x: string, s: set<string>)
    ensures |{x} * s| <= 1
  {
    assert {x} * s == {} || {x} * s == {x};
  }

  /** With two expected signers every authorisation the guard lets through contains both of them. */
  lemma TwoSignersBothNeeded(r: Response, quorum: int, entries: seq<SignerEntry>, one: string, two: string,
                             a: Authorisation)
    requires OnLedger(r, quorum, entries) && Checked(r, {one, two}, quorum).Ok?
    requires Authorises(r.accountData.value, quorum, entries, a)
    ensures a.Coalition? && one in a.parties && two in a.parties
  {
    AcceptsIffNeedsTwo(r, quorum, entries, {one, two}, quorum);
    var s := a.parties * {one, two};
    if one !in a.parties || two !in a.parties {
      assert s <= {one} || s <= {two};
      if s <= {one} {
        FewInSubset(s, one);
      } else {
        FewInSubset(s, two);
      }
    }
  }

  lemma FewInSubset(s: set<string>, x: string)
    requires s <= {x}
    ensures |s| <= 1
  {
    assert s == {} || s == {x};
  }

  // ---------------------------------------------------------------- lists the ledger does not make

  /** A coalition weighs what its listed members weigh. */
  lemma {:induction false} OnlyMembersWeigh(entries: seq<SignerEntry>, a: set<string>, b: set<string>)
    requires forall m :: m in Members(entries) ==> (m in a <==> m in b)
    ensures CoalitionWeight(entries, a) == CoalitionWeight(entries, b)
  {
    if entries != [] {
      assert entries[0] in entries;
      assert forall e :: e in entries[1..] ==> e in entries;
      OnlyMembersWeigh(entries[1..], a, b);
    }
  }

  /**
   For any list at all, with its account's keys off and a positive quorum: two are needed if and only if no
   one account reaches the quorum with everything listed under its name.
   */
  lemma NeedsTwoIff(data: AccountData, quorum: int, entries: seq<SignerEntry>)
    requires NoRegularKey(data) && NoMasterKey(data) && quorum > 0
    ensures NeedsTwo(data, quorum, entries) <==> forall account: string :: CoalitionWeight(entries, {account}) < quorum
  {
    if NeedsTwo(data, quorum, entries) {
      forall account: string ensures CoalitionWeight(entries, {account}) < quorum {
        FewInSingleton(account, Members(entries));
        assert !Authorises(data, quorum, entries, Coalition({account}));
      }
    }
    if forall account: string :: CoalitionWeight(entries, {account}) < quorum {
      forall a: Authorisation | Authorises(data, quorum, entries, a)
        ensures a.Coalition? && |a.parties * Members(entries)| >= 2
      {
        if |a.parties * Members(entries)| < 2 {
          FewAreTooLight(quorum, entries, a.parties);
        }
      }
    }
  }

  lemma FewAreTooLight(quorum: int, entries: seq<SignerEntry>, parties: set<string>)
    requires quorum > 0 && |parties * Members(entries)| < 2
    requires forall account: string :: CoalitionWeight(entries, {account}) < quorum
    ensures CoalitionWeight(entries, parties) < quorum
  {
    var members := parties * Members(entries);
    var party := AtMostOne(members);
    if members == {} {
      forall x | x in parties ensures x !in Members(entries) {
        assert x !in members;
      }
      OutsidersWeighNothing(entries, parties);
    } else {
      var m :| m in members;
      forall x | x in Members(entries) ensures x in parties <==> x in {party} {
        if x in parties {
          assert x in members;
        }
      }
      OnlyMembersWeigh(entries, parties, {party});
    }
  }

  /**
   Why entries must be distinct, as the ledger makes them: the guard looks at entries one by one, so an account
   listed twice passes it with weights that reach the quorum only together, and can then act alone.
   */
  lemma DuplicateEntryActsAlone(data: AccountData, quorum: int, one: string, two: string, v: int, w: int, x: int)
    requires one != two && one != "" && two != "" && NoRegularKey(data) && NoMasterKey(data)
    requires v < quorum && w < quorum && x < quorum <= v + w
    ensures var entries := [SignerEntry(Some(one), v), SignerEntry(Some(one), w), SignerEntry(Some(two), x)];
            Checked(Answer(Some(data), Some([SignerList(Some(quorum), Some(entries))])), {one, two}, quorum).Ok?
            && Authorises(data, quorum, entries, Coalition({one}))
  {
    var a, b, c := SignerEntry(Some(one), v), SignerEntry(Some(one), w), SignerEntry(Some(two), x);
    var entries := [a, b, c];
    CheckedMeaning(Answer(Some(data), Some([SignerList(Some(quorum), Some(entries))])), {one, two}, quorum);
    assert a in entries && c in entries;
    assert Members(entries) == {one, two};
    assert entries[1..] == [b, c] && [b, c][1..] == [c] && [c][1..] == [];
    assert CoalitionWeight([c], {one}) == 0;
    assert CoalitionWeight([b, c], {one}) == w;
  }
}
