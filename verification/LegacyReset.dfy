/**
 The legacy protocol's breaker reset: a human token bound to a hash of the freeze episode. Hashes and
 tokens are ideal: a hash is what was hashed, and a token verifies only if it was made from that
 officer's key, that officer's name and that hash.
 */
module LegacyReset {
  import opened Wrappers
  import opened SlidingWindow

  datatype RiskLevel = GREEN | YELLOW | RED

  datatype Payload = Payload(destination: string, asset: string, amount: real, timestamp: real)

  datatype Transfer = Transfer(destination: string, asset: string, amount: real)

  datatype Policy = Policy(engineId: int, whitelist: set<string>, threshold: real, windowS: real, limit: int)

  datatype Verdict = Verdict(tx: Payload, level: RiskLevel, firedReasons: seq<string>, trippedNow: bool)

  /** The hash of "this freeze episode": engine, number of trip reasons, length of the audit log. */
  datatype ActionHash = ResetHash(engineId: int, tripCount: nat, auditLength: nat)

  datatype Officer = Officer(officerId: string, secretKey: string)

  datatype Token = Token(secretKey: string, officerId: string, action: ActionHash)

  datatype ResetRecord = ResetRecord(officerId: string, reason: string, clearedReasons: seq<string>)

  datatype State = State(
    log: seq<Stamped<Transfer>>,
    tripped: bool,
    tripReasons: seq<string>,
    audit: seq<Verdict>,
    resets: seq<ResetRecord>)

  const INITIAL := State([], false, [], [], [])

  function ToRlusd(asset: string, amount: real): real {
    if asset == "XRP" then amount * 0.55 else amount
  }

  function Reason(condition: bool, code: string): seq<string> {
    if condition then [code] else []
  }

  function Judge(p: Policy, s: State, tx: Payload): Verdict {
    var over := ToRlusd(tx.asset, tx.amount) > p.threshold;
    var unknown := tx.destination !in p.whitelist;
    var repeats := Matches(Pruned(s.log, tx.timestamp, p.windowS), Transfer(tx.destination, tx.asset, tx.amount)) + 1;
    var loop := repeats > p.limit;
    var level := if s.tripped || unknown || loop then RED else if over then YELLOW else GREEN;
    Verdict(tx, level,
            Reason(over, "value_threshold_exceeded") + Reason(unknown, "untrusted_destination")
            + Reason(loop, "transaction_loop_detected") + Reason(s.tripped, "circuit_breaker_frozen"),
            level == RED && !s.tripped)
  }

  function Evaluated(p: Policy, s: State, tx: Payload): State {
    var v := Judge(p, s, tx);
    var entry := Stamped(tx.timestamp, Transfer(tx.destination, tx.asset, tx.amount));
    s.(log := Pruned(s.log, tx.timestamp, p.windowS) + [entry],
       tripped := s.tripped || v.level == RED,
       tripReasons := if v.trippedNow then v.firedReasons else s.tripReasons,
       audit := s.audit + [v])
  }

  function CurrentHash(p: Policy, s: State): ActionHash {
    ResetHash(p.engineId, |s.tripReasons|, |s.audit|)
  }

  function Issue(officer: Officer, action: ActionHash): Token {
    Token(officer.secretKey, officer.officerId, action)
  }

  /** A token is checked against the hash of the present moment; whether the breaker is tripped is not looked at. */
  predicate Accepts(p: Policy, s: State, officer: Officer, token: Option<Token>) {
    token == Some(Issue(officer, CurrentHash(p, s)))
  }

  function AfterReset(s: State, officer: Officer, reason: string): State {
    s.(tripped := false, tripReasons := [],
       resets := s.resets + [ResetRecord(officer.officerId, reason, s.tripReasons)])
  }

  class HumanOverrideAuthority {
    const officer: Officer
    var overrideLog: seq<(ActionHash, string)>

    constructor (officer: Officer)
      ensures this.officer == officer && overrideLog == []
    {
      this.officer := officer;
      overrideLog := [];
    }

    function IssueOverride(action: ActionHash): Token {
      Issue(officer, action)
    }

    predicate VerifyOverride(action: ActionHash, token: Option<Token>) {
      token.Some? && IssueOverride(action) == token.value
    }
  }

  class RiskTelemetryEngine {
    const policy: Policy
    var recentTxLog: seq<Stamped<Transfer>>
    var circuitBreakerTripped: bool
    var tripReasons: seq<string>
    var auditLog: seq<Verdict>
    var resetLog: seq<ResetRecord>

    ghost function View(): State
      reads this
    {
      State(recentTxLog, circuitBreakerTripped, tripReasons, auditLog, resetLog)
    }

    constructor (policy: Policy)
      ensures this.policy == policy && View() == INITIAL
    {
      this.policy := policy;
      recentTxLog, circuitBreakerTripped, tripReasons, auditLog, resetLog := [], false, [], [], [];
    }

    method Evaluate(tx: Payload) returns (v: Verdict)
      modifies this
      ensures View() == Evaluated(policy, old(View()), tx) && v == Judge(policy, old(View()), tx)
    {
      var over := ToRlusd(tx.asset, tx.amount) > policy.threshold;
      var unknown := tx.destination !in policy.whitelist;
      var what := Transfer(tx.destination, tx.asset, tx.amount);
      while recentTxLog != [] && tx.timestamp - recentTxLog[0].time > policy.windowS
        invariant Pruned(recentTxLog, tx.timestamp, policy.windowS)
               == Pruned(old(recentTxLog), tx.timestamp, policy.windowS)
        invariant State(old(recentTxLog), circuitBreakerTripped, tripReasons, auditLog, resetLog) == old(View())
        decreases |recentTxLog|
      {
        recentTxLog := recentTxLog[1..];
      }
      var loop := Matches(recentTxLog, what) + 1 > policy.limit;
      recentTxLog := recentTxLog + [Stamped(tx.timestamp, what)];
      var fired := Reason(over, "value_threshold_exceeded") + Reason(unknown, "untrusted_destination")
                 + Reason(loop, "transaction_loop_detected");
      var level := if unknown || loop then RED else if over then YELLOW else GREEN;
      fired := fired + Reason(circuitBreakerTripped, "circuit_breaker_frozen");
      if circuitBreakerTripped {
        level := RED;
      }
      var trippedNow := false;
      if level == RED && !circuitBreakerTripped {
        circuitBreakerTripped := true;
        trippedNow := true;
        tripReasons := fired;
      }
      v := Verdict(tx, level, fired, trippedNow);
      auditLog := auditLog + [v];
    }

    method ResetCircuitBreaker(authority: HumanOverrideAuthority, token: Option<Token>, reason: string)
      returns (ok: bool)
      modifies this, authority
      ensures ok == Accepts(policy, old(View()), authority.officer, token)
      ensures View() == if ok then AfterReset(old(View()), authority.officer, reason) else old(View())
      ensures authority.overrideLog
           == old(authority.overrideLog) + if ok then [(CurrentHash(policy, old(View())), reason)] else []
    {
      var resetHash := ResetHash(policy.engineId, |tripReasons|, |auditLog|);
      ok := authority.VerifyOverride(resetHash, token);
      if ok {
        resetLog := resetLog + [ResetRecord(authority.officer.officerId, reason, tripReasons)];
        authority.overrideLog := authority.overrideLog + [(resetHash, reason)];
        circuitBreakerTripped := false;
        tripReasons := [];
      }
    }
  }

  // ---------------------------------------------------------------- whole runs

  datatype Op = Evaluate(tx: Payload) | Reset(officer: Officer, token: Option<Token>, reason: string)

  /** Whether the operation is a reset that goes through. */
  predicate Succeeds(p: Policy, s: State, op: Op) {
    op.Reset? && Accepts(p, s, op.officer, op.token)
  }

  function Step(p: Policy, s: State, op: Op): State {
    match op
    case Evaluate(tx) => Evaluated(p, s, tx)
    case Reset(officer, _, reason) => if Succeeds(p, s, op) then AfterReset(s, officer, reason) else s
  }

  function Run(p: Policy, s: State, ops: seq<Op>): State {
    if ops == [] then s else Step(p, Run(p, s, ops[..|ops| - 1]), ops[|ops| - 1])
  }

  predicate Sound(s: State) {
    s.tripped <==> s.tripReasons != []
  }

  lemma StepKeepsSound(p: Policy, s: State, op: Op)
    requires Sound(s)
    ensures Sound(Step(p, s, op)) && |Step(p, s, op).audit| >= |s.audit|
  {
  }

  lemma {:induction false} RunKeepsSound(p: Policy, s: State, ops: seq<Op>)
    requires Sound(s)
    ensures Sound(Run(p, s, ops)) && |Run(p, s, ops).audit| >= |s.audit|
  {
    if ops != [] {
      RunKeepsSound(p, s, ops[..|ops| - 1]);
      StepKeepsSound(p, Run(p, s, ops[..|ops| - 1]), ops[|ops| - 1]);
    }
  }

  /** What an amount is worth here: XRP at 0.55, and everything else at face value. */
  predicate WorthMoreThan(tx: Payload, threshold: real) {
    if tx.asset == "XRP" then tx.amount * 0.55 > threshold else tx.amount > threshold
  }

  /** With this payment there would be more repeats in the pruned log than the limit. */
  predicate RepeatsTooOften(p: Policy, s: State, tx: Payload) {
    Matches(Pruned(s.log, tx.timestamp, p.windowS), Transfer(tx.destination, tx.asset, tx.amount)) + 1 > p.limit
  }

  /**
   The level and reasons of a legacy verdict: RED when frozen, untrusted or a repeat too many, otherwise
   YELLOW when over the threshold, and GREEN in no other case; each of the four reasons is named when it holds.
   */
  lemma LevelIff(p: Policy, s: State, tx: Payload)
    ensures var v := Judge(p, s, tx);
            var red := s.tripped || tx.destination !in p.whitelist || RepeatsTooOften(p, s, tx);
            v.tx == tx && (v.level == RED <==> red)
            && (v.level == YELLOW <==> !red && WorthMoreThan(tx, p.threshold))
            && (v.level == GREEN <==> !red && !WorthMoreThan(tx, p.threshold))
            && ("value_threshold_exceeded" in v.firedReasons <==> WorthMoreThan(tx, p.threshold))
            && ("untrusted_destination" in v.firedReasons <==> tx.destination !in p.whitelist)
            && ("transaction_loop_detected" in v.firedReasons <==> RepeatsTooOften(p, s, tx))
            && ("circuit_breaker_frozen" in v.firedReasons <==> s.tripped)
  {
    var v := Judge(p, s, tx);
    var over, unknown := ToRlusd(tx.asset, tx.amount) > p.threshold, tx.destination !in p.whitelist;
    NamedIf(over, "value_threshold_exceeded");
    NamedIf(unknown, "untrusted_destination");
    NamedIf(RepeatsTooOften(p, s, tx), "transaction_loop_detected");
    NamedIf(s.tripped, "circuit_breaker_frozen");
  }

  lemma NamedIf(condition: bool, code: string)
    ensures forall c :: c in Reason(condition, code) <==> condition && c == code
  {
  }

  /** What an evaluation leaves: the breaker trips on RED, with the reasons of the first, and every verdict is kept. */
  lemma EvaluationLeaves(p: Policy, s: State, tx: Payload)
    ensures var s', v := Evaluated(p, s, tx), Judge(p, s, tx);
            (s'.tripped <==> s.tripped || v.level == RED)
            && s'.tripReasons == (if v.level == RED && !s.tripped then v.firedReasons else s.tripReasons)
            && s'.audit == s.audit + [v] && s'.resets == s.resets
  {
  }

  /**
   Frozen until a human says otherwise: as long as no reset goes through, a tripped breaker stays tripped with
   its reasons, and every verdict is RED.
   */
  lemma {:induction false} FrozenUntilReset(p: Policy, s: State, ops: seq<Op>)
    requires s.tripped && forall k :: 0 <= k < |ops| ==> !Succeeds(p, Run(p, s, ops[..k]), ops[k])
    ensures var s' := Run(p, s, ops);
            s'.tripped && s'.tripReasons == s.tripReasons && s'.resets == s.resets && |s.audit| <= |s'.audit|
            && forall j :: |s.audit| <= j < |s'.audit| ==> s'.audit[j].level == RED
  {
    if ops != [] {
      var n := |ops| - 1;
      forall k | 0 <= k < n ensures !Succeeds(p, Run(p, s, ops[..n][..k]), ops[..n][k]) {
        assert ops[..n][..k] == ops[..k];
      }
      FrozenUntilReset(p, s, ops[..n]);
      if ops[n].Evaluate? {
        LevelIff(p, Run(p, s, ops[..n]), ops[n].tx);
        EvaluationLeaves(p, Run(p, s, ops[..n]), ops[n].tx);
      }
    }
  }

  /** A reset goes through on the one token its officer could issue for engine, reasons and audit log as they are. */
  lemma SucceedsIff(p: Policy, s: State, officer: Officer, token: Option<Token>, reason: string)
    ensures Succeeds(p, s, Reset(officer, token, reason)) <==>
            token.Some? && token.value.secretKey == officer.secretKey && token.value.officerId == officer.officerId
            && token.value.action.engineId == p.engineId && token.value.action.tripCount == |s.tripReasons|
            && token.value.action.auditLength == |s.audit|
    ensures var s' := Step(p, s, Reset(officer, token, reason));
            if Succeeds(p, s, Reset(officer, token, reason)) then
              !s'.tripped && s'.tripReasons == [] && s'.log == s.log && s'.audit == s.audit
              && s'.resets == s.resets + [ResetRecord(officer.officerId, reason, s.tripReasons)]
            else
              s' == s
  {
  }

  /** Operation `k` of the run is an evaluation or a reset that goes through. */
  predicate Moves(p: Policy, s: State, ops: seq<Op>, k: int) {
    0 <= k < |ops| && (ops[k].Evaluate? || Succeeds(p, Run(p, s, ops[..k]), ops[k]))
  }

  /**
   The pair that a reset is bound to never comes back with a non-empty list of reasons: if a tripped
   state and a later one agree on it, nothing but denied resets happened between them.
   */
  lemma {:induction false} EpisodeNeverRecurs(p: Policy, s: State, ops: seq<Op>)
    requires Sound(s) && s.tripped
    requires CurrentHash(p, Run(p, s, ops)) == CurrentHash(p, s)
    ensures Run(p, s, ops) == s && forall k :: !Moves(p, s, ops, k)
  {
    if ops != [] {
      var front, op := ops[..|ops| - 1], ops[|ops| - 1];
      var before := Run(p, s, front);
      RunKeepsSound(p, s, front);
      StepKeepsSound(p, before, op);
      assert !op.Evaluate? && !Succeeds(p, before, op);
      EpisodeNeverRecurs(p, s, front);
      forall k | 0 <= k < |ops| ensures !Moves(p, s, ops, k) {
        if k < |front| {
          assert front[..k] == ops[..k] && front[k] == ops[k];
          assert !Moves(p, s, front, k);
        }
      }
    }
  }

  /** Operation `k` is a reset that goes through on this very token. */
  predicate UsesToken(p: Policy, s: State, ops: seq<Op>, k: int, token: Token) {
    0 <= k < |ops| && Succeeds(p, Run(p, s, ops[..k]), ops[k]) && ops[k].token == Some(token)
  }

  /**
   A token issued while the breaker is tripped goes through only before the next evaluation and
   before any other reset, that is within its own freeze episode.
   */
  lemma TokenOnlyInItsEpisode(p: Policy, s: State, officer: Officer, ops: seq<Op>, k: nat)
    requires Sound(s) && s.tripped && UsesToken(p, s, ops, k, Issue(officer, CurrentHash(p, s)))
    ensures Run(p, s, ops[..k]) == s && forall j :: 0 <= j < k ==> !Moves(p, s, ops, j)
  {
    EpisodeNeverRecurs(p, s, ops[..k]);
    forall j | 0 <= j < k ensures !Moves(p, s, ops, j) {
      assert !Moves(p, s, ops[..k], j);
      assert ops[..k][..j] == ops[..j] && ops[..k][j] == ops[j];
    }
  }

  /** So it goes through at most once, whatever is done in between. */
  lemma TokenAtMostOnce(p: Policy, s: State, officer: Officer, ops: seq<Op>, j: nat, k: nat)
    requires Sound(s) && s.tripped
    requires UsesToken(p, s, ops, j, Issue(officer, CurrentHash(p, s)))
    requires UsesToken(p, s, ops, k, Issue(officer, CurrentHash(p, s)))
    ensures j == k
  {
    TokenOnlyInItsEpisode(p, s, officer, ops, j);
    TokenOnlyInItsEpisode(p, s, officer, ops, k);
    if j < k {
      assert Moves(p, s, ops, j);
    } else if k < j {
      assert Moves(p, s, ops, k);
    }
  }

  /**
   Being tripped at issue is exactly what makes a token single-use: presented twice in a row, the
   second use is denied if the breaker was tripped, and goes through, changing only the reset log, if it was not.
   */
  lemma SecondUseIffUntripped(p: Policy, s: State, officer: Officer, reason: string)
    requires Sound(s)
    ensures var use := Reset(officer, Some(Issue(officer, CurrentHash(p, s))), reason);
            Succeeds(p, s, use) && !Step(p, s, use).tripped
            && (Succeeds(p, Step(p, s, use), use) <==> !s.tripped)
            && (!s.tripped ==> Step(p, s, use) == s.(resets := s.resets + [ResetRecord(officer.officerId, reason, [])]))
  {
    SucceedsIff(p, s, officer, Some(Issue(officer, CurrentHash(p, s))), reason);
  }
}
