/** The velocity-bounded fast path: a second limiter, whose log holds approvals only. */
module FastPath {
  import opened Wrappers
  import opened Decimals
  import opened Intents
  import opened Pricing
  import opened SlidingWindow

  datatype Config = Config(
    midValueCap: Decimal,
    expiryLedgers: int,
    windowS: real,
    limit: int,
    provider: RateProvider) {
    /** An expiry that is not positive is refused when the fast path is built. */
    predicate Valid() {
      expiryLedgers > 0 && provider.Valid()
    }
  }

  datatype Decision = Decision(approved: bool, escalate: bool, reason: string, lastLedgerSequence: Option<int>)

  type Log = seq<Stamped<()>>

  const OVER_CAP := Decision(false, true, "exceeds_fast_path_ceiling", None)
  const TOO_FAST := Decision(false, true, "fast_path_velocity_exceeded", None)

  function Approval(c: Config, ledgerIndex: int): Decision {
    Decision(true, false, "auto_cosign_mid_value", Some(ledgerIndex + c.expiryLedgers))
  }

  function Decided(c: Config, log: Log, feed: Feed, intent: PaymentIntent,
                   ledgerIndex: int): (Log, Result<Decision, RateError>)
    requires c.Valid()
  {
    match c.provider.ToRlusd(feed, intent.asset, intent.amount)
    case Err(e) => (log, Err(e))
    case Ok(value) =>
      if Value(value) > Value(c.midValueCap) then (log, Ok(OVER_CAP))
      else
        var left := Pruned(log, intent.timestamp, c.windowS);
        if |left| + 1 > c.limit then (left, Ok(TOO_FAST))
        else (left + [Stamped(intent.timestamp, ())], Ok(Approval(c, ledgerIndex)))
  }

  class VelocityBoundedFastPath {
    const config: Config
    var recent: Log

    constructor (config: Config)
      requires config.Valid()
      ensures this.config == config && recent == []
    {
      this.config := config;
      recent := [];
    }

    method Prune(now: real)
      modifies this`recent
      ensures recent == Pruned(old(recent), now, config.windowS)
    {
      while recent != [] && now - recent[0].time > config.windowS
        invariant Pruned(recent, now, config.windowS) == Pruned(old(recent), now, config.windowS)
        decreases |recent|
      {
        recent := recent[1..];
      }
    }

    method Evaluate(feed: Feed, intent: PaymentIntent, currentLedgerIndex: int) returns (r: Result<Decision, RateError>)
      requires config.Valid()
      modifies this`recent
      ensures (recent, r) == Decided(config, old(recent), feed, intent, currentLedgerIndex)
    {
      var price := config.provider.ToRlusd(feed, intent.asset, intent.amount);
      if price.Err? {
        return Err(price.error);
      }
      if Value(price.value) > Value(config.midValueCap) {
        return Ok(OVER_CAP);
      }
      Prune(intent.timestamp);
      if |recent| + 1 > config.limit {
        return Ok(TOO_FAST);
      }
      recent := recent + [Stamped(intent.timestamp, ())];
      return Ok(Approval(config, currentLedgerIndex));
    }
  }

  // ---------------------------------------------------------------- whole runs

  datatype Op = Op(feed: Feed, intent: PaymentIntent, ledgerIndex: int)

  datatype Event = Event(time: real, outcome: Result<Decision, RateError>)

  datatype Run = Run(log: Log, trace: seq<Event>)

  function Execute(c: Config, ops: seq<Op>): (r: Run)
    requires c.Valid()
    ensures |r.trace| == |ops|
  {
    if ops == [] then Run([], [])
    else
      var before := Execute(c, ops[..|ops| - 1]);
      var op := ops[|ops| - 1];
      var (log, outcome) := Decided(c, before.log, op.feed, op.intent, op.ledgerIndex);
      Run(log, before.trace + [Event(op.intent.timestamp, outcome)])
  }

  predicate IsApproval(e: Event) {
    e.outcome.Ok? && e.outcome.value.approved
  }

  function Approvals(t: seq<Event>): Log {
    if t == [] then []
    else Approvals(t[..|t| - 1]) + if IsApproval(t[|t| - 1]) then [Stamped(t[|t| - 1].time, ())] else []
  }

  /** The timestamps the limiter has pruned at: those of every priced intent under the cap. */
  function Seen(t: seq<Event>): seq<real> {
    if t == [] then []
    else
      var e := t[|t| - 1];
      Seen(t[..|t| - 1]) + if e.outcome.Ok? && e.outcome.value != OVER_CAP then [e.time] else []
  }

  function Budget(c: Config): nat {
    if c.limit < 0 then 0 else c.limit
  }

  lemma LastStep(c: Config, ops: seq<Op>) returns (before: Run, e: Event)
    requires c.Valid() && ops != []
    ensures before == Execute(c, ops[..|ops| - 1])
    ensures Execute(c, ops).trace == before.trace + [e]
    ensures (before.trace + [e])[..|ops| - 1] == before.trace
    ensures Approvals(before.trace + [e])
         == Approvals(before.trace) + if IsApproval(e) then [Stamped(e.time, ())] else []
    ensures Seen(before.trace + [e])
         == Seen(before.trace) + if e.outcome.Ok? && e.outcome.value != OVER_CAP then [e.time] else []
    ensures var left := Pruned(before.log, e.time, c.windowS);
            if !e.outcome.Ok? || e.outcome.value == OVER_CAP then Execute(c, ops).log == before.log
            else if IsApproval(e) then |left| < c.limit && Execute(c, ops).log == left + [Stamped(e.time, ())]
            else |left| >= c.limit && Execute(c, ops).log == left
  {
    before := Execute(c, ops[..|ops| - 1]);
    var op := ops[|ops| - 1];
    e := Event(op.intent.timestamp, Decided(c, before.log, op.feed, op.intent, op.ledgerIndex).1);
    assert (before.trace + [e])[..|ops| - 1] == before.trace;
  }

  /**
   In any order of timestamps the log is a suffix of the approvals, missing only those more than a
   window older than some time seen.
   */
  lemma {:induction false} LogIsWindowOfApprovals(c: Config, ops: seq<Op>)
    requires c.Valid()
    ensures var r := Execute(c, ops);
            WindowOf(r.log, Approvals(r.trace), Seen(r.trace), c.windowS)
  {
    if ops != [] {
      LogIsWindowOfApprovals(c, ops[..|ops| - 1]);
      var before, e := LastStep(c, ops);
      var past, seen := Approvals(before.trace), Seen(before.trace);
      if e.outcome.Ok? && e.outcome.value != OVER_CAP {
        PruneKeepsWindow(before.log, past, seen, e.time, c.windowS);
        if IsApproval(e) {
          AppendKeepsWindow(Pruned(before.log, e.time, c.windowS), past, seen + [e.time], Stamped(e.time, ()),
                            c.windowS);
        } else {
          assert Approvals(Execute(c, ops).trace) == past;
        }
      } else {
        assert Approvals(Execute(c, ops).trace) == past && Seen(Execute(c, ops).trace) == seen;
      }
    }
  }

  /** The log never outgrows the limit. */
  lemma {:induction false} LogWithinBudget(c: Config, ops: seq<Op>)
    requires c.Valid()
    ensures |Execute(c, ops).log| <= Budget(c)
  {
    if ops != [] {
      LogWithinBudget(c, ops[..|ops| - 1]);
      var before, e := LastStep(c, ops);
      PrunedNoLonger(before.log, e.time, c.windowS);
    }
  }

  /**
   Whatever the order: while nothing seen lies more than a window after `lo`, at most `limit` approvals
   are stamped from `lo` to `hi`.
   */
  lemma {:induction false} ApprovalsBoundedBeforeDrift(c: Config, ops: seq<Op>, lo: real, hi: real)
    requires c.Valid()
    requires forall j :: 0 <= j < |Seen(Execute(c, ops).trace)| ==> Seen(Execute(c, ops).trace)[j] <= lo + c.windowS
    ensures MatchesIn(Approvals(Execute(c, ops).trace), (), lo, hi) <= Budget(c)
  {
    var r := Execute(c, ops);
    LogIsWindowOfApprovals(c, ops);
    WindowCountsAll(r.log, Approvals(r.trace), Seen(r.trace), c.windowS, (), lo, hi);
    MatchesAtMost(r.log, ());
    LogWithinBudget(c, ops);
  }

  /**
   With timestamps that never decrease, no closed interval as long as the window holds more than `limit`
   approvals.
   */
  lemma {:induction false} ApprovalsBounded(c: Config, ops: seq<Op>, lo: real, hi: real)
    requires c.Valid() && hi - lo <= c.windowS
    requires NonDecreasing(Seen(Execute(c, ops).trace))
    ensures MatchesIn(Approvals(Execute(c, ops).trace), (), lo, hi) <= Budget(c)
  {
    if ops != [] {
      var seen := Seen(Execute(c, ops).trace);
      if seen == [] || seen[|seen| - 1] <= hi {
        ApprovalsBoundedBeforeDrift(c, ops, lo, hi);
      } else {
        var before, e := LastStep(c, ops);
        NonDecreasingFront(Seen(before.trace), seen);
        ApprovalsBounded(c, ops[..|ops| - 1], lo, hi);
        var a := Approvals(Execute(c, ops).trace);
        if IsApproval(e) {
          assert seen[|seen| - 1] == e.time && a[..|a| - 1] == Approvals(before.trace);
        } else {
          assert a == Approvals(before.trace);
        }
      }
    }
  }

  lemma NonDecreasingFront(front: seq<real>, all: seq<real>)
    requires NonDecreasing(all) && front <= all
    ensures NonDecreasing(front)
  {
    assert forall i :: 0 <= i < |front| ==> front[i] == all[i];
  }

  lemma {:induction false} ApprovalsInOrder(t: seq<Event>)
    requires NonDecreasing(Seen(t))
    ensures InOrder(Approvals(t))
    ensures Approvals(t) != [] ==> Seen(t) != [] && Last(Approvals(t)).time <= Last(Seen(t))
  {
    if t != [] {
      var front, e := t[..|t| - 1], t[|t| - 1];
      NonDecreasingFront(Seen(front), Seen(t));
      ApprovalsInOrder(front);
      if e.outcome.Ok? && e.outcome.value != OVER_CAP {
        LastIsLargest(Seen(front), e.time);
        if IsApproval(e) {
          InOrderSnoc(Approvals(front), Stamped(e.time, ()));
        }
      }
    }
  }

  lemma LastIsLargest(times: seq<real>, now: real)
    requires NonDecreasing(times + [now])
    ensures times != [] ==> Last(times) <= now
  {
    assert times != [] ==> (times + [now])[|times| - 1] == Last(times) && (times + [now])[|times|] == now;
  }

  lemma InOrderSnoc(h: Log, e: Stamped<()>)
    requires InOrder(h) && (h != [] ==> Last(h).time <= e.time)
    ensures InOrder(h + [e])
  {
    assert forall i :: 0 <= i < |h| ==> h[i].time <= Last(h).time;
  }

  function Last<T>(s: seq<T>): T
    requires s != []
  {
    s[|s| - 1]
  }

  /**
   The whole decision on every intent, on every run whose timestamps never decrease. A priced intent is
   approved exactly when its worth is within the ceiling and fewer than `limit` approvals lie in the window
   ending now. Over the ceiling it escalates for that reason; within it, it escalates only when exactly the
   budget lies in the window. No escalation adds an approval, and an approval expires where it should.
   */
  lemma ApprovedIff(c: Config, ops: seq<Op>, op: Op)
    requires c.Valid() && NonDecreasing(Seen(Execute(c, ops).trace) + [op.intent.timestamp])
    ensures var now := op.intent.timestamp;
            var past := Approvals(Execute(c, ops).trace);
            var inWindow := MatchesIn(past, (), now - c.windowS, now);
            var worth := Worth(c.provider, op.feed, op.intent.asset, op.intent.amount);
            var (log, r) := Decided(c, Execute(c, ops).log, op.feed, op.intent, op.ledgerIndex);
            (r.Ok? <==> Priced(c.provider, op.feed, op.intent.asset))
            && (r.Ok? ==>
                  (r.value.approved <==> worth <= Value(c.midValueCap) && inWindow < c.limit)
                  && (r.value.approved ==>
                        r.value == Decision(true, false, "auto_cosign_mid_value",
                                            Some(op.ledgerIndex + c.expiryLedgers))
                        && log == Recent(past, now, c.windowS) + [Stamped(now, ())])
                  && (!r.value.approved && worth <= Value(c.midValueCap) ==>
                        r.value == Decision(false, true, "fast_path_velocity_exceeded", None)
                        && inWindow == Budget(c) && log == Recent(past, now, c.windowS)))
  {
    ValuedAtWorth(c.provider, op.feed, op.intent.asset, op.intent.amount);
    PrunedIsWindowNow(c, ops, op.intent.timestamp);
    WindowCount(c, ops, op.intent.timestamp);
  }

  /**
   Over the ceiling, in any order of timestamps and whatever the budget: the payment escalates with that
   reason, and the log, hence the budget, stays as it was. What cannot be priced is not decided at all.
   */
  lemma OverCeilingEscalates(c: Config, ops: seq<Op>, op: Op, all: seq<Op>)
    requires c.Valid() && all == ops + [op]
    requires !Priced(c.provider, op.feed, op.intent.asset)
             || Worth(c.provider, op.feed, op.intent.asset, op.intent.amount) > Value(c.midValueCap)
    ensures var before, after := Execute(c, ops), Execute(c, all);
            after.log == before.log && Approvals(after.trace) == Approvals(before.trace)
            && after.trace == before.trace + [after.trace[|ops|]]
            && if Priced(c.provider, op.feed, op.intent.asset) then
                 after.trace[|ops|].outcome == Ok(Decision(false, true, "exceeds_fast_path_ceiling", None))
               else
                 after.trace[|ops|].outcome.Err?
  {
    assert all[..|ops|] == ops && all[|ops|] == op;
    var outcome := OverCeilingDecided(c, Execute(c, ops).log, op);
    SameApprovals(Execute(c, ops).trace, Event(op.intent.timestamp, outcome));
  }

  lemma OverCeilingDecided(c: Config, log: Log, op: Op) returns (outcome: Result<Decision, RateError>)
    requires c.Valid()
    requires !Priced(c.provider, op.feed, op.intent.asset)
             || Worth(c.provider, op.feed, op.intent.asset, op.intent.amount) > Value(c.midValueCap)
    ensures Decided(c, log, op.feed, op.intent, op.ledgerIndex) == (log, outcome)
    ensures if Priced(c.provider, op.feed, op.intent.asset) then
              outcome == Ok(Decision(false, true, "exceeds_fast_path_ceiling", None))
            else
              outcome.Err?
  {
    ValuedAtWorth(c.provider, op.feed, op.intent.asset, op.intent.amount);
    outcome := Decided(c, log, op.feed, op.intent, op.ledgerIndex).1;
  }

  lemma SameApprovals(t: seq<Event>, e: Event)
    requires !IsApproval(e)
    ensures Approvals(t + [e]) == Approvals(t)
  {
    assert (t + [e])[..|t|] == t;
  }

  lemma WindowCount(c: Config, ops: seq<Op>, now: real)
    requires c.Valid() && NonDecreasing(Seen(Execute(c, ops).trace) + [now])
    ensures var past := Approvals(Execute(c, ops).trace);
            |Recent(past, now, c.windowS)| == MatchesIn(past, (), now - c.windowS, now)
  {
    var seen := Seen(Execute(c, ops).trace);
    var past := Approvals(Execute(c, ops).trace);
    NonDecreasingFront(seen, seen + [now]);
    ApprovalsInOrder(Execute(c, ops).trace);
    LastIsLargest(seen, now);
    assert forall i :: 0 <= i < |past| ==> past[i].time <= Last(past).time;
    RecentMatches(past, now, c.windowS, ());
    MatchesEverything(Recent(past, now, c.windowS));
  }

  lemma {:induction false} MatchesEverything(h: Log)
    ensures Matches(h, ()) == |h|
  {
    if h != [] {
      MatchesEverything(h[..|h| - 1]);
      assert h[|h| - 1].item == ();
    }
  }

  lemma PrunedIsWindowNow(c: Config, ops: seq<Op>, now: real)
    requires c.Valid() && NonDecreasing(Seen(Execute(c, ops).trace) + [now])
    ensures var left := Pruned(Execute(c, ops).log, now, c.windowS);
            left == Recent(Approvals(Execute(c, ops).trace), now, c.windowS) && |left| <= Budget(c)
  {
    var r := Execute(c, ops);
    var seen := Seen(r.trace);
    NonDecreasingFront(seen, seen + [now]);
    forall j | 0 <= j < |seen| ensures seen[j] <= now {
      assert (seen + [now])[j] == seen[j] && (seen + [now])[|seen|] == now;
    }
    ApprovalsInOrder(r.trace);
    LogIsWindowOfApprovals(c, ops);
    LogWithinBudget(c, ops);
    PrunedIsRecent(r.log, Approvals(r.trace), seen, now, c.windowS);
    PrunedNoLonger(r.log, now, c.windowS);
  }
}
