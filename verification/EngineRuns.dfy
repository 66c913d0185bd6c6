/** Whole runs of the risk engine: evaluations in any order of timestamps, with resets anywhere between. */
module EngineRuns {
  import opened Wrappers
  import opened Decimals
  import opened Intents
  import opened Pricing
  import opened SlidingWindow
  import opened RiskEngine

  datatype Op = Evaluate(feed: Feed, intent: PaymentIntent) | Reset(reason: string)

  datatype Event = Judged(verdict: Verdict) | NoPrice(error: RateError) | Cleared

  datatype Run = Run(state: State, trace: seq<Event>)

  function Step(p: Policy, s: State, op: Op): (State, Event)
    requires p.provider.Valid()
  {
    match op
    case Reset(_) => (WasReset(s), Cleared)
    case Evaluate(feed, intent) =>
      var (s', r) := Evaluated(p, s, feed, intent);
      (s', match r case Ok(v) => Judged(v) case Err(e) => NoPrice(e))
  }

  function Execute(p: Policy, ops: seq<Op>): (r: Run)
    requires p.provider.Valid()
    ensures |r.trace| == |ops|
  {
    if ops == [] then Run(INITIAL, [])
    else
      var before := Execute(p, ops[..|ops| - 1]);
      var (s, e) := Step(p, before.state, ops[|ops| - 1]);
      Run(s, before.trace + [e])
  }

  predicate HasLevel(e: Event, level: RiskLevel) {
    e.Judged? && e.verdict.level == level
  }

  /** Event `i` was a RED verdict, and the breaker has not been reset since. */
  predicate RedSinceReset(t: seq<Event>, i: int) {
    0 <= i < |t| && HasLevel(t[i], RED) && forall k :: i < k < |t| ==> !t[k].Cleared?
  }

  predicate FirstRedSinceReset(t: seq<Event>, i: int) {
    RedSinceReset(t, i) && forall j :: 0 <= j < i ==> !RedSinceReset(t, j)
  }

  /** Everything judged so far, as the log would hold it if nothing were ever pruned. */
  function History(t: seq<Event>): seq<Stamped<Transfer>> {
    if t == [] then []
    else
      var e := t[|t| - 1];
      History(t[..|t| - 1]) + Recorded(e)
  }

  function Times(h: seq<Stamped<Transfer>>): seq<real> {
    seq(|h|, i requires 0 <= i < |h| => h[i].time)
  }

  predicate GreenFor(e: Event, what: Transfer, lo: real, hi: real) {
    HasLevel(e, GREEN) && MovesIn(e.verdict.intent, what, lo, hi)
  }

  /** How many GREEN verdicts on `what` are stamped in the closed interval from `lo` to `hi`. */
  function GreensIn(t: seq<Event>, what: Transfer, lo: real, hi: real): nat {
    if t == [] then 0
    else GreensIn(t[..|t| - 1], what, lo, hi) + if GreenFor(t[|t| - 1], what, lo, hi) then 1 else 0
  }

  function Recorded(e: Event): seq<Stamped<Transfer>> {
    if e.Judged? then [EntryOf(e.verdict.intent)] else []
  }

  /** What one step does to the state, told from the event it leaves. */
  lemma StepMeans(p: Policy, s: State, op: Op)
    requires p.provider.Valid()
    ensures var (s', e) := Step(p, s, op);
            (e.Cleared? ==> s' == WasReset(s)) && (e.NoPrice? ==> s' == s)
            && (e.Judged? ==>
                  s' == After(p, s, e.verdict)
                  && e.verdict == Judge(p, s, e.verdict.intent, e.verdict.rlusdEquivalent))
  {
    if op.Evaluate? && Evaluated(p, s, op.feed, op.intent).1.Ok? {
      JudgeKeepsInput(p, s, op.intent, p.provider.ToRlusd(op.feed, op.intent.asset, op.intent.amount).value);
    }
  }

  lemma JudgeKeepsInput(p: Policy, s: State, intent: PaymentIntent, rlusd: Decimal)
    ensures Judge(p, s, intent, rlusd).intent == intent && Judge(p, s, intent, rlusd).rlusdEquivalent == rlusd
  {
  }

  /** The last step of a run, taken apart. */
  lemma LastStep(p: Policy, ops: seq<Op>) returns (before: Run, e: Event)
    requires p.provider.Valid() && ops != []
    ensures before == Execute(p, ops[..|ops| - 1])
    ensures Execute(p, ops).trace == before.trace + [e]
    ensures Execute(p, ops).trace[..|ops| - 1] == before.trace
    ensures History(Execute(p, ops).trace) == History(before.trace) + Recorded(e)
    ensures e.Cleared? ==> Execute(p, ops).state == WasReset(before.state)
    ensures e.NoPrice? ==> Execute(p, ops).state == before.state
    ensures e.Judged? ==> Execute(p, ops).state == After(p, before.state, e.verdict)
    ensures e.Judged? ==> e.verdict == Judge(p, before.state, e.verdict.intent, e.verdict.rlusdEquivalent)
  {
    before := Execute(p, ops[..|ops| - 1]);
    e := Step(p, before.state, ops[|ops| - 1]).1;
    StepMeans(p, before.state, ops[|ops| - 1]);
    HistorySnoc(before.trace, e);
    assert (before.trace + [e])[..|ops| - 1] == before.trace;
  }

  lemma HistorySnoc(t: seq<Event>, e: Event)
    ensures History(t + [e]) == History(t) + Recorded(e)
  {
    assert (t + [e])[..|t|] == t;
  }

  // ---------------------------------------------------------------- the breaker

  /**
   The breaker is tripped exactly when some verdict since the last reset was RED, and it keeps the
   reasons of the first of them.
   */
  lemma {:induction false} BreakerRemembersRed(p: Policy, ops: seq<Op>)
    requires p.provider.Valid()
    ensures var r := Execute(p, ops);
            (r.state.tripped <==> exists i :: RedSinceReset(r.trace, i))
            && (r.state.tripped ==> exists i :: FirstRedSinceReset(r.trace, i)
                                                && r.state.tripReasons == r.trace[i].verdict.firedReasons)
            && (!r.state.tripped ==> r.state.tripReasons == [])
  {
    if ops != [] {
      var before := Execute(p, ops[..|ops| - 1]);
      var after := Execute(p, ops);
      var t, t' := before.trace, after.trace;
      BreakerRemembersRed(p, ops[..|ops| - 1]);
      var e := t'[|t|];
      if !e.Cleared? {
        forall i | 0 <= i < |t| ensures RedSinceReset(t', i) == RedSinceReset(t, i) {
          SameRed(t, e, i);
        }
        if before.state.tripped {
          var i :| FirstRedSinceReset(t, i) && before.state.tripReasons == t[i].verdict.firedReasons;
          assert FirstRedSinceReset(t', i);
        } else if HasLevel(e, RED) {
          assert FirstRedSinceReset(t', |t|);
        }
      } else {
        forall i | 0 <= i < |t'| ensures !RedSinceReset(t', i) {
        }
      }
    }
  }

  lemma SameRed(t: seq<Event>, e: Event, i: nat)
    requires i < |t| && !e.Cleared?
    ensures RedSinceReset(t + [e], i) == RedSinceReset(t, i)
  {
    if RedSinceReset(t + [e], i) {
      forall k | i < k < |t| ensures !t[k].Cleared? {
        assert t[k] == (t + [e])[k];
      }
    }
  }

  /** After a RED verdict nothing but RED is given until a reset lies between. */
  lemma {:induction false} FrozenUntilReset(p: Policy, ops: seq<Op>, i: nat, j: nat)
    requires p.provider.Valid() && i < j < |ops|
    requires HasLevel(Execute(p, ops).trace[i], RED)
    requires Execute(p, ops).trace[j].Judged? && !HasLevel(Execute(p, ops).trace[j], RED)
    ensures exists k :: i < k < j && Execute(p, ops).trace[k].Cleared?
    decreases |ops|
  {
    var before, e := LastStep(p, ops);
    var t := Execute(p, ops).trace;
    if j < |ops| - 1 {
      assert t[i] == before.trace[i] && t[j] == before.trace[j];
      FrozenUntilReset(p, ops[..|ops| - 1], i, j);
      var k :| i < k < j && before.trace[k].Cleared?;
      assert t[k].Cleared?;
    } else {
      NotRedWhenOpen(p, ops, i);
      ClearedBetween(t, before.trace, i);
    }
  }

  /** A verdict other than RED is given only when no RED one since the last reset stands before it. */
  lemma NotRedWhenOpen(p: Policy, ops: seq<Op>, i: nat)
    requires p.provider.Valid() && ops != []
    requires Execute(p, ops).trace[|ops| - 1].Judged? && !HasLevel(Execute(p, ops).trace[|ops| - 1], RED)
    ensures !RedSinceReset(Execute(p, ops[..|ops| - 1]).trace, i)
  {
    var before, e := LastStep(p, ops);
    BreakerRemembersRed(p, ops[..|ops| - 1]);
  }

  lemma ClearedBetween(t: seq<Event>, front: seq<Event>, i: nat)
    requires i < |front| <= |t| && front == t[..|front|] && HasLevel(t[i], RED) && !RedSinceReset(front, i)
    ensures exists k :: i < k < |front| && t[k].Cleared?
  {
    assert front[i] == t[i];
    var k :| i < k < |front| && front[k].Cleared?;
    assert t[k].Cleared?;
  }

  // ---------------------------------------------------------------- the window

  /**
   For any order of timestamps the pruned log is a suffix of the full history, and holds every entry
   no more than a window older than each time seen.
   */
  lemma {:induction false} LogIsWindow(p: Policy, ops: seq<Op>)
    requires p.provider.Valid()
    ensures var r := Execute(p, ops);
            WindowOf(r.state.log, History(r.trace), Times(History(r.trace)), p.windowS)
  {
    if ops != [] {
      var before, e := LastStep(p, ops);
      LogIsWindow(p, ops[..|ops| - 1]);
      if e.Judged? {
        JudgedKeepsWindow(before.state.log, History(before.trace), e.verdict.intent, p.windowS);
      } else {
        assert History(Execute(p, ops).trace) == History(before.trace);
      }
    }
  }

  lemma JudgedKeepsWindow(log: seq<Stamped<Transfer>>, h: seq<Stamped<Transfer>>, intent: PaymentIntent, window: real)
    requires WindowOf(log, h, Times(h), window)
    ensures WindowOf(Pruned(log, intent.timestamp, window), h, Times(h + [EntryOf(intent)]), window)
    ensures WindowOf(Pruned(log, intent.timestamp, window) + [EntryOf(intent)], h + [EntryOf(intent)],
                     Times(h + [EntryOf(intent)]), window)
  {
    PruneKeepsWindow(log, h, Times(h), intent.timestamp, window);
    assert Times(h + [EntryOf(intent)]) == Times(h) + [intent.timestamp];
    AppendKeepsWindow(Pruned(log, intent.timestamp, window), h, Times(h + [EntryOf(intent)]), EntryOf(intent), window);
  }

  /** When timestamps never decrease, the pruned log is exactly the part of the history inside the window. */
  lemma LogIsRecentHistory(p: Policy, ops: seq<Op>, now: real)
    requires p.provider.Valid()
    requires InOrder(History(Execute(p, ops).trace)) && NotAfter(History(Execute(p, ops).trace), now)
    ensures var r := Execute(p, ops);
            Pruned(r.state.log, now, p.windowS) == Recent(History(r.trace), now, p.windowS)
  {
    var r := Execute(p, ops);
    LogIsWindow(p, ops);
    PrunedIsRecent(r.state.log, History(r.trace), Times(History(r.trace)), now, p.windowS);
  }

  /**
   When timestamps never decrease, the repeats counted for an intent are the intent itself and every
   earlier judged intent on the same transfer in the window that ends now, whatever its verdict was.
   */
  lemma RepeatsAreExact(p: Policy, ops: seq<Op>, intent: PaymentIntent, rlusd: Decimal)
    requires p.provider.Valid()
    requires InOrder(History(Execute(p, ops).trace)) && NotAfter(History(Execute(p, ops).trace), intent.timestamp)
    ensures Judge(p, Execute(p, ops).state, intent, rlusd).repeatCount
         == EarlierRepeats(Execute(p, ops).trace, intent, p.windowS) + 1
  {
    LogIsRecentHistory(p, ops, intent.timestamp);
    RepeatsFromRecent(p, Execute(p, ops).state, History(Execute(p, ops).trace), intent, rlusd);
    EarlierAreInHistory(Execute(p, ops).trace, intent, p.windowS);
  }

  /** Judged before, whatever the verdict: same payee, asset and value, in the window that ends with the intent. */
  predicate RepeatOf(e: Event, intent: PaymentIntent, window: real) {
    e.Judged? && e.verdict.intent.destination == intent.destination && e.verdict.intent.asset == intent.asset
    && Value(e.verdict.intent.amount) == Value(intent.amount)
    && intent.timestamp - window <= e.verdict.intent.timestamp <= intent.timestamp
  }

  function EarlierRepeats(t: seq<Event>, intent: PaymentIntent, window: real): nat {
    if t == [] then 0
    else EarlierRepeats(t[..|t| - 1], intent, window) + if RepeatOf(t[|t| - 1], intent, window) then 1 else 0
  }

  lemma {:induction false} EarlierAreInHistory(t: seq<Event>, intent: PaymentIntent, window: real)
    ensures EarlierRepeats(t, intent, window) == JudgedInWindow(History(t), intent, window)
  {
    if t != [] {
      EarlierAreInHistory(t[..|t| - 1], intent, window);
      var e := t[|t| - 1];
      if e.Judged? {
        SameTransferIff(e.verdict.intent, intent);
        assert History(t)[..|History(t)| - 1] == History(t[..|t| - 1]);
      } else {
        assert History(t) == History(t[..|t| - 1]);
      }
    }
  }

  /** How many entries of the history are on the intent's transfer, in the window that ends with it. */
  function JudgedInWindow(h: seq<Stamped<Transfer>>, intent: PaymentIntent, window: real): nat {
    MatchesIn(h, What(intent), intent.timestamp - window, intent.timestamp)
  }

  lemma RepeatsFromRecent(p: Policy, s: State, h: seq<Stamped<Transfer>>, intent: PaymentIntent, rlusd: Decimal)
    requires NotAfter(h, intent.timestamp)
    requires Pruned(s.log, intent.timestamp, p.windowS) == Recent(h, intent.timestamp, p.windowS)
    ensures Judge(p, s, intent, rlusd).repeatCount == JudgedInWindow(h, intent, p.windowS) + 1
  {
    RecentCount(h, intent, p.windowS);
  }

  lemma RecentCount(h: seq<Stamped<Transfer>>, intent: PaymentIntent, window: real)
    requires NotAfter(h, intent.timestamp)
    ensures Matches(Recent(h, intent.timestamp, window), What(intent)) == JudgedInWindow(h, intent, window)
  {
    RecentMatches(h, intent.timestamp, window, What(intent));
  }

  function Verdicts(t: seq<Event>): seq<Verdict> {
    if t == [] then []
    else Verdicts(t[..|t| - 1]) + if t[|t| - 1].Judged? then [t[|t| - 1].verdict] else []
  }

  /** The audit log is every verdict ever given, in order; no reset shortens it. */
  lemma {:induction false} AuditLogIsComplete(p: Policy, ops: seq<Op>)
    requires p.provider.Valid()
    ensures Execute(p, ops).state.audit == Verdicts(Execute(p, ops).trace)
  {
    if ops != [] {
      var before, e := LastStep(p, ops);
      AuditLogIsComplete(p, ops[..|ops| - 1]);
    }
  }

  lemma {:induction false} GreensAreJudged(t: seq<Event>, what: Transfer, lo: real, hi: real)
    ensures GreensIn(t, what, lo, hi) <= MatchesIn(History(t), what, lo, hi)
  {
    if t != [] {
      GreensAreJudged(t[..|t| - 1], what, lo, hi);
      var e := t[|t| - 1];
      if e.Judged? {
        assert History(t)[..|History(t)| - 1] == History(t[..|t| - 1]);
      } else {
        assert History(t) == History(t[..|t| - 1]);
      }
    }
  }

  function AtLeastZero(limit: int): nat {
    if limit < 0 then 0 else limit
  }

  /**
   Whatever the order of timestamps: as long as nothing has been stamped more than a window after
   `lo`, at most `limit` GREEN verdicts on one transfer are stamped from `lo` to `hi`. Resets do not matter.
   */
  lemma {:induction false} GreensBoundedBeforeDrift(p: Policy, ops: seq<Op>, what: Transfer, lo: real, hi: real)
    requires p.provider.Valid()
    requires NotAfter(History(Execute(p, ops).trace), lo + p.windowS)
    ensures GreensIn(Execute(p, ops).trace, what, lo, hi) <= AtLeastZero(p.limit)
  {
    if ops != [] {
      var before, e := LastStep(p, ops);
      var h := History(before.trace);
      if GreenFor(e, what, lo, hi) {
        LogIsWindow(p, ops[..|ops| - 1]);
        GreenCountsAll(p, before.state, h, e.verdict, what, lo, hi);
        GreensAreJudged(before.trace, what, lo, hi);
      } else {
        assert forall j :: 0 <= j < |h| ==> History(Execute(p, ops).trace)[j] == h[j];
        GreensBoundedBeforeDrift(p, ops[..|ops| - 1], what, lo, hi);
      }
    }
  }

  /** A GREEN verdict has seen, and counted, every repeat in the interval. */
  lemma GreenCountsAll(p: Policy, s: State, h: seq<Stamped<Transfer>>, v: Verdict, what: Transfer, lo: real, hi: real)
    requires WindowOf(s.log, h, Times(h), p.windowS)
    requires NotAfter(h + [EntryOf(v.intent)], lo + p.windowS)
    requires v == Judge(p, s, v.intent, v.rlusdEquivalent) && v.level == GREEN && What(v.intent) == what
    ensures MatchesIn(h, what, lo, hi) + 1 <= p.limit
  {
    JudgedKeepsWindow(s.log, h, v.intent, p.windowS);
    WindowCountsAll(Pruned(s.log, v.intent.timestamp, p.windowS), h, Times(h + [EntryOf(v.intent)]), p.windowS, what,
                    lo, hi);
    GreenIff(p, s, v.intent, v.rlusdEquivalent);
  }

  predicate NotAfter(h: seq<Stamped<Transfer>>, end: real) {
    forall j :: 0 <= j < |h| ==> h[j].time <= end
  }

  /**
   When timestamps never decrease, no closed interval as long as the window holds more than `limit`
   GREEN verdicts on one transfer, across resets and however long the run goes on afterwards.
   */
  lemma {:induction false} GreensBounded(p: Policy, ops: seq<Op>, what: Transfer, lo: real, hi: real)
    requires p.provider.Valid() && hi - lo <= p.windowS
    requires InOrder(History(Execute(p, ops).trace))
    ensures GreensIn(Execute(p, ops).trace, what, lo, hi) <= AtLeastZero(p.limit)
  {
    if ops != [] {
      var h' := History(Execute(p, ops).trace);
      if h' != [] && h'[|h'| - 1].time <= hi {
        GreensBoundedBeforeDrift(p, ops, what, lo, hi);
      } else {
        var before, e := LastStep(p, ops);
        InOrderFront(History(before.trace), Recorded(e));
        GreensBounded(p, ops[..|ops| - 1], what, lo, hi);
        assert e.Judged? ==> h'[|h'| - 1] == EntryOf(e.verdict.intent);
      }
    }
  }

  lemma InOrderFront(h: seq<Stamped<Transfer>>, more: seq<Stamped<Transfer>>)
    requires InOrder(h + more)
    ensures InOrder(h)
  {
    assert forall j :: 0 <= j < |h| ==> (h + more)[j] == h[j];
  }

  /**
   Why the clock matters, whatever the limit: from any open moment with nothing logged, such as the start,
   use the limit up on one transfer, step the clock past the window with another, step it back, and the
   limit can be used up again at the very same time.
   */
  lemma ClockBackDefeatsLimit(p: Policy, ops: seq<Op>, feed: Feed, a: PaymentIntent, b: PaymentIntent)
    requires p.provider.Valid() && p.windowS >= 0.0
    requires What(a) != What(b) && b.timestamp - a.timestamp > p.windowS
    requires GreenAtFirst(p, feed, a) && GreenAtFirst(p, feed, b)
    requires !Execute(p, ops).state.tripped && Execute(p, ops).state.log == []
    ensures p.limit >= 1
    ensures var rounds := Many(Then(Many(ops, feed, a, p.limit), feed, b), feed, a, p.limit);
            GreensIn(Execute(p, rounds).trace, What(a), a.timestamp, a.timestamp)
            == GreensIn(Execute(p, ops).trace, What(a), a.timestamp, a.timestamp) + 2 * p.limit
  {
    GreenIff(p, INITIAL, a, Evaluated(p, INITIAL, feed, a).1.value.rlusdEquivalent);
    ExecuteMany(p, ops, feed, a, p.limit);
    ExecuteThen(p, Many(ops, feed, a, p.limit), feed, b);
    ExecuteMany(p, Then(Many(ops, feed, a, p.limit), feed, b), feed, a, p.limit);
    ForgetAndRepeat(p, Execute(p, ops), feed, a, b);
  }

  lemma ForgetAndRepeat(p: Policy, r: Run, feed: Feed, a: PaymentIntent, b: PaymentIntent)
    requires p.provider.Valid() && p.windowS >= 0.0 && p.limit >= 1
    requires What(a) != What(b) && b.timestamp - a.timestamp > p.windowS
    requires GreenAtFirst(p, feed, a) && GreenAtFirst(p, feed, b)
    requires !r.state.tripped && r.state.log == []
    ensures var again := Repeated(p, Onward(p, Repeated(p, r, feed, a, p.limit), feed, b), feed, a, p.limit);
            GreensIn(again.trace, What(a), a.timestamp, a.timestamp)
            == GreensIn(r.trace, What(a), a.timestamp, a.timestamp) + 2 * p.limit
  {
    var greens := GreensIn(r.trace, What(a), a.timestamp, a.timestamp);
    ManyMore(p, r, [], greens, feed, a, p.limit);
    assert [] + Copies(EntryOf(a), p.limit) == Copies(EntryOf(a), p.limit);
    var full := Repeated(p, r, feed, a, p.limit);
    CopiesPruned(EntryOf(a), p.limit, b.timestamp, p.windowS);
    OtherDoesNotCount(a, b, a.timestamp);
    Forgotten(p, full, Copies(EntryOf(a), p.limit), greens + p.limit, feed, a, b);
    ManyMore(p, Onward(p, full, feed, b), [EntryOf(b)], greens + p.limit, feed, a, p.limit);
  }

  /** Past the window, one other transfer empties the log of all repeats. */
  lemma Forgotten(p: Policy, r: Run, log: seq<Stamped<Transfer>>, greens: nat, feed: Feed, a: PaymentIntent,
                  b: PaymentIntent)
    requires p.provider.Valid() && p.limit >= 1 && GreenAtFirst(p, feed, b) && What(a) != What(b)
    requires Pruned(log, b.timestamp, p.windowS) == [] && Reached(r, log, greens, What(a), a.timestamp)
    ensures Reached(Onward(p, r, feed, b), [EntryOf(b)], greens, What(a), a.timestamp)
  {
    OtherDoesNotCount(a, b, a.timestamp);
    OneMore(p, r, log, greens, feed, b, What(a), a.timestamp);
    assert [] + [EntryOf(b)] == [EntryOf(b)];
  }

  lemma OtherDoesNotCount(a: PaymentIntent, b: PaymentIntent, t: real)
    requires What(a) != What(b)
    ensures !MovesIn(b, What(a), t, t) && Matches([EntryOf(b)], What(a)) == 0
  {
    assert [EntryOf(b)][..0] == [];
  }

  function Then(ops: seq<Op>, feed: Feed, intent: PaymentIntent): seq<Op> {
    ops + [Evaluate(feed, intent)]
  }

  function Many(ops: seq<Op>, feed: Feed, intent: PaymentIntent, n: nat): seq<Op>
    decreases n
  {
    if n == 0 then ops else Many(Then(ops, feed, intent), feed, intent, n - 1)
  }

  /** The same on runs: one evaluation more, and several. */
  function Onward(p: Policy, r: Run, feed: Feed, intent: PaymentIntent): Run
    requires p.provider.Valid()
  {
    var (s, e) := Step(p, r.state, Evaluate(feed, intent));
    Run(s, r.trace + [e])
  }

  function Repeated(p: Policy, r: Run, feed: Feed, intent: PaymentIntent, n: nat): Run
    requires p.provider.Valid()
    decreases n
  {
    if n == 0 then r else Repeated(p, Onward(p, r, feed, intent), feed, intent, n - 1)
  }

  lemma ExecuteThen(p: Policy, ops: seq<Op>, feed: Feed, intent: PaymentIntent)
    requires p.provider.Valid()
    ensures Execute(p, Then(ops, feed, intent)) == Onward(p, Execute(p, ops), feed, intent)
  {
    assert Then(ops, feed, intent)[..|ops|] == ops;
  }

  lemma {:induction false} ExecuteMany(p: Policy, ops: seq<Op>, feed: Feed, intent: PaymentIntent, n: nat)
    requires p.provider.Valid()
    ensures Execute(p, Many(ops, feed, intent, n)) == Repeated(p, Execute(p, ops), feed, intent, n)
    decreases n
  {
    if n > 0 {
      ExecuteThen(p, ops, feed, intent);
      ExecuteMany(p, Then(ops, feed, intent), feed, intent, n - 1);
    }
  }

  function Copies(e: Stamped<Transfer>, n: nat): seq<Stamped<Transfer>> {
    if n == 0 then [] else [e] + Copies(e, n - 1)
  }

  lemma OneCopyMore(log: seq<Stamped<Transfer>>, e: Stamped<Transfer>, n: nat, window: real)
    requires n > 0 && window >= 0.0 && (log != [] ==> e.time - log[0].time <= window)
    ensures Pruned(log, e.time, window) == log
    ensures Matches(log + [e], e.item) == Matches(log, e.item) + 1
    ensures log + [e] + Copies(e, n - 1) == log + Copies(e, n)
    ensures e.time - (log + [e])[0].time <= window
  {
    assert (log + [e])[..|log|] == log;
    assert log + [e] + Copies(e, n - 1) == log + ([e] + Copies(e, n - 1));
  }

  lemma {:induction false} CopiesPruned(e: Stamped<Transfer>, n: nat, now: real, window: real)
    requires now - e.time > window
    ensures Pruned(Copies(e, n), now, window) == []
  {
    if n > 0 {
      CopiesPruned(e, n - 1, now, window);
      assert Copies(e, n)[1..] == Copies(e, n - 1);
    }
  }

  /** Where a run has got to: not tripped, with this log, and so many GREEN verdicts on `what` at time `t`. */
  predicate Reached(r: Run, log: seq<Stamped<Transfer>>, greens: nat, what: Transfer, t: real) {
    !r.state.tripped && r.state.log == log && GreensIn(r.trace, what, t, t) == greens
  }

  /** A further intent, GREEN on its own and with room left in the log, is GREEN and is counted. */
  lemma OneMore(p: Policy, r: Run, log: seq<Stamped<Transfer>>, greens: nat, feed: Feed, intent: PaymentIntent,
                what: Transfer, t: real)
    requires p.provider.Valid() && GreenAtFirst(p, feed, intent) && Reached(r, log, greens, what, t)
    requires Matches(Pruned(log, intent.timestamp, p.windowS), What(intent)) < p.limit
    ensures Reached(Onward(p, r, feed, intent), Pruned(log, intent.timestamp, p.windowS) + [EntryOf(intent)],
                    greens + if MovesIn(intent, what, t, t) then 1 else 0, what, t)
  {
    var more := Onward(p, r, feed, intent);
    assert more.trace[..|r.trace|] == r.trace;
    RoomIsGreen(p, r.state, intent, Evaluated(p, INITIAL, feed, intent).1.value.rlusdEquivalent);
  }

  /** One repeat, of those that are to come. */
  lemma OneRepeat(p: Policy, r: Run, log: seq<Stamped<Transfer>>, greens: nat, feed: Feed, a: PaymentIntent, n: nat)
    returns (next: Run)
    requires p.provider.Valid() && GreenAtFirst(p, feed, a) && Reached(r, log, greens, What(a), a.timestamp)
    requires Pruned(log, a.timestamp, p.windowS) == log && Matches(log, What(a)) < p.limit && n > 0
    ensures Repeated(p, r, feed, a, n) == Repeated(p, next, feed, a, n - 1)
    ensures Reached(next, log + [EntryOf(a)], greens + 1, What(a), a.timestamp)
  {
    OneMore(p, r, log, greens, feed, a, What(a), a.timestamp);
    next := Onward(p, r, feed, a);
  }

  /** While the repeats fit, every one of them is GREEN and stays in the log. */
  lemma {:induction false} ManyMore(p: Policy, r: Run, log: seq<Stamped<Transfer>>, greens: nat, feed: Feed,
                                    a: PaymentIntent, n: nat)
    requires p.provider.Valid() && p.windowS >= 0.0 && GreenAtFirst(p, feed, a)
    requires Reached(r, log, greens, What(a), a.timestamp)
    requires log != [] ==> a.timestamp - log[0].time <= p.windowS
    requires Matches(log, What(a)) + n <= p.limit
    ensures Reached(Repeated(p, r, feed, a, n), log + Copies(EntryOf(a), n), greens + n, What(a), a.timestamp)
    decreases n
  {
    if n == 0 {
      assert log + [] == log;
    } else {
      OneCopyMore(log, EntryOf(a), n, p.windowS);
      var next := OneRepeat(p, r, log, greens, feed, a, n);
      ManyMore(p, next, log + [EntryOf(a)], greens + 1, feed, a, n - 1);
    }
  }

  /** On its own, the intent is judged GREEN by a fresh engine. */
  predicate GreenAtFirst(p: Policy, feed: Feed, intent: PaymentIntent)
    requires p.provider.Valid()
  {
    var r := Evaluated(p, INITIAL, feed, intent).1;
    r.Ok? && r.value.level == GREEN
  }

  /** An intent that a fresh engine judges GREEN is GREEN from any open state with room for another repeat. */
  lemma RoomIsGreen(p: Policy, s: State, intent: PaymentIntent, rlusd: Decimal)
    requires Judge(p, INITIAL, intent, rlusd).level == GREEN && !s.tripped
    requires Matches(Pruned(s.log, intent.timestamp, p.windowS), What(intent)) < p.limit
    ensures Judge(p, s, intent, rlusd).level == GREEN && !After(p, s, Judge(p, s, intent, rlusd)).tripped
  {
    GreenIff(p, INITIAL, intent, rlusd);
    GreenIff(p, s, intent, rlusd);
  }
}
