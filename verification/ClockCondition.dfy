/**
 Exactly which sequences of timestamps keep the engine's velocity bound. The bound is kept on every run
 with these timestamps unless the deque forgets a payment too soon: one in a span of window length in
 which more than the limit fall, and before the last of them is judged.
 */
module ClockCondition {
  import opened Wrappers
  import opened Intents
  import opened Pricing
  import opened SlidingWindow
  import opened RiskEngine
  import opened EngineRuns

  /** How many entries the deque has lost once the last of these times has pruned it: a matter of timestamps only. */
  function Dropped(times: seq<real>, window: real): (n: nat)
    ensures times != [] ==> n < |times|
  {
    if times == [] then 0 else FirstKept(times, Dropped(times[..|times| - 1], window), window)
  }

  /** Dropping from entry `d` on, at the last time. */
  function FirstKept(times: seq<real>, d: nat, window: real): (n: nat)
    requires d < |times|
    ensures d <= n < |times|
    decreases |times| - d
  {
    if d == |times| - 1 || times[|times| - 1] - times[d] <= window then d else FirstKept(times, d + 1, window)
  }

  function InSpan(times: seq<real>, lo: real, hi: real): set<nat> {
    set j: nat | j < |times| && lo <= times[j] <= hi
  }

  /**
   Judging number `k`, the deque has already dropped number `i`, though both lie in the span that starts at
   `lo`, and that span holds more than `limit` of the first `k + 1`.
   */
  predicate ForgetsAt(times: seq<real>, window: real, limit: int, k: nat, i: nat, lo: real) {
    i < k < |times| && i < Dropped(times[..k + 1], window)
    && lo <= times[i] <= lo + window && lo <= times[k] <= lo + window
    && |InSpan(times[..k + 1], lo, lo + window)| > limit
  }

  ghost predicate ForgetsTooSoon(times: seq<real>, window: real, limit: int) {
    exists k: nat, i: nat, lo: real :: ForgetsAt(times, window, limit, k, i, lo)
  }

  /**
   On every run with these timestamps, resets anywhere, no span as long as the window holds more GREEN
   verdicts on one transfer than the limit.
   */
  ghost predicate BoundHolds(p: Policy, times: seq<real>)
    requires p.provider.Valid()
  {
    forall ops: seq<Op>, what: Transfer, lo: real, hi: real ::
      Times(History(Execute(p, ops).trace)) == times && hi - lo <= p.windowS ==>
        GreensIn(Execute(p, ops).trace, what, lo, hi) <= AtLeastZero(p.limit)
  }

  /**
   The exact condition on the clock: for an engine that can give a GREEN verdict at all, the bound holds
   on every run with these timestamps if and only if nothing is forgotten too soon.
   */
  lemma BoundHoldsIff(p: Policy, times: seq<real>, feed: Feed, a: PaymentIntent)
    requires p.provider.Valid() && GreenAtFirst(p, feed, a)
    ensures BoundHolds(p, times) <==> !ForgetsTooSoon(times, p.windowS, p.limit)
  {
    if k: nat, i: nat, lo: real :| ForgetsAt(times, p.windowS, p.limit, k, i, lo) {
      var hi := lo + p.windowS;
      var ops := BreakingRun(p, times, feed, a, k, i, lo, hi);
      BreaksBound(p, ops, times, What(a), lo, hi);
    }
    forall ops: seq<Op>, what: Transfer, lo: real, hi: real
      | Times(History(Execute(p, ops).trace)) == times && hi - lo <= p.windowS
        && GreensIn(Execute(p, ops).trace, what, lo, hi) > AtLeastZero(p.limit)
      ensures ForgetsTooSoon(times, p.windowS, p.limit)
    {
      TooManyGreensForget(p, ops, what, lo, hi);
    }
  }

  // ---------------------------------------------------------------- the deque

  lemma {:induction false} PrunedFrom(h: seq<Stamped<Transfer>>, e: Stamped<Transfer>, d: nat, window: real)
    requires d <= |h|
    ensures Pruned(h[d..], e.time, window) == h[FirstKept(Times(h + [e]), d, window)..]
    decreases |h| - d
  {
    var times := Times(h + [e]);
    assert times[|h|] == e.time;
    if d < |h| {
      assert times[d] == h[d].time && h[d..][0] == h[d];
      if e.time - h[d].time > window {
        assert h[d..][1..] == h[d + 1..];
        PrunedFrom(h, e, d + 1, window);
      }
    }
  }

  /** The deque is the history without what is dropped, whatever the order of timestamps. */
  lemma {:induction false} LogIsDeque(p: Policy, ops: seq<Op>)
    requires p.provider.Valid()
    ensures var h := History(Execute(p, ops).trace);
            Dropped(Times(h), p.windowS) <= |h| && Execute(p, ops).state.log == h[Dropped(Times(h), p.windowS)..]
  {
    if ops != [] {
      var before, e := LastStep(p, ops);
      var h := History(before.trace);
      LogIsDeque(p, ops[..|ops| - 1]);
      if e.Judged? {
        JudgedDeque(before.state.log, h, EntryOf(e.verdict.intent), p.windowS);
      } else {
        assert History(Execute(p, ops).trace) == h;
      }
    }
  }

  lemma JudgedDeque(log: seq<Stamped<Transfer>>, h: seq<Stamped<Transfer>>, e: Stamped<Transfer>, window: real)
    requires Dropped(Times(h), window) <= |h| && log == h[Dropped(Times(h), window)..]
    ensures var d := Dropped(Times(h + [e]), window);
            d <= |h| && Pruned(log, e.time, window) == h[d..] && Pruned(log, e.time, window) + [e] == (h + [e])[d..]
  {
    assert Times(h + [e])[..|h|] == Times(h);
    PrunedFrom(h, e, Dropped(Times(h), window), window);
  }

  // ---------------------------------------------------------------- too many GREEN verdicts

  lemma {:induction false} TooManyGreensForget(p: Policy, ops: seq<Op>, what: Transfer, lo: real, hi: real)
    requires p.provider.Valid() && hi - lo <= p.windowS
    requires GreensIn(Execute(p, ops).trace, what, lo, hi) > AtLeastZero(p.limit)
    ensures ForgetsTooSoon(Times(History(Execute(p, ops).trace)), p.windowS, p.limit)
  {
    if ops != [] {
      var before, e := LastStep(p, ops);
      var h := History(before.trace);
      if GreensIn(before.trace, what, lo, hi) > AtLeastZero(p.limit) {
        TooManyGreensForget(p, ops[..|ops| - 1], what, lo, hi);
        StillForgets(h, Recorded(e), p.windowS, p.limit);
      } else {
        GreensAreJudged(before.trace, what, lo, hi);
        LogIsDeque(p, ops[..|ops| - 1]);
        GreenIff(p, before.state, e.verdict.intent, e.verdict.rlusdEquivalent);
        JudgedDeque(before.state.log, h, EntryOf(e.verdict.intent), p.windowS);
        FullSpanForgets(h, EntryOf(e.verdict.intent), p.windowS, p.limit, lo, hi);
      }
    }
  }

  lemma StillForgets(h: seq<Stamped<Transfer>>, more: seq<Stamped<Transfer>>, window: real, limit: int)
    requires ForgetsTooSoon(Times(h), window, limit)
    ensures ForgetsTooSoon(Times(h + more), window, limit)
  {
    var k: nat, i: nat, lo: real :| ForgetsAt(Times(h), window, limit, k, i, lo);
    assert Times(h + more)[..k + 1] == Times(h)[..k + 1];
    assert ForgetsAt(Times(h + more), window, limit, k, i, lo);
  }

  /** If what is left of the history holds fewer matches than the interval had, an entry of the interval is gone. */
  lemma FullSpanForgets(h: seq<Stamped<Transfer>>, e: Stamped<Transfer>, window: real, limit: int, lo: real, hi: real)
    requires hi - lo <= window && lo <= e.time <= hi
    requires Dropped(Times(h + [e]), window) <= |h|
    requires Matches(h[Dropped(Times(h + [e]), window)..], e.item) < limit <= MatchesIn(h, e.item, lo, hi)
    ensures ForgetsTooSoon(Times(h + [e]), window, limit)
  {
    var times := Times(h + [e]);
    var d := Dropped(times, window);
    MatchesInSplit(h, d, e.item, lo, hi);
    MatchesInAtMost(h[d..], e.item, lo, hi);
    if forall i :: 0 <= i < d ==> !(lo <= h[..d][i].time <= hi) {
      MatchesInNone(h[..d], e.item, lo, hi);
      assert false;
    }
    var i :| 0 <= i < d && lo <= h[..d][i].time <= hi;
    assert (h + [e])[..|h|] == h;
    SpanHoldsMatches(h + [e], e.item, lo, hi, window);
    assert times[..|h| + 1] == times;
    assert ForgetsAt(times, window, limit, |h|, i, lo);
  }

  lemma {:induction false} SpanHoldsMatches(h: seq<Stamped<Transfer>>, what: Transfer, lo: real, hi: real, window: real)
    requires hi - lo <= window
    ensures MatchesIn(h, what, lo, hi) <= |InSpan(Times(h), lo, lo + window)|
  {
    if h != [] {
      SpanHoldsMatches(h[..|h| - 1], what, lo, hi, window);
      assert Times(h[..|h| - 1]) == Times(h)[..|h| - 1];
      InSpanSnoc(Times(h), lo, lo + window);
    }
  }

  lemma InSpanSnoc(times: seq<real>, lo: real, hi: real)
    requires times != []
    ensures var n := |times| - 1;
            InSpan(times, lo, hi) == InSpan(times[..n], lo, hi) + (if lo <= times[n] <= hi then {n} else {})
            && |InSpan(times, lo, hi)| == |InSpan(times[..n], lo, hi)| + if lo <= times[n] <= hi then 1 else 0
  {
    var n := |times| - 1;
    assert InSpan(times, lo, hi) == InSpan(times[..n], lo, hi) + if lo <= times[n] <= hi then {n} else {};
  }

  // ---------------------------------------------------------------- a run that breaks the bound

  /** The history of a run that judges `a` at the chosen times and `b` at the others. */
  function ScriptHistory(times: seq<real>, chosen: set<nat>, a: PaymentIntent,
                         b: PaymentIntent): seq<Stamped<Transfer>> {
    seq(|times|, j requires 0 <= j < |times| => Stamped(times[j], if j in chosen then What(a) else What(b)))
  }

  function Between(chosen: set<nat>, from: nat, to: nat): set<nat> {
    set j | j in chosen && from <= j < to
  }

  lemma {:induction false} ScriptMatches(times: seq<real>, chosen: set<nat>, a: PaymentIntent, b: PaymentIntent, d: nat)
    requires d <= |times| && What(a) != What(b)
    ensures Matches(ScriptHistory(times, chosen, a, b)[d..], What(a)) == |Between(chosen, d, |times|)|
  {
    var h := ScriptHistory(times, chosen, a, b);
    if d == |times| {
      assert h[d..] == [] && Between(chosen, d, |times|) == {};
    } else {
      var n := |times| - 1;
      ScriptMatches(times[..n], chosen, a, b, d);
      assert h[d..][..n - d] == ScriptHistory(times[..n], chosen, a, b)[d..];
      assert Between(chosen, d, n + 1) == Between(chosen, d, n) + if n in chosen then {n} else {};
    }
  }

  /** At every chosen time there is still room among the repeats that the deque has kept. */
  predicate Room(times: seq<real>, chosen: set<nat>, window: real, limit: int) {
    forall j :: j in chosen && j < |times| ==> |Between(chosen, Dropped(times[..j + 1], window), j)| < limit
  }

  /** Where the script has got to. */
  predicate Played(r: Run, times: seq<real>, chosen: set<nat>, a: PaymentIntent, b: PaymentIntent, lo: real, hi: real) {
    !r.state.tripped && History(r.trace) == ScriptHistory(times, chosen, a, b)
    && GreensIn(r.trace, What(a), lo, hi) == |chosen * InSpan(times, lo, hi)|
  }

  /**
   With room at each of them, every chosen time gets a GREEN verdict, on the run that judges `a` then, `b` at
   the other times, and resets after each.
   */
  lemma {:induction false} ScriptIsGreen(p: Policy, times: seq<real>, chosen: set<nat>, feed: Feed, a: PaymentIntent,
                                         b: PaymentIntent, lo: real, hi: real) returns (ops: seq<Op>)
    requires p.provider.Valid() && GreenAtFirst(p, feed, a) && What(a) != What(b)
    requires Evaluated(p, INITIAL, feed, b).1.Ok?
    requires Room(times, chosen, p.windowS, p.limit)
    ensures Played(Execute(p, ops), times, chosen, a, b, lo, hi)
  {
    if times == [] {
      ops := [];
      assert chosen * InSpan(times, lo, hi) == {};
    } else {
      var j := |times| - 1;
      RoomBefore(times, chosen, p.windowS, p.limit);
      var before := ScriptIsGreen(p, times[..j], chosen, feed, a, b, lo, hi);
      var intent := (if j in chosen then a else b).(timestamp := times[j]);
      LogIsDeque(p, before);
      FreshAtAnyTime(p, feed, a, times[j]);
      FreshAtAnyTime(p, feed, b, times[j]);
      ScriptStep(p, Execute(p, before), times, chosen, feed, a, b, lo, hi, intent);
      ExecuteTurn(p, before, feed, intent);
      ops := Then(before, feed, intent) + [Reset("")];
    }
  }

  lemma RoomBefore(times: seq<real>, chosen: set<nat>, window: real, limit: int)
    requires times != [] && Room(times, chosen, window, limit)
    ensures Room(times[..|times| - 1], chosen, window, limit)
  {
    var front := times[..|times| - 1];
    forall j | j in chosen && j < |front| ensures |Between(chosen, Dropped(front[..j + 1], window), j)| < limit {
      assert front[..j + 1] == times[..j + 1];
    }
  }

  lemma ScriptStep(p: Policy, r: Run, times: seq<real>, chosen: set<nat>, feed: Feed, a: PaymentIntent,
                   b: PaymentIntent, lo: real, hi: real, intent: PaymentIntent)
    requires p.provider.Valid() && What(a) != What(b) && times != []
    requires Played(r, times[..|times| - 1], chosen, a, b, lo, hi)
    requires var h := History(r.trace);
             Dropped(Times(h), p.windowS) <= |h| && r.state.log == h[Dropped(Times(h), p.windowS)..]
    requires Room(times, chosen, p.windowS, p.limit)
    requires intent == (if |times| - 1 in chosen then a else b).(timestamp := times[|times| - 1])
    requires Evaluated(p, INITIAL, feed, intent).1.Ok?
    requires |times| - 1 in chosen ==> GreenAtFirst(p, feed, intent)
    ensures Played(Turn(p, r, feed, intent), times, chosen, a, b, lo, hi)
  {
    var j := |times| - 1;
    ScriptLog(times, chosen, a, b, p.windowS, r.state.log, EntryOf(intent));
    if j in chosen {
      RoomAtLast(times, chosen, p.windowS, p.limit);
    }
    SpanSnoc(times, chosen, lo, hi);
    OneTurn(p, r, feed, intent, What(a), lo, hi, j in chosen);
  }

  /** The history grows by one entry, and pruning leaves of it what `Dropped` says. */
  lemma ScriptLog(times: seq<real>, chosen: set<nat>, a: PaymentIntent, b: PaymentIntent, window: real,
                  log: seq<Stamped<Transfer>>, e: Stamped<Transfer>)
    requires What(a) != What(b) && times != []
    requires var h := ScriptHistory(times[..|times| - 1], chosen, a, b);
             Dropped(Times(h), window) <= |h| && log == h[Dropped(Times(h), window)..]
    requires e == Stamped(times[|times| - 1], if |times| - 1 in chosen then What(a) else What(b))
    ensures ScriptHistory(times, chosen, a, b) == ScriptHistory(times[..|times| - 1], chosen, a, b) + [e]
    ensures Matches(Pruned(log, e.time, window), What(a)) == |Between(chosen, Dropped(times, window), |times| - 1)|
  {
    var h := ScriptHistory(times[..|times| - 1], chosen, a, b);
    assert ScriptHistory(times, chosen, a, b) == h + [e];
    JudgedDeque(log, h, e, window);
    assert Times(h + [e]) == times;
    ScriptMatches(times[..|times| - 1], chosen, a, b, Dropped(times, window));
  }

  lemma RoomAtLast(times: seq<real>, chosen: set<nat>, window: real, limit: int)
    requires times != [] && Room(times, chosen, window, limit) && |times| - 1 in chosen
    ensures |Between(chosen, Dropped(times, window), |times| - 1)| < limit
  {
    assert times[..|times| - 1 + 1] == times;
  }

  lemma SpanSnoc(times: seq<real>, chosen: set<nat>, lo: real, hi: real)
    requires times != []
    ensures var j := |times| - 1;
            |chosen * InSpan(times, lo, hi)|
            == |chosen * InSpan(times[..j], lo, hi)| + if j in chosen && lo <= times[j] <= hi then 1 else 0
  {
    var j := |times| - 1;
    InSpanSnoc(times, lo, hi);
    var before, after := chosen * InSpan(times[..j], lo, hi), chosen * InSpan(times, lo, hi);
    assert j !in before;
    if j in chosen && lo <= times[j] <= hi {
      assert after == before + {j};
    } else {
      assert after == before;
    }
  }

  /** A fresh engine gives the same verdict at any time, and values a payment whoever it goes to. */
  lemma FreshAtAnyTime(p: Policy, feed: Feed, intent: PaymentIntent, t: real)
    requires p.provider.Valid()
    ensures GreenAtFirst(p, feed, intent) ==> GreenAtFirst(p, feed, intent.(timestamp := t))
    ensures Evaluated(p, INITIAL, feed, intent).1.Ok? ==> Evaluated(p, INITIAL, feed, intent.(timestamp := t)).1.Ok?
  {
    if Evaluated(p, INITIAL, feed, intent).1.Ok? {
      var rlusd := p.provider.ToRlusd(feed, intent.asset, intent.amount).value;
      GreenIff(p, INITIAL, intent, rlusd);
      GreenIff(p, INITIAL, intent.(timestamp := t), rlusd);
    }
  }

  /** One evaluation and the reset after it. */
  function Turn(p: Policy, r: Run, feed: Feed, intent: PaymentIntent): Run
    requires p.provider.Valid()
  {
    var judged := Onward(p, r, feed, intent);
    Run(WasReset(judged.state), judged.trace + [Cleared])
  }

  lemma ExecuteTurn(p: Policy, ops: seq<Op>, feed: Feed, intent: PaymentIntent)
    requires p.provider.Valid()
    ensures Execute(p, Then(ops, feed, intent) + [Reset("")]) == Turn(p, Execute(p, ops), feed, intent)
  {
    var judged := Then(ops, feed, intent);
    ExecuteThen(p, ops, feed, intent);
    assert (judged + [Reset("")])[..|judged|] == judged;
  }

  lemma OneTurn(p: Policy, r: Run, feed: Feed, intent: PaymentIntent, what: Transfer, lo: real, hi: real, chosen: bool)
    requires p.provider.Valid() && !r.state.tripped && Evaluated(p, INITIAL, feed, intent).1.Ok?
    requires chosen <==> What(intent) == what
    requires chosen ==> GreenAtFirst(p, feed, intent)
                        && Matches(Pruned(r.state.log, intent.timestamp, p.windowS), what) < p.limit
    ensures var r' := Turn(p, r, feed, intent);
            !r'.state.tripped && History(r'.trace) == History(r.trace) + [EntryOf(intent)]
            && GreensIn(r'.trace, what, lo, hi)
               == GreensIn(r.trace, what, lo, hi) + if chosen && lo <= intent.timestamp <= hi then 1 else 0
  {
    var v := Evaluated(p, INITIAL, feed, intent).1.value;
    var e := Judged(Judge(p, r.state, intent, v.rlusdEquivalent));
    if chosen {
      RoomIsGreen(p, r.state, intent, v.rlusdEquivalent);
    }
    assert Step(p, r.state, Evaluate(feed, intent)).1 == e;
    JudgedThenCleared(r.trace, e, what, lo, hi);
  }

  lemma JudgedThenCleared(t: seq<Event>, e: Event, what: Transfer, lo: real, hi: real)
    ensures History(t + [e] + [Cleared]) == History(t) + Recorded(e)
    ensures GreensIn(t + [e] + [Cleared], what, lo, hi)
         == GreensIn(t, what, lo, hi) + if GreenFor(e, what, lo, hi) then 1 else 0
  {
    HistorySnoc(t, e);
    HistorySnoc(t + [e], Cleared);
    assert (t + [e])[..|t|] == t;
    assert (t + [e] + [Cleared])[..|t| + 1] == t + [e];
  }

  /** Between two sizes of nested sets there are sets of every size. */
  lemma {:induction false} SizedBetween(inner: set<nat>, outer: set<nat>, size: nat) returns (s: set<nat>)
    requires inner <= outer && |inner| <= size <= |outer|
    ensures inner <= s <= outer && |s| == size
    decreases |outer|
  {
    if |outer| == size {
      s := outer;
    } else {
      assert inner != outer;
      var x :| x in outer && x !in inner;
      s := SizedBetween(inner, outer - {x}, size);
    }
  }

  /** One more transfer than the limit, all in the span, fits if one of them is forgotten before the last. */
  lemma ChosenHaveRoom(times: seq<real>, window: real, limit: int, k: nat, i: nat, chosen: set<nat>)
    requires i < k < |times| && i < Dropped(times[..k + 1], window) && |chosen| == limit + 1
    requires i in chosen && k in chosen && forall j :: j in chosen ==> j <= k
    ensures Room(times, chosen, window, limit)
  {
    forall j | j in chosen && j < |times|
      ensures |Between(chosen, Dropped(times[..j + 1], window), j)| < limit
    {
      if j == k {
        TwoOutside(chosen, Dropped(times[..k + 1], window), k, i);
      } else {
        TwoOutside(chosen, Dropped(times[..j + 1], window), j, k);
      }
    }
  }

  lemma Chosen(times: seq<real>, window: real, limit: int, k: nat, i: nat, lo: real, hi: real)
    returns (chosen: set<nat>)
    requires limit >= 1 && ForgetsAt(times, window, limit, k, i, lo) && hi == lo + window
    ensures Room(times, chosen, window, limit)
    ensures |chosen * InSpan(times, lo, hi)| == limit + 1
  {
    chosen := SizedBetween({i, k}, InSpan(times[..k + 1], lo, hi), limit + 1);
    assert i in {i, k} && k in {i, k};
    ChosenHaveRoom(times, window, limit, k, i, chosen);
    assert chosen * InSpan(times, lo, hi) == chosen;
  }

  lemma TwoOutside(chosen: set<nat>, from: nat, to: nat, other: nat)
    requires to in chosen && other in chosen && other != to && !(from <= other < to)
    ensures |Between(chosen, from, to)| <= |chosen| - 2
  {
    assert |chosen - {to}| == |chosen| - 1 && |chosen - {to} - {other}| == |chosen| - 2;
    SubsetSize(Between(chosen, from, to), chosen - {to} - {other});
  }

  lemma {:induction false} SubsetSize(s: set<nat>, t: set<nat>)
    requires s <= t
    ensures |s| <= |t|
  {
    if s != {} {
      var x :| x in s;
      SubsetSize(s - {x}, t - {x});
    }
  }

  /** A payment like `a`, to somebody else. */
  function Elsewhere(a: PaymentIntent): PaymentIntent {
    a.(destination := a.destination + "'")
  }

  lemma ElsewhereIsOther(p: Policy, feed: Feed, a: PaymentIntent)
    requires p.provider.Valid() && GreenAtFirst(p, feed, a)
    ensures What(Elsewhere(a)) != What(a) && Evaluated(p, INITIAL, feed, Elsewhere(a)).1.Ok? && p.limit >= 1
  {
    assert |Elsewhere(a).destination| != |a.destination|;
    GreenIff(p, INITIAL, a, Evaluated(p, INITIAL, feed, a).1.value.rlusdEquivalent);
  }

  /** Such a run, told by its timestamps and its GREEN verdicts. */
  lemma GreenScript(p: Policy, times: seq<real>, chosen: set<nat>, feed: Feed, a: PaymentIntent, lo: real, hi: real)
    returns (ops: seq<Op>)
    requires p.provider.Valid() && GreenAtFirst(p, feed, a) && Room(times, chosen, p.windowS, p.limit)
    ensures Times(History(Execute(p, ops).trace)) == times
    ensures GreensIn(Execute(p, ops).trace, What(a), lo, hi) == |chosen * InSpan(times, lo, hi)|
  {
    ElsewhereIsOther(p, feed, a);
    ops := ScriptIsGreen(p, times, chosen, feed, a, Elsewhere(a), lo, hi);
    ScriptTimes(times, chosen, a, Elsewhere(a));
  }

  lemma ScriptTimes(times: seq<real>, chosen: set<nat>, a: PaymentIntent, b: PaymentIntent)
    ensures Times(ScriptHistory(times, chosen, a, b)) == times
  {
  }

  lemma BreakingRun(p: Policy, times: seq<real>, feed: Feed, a: PaymentIntent, k: nat, i: nat, lo: real, hi: real)
    returns (ops: seq<Op>)
    requires p.provider.Valid() && GreenAtFirst(p, feed, a) && ForgetsAt(times, p.windowS, p.limit, k, i, lo)
    requires hi == lo + p.windowS
    ensures Times(History(Execute(p, ops).trace)) == times
    ensures GreensIn(Execute(p, ops).trace, What(a), lo, hi) > AtLeastZero(p.limit)
  {
    ElsewhereIsOther(p, feed, a);
    var chosen := Chosen(times, p.windowS, p.limit, k, i, lo, hi);
    ops := GreenScript(p, times, chosen, feed, a, lo, hi);
  }

  lemma BreaksBound(p: Policy, ops: seq<Op>, times: seq<real>, what: Transfer, lo: real, hi: real)
    requires p.provider.Valid() && Times(History(Execute(p, ops).trace)) == times && hi - lo <= p.windowS
    requires GreensIn(Execute(p, ops).trace, what, lo, hi) > AtLeastZero(p.limit)
    ensures !BoundHolds(p, times)
  {
  }

  // ---------------------------------------------------------------- the ordinary case

  /** What has been dropped was more than a window older than a later time. */
  lemma {:induction false} DroppedIsOld(times: seq<real>, window: real, i: nat)
    requires i < Dropped(times, window)
    ensures exists m :: i < m < |times| && times[m] - times[i] > window
  {
    var front := times[..|times| - 1];
    if i < Dropped(front, window) {
      DroppedIsOld(front, window, i);
      var m :| i < m < |front| && front[m] - front[i] > window;
      assert times[m] == front[m];
    } else {
      SkippedIsOld(times, Dropped(front, window), window, i);
    }
  }

  lemma {:induction false} SkippedIsOld(times: seq<real>, d: nat, window: real, i: nat)
    requires d < |times| && d <= i < FirstKept(times, d, window)
    ensures times[|times| - 1] - times[i] > window
    decreases |times| - d
  {
    if d < i {
      SkippedIsOld(times, d + 1, window, i);
    }
  }

  /** A clock that never runs backwards never makes the deque forget too soon. */
  lemma OrderedNeverForgets(times: seq<real>, window: real, limit: int)
    requires NonDecreasing(times)
    ensures !ForgetsTooSoon(times, window, limit)
  {
    if k: nat, i: nat, lo: real :| ForgetsAt(times, window, limit, k, i, lo) {
      DroppedIsOld(times[..k + 1], window, i);
      var m :| i < m < k + 1 && times[..k + 1][m] - times[..k + 1][i] > window;
      assert times[m] <= times[k];
    }
  }
}
