/**
 The system as deployed: the wallet-skill signer and the x402 payer in front of one risk engine, called
 in any interleaving with human resets. What the engine guarantees per verdict holds here per signature.
 */
module FrontDoors {
  import opened Wrappers
  import opened Intents
  import opened SlidingWindow
  import opened RiskEngine
  import EngineRuns
  import ExternalSigner
  import X402

  datatype System = System(signer: ExternalSigner.Setup, payer: X402.Setup, policy: Policy) {
    predicate Valid() {
      signer.Valid() && payer.Valid() && policy.provider.Valid()
    }
  }

  datatype Op =
    | Sign(tx: ExternalSigner.Transaction, world: ExternalSigner.World)
    | Pay(quote: X402.Requirements, net: X402.World, invoice: Option<string>)
    | Reset(reason: string)

  /** What a step shows: the verdict given, if any, and the intent a signature was produced for, if any. */
  datatype Event = Event(level: Option<RiskLevel>, signed: Option<PaymentIntent>, isReset: bool)

  datatype Run = Run(engine: State, memory: X402.Memory, trace: seq<Event>)

  /** What an operation asks of the engine, if anything. */
  function EngineOp(sys: System, op: Op): Option<EngineRuns.Op>
    requires sys.Valid()
  {
    match op
    case Sign(tx, w) => ExternalSigner.EvaluationOf(sys.signer, tx, w)
    case Pay(q, w, given) => X402.EvaluationOf(sys.payer, q, w, given)
    case Reset(reason) => Some(EngineRuns.Reset(reason))
  }

  function LevelOn(sys: System, s: State, op: Op): Option<RiskLevel>
    requires sys.Valid()
  {
    var eop := EngineOp(sys, op);
    if eop.None? then None
    else
      match EngineRuns.Step(sys.policy, s, eop.value).1
      case Judged(v) => Some(v.level)
      case _ => None
  }

  function Step(sys: System, s: State, m: X402.Memory, op: Op): (State, X402.Memory, Event)
    requires sys.Valid()
  {
    match op
    case Reset(_) => (WasReset(s), m, Event(None, None, true))
    case Sign(tx, w) =>
      var step := ExternalSigner.SignStep(sys.signer, sys.policy, s, tx, w);
      var intent := ExternalSigner.IntentOf(sys.signer, tx, w);
      var signed := if step.outcome.Ok? && intent.Ok? then Some(intent.value) else None;
      (step.engine, m, Event(LevelOn(sys, s, op), signed, false))
    case Pay(q, w, given) =>
      var step := X402.PayStep(sys.payer, sys.policy, s, m, q, w, given);
      var intent := X402.IntentOf(q, w);
      var signed := if step.outcome.Ok? && intent.Ok? then Some(intent.value) else None;
      (step.engine, step.memory, Event(LevelOn(sys, s, op), signed, false))
  }

  function Execute(sys: System, ops: seq<Op>): (r: Run)
    requires sys.Valid()
    ensures |r.trace| == |ops|
  {
    if ops == [] then Run(INITIAL, X402.Memory(None, None, None), [])
    else
      var before := Execute(sys, ops[..|ops| - 1]);
      var (s, m, e) := Step(sys, before.engine, before.memory, ops[|ops| - 1]);
      Run(s, m, before.trace + [e])
  }

  function EngineOps(sys: System, ops: seq<Op>): seq<EngineRuns.Op>
    requires sys.Valid()
  {
    if ops == [] then []
    else
      var last := EngineOp(sys, ops[|ops| - 1]);
      EngineOps(sys, ops[..|ops| - 1]) + if last.Some? then [last.value] else []
  }

  /** How many signatures were produced for `what` by intents stamped in the closed interval from `lo` to `hi`. */
  function SignaturesIn(t: seq<Event>, what: Transfer, lo: real, hi: real): nat {
    if t == [] then 0
    else
      var e := t[|t| - 1];
      SignaturesIn(t[..|t| - 1], what, lo, hi)
      + if e.signed.Some? && MovesIn(e.signed.value, what, lo, hi) then 1 else 0
  }

  /**
   One step, seen from the engine: its operation or nothing; a signature comes only with a GREEN verdict
   on its intent.
   */
  lemma StepOnEngine(sys: System, s: State, m: X402.Memory, op: Op)
    requires sys.Valid()
    ensures var (s', _, e) := Step(sys, s, m, op);
            var eop := EngineOp(sys, op);
            s' == (if eop.Some? then EngineRuns.Step(sys.policy, s, eop.value).0 else s)
            && e.level == LevelOn(sys, s, op)
            && (e.signed.Some? ==>
                  eop.Some? && eop.value.Evaluate? && eop.value.intent == e.signed.value && e.level == Some(GREEN))
  {
    match op
    case Sign(tx, w) => ExternalSigner.EngineSees(sys.signer, sys.policy, s, tx, w);
    case Pay(q, w, given) => X402.EngineSees(sys.payer, sys.policy, s, m, q, w, given);
    case Reset(_) =>
  }

  lemma LastStep(sys: System, ops: seq<Op>) returns (before: Run, e: Event)
    requires sys.Valid() && ops != []
    ensures before == Execute(sys, ops[..|ops| - 1])
    ensures Execute(sys, ops).trace == before.trace + [e] && (before.trace + [e])[..|ops| - 1] == before.trace
    ensures (Execute(sys, ops).engine, Execute(sys, ops).memory, e)
         == Step(sys, before.engine, before.memory, ops[|ops| - 1])
  {
    before := Execute(sys, ops[..|ops| - 1]);
    e := Step(sys, before.engine, before.memory, ops[|ops| - 1]).2;
  }

  /** The engine in the system goes through exactly a run of its own. */
  lemma {:induction false} EngineRunsInside(sys: System, ops: seq<Op>)
    requires sys.Valid()
    ensures Execute(sys, ops).engine == Inner(sys, ops).state
  {
    if ops != [] {
      EngineRunsInside(sys, ops[..|ops| - 1]);
      var before, e := LastStep(sys, ops);
      StepOnEngine(sys, before.engine, before.memory, ops[|ops| - 1]);
      InnerStep(sys, ops);
    }
  }

  /** The engine's own run inside the system's. */
  function Inner(sys: System, ops: seq<Op>): EngineRuns.Run
    requires sys.Valid()
  {
    EngineRuns.Execute(sys.policy, EngineOps(sys, ops))
  }

  lemma InnerStep(sys: System, ops: seq<Op>)
    requires sys.Valid() && ops != []
    ensures var before := Inner(sys, ops[..|ops| - 1]);
            var eop := EngineOp(sys, ops[|ops| - 1]);
            Inner(sys, ops) ==
            if eop.None? then before
            else
              var (s, e) := EngineRuns.Step(sys.policy, before.state, eop.value);
              EngineRuns.Run(s, before.trace + [e])
  {
    var inner := EngineOps(sys, ops[..|ops| - 1]);
    var eop := EngineOp(sys, ops[|ops| - 1]);
    if eop.Some? {
      assert (inner + [eop.value])[..|inner|] == inner;
    } else {
      assert EngineOps(sys, ops) == inner;
    }
  }

  lemma {:induction false} SignaturesAreGreen(sys: System, ops: seq<Op>, what: Transfer, lo: real, hi: real)
    requires sys.Valid()
    ensures SignaturesIn(Execute(sys, ops).trace, what, lo, hi)
         <= EngineRuns.GreensIn(Inner(sys, ops).trace, what, lo, hi)
  {
    if ops != [] {
      var front := ops[..|ops| - 1];
      SignaturesAreGreen(sys, front, what, lo, hi);
      var before, e := LastStep(sys, ops);
      StepOnEngine(sys, before.engine, before.memory, ops[|ops| - 1]);
      EngineRunsInside(sys, front);
      InnerStep(sys, ops);
      var eop := EngineOp(sys, ops[|ops| - 1]);
      if eop.Some? {
        GreensSnoc(Inner(sys, front).trace, EngineRuns.Step(sys.policy, before.engine, eop.value).1, what, lo, hi);
      }
    }
  }

  lemma GreensSnoc(t: seq<EngineRuns.Event>, e: EngineRuns.Event, what: Transfer, lo: real, hi: real)
    ensures EngineRuns.GreensIn(t + [e], what, lo, hi)
         == EngineRuns.GreensIn(t, what, lo, hi) + if EngineRuns.GreenFor(e, what, lo, hi) then 1 else 0
  {
    assert (t + [e])[..|t|] == t;
  }

  // ---------------------------------------------------------------- the clock

  function TimeOf(op: Op): Option<real> {
    match op
    case Sign(_, w) => Some(w.timestamp)
    case Pay(_, w, _) => Some(w.timestamp)
    case Reset(_) => None
  }

  /** The clock never runs backwards from call to call. */
  predicate ClockForward(ops: seq<Op>) {
    forall i, j :: 0 <= i <= j < |ops| && TimeOf(ops[i]).Some? && TimeOf(ops[j]).Some? ==>
                     TimeOf(ops[i]).value <= TimeOf(ops[j]).value
  }

  lemma EngineOpTime(sys: System, op: Op)
    requires sys.Valid()
    ensures var eop := EngineOp(sys, op);
            eop.Some? && eop.value.Evaluate? ==> TimeOf(op) == Some(eop.value.intent.timestamp)
  {
  }

  function HistoryOf(sys: System, ops: seq<Op>): seq<Stamped<Transfer>>
    requires sys.Valid()
  {
    EngineRuns.History(Inner(sys, ops).trace)
  }

  /** Every entry of the history is stamped with the time of some call so far. */
  ghost predicate StampedByCalls(h: seq<Stamped<Transfer>>, ops: seq<Op>) {
    forall i :: 0 <= i < |h| ==> exists j :: 0 <= j < |ops| && TimeOf(ops[j]) == Some(h[i].time)
  }

  lemma {:induction false} HistoryInOrder(sys: System, ops: seq<Op>)
    requires sys.Valid() && ClockForward(ops)
    ensures InOrder(HistoryOf(sys, ops)) && StampedByCalls(HistoryOf(sys, ops), ops)
  {
    if ops != [] {
      var front, op := ops[..|ops| - 1], ops[|ops| - 1];
      ClockFront(front, op, ops);
      HistoryInOrder(sys, front);
      var more := HistoryStep(sys, ops);
      AppendInOrder(HistoryOf(sys, front), more, front, op);
    }
  }

  lemma ClockFront(front: seq<Op>, op: Op, ops: seq<Op>)
    requires ClockForward(ops) && ops != [] && front == ops[..|ops| - 1] && op == ops[|ops| - 1]
    ensures ClockForward(front) && ops == front + [op]
  {
    assert forall i :: 0 <= i < |front| ==> front[i] == ops[i];
  }

  lemma HistoryStep(sys: System, ops: seq<Op>) returns (more: seq<Stamped<Transfer>>)
    requires sys.Valid() && ops != []
    ensures HistoryOf(sys, ops) == HistoryOf(sys, ops[..|ops| - 1]) + more
    ensures |more| <= 1 && (|more| == 1 ==> TimeOf(ops[|ops| - 1]) == Some(more[0].time))
  {
    var before := Inner(sys, ops[..|ops| - 1]);
    var eop := EngineOp(sys, ops[|ops| - 1]);
    InnerStep(sys, ops);
    more := [];
    if eop.Some? {
      EngineOpTime(sys, ops[|ops| - 1]);
      var e := EngineRuns.Step(sys.policy, before.state, eop.value).1;
      EngineRuns.HistorySnoc(before.trace, e);
      more := EngineRuns.Recorded(e);
    }
  }

  lemma AppendInOrder(h: seq<Stamped<Transfer>>, more: seq<Stamped<Transfer>>, front: seq<Op>, op: Op)
    requires InOrder(h) && StampedByCalls(h, front) && ClockForward(front + [op])
    requires |more| <= 1 && (|more| == 1 ==> TimeOf(op) == Some(more[0].time))
    ensures InOrder(h + more) && StampedByCalls(h + more, front + [op])
  {
    var ops := front + [op];
    forall i | 0 <= i < |h| ensures exists j :: 0 <= j < |front| && TimeOf(ops[j]) == Some(h[i].time) {
      var j :| 0 <= j < |front| && TimeOf(front[j]) == Some(h[i].time);
      assert ops[j] == front[j];
    }
    assert ops[|front|] == op;
  }

  // ---------------------------------------------------------------- the guarantees

  /**
   While the clock never runs backwards, no closed interval as long as the window holds more than
   `limit` signatures on one transfer, over both front doors together and across resets.
   */
  lemma SignaturesBounded(sys: System, ops: seq<Op>, what: Transfer, lo: real, hi: real)
    requires sys.Valid() && ClockForward(ops) && hi - lo <= sys.policy.windowS
    ensures SignaturesIn(Execute(sys, ops).trace, what, lo, hi) <= EngineRuns.AtLeastZero(sys.policy.limit)
  {
    HistoryInOrder(sys, ops);
    SignaturesAreGreen(sys, ops, what, lo, hi);
    EngineRuns.GreensBounded(sys.policy, EngineOps(sys, ops), what, lo, hi);
  }

  lemma {:induction false} StaysFrozen(sys: System, ops: seq<Op>, i: nat)
    requires sys.Valid() && i < |ops|
    requires Execute(sys, ops).trace[i].level == Some(RED)
    requires forall k :: i < k < |ops| ==> !Execute(sys, ops).trace[k].isReset
    ensures Execute(sys, ops).engine.tripped
    decreases |ops|
  {
    var before, e := LastStep(sys, ops);
    var t := Execute(sys, ops).trace;
    StepOnEngine(sys, before.engine, before.memory, ops[|ops| - 1]);
    if i < |ops| - 1 {
      assert forall k :: 0 <= k < |before.trace| ==> before.trace[k] == t[k];
      StaysFrozen(sys, ops[..|ops| - 1], i);
      assert !t[|ops| - 1].isReset;
    }
  }

  /** Once a verdict through either door was RED, neither door signs again until a reset lies between. */
  lemma {:induction false} NoSignatureWhileFrozen(sys: System, ops: seq<Op>, i: nat, j: nat)
    requires sys.Valid() && i < j < |ops|
    requires Execute(sys, ops).trace[i].level == Some(RED) && Execute(sys, ops).trace[j].signed.Some?
    ensures exists k :: i < k < j && Execute(sys, ops).trace[k].isReset
    decreases |ops|
  {
    var before, e := LastStep(sys, ops);
    var t := Execute(sys, ops).trace;
    assert forall k :: 0 <= k < |before.trace| ==> before.trace[k] == t[k];
    if j < |ops| - 1 {
      NoSignatureWhileFrozen(sys, ops[..|ops| - 1], i, j);
      var k :| i < k < j && before.trace[k].isReset;
      assert t[k].isReset;
    } else if forall k :: i < k < j ==> !before.trace[k].isReset {
      StaysFrozen(sys, ops[..|ops| - 1], i);
      StepOnEngine(sys, before.engine, before.memory, ops[|ops| - 1]);
      assert false;
    }
  }

  // ---------------------------------------------------------------- the last payment

  /** Number `k` was a payment that the payer signed. */
  predicate Paid(ops: seq<Op>, t: seq<Event>, k: int) {
    0 <= k < |ops| == |t| && ops[k].Pay? && t[k].signed.Some?
  }

  /** The payer remembers the blob that paid number `k`, and its hash. */
  predicate Remembers(m: X402.Memory, op: Op, e: Event)
    requires op.Pay? && e.signed.Some?
  {
    m.lastBlob.Some? && m.lastHash == Some(op.net.hashOf(m.lastBlob.value))
    && m.lastBlob.value.payment.destination == e.signed.value.destination
    && X402.Pays(op.quote, op.net, e.signed.value, m.lastBlob.value.payment)
  }

  /** A signed payment is remembered; anything else leaves what was. */
  predicate Remembering(m: X402.Memory, m': X402.Memory, op: Op, e: Event) {
    if op.Pay? && e.signed.Some? then Remembers(m', op, e)
    else m'.lastBlob == m.lastBlob && m'.lastHash == m.lastHash
  }

  lemma StepOnMemory(sys: System, s: State, m: X402.Memory, op: Op) returns (s': State, m': X402.Memory, e: Event)
    requires sys.Valid()
    ensures (s', m', e) == Step(sys, s, m, op) && Remembering(m, m', op, e)
  {
    var next := Step(sys, s, m, op);
    s', m', e := next.0, next.1, next.2;
    if op.Pay? {
      X402.OnlySuccessReplacesBlob(sys.payer, sys.policy, s, m, op.quote, op.net, op.invoice);
      if X402.PayStep(sys.payer, sys.policy, s, m, op.quote, op.net, op.invoice).outcome.Ok? {
        X402.AuditedIsSigned(sys.payer, sys.policy, s, m, op.quote, op.net, op.invoice);
      }
    }
  }

  /** What is remembered is the last payment signed, and nothing exactly if none was. */
  ghost predicate LastRemembered(ops: seq<Op>, t: seq<Event>, m: X402.Memory)
    requires |ops| == |t|
  {
    (m.lastBlob.Some? <==> exists k :: Paid(ops, t, k))
    && forall k :: Paid(ops, t, k) && (forall j :: k < j < |ops| ==> !Paid(ops, t, j)) ==> Remembers(m, ops[k], t[k])
  }

  /**
   Through failures, the other door and resets: the blob and hash the payer remembers are those of the
   last payment it signed, and pay the intent that was judged; it remembers none exactly if it signed none.
   */
  lemma {:induction false} RemembersLastPayment(sys: System, ops: seq<Op>)
    requires sys.Valid()
    ensures LastRemembered(ops, Execute(sys, ops).trace, Execute(sys, ops).memory)
  {
    if ops != [] {
      var front, op := SplitLast(ops);
      var before, r, e := LastOnMemory(sys, front, op, ops);
      RemembersLastPayment(sys, front);
      LastPaymentStep(front, before.trace, before.memory, ops, r.trace, r.memory, op, e);
    }
  }

  lemma SplitLast(ops: seq<Op>) returns (front: seq<Op>, op: Op)
    requires ops != []
    ensures ops == front + [op] && front == ops[..|ops| - 1] && op == ops[|ops| - 1]
  {
    front, op := ops[..|ops| - 1], ops[|ops| - 1];
  }

  lemma LastOnMemory(sys: System, front: seq<Op>, op: Op, ops: seq<Op>) returns (before: Run, r: Run, e: Event)
    requires sys.Valid() && ops != [] && front == ops[..|ops| - 1] && op == ops[|ops| - 1]
    ensures before == Execute(sys, front) && r == Execute(sys, ops)
    ensures r.trace == before.trace + [e] && Remembering(before.memory, r.memory, op, e)
  {
    before := Execute(sys, front);
    var s, m;
    s, m, e := StepOnMemory(sys, before.engine, before.memory, op);
    r := Run(s, m, before.trace + [e]);
  }

  lemma SamePayments(ops: seq<Op>, t: seq<Event>, op: Op, e: Event)
    requires |ops| == |t|
    ensures forall k :: k < |ops| ==> (Paid(ops + [op], t + [e], k) <==> Paid(ops, t, k))
    ensures Paid(ops + [op], t + [e], |ops|) <==> op.Pay? && e.signed.Some?
  {
  }

  lemma LastPaymentStep(ops: seq<Op>, t: seq<Event>, m: X402.Memory, all: seq<Op>, tt: seq<Event>, m': X402.Memory,
                        op: Op, e: Event)
    requires all == ops + [op] && tt == t + [e] && |ops| == |t|
    requires LastRemembered(ops, t, m) && Remembering(m, m', op, e)
    ensures LastRemembered(all, tt, m')
  {
    SamePayments(ops, t, op, e);
    if k :| Paid(ops, t, k) {
      assert Paid(all, tt, k);
    }
    if op.Pay? && e.signed.Some? {
      assert Paid(all, tt, |ops|);
    } else {
      forall k | Paid(all, tt, k) && (forall j :: k < j < |all| ==> !Paid(all, tt, j))
        ensures Remembers(m', all[k], tt[k])
      {
        assert Paid(ops, t, k);
        forall j | k < j < |ops| ensures !Paid(ops, t, j) {
          assert !Paid(all, tt, j);
        }
      }
    }
  }
}
