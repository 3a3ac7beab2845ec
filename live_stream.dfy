/**
 * Live-status dispatcher (lane_api.py, `APIClient.get_live_status`).
 *
 * The server-sent-event stream of one lane group is given as the finite
 * sequence of its events, each with its data already decoded from JSON.
 * Events of other types are passed over; each `SignalizedLaneGroupState`
 * event first consults the optional shared budget and then hands element 0
 * of its decoded data to the callback. The callback calls are recorded, in
 * order, as the sequence of batches they received. The callback itself is
 * given by the batches it raises on: an exception from it ends the loop.
 */
module LiveStream {

  import opened Wrappers
  import opened Strings

  /** One `[laneId, signalState, timeLeft, timestamp]` tuple of a decoded payload. */
  datatype LaneEvent = LaneEvent(laneId: string, signalState: string, timeLeft: int, timestamp: string)

  /** The lane events of one stream event: element 0 of its decoded data. */
  type Batch = seq<LaneEvent>

  /** The only event type the dispatcher forwards. */
  const SignalStateEvent: string := "SignalizedLaneGroupState"

  /** One server-sent event: its `event` field and its `data` after `json.loads`. */
  datatype SseEvent = SseEvent(eventType: string, payload: seq<Batch>)

  /**
   * The intersection ("box") id used in the stream URL: the lane group id up
   * to its first `_`, or the whole id when it has none.
   */
  function BoxId(laneGroupId: string): (r: string)
    ensures r <= laneGroupId
    ensures '_' !in r
    ensures |r| < |laneGroupId| ==> laneGroupId[|r|] == '_'
  {
    BeforeFirst(laneGroupId, '_')
  }

  /**
   * The one-element list `counter` that a caller shares with the running
   * loop: the loop decrements it, the caller may overwrite it at any time.
   */
  class Budget {
    var remaining: nat

    constructor (n: nat)
      ensures remaining == n
    {
      remaining := n;
    }
  }

  /** The value of an optional budget cell; `None` when no counter was passed. */
  function BudgetOf(counter: Budget?): Option<nat>
    reads counter
  {
    if counter == null then None else Some(counter.remaining)
  }

  /** What one turn of the event loop does. */
  datatype StepResult =
    | Skipped            // another event type: budget untouched, no callback
    | Returned           // a matching event met a budget of 0: the loop returns
    | Delivered(batch: Batch)  // budget decremented (if any), callback called with the batch and returned
    | Raised(batch: Batch)     // budget decremented (if any), callback called with the batch and raised
    | MissingPayload     // budget decremented, then `[0]` of an empty list raised IndexError

  datatype StepOutcome = StepOutcome(result: StepResult, budget: Option<nat>)

  /**
   * One turn of the loop for event `e` with budget cell `budget`, where the
   * callback raises on exactly the batches in `raising`. Only events of
   * the forwarded type count; such an event first meets the budget (returning
   * at 0, else taking one) and then the callback gets element 0 of its data.
   */
  function Step(e: SseEvent, budget: Option<nat>, raising: iset<Batch>): StepOutcome
  {
    if e.eventType != SignalStateEvent then StepOutcome(Skipped, budget)
    else if budget == Some(0) then StepOutcome(Returned, budget)
    else
      var after := if budget.Some? then Some(budget.value - 1) else None;
      if |e.payload| == 0 then StepOutcome(MissingPayload, after)
      else if e.payload[0] in raising then StepOutcome(Raised(e.payload[0]), after)
      else StepOutcome(Delivered(e.payload[0]), after)
  }

  /**
   * What a turn does, case by case: other event types are skipped, a
   * forwarded event meets a budget of 0 by returning, an empty data array
   * raises IndexError, and otherwise the callback gets element 0 and raises
   * or not; the budget, if any, loses one exactly when the callback is
   * reached or the data was empty.
   */
  lemma StepSpec(e: SseEvent, budget: Option<nat>, raising: iset<Batch>)
    ensures var r := Step(e, budget, raising);
            && (r.result.Skipped? <==> e.eventType != SignalStateEvent)
            && (r.result.Returned? <==> e.eventType == SignalStateEvent && budget == Some(0))
            && (r.result.MissingPayload? <==> e.eventType == SignalStateEvent && budget != Some(0) && |e.payload| == 0)
            && (r.result.Delivered? || r.result.Raised? ==>
                  |e.payload| > 0 && r.result.batch == e.payload[0] && (r.result.Raised? <==> e.payload[0] in raising))
            && (r.budget.Some? <==> budget.Some?)
            && (budget.Some? ==> r.budget.value == budget.value - (if r.result.Skipped? || r.result.Returned? then 0 else 1))
  {
  }

  /** Why the loop ended. */
  datatype RunEnd = StreamEnded | BudgetExhausted | PayloadMissing | CallbackFailed

  /** The batches handed to the callback, in order, the final budget and why the loop ended. */
  datatype RunResult = RunResult(delivered: seq<Batch>, budget: Option<nat>, end: RunEnd)

  /**
   * The whole loop over a finite stream: at most one callback call per
   * event, and a budget cell is there at the end iff it was at the start.
   */
  function Run(events: seq<SseEvent>, budget: Option<nat>, raising: iset<Batch>): (r: RunResult)
    ensures |r.delivered| <= |events|
    ensures r.budget.Some? <==> budget.Some?
    decreases |events|
  {
    if events == [] then RunResult([], budget, StreamEnded)
    else
      var s := Step(events[0], budget, raising);
      match s.result
      case Skipped => Run(events[1..], s.budget, raising)
      case Returned => RunResult([], s.budget, BudgetExhausted)
      case MissingPayload => RunResult([], s.budget, PayloadMissing)
      case Raised(b) => RunResult([b], s.budget, CallbackFailed)
      case Delivered(b) => After([b], Run(events[1..], s.budget, raising))
  }

  /**
   * The callback raised at most once, on its last call, and the loop ended
   * because of that exactly when it did.
   */
  lemma {:induction false} RunCallbackFailure(events: seq<SseEvent>, budget: Option<nat>, raising: iset<Batch>)
    ensures var r := Run(events, budget, raising);
            r.end == CallbackFailed <==> r.delivered != [] && r.delivered[|r.delivered| - 1] in raising
    ensures var r := Run(events, budget, raising);
            forall i :: 0 <= i < |r.delivered| - 1 ==> r.delivered[i] !in raising
    decreases |events|
  {
    if events != [] {
      var s := Step(events[0], budget, raising);
      if s.result.Skipped? || s.result.Delivered? {
        RunCallbackFailure(events[1..], s.budget, raising);
      }
      if s.result.Delivered? {
        var rest := Run(events[1..], s.budget, raising);
        var d := [s.result.batch] + rest.delivered;
        assert Run(events, budget, raising).delivered == d;
        assert forall i :: 1 <= i < |d| ==> d[i] == rest.delivered[i - 1];
      }
    }
  }

  /** `r` preceded by callback calls with `prefix`. */
  function After(prefix: seq<Batch>, r: RunResult): RunResult
  {
    r.(delivered := prefix + r.delivered)
  }

  /** The events of the forwarded type, in stream order. */
  function Matching(events: seq<SseEvent>): (r: seq<SseEvent>)
    ensures |r| <= |events|
    ensures forall e :: e in r <==> e in events && e.eventType == SignalStateEvent
    decreases |events|
  {
    if events == [] then []
    else (if events[0].eventType == SignalStateEvent then [events[0]] else []) + Matching(events[1..])
  }

  /** Every forwarded event carries a non-empty decoded array. */
  predicate PayloadsPresent(events: seq<SseEvent>)
  {
    forall e :: e in events && e.eventType == SignalStateEvent ==> |e.payload| > 0
  }

  /** Element 0 of each event's decoded data. */
  function FirstElements(events: seq<SseEvent>): (r: seq<Batch>)
    requires forall e :: e in events ==> |e.payload| > 0
    ensures |r| == |events|
    ensures forall i :: 0 <= i < |events| ==> r[i] == events[i].payload[0]
    decreases |events|
  {
    if events == [] then []
    else
      var rest := FirstElements(events[1..]);
      assert forall i :: 1 <= i < |events| ==> events[1..][i - 1] == events[i];
      [events[0].payload[0]] + rest
  }

  /** The index of the first batch the callback raises on, or `|bs|` when it raises on none. */
  function FirstRaising(bs: seq<Batch>, raising: iset<Batch>): (r: nat)
    ensures r <= |bs|
    ensures forall i :: 0 <= i < r ==> bs[i] !in raising
    ensures r < |bs| ==> bs[r] in raising
    decreases |bs|
  {
    if bs == [] || bs[0] in raising then 0
    else
      var r := FirstRaising(bs[1..], raising);
      assert forall i :: 1 <= i <= r ==> bs[1..][i - 1] == bs[i];
      1 + r
  }

  /**
   * Events of other types neither reach the callback nor touch the budget:
   * the loop over the stream behaves as the loop over its matching events.
   */
  lemma {:induction false} RunIgnoresOtherEvents(events: seq<SseEvent>, budget: Option<nat>, raising: iset<Batch>)
    ensures Run(events, budget, raising) == Run(Matching(events), budget, raising)
    decreases |events|
  {
    if events != [] {
      RunIgnoresOtherEvents(events[1..], Step(events[0], budget, raising).budget, raising);
      var m := Matching(events);
      if events[0].eventType == SignalStateEvent {
        assert m[0] == events[0] && m[1..] == Matching(events[1..]);
      } else {
        assert m == Matching(events[1..]);
      }
    }
  }

  /**
   * Budget accounting: the budget never grows, and what it lost is exactly
   * one per callback call, plus one for an event whose data was empty; the
   * loop returns on the budget only when it is 0.
   */
  lemma {:induction false} RunConsumesBudget(events: seq<SseEvent>, n: nat, raising: iset<Batch>)
    ensures Run(events, Some(n), raising).budget.Some?
    ensures Run(events, Some(n), raising).budget.value <= n
    ensures n - Run(events, Some(n), raising).budget.value
            == |Run(events, Some(n), raising).delivered| + (if Run(events, Some(n), raising).end == PayloadMissing then 1 else 0)
    ensures Run(events, Some(n), raising).end == BudgetExhausted ==> Run(events, Some(n), raising).budget == Some(0)
    decreases |events|
  {
    if events != [] {
      var s := Step(events[0], Some(n), raising);
      if s.result.Skipped? || s.result.Delivered? {
        RunConsumesBudget(events[1..], s.budget.value, raising);
      }
    }
  }

  /** All events are of the forwarded type and carry a non-empty decoded array. */
  predicate AllForwardable(events: seq<SseEvent>)
  {
    forall e :: e in events ==> e.eventType == SignalStateEvent && |e.payload| > 0
  }

  /** The shorter of two lengths. */
  function Min(a: nat, b: nat): nat
  {
    if a < b then a else b
  }

  /**
   * The run over forwarded events whose element-0 batches are `bs`, with a
   * budget of `n`: the callback gets the batches in order until it raises,
   * the budget is used up or the stream ends, whichever comes first.
   */
  function BudgetedOutcome(bs: seq<Batch>, n: nat, raising: iset<Batch>): RunResult
  {
    var k, f := Min(n, |bs|), FirstRaising(bs, raising);
    if f < k then RunResult(bs[..f + 1], Some(n - f - 1), CallbackFailed)
    else RunResult(bs[..k], Some(n - k), if |bs| > n then BudgetExhausted else StreamEnded)
  }

  /** The same without a budget: the batches in order until the callback raises or the stream ends. */
  function UnbudgetedOutcome(bs: seq<Batch>, raising: iset<Batch>): RunResult
  {
    var f := FirstRaising(bs, raising);
    if f < |bs| then RunResult(bs[..f + 1], None, CallbackFailed) else RunResult(bs, None, StreamEnded)
  }

  /** After the first batch is accepted, the budgeted outcome is that of the rest with one less. */
  lemma BudgetedOutcomeCons(bs: seq<Batch>, n: nat, raising: iset<Batch>)
    requires bs != [] && n > 0 && bs[0] !in raising
    ensures BudgetedOutcome(bs, n, raising) == After([bs[0]], BudgetedOutcome(bs[1..], n - 1, raising))
  {
    var rest := bs[1..];
    var f, k := FirstRaising(rest, raising), Min(n - 1, |rest|);
    assert FirstRaising(bs, raising) == f + 1;
    assert bs == [bs[0]] + rest;
    if f < k {
      assert bs[..f + 2] == [bs[0]] + rest[..f + 1];
    } else {
      assert bs[..k + 1] == [bs[0]] + rest[..k];
    }
  }

  /** After the first batch is accepted, the unbudgeted outcome is that of the rest. */
  lemma UnbudgetedOutcomeCons(bs: seq<Batch>, raising: iset<Batch>)
    requires bs != [] && bs[0] !in raising
    ensures UnbudgetedOutcome(bs, raising) == After([bs[0]], UnbudgetedOutcome(bs[1..], raising))
  {
    var rest := bs[1..];
    var f := FirstRaising(rest, raising);
    assert FirstRaising(bs, raising) == f + 1;
    assert bs == [bs[0]] + rest;
    if f < |rest| {
      assert bs[..f + 2] == [bs[0]] + rest[..f + 1];
    }
  }

  /**
   * With a callback that accepts every batch, the budgeted run hands it the
   * first min(n, |bs|) batches and returns on the budget iff there were more
   * than `n`.
   */
  lemma BudgetedOutcomeAccepted(bs: seq<Batch>, n: nat, raising: iset<Batch>)
    requires forall b :: b in bs ==> b !in raising
    ensures var k := Min(n, |bs|);
            BudgetedOutcome(bs, n, raising) == RunResult(bs[..k], Some(n - k), if |bs| > n then BudgetExhausted else StreamEnded)
  {
  }

  /** With a callback that accepts every batch, the unbudgeted run hands it all of them. */
  lemma UnbudgetedOutcomeAccepted(bs: seq<Batch>, raising: iset<Batch>)
    requires forall b :: b in bs ==> b !in raising
    ensures UnbudgetedOutcome(bs, raising) == RunResult(bs, None, StreamEnded)
  {
  }

  /** One turn of the loop over a forwardable event with a positive budget. */
  lemma RunForwardableCons(events: seq<SseEvent>, budget: Option<nat>, raising: iset<Batch>)
    requires events != [] && events[0].eventType == SignalStateEvent && |events[0].payload| > 0
    requires budget != Some(0)
    ensures var b, after := events[0].payload[0], if budget.Some? then Some(budget.value - 1) else None;
            Run(events, budget, raising)
            == if b in raising then RunResult([b], after, CallbackFailed) else After([b], Run(events[1..], after, raising))
  {
  }

  /** A first batch the callback raises on ends the budgeted run with that one call. */
  lemma BudgetedOutcomeRaise(bs: seq<Batch>, n: nat, raising: iset<Batch>)
    requires bs != [] && n > 0 && bs[0] in raising
    ensures BudgetedOutcome(bs, n, raising) == RunResult([bs[0]], Some(n - 1), CallbackFailed)
  {
    assert bs[..1] == [bs[0]];
  }

  /** A first batch the callback raises on ends the unbudgeted run with that one call. */
  lemma UnbudgetedOutcomeRaise(bs: seq<Batch>, raising: iset<Batch>)
    requires bs != [] && bs[0] in raising
    ensures UnbudgetedOutcome(bs, raising) == RunResult([bs[0]], None, CallbackFailed)
  {
    assert bs[..1] == [bs[0]];
  }

  /**
   * The inductive step of `RunForwardableWithBudget`, over the outcome of
   * the whole run and of the run from the second event on.
   */
  lemma BudgetedOutcomeStep(bs: seq<Batch>, n: nat, raising: iset<Batch>, whole: RunResult, rest: RunResult)
    requires bs != [] && n > 0
    requires whole == if bs[0] in raising then RunResult([bs[0]], Some(n - 1), CallbackFailed) else After([bs[0]], rest)
    requires rest == BudgetedOutcome(bs[1..], n - 1, raising)
    ensures whole == BudgetedOutcome(bs, n, raising)
  {
    if bs[0] in raising {
      BudgetedOutcomeRaise(bs, n, raising);
    } else {
      BudgetedOutcomeCons(bs, n, raising);
    }
  }

  /** The loop over forwardable events with budget `n` has the budgeted outcome of their batches. */
  lemma {:induction false} RunForwardableWithBudget(events: seq<SseEvent>, n: nat, raising: iset<Batch>)
    requires AllForwardable(events)
    ensures Run(events, Some(n), raising) == BudgetedOutcome(FirstElements(events), n, raising)
    decreases |events|
  {
    if events != [] && n > 0 {
      var rest := events[1..];
      assert AllForwardable(rest) by {
        forall x | x in rest ensures x in events { }
      }
      RunForwardableWithBudget(rest, n - 1, raising);
      RunForwardableCons(events, Some(n), raising);
      var bs := FirstElements(events);
      assert bs[0] == events[0].payload[0] && bs[1..] == FirstElements(rest);
      BudgetedOutcomeStep(bs, n, raising, Run(events, Some(n), raising), Run(rest, Some(n - 1), raising));
    } else {
      assert FirstElements(events)[..0] == [];
    }
  }

  /** The inductive step of `RunForwardableWithoutBudget`, as `BudgetedOutcomeStep`. */
  lemma UnbudgetedOutcomeStep(bs: seq<Batch>, raising: iset<Batch>, whole: RunResult, rest: RunResult)
    requires bs != []
    requires whole == if bs[0] in raising then RunResult([bs[0]], None, CallbackFailed) else After([bs[0]], rest)
    requires rest == UnbudgetedOutcome(bs[1..], raising)
    ensures whole == UnbudgetedOutcome(bs, raising)
  {
    if bs[0] in raising {
      UnbudgetedOutcomeRaise(bs, raising);
    } else {
      UnbudgetedOutcomeCons(bs, raising);
    }
  }

  /** The loop over forwardable events without a budget has the unbudgeted outcome of their batches. */
  lemma {:induction false} RunForwardableWithoutBudget(events: seq<SseEvent>, raising: iset<Batch>)
    requires AllForwardable(events)
    ensures Run(events, None, raising) == UnbudgetedOutcome(FirstElements(events), raising)
    decreases |events|
  {
    if events != [] {
      var rest := events[1..];
      assert AllForwardable(rest) by {
        forall x | x in rest ensures x in events { }
      }
      RunForwardableWithoutBudget(rest, raising);
      RunForwardableCons(events, None, raising);
      var bs := FirstElements(events);
      assert bs[0] == events[0].payload[0] && bs[1..] == FirstElements(rest);
      UnbudgetedOutcomeStep(bs, raising, Run(events, None, raising), Run(rest, None, raising));
    }
  }

  /**
   * With a budget of `n` and nobody resetting it, the callback runs on
   * element 0 of the matching events in order. With a callback that accepts
   * them all it runs min(n, number of matching events) times; the loop
   * returns on the next matching event after the budget reaches 0, and
   * otherwise runs until the stream ends. A raising call ends the loop
   * first when it comes earlier.
   */
  lemma RunWithBudget(events: seq<SseEvent>, n: nat, raising: iset<Batch>)
    requires PayloadsPresent(events)
    ensures Run(events, Some(n), raising) == BudgetedOutcome(FirstElements(Matching(events)), n, raising)
  {
    RunIgnoresOtherEvents(events, Some(n), raising);
    RunForwardableWithBudget(Matching(events), n, raising);
  }

  /**
   * Without a budget element 0 of every matching event is forwarded, in
   * order, until the stream ends or the callback raises.
   */
  lemma RunWithoutBudget(events: seq<SseEvent>, raising: iset<Batch>)
    requires PayloadsPresent(events)
    ensures Run(events, None, raising) == UnbudgetedOutcome(FirstElements(Matching(events)), raising)
  {
    RunIgnoresOtherEvents(events, None, raising);
    RunForwardableWithoutBudget(Matching(events), raising);
  }

  /**
   * A stream of `k` copies of one forwardable event with a budget of `n`:
   * a callback that accepts the batch receives it min(n, k) times, and the
   * loop returns on the budget exactly when there were more than `n`
   * events; a callback that raises on it is called once, if at all.
   */
  lemma {:induction false} RunRepeated(e: SseEvent, n: nat, k: nat, raising: iset<Batch>)
    requires e.eventType == SignalStateEvent && |e.payload| > 0
    ensures var m := Min(n, k);
            Run(seq(k, _ => e), Some(n), raising)
            == if m > 0 && e.payload[0] in raising then RunResult([e.payload[0]], Some(n - 1), CallbackFailed)
               else RunResult(seq(m, _ => e.payload[0]), Some(n - m), if k > n then BudgetExhausted else StreamEnded)
    decreases k
  {
    if k > 0 && n > 0 && e.payload[0] !in raising {
      RunRepeated(e, n - 1, k - 1, raising);
      assert seq(k, _ => e)[1..] == seq(k - 1, _ => e);
      var m := Min(n - 1, k - 1);
      assert [e.payload[0]] + seq(m, _ => e.payload[0]) == seq(m + 1, _ => e.payload[0]);
    }
  }

  /**
   * `get_live_status` over the given stream, with `counter` the optional
   * shared budget cell (`null` for "no counter") and `raising` the batches
   * the callback raises on. Returns the batches the callback received, in
   * order, and why the loop ended.
   */
  method GetLiveStatus(events: seq<SseEvent>, counter: Budget?, raising: iset<Batch>) returns (delivered: seq<Batch>, end: RunEnd)
    modifies counter
    ensures RunResult(delivered, BudgetOf(counter), end) == Run(events, old(BudgetOf(counter)), raising)
  {
    ghost var start := BudgetOf(counter);
    delivered := [];
    var i := 0;
    while i < |events|
      invariant 0 <= i <= |events|
      invariant Run(events, start, raising) == After(delivered, Run(events[i..], BudgetOf(counter), raising))
    {
      var e := events[i];
      ghost var before := BudgetOf(counter);
      assert events[i..][1..] == events[i + 1..];
      if e.eventType != SignalStateEvent {
        assert Run(events[i..], before, raising) == Run(events[i + 1..], before, raising);
        i := i + 1;
        continue;
      }
      if counter != null {
        if counter.remaining == 0 {
          assert Run(events[i..], before, raising) == RunResult([], before, BudgetExhausted);
          end := BudgetExhausted;
          return;
        }
        counter.remaining := counter.remaining - 1;
      }
      ghost var after := BudgetOf(counter);
      assert after == if before.Some? then Some(before.value - 1) else None;
      if |e.payload| == 0 {
        assert Run(events[i..], before, raising) == RunResult([], after, PayloadMissing);
        end := PayloadMissing;
        return;
      }
      RunForwardableCons(events[i..], before, raising);
      delivered := delivered + [e.payload[0]];
      if e.payload[0] in raising {
        end := CallbackFailed;
        return;
      }
      i := i + 1;
    }
    end := StreamEnded;
  }
}
