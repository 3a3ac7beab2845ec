/**
 * The web server's module state (server.py): the lease table
 * `lane_group_status` (lane group id -> shared budget cell) and the cache
 * `lane_group_data` (lane group id -> last batch), with the request handler,
 * the callback the workers write through, and one turn of a worker's loop.
 *
 * Threads are not modelled: the ghost map `workers` records, per lane group,
 * how often a worker was started and whether its loop still runs, and
 * requests and worker turns interleave as atomic steps.
 */
module Server {

  import opened Wrappers
  import opened LiveStream

  /** The budget a request grants the worker of its lane group. */
  const RequestBudget: nat := 5

  /** The batches `update_cb` raises on: none, it stores the batch and returns. */
  const UpdateCbRaising: iset<Batch> := iset{}

  /** The ghost record of a lane group's worker thread: how often it was started, and whether its loop still runs. */
  datatype Worker = Worker(starts: nat, running: bool)

  class LeaseTable {
    var leases: map<string, Budget>
    var data: map<string, Batch>
    ghost var workers: map<string, Worker>

    /**
     * Every lane group owns its own budget cell, exactly the leased groups
     * have a worker and each was started once, and only leased groups are
     * cached. "Started once" relies on requests being atomic steps: under a
     * threaded server two first requests for one group can both find it
     * unleased and each start a worker, which this model does not capture.
     */
    ghost predicate Valid()
      reads this
    {
      && (forall a, b :: a in leases && b in leases && a != b ==> leases[a] != leases[b])
      && workers.Keys == leases.Keys
      && (forall id :: id in workers ==> workers[id].starts == 1)
      && data.Keys <= leases.Keys
    }

    /** The value of every lease's budget cell. */
    ghost function Counters(): map<string, nat>
      reads this, leases.Values
    {
      map id | id in leases :: leases[id].remaining
    }

    /** The empty tables at import time. */
    constructor ()
      ensures Valid()
      ensures leases == map[] && data == map[] && workers == map[]
    {
      leases := map[];
      data := map[];
      workers := map[];
    }

    /**
     * `start_update_task(lane_group_id)`: a known group has its budget cell
     * set to 5 and starts nothing, even when its worker has stopped; a new
     * group gets a fresh cell holding 5 and one worker. No other lease and
     * no cache entry changes.
     */
    method StartUpdateTask(id: string) returns (spawned: bool)
      requires Valid()
      modifies this, leases.Values
      ensures Valid()
      ensures spawned <==> id !in old(leases)
      ensures id in leases
      ensures !spawned ==> leases == old(leases)
      ensures spawned ==> leases == old(leases)[id := leases[id]] && fresh(leases[id])
      ensures Counters() == old(Counters())[id := RequestBudget]
      ensures data == old(data)
      ensures workers == if spawned then old(workers)[id := Worker(1, true)] else old(workers)
    {
      if id in leases {
        ResetLease(id);
        spawned := false;
      } else {
        GrantLease(id);
        spawned := true;
      }
    }

    /** `lane_group_status[lane_group_id] = [5]` and the start of its worker thread. */
    method GrantLease(id: string)
      requires Valid() && id !in leases
      modifies this
      ensures Valid()
      ensures id in leases && leases == old(leases)[id := leases[id]] && fresh(leases[id])
      ensures Counters() == old(Counters())[id := RequestBudget]
      ensures data == old(data)
      ensures workers == old(workers)[id := Worker(1, true)]
    {
      var cell := new Budget(RequestBudget);
      leases := leases[id := cell];
      workers := workers[id := Worker(1, true)];
      assert Counters() == old(Counters())[id := RequestBudget];
    }

    /** `lane_group_status[lane_group_id][0] = 5`: only that group's cell changes. */
    method ResetLease(id: string)
      requires Valid() && id in leases
      modifies leases[id]
      ensures Valid()
      ensures leases == old(leases) && data == old(data) && workers == old(workers)
      ensures Counters() == old(Counters())[id := RequestBudget]
    {
      var cell := leases[id];
      cell.remaining := RequestBudget;
      forall k | k in leases && k != id
        ensures leases[k].remaining == old(leases[k].remaining)
      {
        assert leases[k] != cell;
      }
    }

    /**
     * `update_cb(lane_group_id, event_data)`: overwrites the cache entry of
     * the group and nothing else. The table stays valid exactly when the
     * group holds a lease, as every worker's group does.
     */
    method UpdateCb(id: string, batch: Batch)
      requires Valid()
      modifies this
      ensures data == old(data)[id := batch]
      ensures leases == old(leases) && workers == old(workers) && Counters() == old(Counters())
      ensures Valid() <==> id in leases
    {
      data := data[id := batch];
    }

    /**
     * `hello_world(lane_group_id)`: (re)arms the group's worker as
     * `StartUpdateTask` does, then answers with the cached batch, or `[]`
     * when the group has none.
     */
    method Request(id: string) returns (response: Batch)
      requires Valid()
      modifies this, leases.Values
      ensures Valid()
      ensures response == if id in old(data) then old(data)[id] else []
      ensures id in leases && (id in old(leases) ==> leases == old(leases))
      ensures id !in old(leases) ==> leases == old(leases)[id := leases[id]] && fresh(leases[id])
      ensures Counters() == old(Counters())[id := RequestBudget]
      ensures data == old(data)
      ensures workers == if id in old(leases) then old(workers) else old(workers)[id := Worker(1, true)]
    {
      var _ := StartUpdateTask(id);
      if id in data {
        response := data[id];
      } else {
        response := [];
      }
    }

    /**
     * One turn of the `get_live_status` loop run by the worker of `id` on
     * stream event `e`, with the group's lease cell as its budget and
     * `UpdateCb` as its callback, which never raises. The turn does what
     * `LiveStream.Step` says; when the loop returns or raises, the worker stops.
     */
    method WorkerStep(id: string, e: SseEvent) returns (result: StepResult)
      requires Valid() && id in workers && workers[id].running
      modifies this, leases[id]
      ensures Valid()
      ensures leases == old(leases)
      ensures Step(e, old(BudgetOf(leases[id])), UpdateCbRaising) == StepOutcome(result, BudgetOf(leases[id]))
      ensures Counters() == old(Counters())[id := leases[id].remaining]
      ensures data == if result.Delivered? then old(data)[id := result.batch] else old(data)
      ensures !result.Raised?
      ensures workers == if result.Returned? || result.MissingPayload?
                         then old(workers)[id := Worker(1, false)] else old(workers)
    {
      assert old(Counters())[id := leases[id].remaining] == old(Counters());
      if e.eventType != SignalStateEvent {
        return Skipped;
      }
      if leases[id].remaining == 0 {
        StopWorker(id);
        return Returned;
      }
      ConsumeBudget(id);
      if |e.payload| == 0 {
        StopWorker(id);
        return MissingPayload;
      }
      result := Delivered(e.payload[0]);
      UpdateCb(id, e.payload[0]);
    }

    /** `counter[0] -= 1` on the group's cell: only that cell changes. */
    method ConsumeBudget(id: string)
      requires Valid() && id in leases && leases[id].remaining > 0
      modifies leases[id]
      ensures Valid()
      ensures leases == old(leases) && data == old(data) && workers == old(workers)
      ensures leases[id].remaining == old(leases[id].remaining) - 1
      ensures Counters() == old(Counters())[id := leases[id].remaining]
    {
      var cell := leases[id];
      cell.remaining := cell.remaining - 1;
      forall k | k in leases && k != id
        ensures leases[k].remaining == old(leases[k].remaining)
      {
        assert leases[k] != cell;
      }
    }

    /**
     * The worker of `id` leaves its loop (its stream ended, the budget was
     * 0, or the payload was empty); its lease stays.
     */
    ghost method StopWorker(id: string)
      requires Valid() && id in workers
      modifies this
      ensures Valid()
      ensures workers == old(workers)[id := Worker(1, false)]
      ensures leases == old(leases) && data == old(data) && Counters() == old(Counters())
    {
      workers := workers[id := Worker(1, false)];
    }


  }

  /**
   * A request for any lane group whose worker has stopped: the group's cell
   * is set back to 5 and no worker is started (`workers` is unchanged, so
   * the group stays leased with nobody to consume its budget); the answer is
   * whatever the cache holds.
   */
  method RequestStoppedGroup(table: LeaseTable, id: string) returns (counter: nat, response: Batch)
    requires table.Valid() && id in table.workers && !table.workers[id].running
    modifies table, table.leases.Values
    ensures counter == RequestBudget
    ensures response == if id in old(table.data) then old(table.data)[id] else []
    ensures table.Valid() && table.leases == old(table.leases) && table.leases[id].remaining == RequestBudget
    ensures table.Counters() == old(table.Counters())[id := RequestBudget]
    ensures table.workers == old(table.workers)
    ensures table.data == old(table.data)
  {
    response := table.Request(id);
    assert table.Counters()[id] == table.leases[id].remaining;
    counter := table.leases[id].remaining;
  }

  /**
   * Leases are never removed: once a group's worker has stopped (here: its
   * stream delivered an event with an empty data array), a later request
   * for the group only resets the cell to 5. No second worker is started,
   * so nothing will consume the new budget, and the request is answered from
   * the cache, which the dead worker never filled.
   */
  method RequestAfterWorkerDied(id: string)
    returns (stopped: StepResult, counter: nat, response: Batch, table: LeaseTable)
    ensures stopped == MissingPayload
    ensures counter == RequestBudget
    ensures response == []
    ensures table.Valid() && table.leases.Keys == {id} && table.leases[id].remaining == RequestBudget
    ensures table.workers == map[id := Worker(1, false)]
    ensures table.data == map[]
  {
    table := new LeaseTable();
    var first := table.StartUpdateTask(id);
    stopped := table.WorkerStep(id, SseEvent(SignalStateEvent, []));
    counter, response := RequestStoppedGroup(table, id);
  }

  /**
   * The same after the budget ran out: the worker delivers five batches,
   * returns on the sixth event and stops, and a later request starts
   * nothing and sets the cell back to 5, a budget no worker will consume.
   */
  method RequestAfterExhaustion(id: string, batch: Batch)
    returns (last: StepResult, counter: nat, response: Batch, table: LeaseTable)
    ensures last == Returned
    ensures counter == RequestBudget
    ensures response == batch
    ensures table.Valid() && table.leases.Keys == {id} && table.leases[id].remaining == RequestBudget
    ensures table.workers == map[id := Worker(1, false)]
    ensures table.data == map[id := batch]
  {
    table := new LeaseTable();
    var first := table.StartUpdateTask(id);
    last := ExhaustBudget(table, id, batch);
    counter, response := RequestStoppedGroup(table, id);
  }

  /**
   * The running worker of any group whose cell holds 5, on a stream
   * repeating one event with data `[batch]`: five turns deliver the batch,
   * the sixth meets a budget of 0, returns and stops the worker. Other
   * groups' cells, workers and cache entries are untouched.
   */
  method ExhaustBudget(table: LeaseTable, id: string, batch: Batch) returns (last: StepResult)
    requires table.Valid() && id in table.workers && table.workers[id].running
    requires table.leases[id].remaining == RequestBudget
    modifies table, table.leases[id]
    ensures last == Returned
    ensures table.Valid() && table.leases == old(table.leases) && table.leases[id].remaining == 0
    ensures table.Counters() == old(table.Counters())[id := 0]
    ensures table.workers == old(table.workers)[id := Worker(1, false)]
    ensures table.data == old(table.data)[id := batch]
  {
    var e := SseEvent(SignalStateEvent, [batch]);
    DeliverBudget(table, id, e);
    assert Step(e, Some(0), UpdateCbRaising) == StepOutcome(Returned, Some(0));
    last := table.WorkerStep(id, e);
  }

  /**
   * Five turns of a running worker whose cell holds 5, on an event with a
   * non-empty data array: each delivers element 0 and takes one from the
   * budget, leaving it at 0 with the worker still running.
   */
  method DeliverBudget(table: LeaseTable, id: string, e: SseEvent)
    requires e.eventType == SignalStateEvent && |e.payload| > 0
    requires table.Valid() && id in table.workers && table.workers[id].running
    requires table.leases[id].remaining == RequestBudget
    modifies table, table.leases[id]
    ensures table.Valid() && table.leases == old(table.leases) && table.leases[id].remaining == 0
    ensures table.Counters() == old(table.Counters())[id := 0]
    ensures table.workers == old(table.workers)
    ensures table.data == old(table.data)[id := e.payload[0]]
  {
    var cell := table.leases[id];
    ghost var counters, cache := table.Counters(), table.data;
    while cell.remaining > 0
      invariant table.Valid() && table.leases == old(table.leases) && table.leases[id] == cell
      invariant table.workers == old(table.workers)
      invariant table.Counters() == counters[id := cell.remaining]
      invariant table.data == if cell.remaining == RequestBudget then cache else cache[id := e.payload[0]]
      modifies table, cell
    {
      ghost var before := cell.remaining;
      DeliverTurn(table, id, e);
      UpdateTwice(counters, id, before, cell.remaining);
      UpdateTwice(cache, id, e.payload[0], e.payload[0]);
    }
  }

  /** A second update of the same key overrides the first. */
  lemma UpdateTwice<K, V>(m: map<K, V>, k: K, a: V, b: V)
    ensures m[k := a][k := b] == m[k := b]
  {
  }

  /** One turn of a running worker with budget left, on an event with a non-empty data array: it delivers element 0. */
  method DeliverTurn(table: LeaseTable, id: string, e: SseEvent)
    requires e.eventType == SignalStateEvent && |e.payload| > 0
    requires table.Valid() && id in table.workers && table.workers[id].running
    requires table.leases[id].remaining > 0
    modifies table, table.leases[id]
    ensures table.Valid() && table.leases == old(table.leases)
    ensures table.leases[id].remaining == old(table.leases[id].remaining) - 1
    ensures table.Counters() == old(table.Counters())[id := table.leases[id].remaining]
    ensures table.workers == old(table.workers)
    ensures table.data == old(table.data)[id := e.payload[0]]
  {
    var n := table.leases[id].remaining;
    assert Step(e, Some(n), UpdateCbRaising) == StepOutcome(Delivered(e.payload[0]), Some(n - 1));
    var r := table.WorkerStep(id, e);
  }
}
