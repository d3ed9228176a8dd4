/**
 * The critical sections of a suite operation as the daemon runs them on its shared state.
 * Each method is one of them and is exactly one event of `SuiteOperations.Step`, so whatever
 * holds of every run of events holds of every interleaving of these methods.
 */
module SuiteDesks {
  import opened SuiteOperations

  class SuiteDesk {
    var holder: Holder
    var operations: seq<Operation>
    var table: set<OperationId>
    ghost var found: set<OperationId>
    ghost var asked: set<OperationId>
    ghost var retrieved: set<OperationId>

    constructor ()
      ensures View() == IDLE
    {
      holder, operations, table, found, asked, retrieved := Free, [], {}, {}, {}, {};
    }

    ghost function View(): Desk
      reads this
    {
      Desk(holder, operations, table, found, asked, retrieved)
    }

    /** What every reachable state satisfies. */
    ghost predicate Valid()
      reads this
    {
      Sound(View())
    }

    /** `try_acquire_owned` at the head of a start. */
    method Acquire() returns (admitted: bool)
      requires Valid()
      modifies this
      ensures Valid() && View() == Step(old(View()), StartAcquire).0
      ensures admitted <==> Step(old(View()), StartAcquire).1 == Admitted
    {
      ClientKeepsSound(View(), StartAcquire);
      admitted := holder == Free;
      if admitted { holder := Starting; }
    }

    method AnyStillRunning() returns (any: bool)
      requires Valid()
      ensures any <==> AnyRunning(View())
    {
      any := false;
      var rest := table;
      while rest != {} && !any
        invariant rest <= table
        invariant any ==> AnyRunning(View())
        invariant forall id :: id in table && id !in rest ==> any || !RunningIn(operations, id)
        decreases rest
      {
        var id :| id in rest;
        any := operations[id].status == Running;
        rest := rest - {id};
      }
    }

    /** The section under the table lock: refuse, giving the permit back, or insert. */
    method Insert() returns (reply: Reply)
      requires Valid() && holder == Starting
      modifies this
      ensures Valid() && View() == Step(old(View()), StartCommit).0
      ensures reply == Step(old(View()), StartCommit).1
    {
      CommitKeepsSound(View());
      var busy := AnyStillRunning();
      if busy {
        holder, reply := Free, AlreadyRunning;
      } else if |table| >= RETAINED {
        holder, reply := Free, TooManyRetained;
      } else {
        var id := |operations|;
        operations := operations + [Operation(Running, false, Working, 0)];
        table := table + {id};
        holder, reply := Suite(id), Accepted(id);
      }
    }

    /** `update_suite_progress` up to the flag check, which takes no lock. */
    method CheckFlag(id: OperationId) returns (aborted: bool)
      requires Valid() && id < |operations| && operations[id].worker == Working
      modifies this
      ensures Valid() && View() == Step(old(View()), ReadFlag(id)).0
      ensures aborted <==> Step(old(View()), ReadFlag(id)).1 == Aborted
    {
      WorkerKeepsSound(View(), ReadFlag(id));
      aborted := operations[id].cancel;
      operations := operations[id := operations[id].(worker := if aborted then Aborting else Recording)];
    }

    /** The rest of it, under the operation's lock; the flag may have been set since. */
    method RecordProgress(id: OperationId)
      requires Valid() && id < |operations| && operations[id].worker == Recording
      modifies this
      ensures Valid() && View() == Step(old(View()), Record(id)).0
    {
      WorkerKeepsSound(View(), Record(id));
      var o := operations[id];
      operations := operations[id := o.(worker := Working, progress := o.progress + 1)];
    }

    /** The worker's last section: publish the outcome. An evaluation that met the cancel
        flag can only have ended with the cancellation error. */
    method Settle(id: OperationId, ok: bool)
      requires Valid() && id < |operations| && operations[id].worker in {Working, Aborting}
      modifies this
      ensures Valid() && View() == Step(old(View()), Finish(id, ok)).0
    {
      WorkerKeepsSound(View(), Finish(id, ok));
      var o := operations[id];
      var status := if o.worker == Aborting then Cancelled else if ok then Completed else Failed;
      operations := operations[id := o.(status := status, worker := Settled)];
    }

    method DropPermit(id: OperationId)
      requires Valid() && id < |operations| && operations[id].worker == Settled
      modifies this
      ensures Valid() && View() == Step(old(View()), PermitDrop(id)).0
    {
      WorkerKeepsSound(View(), PermitDrop(id));
      assert Holding(operations, id) <==> holder == Suite(id);
      operations := operations[id := operations[id].(worker := Gone)];
      holder := Free;
    }

    /** The lookup under the table lock with which a cancel and a status call begin. */
    method Lookup(id: OperationId) returns (known: bool)
      requires Valid()
      modifies this
      ensures Valid() && View() == Step(old(View()), Find(id)).0
      ensures known <==> Step(old(View()), Find(id)).1 != Unknown
      ensures known ==> id in found
    {
      ClientKeepsSound(View(), Find(id));
      known := id in table;
      if known { found := found + {id}; }
    }

    /** The section of `cancel_suite_operation` under the state lock; the flag is stored
        afterwards. The operation may have left the table since the lookup. */
    method ReadForCancel(id: OperationId) returns (reply: Reply)
      requires Valid() && id in found
      modifies this
      ensures Valid() && View() == Step(old(View()), CancelRead(id)).0
      ensures reply == Step(old(View()), CancelRead(id)).1
    {
      ClientKeepsSound(View(), CancelRead(id));
      reply := Shown(operations[id].status);
      if operations[id].status == Running { asked := asked + {id}; }
    }

    /** One wake-up of the watchdog, up to deciding that the operation has stalled. */
    method Watch(id: OperationId, stalled: bool) returns (raises: bool)
      requires Valid() && id < |operations|
      modifies this
      ensures Valid() && View() == Step(old(View()), WatchdogRead(id, stalled)).0
      ensures raises ==> id in asked
    {
      ClientKeepsSound(View(), WatchdogRead(id, stalled));
      raises := operations[id].status == Running && stalled;
      if raises { asked := asked + {id}; }
    }

    method StoreCancel(id: OperationId)
      requires Valid() && id in asked && id < |operations|
      modifies this
      ensures Valid() && View() == Step(old(View()), CancelStore(id)).0
    {
      ClientKeepsSound(View(), CancelStore(id));
      operations := operations[id := operations[id].(cancel := true)];
    }

    /** The section of `suite_operation_status` under the state lock. */
    method ReadStatus(id: OperationId, result: bool) returns (reply: Reply)
      requires Valid() && id in found
      modifies this
      ensures Valid() && View() == Step(old(View()), StatusRead(id, result)).0
      ensures reply == Step(old(View()), StatusRead(id, result)).1
    {
      ClientKeepsSound(View(), StatusRead(id, result));
      reply := Shown(operations[id].status);
      if result && operations[id].status != Running { retrieved := retrieved + {id}; }
    }

    method Forget(id: OperationId)
      requires Valid() && id in retrieved
      modifies this
      ensures Valid() && View() == Step(old(View()), Remove(id)).0
    {
      ClientKeepsSound(View(), Remove(id));
      table := table - {id};
    }
  }
}
