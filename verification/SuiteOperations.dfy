/**
 * Regression-suite operations: one permit shared with all other image work, one table of
 * retained operations, and workers, cancel requests, watchdogs and status readers that
 * interleave freely. One event is one atomic access or one critical section of the source,
 * so a start and a progress point span two events each, a cancel call three and a status call
 * up to three, between which anything else may happen.
 */
module SuiteOperations {
  type OperationId = nat

  datatype Status = Running | Completed | Cancelled | Failed

  /** Recording has read a clear cancel flag at a progress point and not yet written the
      progress; Aborting has read a set one; Settled has published its status and still
      holds the permit; Panicked unwound without publishing one. */
  datatype Worker = Working | Recording | Aborting | Settled | Gone | Panicked

  datatype Operation = Operation(status: Status, cancel: bool, worker: Worker, progress: nat)

  datatype Holder = Free | ImageWork | Starting | Suite(id: OperationId)

  /** `operations` are all ever created, by identifier; `table` are those still retained.
      `found` have been looked up by someone who then reads their state,
      `asked` have been seen running by someone who then sets the cancel flag, `retrieved`
      have been read in a terminal state by someone who then drops them from the table. */
  datatype Desk = Desk(
    holder: Holder,
    operations: seq<Operation>,
    table: set<OperationId>,
    found: set<OperationId>,
    asked: set<OperationId>,
    retrieved: set<OperationId>)

  datatype Event =
    | ImageAcquire
    | ImageRelease
    | StartAcquire
    | StartCommit
    | ReadFlag(id: OperationId)
    | Record(id: OperationId)
    | Finish(id: OperationId, ok: bool)
    | Panic(id: OperationId)
    | PermitDrop(id: OperationId)
    | Find(id: OperationId)
    | CancelRead(id: OperationId)
    | WatchdogRead(id: OperationId, stalled: bool)
    | CancelStore(id: OperationId)
    | StatusRead(id: OperationId, result: bool)
    | Remove(id: OperationId)

  datatype Reply = Nothing | Busy | Admitted | Accepted(started: OperationId)
                 | AlreadyRunning | TooManyRetained | Aborted | Unknown | Shown(status: Status)

  const RETAINED: nat := 4

  const IDLE: Desk := Desk(Free, [], {}, {}, {}, {})

  predicate RunningIn(operations: seq<Operation>, id: OperationId) {
    id < |operations| && operations[id].status == Running
  }

  /** The worker still owns the permit. */
  predicate Holding(operations: seq<Operation>, id: OperationId) {
    id < |operations| && operations[id].worker != Gone && operations[id].worker != Panicked
  }

  predicate AnyRunning(d: Desk) {
    exists id :: id in d.table && RunningIn(d.operations, id)
  }

  function WithOperation(d: Desk, id: OperationId, o: Operation): Desk
    requires id < |d.operations|
  {
    d.(operations := d.operations[id := o])
  }

  function Commit(d: Desk): (Desk, Reply) {
    if d.holder != Starting then (d, Nothing)
    else if AnyRunning(d) then (d.(holder := Free), AlreadyRunning)
    else if |d.table| >= RETAINED then (d.(holder := Free), TooManyRetained)
    else
      var id := |d.operations|;
      (d.(holder := Suite(id),
          operations := d.operations + [Operation(Running, false, Working, 0)],
          table := d.table + {id}),
       Accepted(id))
  }

  /** What the worker of one operation does to its own record. */
  function Work(o: Operation, e: Event): Operation {
    match e
    case ReadFlag(_) => if o.worker == Working then o.(worker := if o.cancel then Aborting else Recording) else o
    case Record(_) => if o.worker == Recording then o.(worker := Working, progress := o.progress + 1) else o
    case Finish(_, ok) =>
      if o.worker == Aborting then o.(status := Cancelled, worker := Settled)
      else if o.worker == Working then o.(status := if ok then Completed else Failed, worker := Settled)
      else o
    case Panic(_) =>
      if o.worker in {Working, Recording, Aborting} then o.(worker := Panicked) else o
    case PermitDrop(_) => if o.worker == Settled then o.(worker := Gone) else o
    case _ => o
  }

  predicate ByWorker(e: Event) {
    e.ReadFlag? || e.Record? || e.Finish? || e.Panic? || e.PermitDrop?
  }

  /** The worker's end, in either way, gives the permit back. */
  function WorkerStep(d: Desk, e: Event): (Desk, Reply)
    requires ByWorker(e)
  {
    if e.id >= |d.operations| then (d, Nothing)
    else
      var o := Work(d.operations[e.id], e);
      var held := Holding(d.operations, e.id);
      var next := WithOperation(d, e.id, o);
      (if held && (o.worker == Gone || o.worker == Panicked) then next.(holder := Free) else next,
       if e.ReadFlag? && o.worker == Aborting then Aborted else Nothing)
  }

  function ClientStep(d: Desk, e: Event): (Desk, Reply)
    requires !ByWorker(e)
  {
    match e
    case ImageAcquire => if d.holder == Free then (d.(holder := ImageWork), Admitted) else (d, Nothing)
    case ImageRelease => if d.holder == ImageWork then (d.(holder := Free), Nothing) else (d, Nothing)
    case StartAcquire => if d.holder == Free then (d.(holder := Starting), Admitted) else (d, Busy)
    case StartCommit => Commit(d)
    case Find(id) => if id in d.table then (d.(found := d.found + {id}), Nothing) else (d, Unknown)
    case CancelRead(id) =>
      if id !in d.found || id >= |d.operations| then (d, Nothing)
      else (if RunningIn(d.operations, id) then d.(asked := d.asked + {id}) else d, Shown(d.operations[id].status))
    case WatchdogRead(id, stalled) =>
      if stalled && RunningIn(d.operations, id) then (d.(asked := d.asked + {id}), Nothing) else (d, Nothing)
    case CancelStore(id) =>
      if id in d.asked && id < |d.operations|
      then (WithOperation(d, id, d.operations[id].(cancel := true)), Nothing)
      else (d, Nothing)
    case StatusRead(id, result) =>
      if id !in d.found || id >= |d.operations| then (d, Nothing)
      else (if result && !RunningIn(d.operations, id) then d.(retrieved := d.retrieved + {id}) else d,
            Shown(d.operations[id].status))
    case Remove(id) => if id in d.retrieved then (d.(table := d.table - {id}), Nothing) else (d, Nothing)
    case _ => (d, Nothing)
  }

  function Step(d: Desk, e: Event): (Desk, Reply) {
    if ByWorker(e) then WorkerStep(d, e) else ClientStep(d, e)
  }

  function Run(events: seq<Event>): Desk {
    if events == [] then IDLE else Step(Run(events[..|events| - 1]), events[|events| - 1]).0
  }

  // ------------------------------------------------------------- the invariant

  /** One operation on its own. */
  predicate Coherent(o: Operation) {
    && (o.status == Running <==> o.worker in {Working, Recording, Aborting, Panicked})
    && (o.status == Cancelled || o.worker == Aborting ==> o.cancel)
  }

  ghost predicate OneHolder(holder: Holder, operations: seq<Operation>) {
    forall id: OperationId :: Holding(operations, id) <==> holder == Suite(id)
  }

  ghost predicate OneRunning(operations: seq<Operation>) {
    forall i, j :: RunningIn(operations, i) && RunningIn(operations, j) ==> i == j
  }

  ghost predicate Retained(d: Desk) {
    && |d.table| <= RETAINED
    && (forall id :: id in d.table ==> id < |d.operations|)
    && (forall id :: RunningIn(d.operations, id) ==> id in d.table)
    && (forall id :: id in d.found ==> id < |d.operations|)
    && (forall id :: id in d.retrieved ==> id < |d.operations| && !RunningIn(d.operations, id))
  }

  ghost predicate Sound(d: Desk) {
    && (forall id :: 0 <= id < |d.operations| ==> Coherent(d.operations[id]))
    && (forall id :: 0 <= id < |d.operations| && d.operations[id].cancel ==> id in d.asked)
    && OneHolder(d.holder, d.operations)
    && OneRunning(d.operations)
    && Retained(d)
  }

  predicate Alive(o: Operation) {
    o.worker != Gone && o.worker != Panicked
  }

  lemma {:induction false} WorkKeepsCoherent(o: Operation, e: Event)
    requires Coherent(o)
    ensures Coherent(Work(o, e)) && Work(o, e).cancel == o.cancel
    ensures Work(o, e).status == Running ==> o.status == Running
    ensures Alive(Work(o, e)) ==> Alive(o)
    ensures Grows(o, Work(o, e))
  {
  }

  lemma {:induction false} WorkerKeepsSound(d: Desk, e: Event)
    requires Sound(d) && ByWorker(e)
    ensures Sound(WorkerStep(d, e).0)
  {
    if e.id < |d.operations| {
      var o := d.operations[e.id];
      WorkKeepsCoherent(o, e);
      ReplacedKeepsSound(d, e.id, Work(o, e), WorkerStep(d, e).0.holder);
    }
  }

  /** Replacing one record by a later one, with the permit given back when its worker ends. */
  lemma {:induction false} ReplacedKeepsSound(d: Desk, id: OperationId, o: Operation, holder: Holder)
    requires Sound(d) && id < |d.operations| && Coherent(o) && o.cancel == d.operations[id].cancel
    requires o.status == Running ==> d.operations[id].status == Running
    requires Alive(o) ==> Alive(d.operations[id])
    requires holder == if Alive(d.operations[id]) && !Alive(o) then Free else d.holder
    ensures Sound(WithOperation(d, id, o).(holder := holder))
  {
    var next := WithOperation(d, id, o).(holder := holder);
    assert Holding(d.operations, id) <==> d.holder == Suite(id);
    assert RunningIn(next.operations, id) ==> RunningIn(d.operations, id);
    assert forall k :: k != id ==> (RunningIn(next.operations, k) <==> RunningIn(d.operations, k));
    assert forall k :: k != id ==> (Holding(next.operations, k) <==> Holding(d.operations, k));
  }

  /** The permit, not the check below it, is what keeps a second start out while the first
      operation's worker lives. */
  lemma {:induction false} CommitKeepsSound(d: Desk)
    requires Sound(d)
    ensures Sound(Commit(d).0)
  {
    if Commit(d).1.Accepted? {
      var grown := d.operations + [Operation(Running, false, Working, 0)];
      GrownOperations(d.operations, grown);
      forall id: OperationId ensures Holding(grown, id) <==> id == |d.operations| {
        assert Holding(d.operations, id) <==> d.holder == Suite(id);
      }
    }
  }

  lemma {:induction false} GrownOperations(operations: seq<Operation>, grown: seq<Operation>)
    requires grown == operations + [Operation(Running, false, Working, 0)]
    ensures forall id: OperationId :: RunningIn(grown, id) <==> id == |operations| || RunningIn(operations, id)
    ensures forall id: OperationId :: Holding(grown, id) <==> id == |operations| || Holding(operations, id)
  {
  }

  lemma {:induction false} ClientKeepsSound(d: Desk, e: Event)
    requires Sound(d) && !ByWorker(e)
    ensures Sound(ClientStep(d, e).0)
  {
    var next := ClientStep(d, e).0;
    if e.StartCommit? {
      CommitKeepsSound(d);
    } else {
      assert |next.operations| == |d.operations|;
      assert forall id :: 0 <= id < |d.operations| ==>
          next.operations[id].status == d.operations[id].status && next.operations[id].worker == d.operations[id].worker;
      assert forall id :: RunningIn(next.operations, id) <==> RunningIn(d.operations, id);
      assert forall id: OperationId :: Holding(next.operations, id) <==> Holding(d.operations, id);
      if e.Remove? {
        assert next.table <= d.table;
        SubsetIsSmaller(next.table, d.table);
      }
    }
  }

  lemma {:induction false} SubsetIsSmaller(a: set<OperationId>, b: set<OperationId>)
    requires a <= b
    ensures |a| <= |b|
  {
    if a == {} {
    } else {
      var x :| x in a;
      SubsetIsSmaller(a - {x}, b - {x});
    }
  }

  /** Every interleaving: at most one operation runs, at most four are retained, a running
      one is always in the table, and the permit is held by exactly the operation whose
      worker has neither finished nor panicked. */
  lemma {:induction false} EveryRunIsSound(events: seq<Event>)
    ensures Sound(Run(events))
  {
    if events == [] {
    } else {
      EveryRunIsSound(events[..|events| - 1]);
      var d, e := Run(events[..|events| - 1]), events[|events| - 1];
      if ByWorker(e) { WorkerKeepsSound(d, e); } else { ClientKeepsSound(d, e); }
    }
  }

  predicate PanickedIn(d: Desk, id: OperationId) {
    id < |d.operations| && d.operations[id].worker == Panicked
  }

  /** A running operation holds the image permit exactly as long as its worker has not
      panicked. */
  lemma {:induction false} RunningHoldsPermit(events: seq<Event>, id: OperationId)
    requires RunningIn(Run(events).operations, id)
    ensures Run(events).holder == Suite(id) <==> !PanickedIn(Run(events), id)
  {
    EveryRunIsSound(events);
    var d := Run(events);
    assert Coherent(d.operations[id]);
    assert Holding(d.operations, id) <==> d.holder == Suite(id);
  }

  /** The "already running" refusal of a start that has the permit is reached exactly when
      some earlier worker panicked; without panics it never fires. */
  lemma {:induction false} RefusalExactlyAfterPanic(events: seq<Event>)
    requires Run(events).holder == Starting
    ensures Commit(Run(events)).1 == AlreadyRunning <==> exists id :: PanickedIn(Run(events), id)
  {
    EveryRunIsSound(events);
    var d := Run(events);
    if AnyRunning(d) {
      var id :| id in d.table && RunningIn(d.operations, id);
      assert Coherent(d.operations[id]);
      assert !Holding(d.operations, id);
      assert PanickedIn(d, id);
    }
    if id: OperationId :| PanickedIn(d, id) {
      assert Coherent(d.operations[id]);
      assert RunningIn(d.operations, id);
    }
  }

  // ------------------------------------------------------------- what later states keep

  /** The progress recorded so far, with the one that a worker past its flag check will still
      record. */
  function Committed(o: Operation): nat {
    o.progress + if o.worker == Recording then 1 else 0
  }

  /** What no event can undo in one operation. */
  predicate Grows(o: Operation, p: Operation) {
    && (o.status != Running ==> p.status == o.status)
    && (o.worker == Panicked ==> p.worker == Panicked && p.status == o.status)
    && (o.cancel ==> p.cancel && Committed(p) <= Committed(o))
    && o.progress <= p.progress
  }

  ghost predicate Later(d: Desk, l: Desk) {
    && |d.operations| <= |l.operations|
    && (forall id :: 0 <= id < |d.operations| ==> Grows(d.operations[id], l.operations[id]))
    && d.found <= l.found && d.asked <= l.asked && d.retrieved <= l.retrieved
    && (forall id :: id in d.table && id !in l.table ==> id in l.retrieved)
    && (forall id :: id in l.table && id !in d.table ==> id >= |d.operations|)
  }

  lemma {:induction false} StepIsLater(d: Desk, e: Event)
    requires Sound(d)
    ensures Later(d, Step(d, e).0)
  {
    var l := Step(d, e).0;
    if ByWorker(e) && e.id < |d.operations| {
      WorkKeepsCoherent(d.operations[e.id], e);
    }
  }

  lemma {:induction false} LaterIsTransitive(a: Desk, b: Desk, c: Desk)
    requires Later(a, b) && Later(b, c)
    ensures Later(a, c)
  {
    forall id | 0 <= id < |a.operations| ensures Grows(a.operations[id], c.operations[id]) {
      assert Grows(a.operations[id], b.operations[id]) && Grows(b.operations[id], c.operations[id]);
    }
  }

  /** Over any continuation of any run: a terminal status never changes, a set cancel flag
      stays set, an operation leaves the table only after its terminal status was read with
      its result, and never comes back. */
  lemma {:induction false} ContinuationIsLater(events: seq<Event>, more: seq<Event>)
    ensures Later(Run(events), Run(events + more))
  {
    if more == [] {
      assert events + more == events;
      LaterIsReflexive(Run(events));
    } else {
      var shorter := more[..|more| - 1];
      ContinuationIsLater(events, shorter);
      var last := more[|more| - 1];
      assert events + more == events + shorter + [last];
      RunUnfolds(events + shorter, last);
      EveryRunIsSound(events + shorter);
      NextIsLater(Run(events), Run(events + shorter), last, Run(events + more));
    }
  }

  lemma {:induction false} LaterIsReflexive(d: Desk)
    ensures Later(d, d)
  {
  }

  lemma {:induction false} RunUnfolds(events: seq<Event>, e: Event)
    ensures Run(events + [e]) == Step(Run(events), e).0
  {
    assert (events + [e])[..|events|] == events;
  }

  lemma {:induction false} NextIsLater(a: Desk, b: Desk, e: Event, c: Desk)
    requires Sound(b) && Later(a, b) && c == Step(b, e).0
    ensures Later(a, c)
  {
    StepIsLater(b, e);
    LaterIsTransitive(a, b, c);
  }

  /** Whoever has looked an operation up reads its state ever after, also when another reader
      has dropped it from the table and a new lookup fails. */
  lemma {:induction false} FoundStaysReadable(events: seq<Event>, more: seq<Event>, id: OperationId, result: bool)
    requires id in Run(events).found
    ensures var d := Run(events + more);
      && id < |d.operations|
      && Step(d, StatusRead(id, result)).1 == Shown(d.operations[id].status)
      && (Step(d, Find(id)).1 == Unknown <==> id !in d.table)
  {
    ContinuationIsLater(events, more);
    EveryRunIsSound(events + more);
  }

  /** Once a cancel flag is set at most one more progress is ever recorded, and none unless
      the worker had already read the flag as clear. */
  lemma {:induction false} AtMostOneLateProgress(events: seq<Event>, more: seq<Event>, id: OperationId)
    requires FlaggedIn(Run(events), id)
    ensures FlaggedIn(Run(events + more), id)
    ensures var (o, p) := (Run(events).operations[id], Run(events + more).operations[id]);
      o.progress <= p.progress <= o.progress + if o.worker == Recording then 1 else 0
  {
    ContinuationIsLater(events, more);
    assert Grows(Run(events).operations[id], Run(events + more).operations[id]);
  }

  /** The one late progress does happen: the flag is set between its check and its write. */
  lemma {:induction false} LateProgressIsRecorded(flagged: seq<Event>)
    requires flagged == [StartAcquire, StartCommit, ReadFlag(0), Find(0), CancelRead(0), CancelStore(0)]
    ensures FlaggedIn(Run(flagged), 0) && Run(flagged).operations[0].progress == 0
    ensures Run(flagged + [Record(0)]).operations == [Operation(Running, true, Working, 1)]
  {
    var started := [StartAcquire, StartCommit];
    OneStarted(started);
    assert flagged == started + [ReadFlag(0), Find(0), CancelRead(0), CancelStore(0)];
    FlagBetween(started, flagged);
    RunUnfolds(flagged, Record(0));
  }

  lemma {:induction false} OneStarted(started: seq<Event>)
    requires started == [StartAcquire, StartCommit]
    ensures Run(started).operations == [Operation(Running, false, Working, 0)] && Run(started).table == {0}
  {
    RunOfTwo(StartAcquire, StartCommit);
    StartFromIdle();
  }

  lemma {:induction false} RunOfTwo(a: Event, b: Event)
    ensures Run([a, b]) == Step(Step(IDLE, a).0, b).0
  {
    assert [] + [a] == [a] && [a] + [b] == [a, b];
    RunUnfolds([], a);
    RunUnfolds([a], b);
  }

  lemma {:induction false} StartFromIdle()
    ensures Step(Step(IDLE, StartAcquire).0, StartCommit).0
         == Desk(Suite(0), [Operation(Running, false, Working, 0)], {0}, {}, {}, {})
  {
    var d := Step(IDLE, StartAcquire).0;
    assert d == Desk(Starting, [], {}, {}, {}, {}) && !AnyRunning(d);
  }

  lemma {:induction false} FlagBetween(started: seq<Event>, flagged: seq<Event>)
    requires Run(started).operations == [Operation(Running, false, Working, 0)] && Run(started).table == {0}
    requires flagged == started + [ReadFlag(0), Find(0), CancelRead(0), CancelStore(0)]
    ensures Run(flagged).operations == [Operation(Running, true, Recording, 0)]
  {
    RunUnfolds(started, ReadFlag(0));
    RunUnfolds(started + [ReadFlag(0)], Find(0));
    RunUnfolds(started + [ReadFlag(0)] + [Find(0)], CancelRead(0));
    RunUnfolds(started + [ReadFlag(0)] + [Find(0)] + [CancelRead(0)], CancelStore(0));
    assert flagged == started + [ReadFlag(0)] + [Find(0)] + [CancelRead(0)] + [CancelStore(0)];
  }

  /** After a worker panics no suite operation can ever start again: its entry stays running,
      stays in the table, and every later start is refused. */
  lemma {:induction false} PanicBlocksEveryStart(events: seq<Event>, more: seq<Event>, id: OperationId)
    requires PanickedIn(Run(events), id)
    ensures PanickedIn(Run(events + more), id) && id in Run(events + more).table
    ensures |Run(events + more).operations| == |Run(events).operations|
    ensures Run(events + more).holder == Starting ==> Commit(Run(events + more)).1 == AlreadyRunning
  {
    if more == [] {
      assert events + more == events;
      EveryRunIsSound(events);
      PanicBlocksStep(Run(events), ImageAcquire, id);
    } else {
      var shorter := more[..|more| - 1];
      var last := more[|more| - 1];
      assert events + more == events + shorter + [last];
      RunUnfolds(events + shorter, last);
      PanicBlocksEveryStart(events, shorter, id);
      EveryRunIsSound(events + shorter);
      EveryRunIsSound(events + more);
      PanicBlocksStep(Run(events + shorter), last, id);
      PanicBlocksStep(Run(events + more), ImageAcquire, id);
    }
  }

  lemma {:induction false} PanicBlocksStep(d: Desk, e: Event, id: OperationId)
    requires Sound(d) && PanickedIn(d, id)
    ensures id in d.table
    ensures d.holder == Starting ==> Commit(d).1 == AlreadyRunning
    ensures PanickedIn(Step(d, e).0, id) && |Step(d, e).0.operations| == |d.operations|
  {
    assert Coherent(d.operations[id]);
    assert RunningIn(d.operations, id);
  }

  // ------------------------------------------------------------- why one was cancelled

  /** Someone saw the operation running: a cancel call that had looked it up, or the watchdog
      on a stalled one. */
  ghost predicate Asks(before: Desk, e: Event, id: OperationId) {
    && RunningIn(before.operations, id)
    && ((e == CancelRead(id) && id in before.found) || e == WatchdogRead(id, true))
  }

  ghost predicate AsksLast(events: seq<Event>, id: OperationId) {
    events != [] && Asks(Run(events[..|events| - 1]), events[|events| - 1], id)
  }

  ghost predicate WasAsked(events: seq<Event>, id: OperationId) {
    exists i :: 0 <= i <= |events| && AsksLast(events[..i], id)
  }

  ghost predicate WasFlagged(events: seq<Event>, id: OperationId) {
    exists i :: 0 <= i < |events| && events[i] == CancelStore(id) && WasAsked(events[..i], id)
  }

  /** The worker read the flag at a progress point after that. */
  ghost predicate WasNoticed(events: seq<Event>, id: OperationId) {
    exists i :: 0 <= i < |events| && events[i] == ReadFlag(id) && WasFlagged(events[..i], id)
  }

  lemma {:induction false} AskedExactlyWhen(events: seq<Event>, id: OperationId)
    ensures id in Run(events).asked <==> WasAsked(events, id)
  {
    if events == [] {
    } else {
      var n := |events| - 1;
      var init, e := events[..n], events[n];
      AskedExactlyWhen(init, id);
      EveryRunIsSound(init);
      AskedAfterStep(Run(init), e, id);
      WasAskedGrows(events, id);
    }
  }

  lemma {:induction false} AskedAfterStep(d: Desk, e: Event, id: OperationId)
    requires Sound(d)
    ensures id in Step(d, e).0.asked <==> id in d.asked || Asks(d, e, id)
  {
  }

  lemma {:induction false} WasAskedGrows(events: seq<Event>, id: OperationId)
    requires events != []
    ensures WasAsked(events, id) <==> WasAsked(events[..|events| - 1], id) || AsksLast(events, id)
  {
    var init := events[..|events| - 1];
    assert events[..|events|] == events;
    if WasAsked(events, id) {
      var i :| 0 <= i <= |events| && AsksLast(events[..i], id);
      if i < |events| { assert init[..i] == events[..i]; }
    }
    if WasAsked(init, id) {
      var i :| 0 <= i <= |init| && AsksLast(init[..i], id);
      assert init[..i] == events[..i];
    }
  }

  predicate FlaggedIn(d: Desk, id: OperationId) {
    id < |d.operations| && d.operations[id].cancel
  }

  lemma {:induction false} FlagHasCause(events: seq<Event>, id: OperationId)
    requires FlaggedIn(Run(events), id)
    ensures WasFlagged(events, id)
  {
    if events != [] {
      var n := |events| - 1;
      var init, e := events[..n], events[n];
      if FlaggedIn(Run(init), id) {
        FlagHasCause(init, id);
        var i :| 0 <= i < |init| && init[i] == CancelStore(id) && WasAsked(init[..i], id);
        assert init[..i] == events[..i];
      } else {
        assert e == CancelStore(id);
        AskedExactlyWhen(init, id);
      }
    }
  }

  predicate AbortedIn(d: Desk, id: OperationId) {
    id < |d.operations| && (d.operations[id].status == Cancelled || d.operations[id].worker == Aborting)
  }

  lemma {:induction false} OnlyNoticingAborts(d: Desk, e: Event, id: OperationId)
    requires AbortedIn(Step(d, e).0, id) && !AbortedIn(d, id)
    ensures e == ReadFlag(id) && FlaggedIn(d, id)
  {
  }

  /** A cancelled operation was seen running by a cancel call or by its watchdog, which then
      set the flag, which the worker then met at a progress point; in this order. */
  lemma {:induction false} CancelledHasCause(events: seq<Event>, id: OperationId)
    requires AbortedIn(Run(events), id)
    ensures WasNoticed(events, id)
  {
    if events != [] {
      var n := |events| - 1;
      var init, e := events[..n], events[n];
      if AbortedIn(Run(init), id) {
        CancelledHasCause(init, id);
        var i :| 0 <= i < |init| && init[i] == ReadFlag(id) && WasFlagged(init[..i], id);
        assert init[..i] == events[..i];
      } else {
        OnlyNoticingAborts(Run(init), e, id);
        FlagHasCause(init, id);
      }
    }
  }

  // ------------------------------------------------------------- why one ended as it did

  predicate WorkerIs(d: Desk, id: OperationId, w: Worker) {
    id < |d.operations| && d.operations[id].worker == w
  }

  predicate StatusIs(d: Desk, id: OperationId, s: Status) {
    id < |d.operations| && d.operations[id].status == s
  }

  /** A worker in that position has published the outcome of its evaluation, `ok` or not. */
  ghost predicate Ended(events: seq<Event>, id: OperationId, w: Worker, ok: bool) {
    exists i :: 0 <= i < |events| && events[i] == Finish(id, ok) && WorkerIs(Run(events[..i]), id, w)
  }

  lemma {:induction false} EndedGrows(events: seq<Event>, id: OperationId, w: Worker, ok: bool)
    requires events != []
    ensures var n := |events| - 1;
      Ended(events, id, w, ok)
      <==> Ended(events[..n], id, w, ok) || (events[n] == Finish(id, ok) && WorkerIs(Run(events[..n]), id, w))
  {
    var n := |events| - 1;
    var init := events[..n];
    if Ended(events, id, w, ok) {
      var i :| 0 <= i < |events| && events[i] == Finish(id, ok) && WorkerIs(Run(events[..i]), id, w);
      if i < n { assert init[..i] == events[..i] && init[i] == events[i]; }
    }
    if Ended(init, id, w, ok) {
      var i :| 0 <= i < n && init[i] == Finish(id, ok) && WorkerIs(Run(init[..i]), id, w);
      assert init[..i] == events[..i] && events[i] == init[i];
    }
  }

  lemma {:induction false} WorkEnds(o: Operation, e: Event)
    requires Coherent(o)
    ensures var p := Work(o, e);
      && (p.status == Completed <==> o.status == Completed || (e.Finish? && e.ok && o.worker == Working))
      && (p.status == Failed <==> o.status == Failed || (e.Finish? && !e.ok && o.worker == Working))
      && (p.status == Cancelled <==> o.status == Cancelled || (e.Finish? && o.worker == Aborting))
  {}

  /** Other events, and those of other workers, leave a record's status. */
  lemma {:induction false} OthersKeepStatus(d: Desk, e: Event, id: OperationId, s: Status)
    requires !ByWorker(e) || e.id != id
    ensures s != Running ==> (StatusIs(Step(d, e).0, id, s) <==> StatusIs(d, id, s))
  {}

  /** One event brings a status about only by ending the worker in this way. */
  lemma {:induction false} OnlyFinishEnds(d: Desk, e: Event, id: OperationId)
    requires Sound(d)
    ensures var l := Step(d, e).0;
      && (StatusIs(l, id, Completed) <==> StatusIs(d, id, Completed) || (e == Finish(id, true) && WorkerIs(d, id, Working)))
      && (StatusIs(l, id, Failed) <==> StatusIs(d, id, Failed) || (e == Finish(id, false) && WorkerIs(d, id, Working)))
      && (StatusIs(l, id, Cancelled)
          <==> StatusIs(d, id, Cancelled) || (e.Finish? && e.id == id && WorkerIs(d, id, Aborting)))
  {
    if ByWorker(e) && e.id == id {
      if id < |d.operations| { WorkEnds(d.operations[id], e); }
    } else {
      OthersKeepStatus(d, e, id, Completed);
      OthersKeepStatus(d, e, id, Failed);
      OthersKeepStatus(d, e, id, Cancelled);
    }
  }

  /** An operation is completed if and only if its worker, not having met the cancel flag,
      published a success; failed if and only if it then published an error; and cancelled
      if and only if it published anything after it had met the flag. */
  lemma {:induction false} OutcomeHasCause(events: seq<Event>, id: OperationId)
    ensures StatusIs(Run(events), id, Completed) <==> Ended(events, id, Working, true)
    ensures StatusIs(Run(events), id, Failed) <==> Ended(events, id, Working, false)
    ensures StatusIs(Run(events), id, Cancelled) <==> Ended(events, id, Aborting, true) || Ended(events, id, Aborting, false)
  {
    if events == [] {
    } else {
      var n := |events| - 1;
      var (init, e) := (events[..n], events[n]);
      OutcomeHasCause(init, id);
      EveryRunIsSound(init);
      EndedGrows(events, id, Working, true);
      EndedGrows(events, id, Working, false);
      EndedGrows(events, id, Aborting, true);
      EndedGrows(events, id, Aborting, false);
      OnlyFinishEnds(Run(init), e, id);
    }
  }

  lemma {:induction false} FinalStatusStays(events: seq<Event>, more: seq<Event>, id: OperationId, s: Status)
    requires StatusIs(Run(events), id, s) && s != Running
    ensures StatusIs(Run(events + more), id, s)
  {
    ContinuationIsLater(events, more);
    assert Grows(Run(events).operations[id], Run(events + more).operations[id]);
  }

  lemma {:induction false} StatusIsRead(d: Desk, id: OperationId, result: bool, s: Status)
    requires StatusIs(d, id, s) && id in d.found
    ensures Step(d, StatusRead(id, result)).1 == Shown(s)
  {}

  /** And that is what a status call shows from then on, to whoever has looked it up. */
  lemma {:induction false} OutcomeIsShown(events: seq<Event>, more: seq<Event>, id: OperationId, s: Status, result: bool)
    requires id in Run(events + more).found
    requires || (s == Completed && Ended(events, id, Working, true))
             || (s == Failed && Ended(events, id, Working, false))
             || (s == Cancelled && (Ended(events, id, Aborting, true) || Ended(events, id, Aborting, false)))
    ensures Step(Run(events + more), StatusRead(id, result)).1 == Shown(s)
  {
    OutcomeHasCause(events, id);
    FinalStatusStays(events, more, id, s);
    StatusIsRead(Run(events + more), id, result, s);
  }

  // ------------------------------------------------------------- when one may start

  /** A start that has the permit succeeds exactly if no worker has panicked and fewer than
      four operations are retained; its operation then runs under the next identifier. */
  lemma {:induction false} StartsExactly(events: seq<Event>)
    requires Run(events).holder == Starting
    ensures var (d, reply) := (Run(events), Step(Run(events), StartCommit).1);
      && (reply.Accepted? <==> (forall id :: !PanickedIn(d, id)) && |d.table| < 4)
      && (reply.Accepted? ==>
            && reply.started == |d.operations|
            && StatusIs(Step(d, StartCommit).0, reply.started, Running)
            && Step(d, StartCommit).0.holder == Suite(reply.started))
      && (!reply.Accepted? ==> Step(d, StartCommit).0 == d.(holder := Free))
  {
    RefusalExactlyAfterPanic(events);
  }

  /** The permit is given out exactly when nobody holds it, and comes back with the end of
      the image work or of the worker. */
  lemma {:induction false} PermitIsExclusive(events: seq<Event>, e: Event)
    ensures var (d, l) := (Run(events), Step(Run(events), e).0);
      && ((e.ImageAcquire? || e.StartAcquire?) ==> (Step(d, e).1 == Admitted <==> d.holder == Free))
      && (d.holder != Free && l.holder != d.holder ==>
            l.holder == Free || (e.StartCommit? && d.holder == Starting && l.holder == Suite(|d.operations|)))
      && (d.holder.Suite? && l.holder == Free ==> e == PermitDrop(d.holder.id) || e == Panic(d.holder.id))
  {
    EveryRunIsSound(events);
    var d := Run(events);
    if ByWorker(e) && e.id < |d.operations| {
      assert Holding(d.operations, e.id) <==> d.holder == Suite(e.id);
    }
  }
}
