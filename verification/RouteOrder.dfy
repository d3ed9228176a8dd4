/**
 * What the route worker does in which order: jobs are handled as they were accepted, and
 * every delivery is of the job being handled.
 */
module RouteOrder {
  import opened Prelude
  import opened RouteDelivery

  /** Told from the events: jobs considered wanted and not yet sent, jobs the queue has
      accepted, and how many of those have been taken from it. */
  datatype Ledger = Ledger(outstanding: multiset<Job>, accepted: seq<Job>, taken: nat)

  /** A send is accepted if fewer than 64 accepted jobs wait; a turn takes one if any waits. */
  function Entered(b: Ledger, cache: map<ProfileId, Table>, e: Event): Ledger {
    match e
    case Consider(job) => if ShouldQueue(cache, job) then b.(outstanding := b.outstanding + multiset{job}) else b
    case Send(job) =>
      if job !in b.outstanding then b
      else Ledger(b.outstanding - multiset{job},
                  if |b.accepted| - b.taken < 64 then b.accepted + [job] else b.accepted, b.taken)
    case Work(_, _) => if b.taken < |b.accepted| then b.(taken := b.taken + 1) else b
    case _ => b
  }

  function Book(render: Renderer, events: seq<Event>): Ledger {
    if |events| == 0 then Ledger(multiset{}, [], 0)
    else
      var init := events[..|events| - 1];
      Entered(Book(render, init), Run(render, init).cache, events[|events| - 1])
  }

  /** The jobs that a log says were taken up, in order. */
  function HandledJobs(log: seq<Entry>): seq<Job> {
    if log == [] then []
    else
      var e := log[|log| - 1];
      HandledJobs(log[..|log| - 1]) + if e.Handled? || e.NotConfigured? then [e.job] else []
  }

  ghost predicate Keeps(s: Router, b: Ledger) {
    && b.taken <= |b.accepted|
    && s.pending == b.outstanding
    && HandledJobs(s.memory.log) == b.accepted[..b.taken]
    && s.queue == b.accepted[b.taken..]
  }

  lemma {:induction false} MoreHandled(log: seq<Entry>, e: Entry)
    ensures HandledJobs(log + [e]) == HandledJobs(log) + if e.Handled? || e.NotConfigured? then [e.job] else []
  {
    assert (log + [e])[..|log|] == log;
  }

  lemma {:induction false} AttemptHandlesNoJob(log: seq<Entry>, e: Entry, longer: seq<Entry>)
    requires longer == log + [e] && !e.Handled? && !e.NotConfigured?
    ensures HandledJobs(longer) == HandledJobs(log)
  {
    MoreHandled(log, e);
  }

  lemma {:induction false} RouteHandlesNoJob(render: Renderer, m: Memory, job: Job, r: Route, ok: bool)
    ensures HandledJobs(HandleRoute(render, m, job, r, ok).log) == HandledJobs(m.log)
  {
    var (key, next) := (Key(job.profile, r.id), HandleRoute(render, m, job, r, ok));
    if !r.enabled || !Accepts(r, job) {
      assert next == m;
    } else if r.trigger.OnEvent? {
      AttemptHandlesNoJob(m.log, if ok then EventDelivered(key) else DeliveryFailed(key), next.log);
    } else {
      match render(r, job.state)
      case Missing => assert next == m;
      case Broken => AttemptHandlesNoJob(m.log, NotRendered(key), next.log);
      case Payload(p) =>
        if Repeats(m, key, p) {
          assert next == m;
        } else {
          AttemptHandlesNoJob(m.log, if ok then StateDelivered(key, p) else DeliveryFailed(key), next.log);
        }
    }
  }

  lemma {:induction false} RoutesHandleNoJob(render: Renderer, m: Memory, job: Job, table: Table, ok: nat -> bool)
    ensures HandledJobs(HandleRoutes(render, m, job, table, ok).log) == HandledJobs(m.log)
  {
    if table == [] {
    } else {
      var n := |table| - 1;
      RoutesHandleNoJob(render, m, job, table[..n], ok);
      RouteHandlesNoJob(render, HandleRoutes(render, m, job, table[..n], ok), job, table[n], ok(n));
    }
  }

  lemma {:induction false} JobIsHandled(render: Renderer, m: Memory, job: Job, table: Table, ok: nat -> bool)
    ensures HandledJobs(HandleJob(render, m, job, table, ok).log) == HandledJobs(m.log) + [job]
  {
    var ids := Ids(table);
    var start := m.(previous := Retain(m.previous, job.profile, ids), log := m.log + [Handled(job, ids)]);
    MoreHandled(m.log, Handled(job, ids));
    RoutesHandleNoJob(render, start, job, table, ok);
  }

  /** A turn with jobs waiting takes up the oldest. */
  lemma {:induction false} TurnTakesOldest(render: Renderer, s: Router, config: Option<Table>, ok: nat -> bool)
    requires s.queue != []
    ensures var next := Step(render, s, Work(config, ok));
      && HandledJobs(next.memory.log) == HandledJobs(s.memory.log) + [s.queue[0]]
      && next.queue == s.queue[1..] && next.pending == s.pending
  {
    var job := s.queue[0];
    if job.profile in s.cache {
      JobIsHandled(render, s.memory, job, s.cache[job.profile], ok);
    } else if config.Some? {
      JobIsHandled(render, s.memory, job, config.value, ok);
    } else {
      MoreHandled(s.memory.log, NotConfigured(job));
    }
  }

  lemma {:induction false} TurnKeeps(s: Router, b: Ledger, next: Router)
    requires Keeps(s, b) && s.queue != []
    requires HandledJobs(next.memory.log) == HandledJobs(s.memory.log) + [s.queue[0]]
    requires next.queue == s.queue[1..] && next.pending == s.pending
    ensures b.taken < |b.accepted| && Keeps(next, b.(taken := b.taken + 1))
  {
    assert b.accepted[..b.taken + 1] == b.accepted[..b.taken] + [b.accepted[b.taken]];
  }

  lemma {:induction false} SendKeeps(render: Renderer, s: Router, b: Ledger, job: Job)
    requires Keeps(s, b)
    ensures Keeps(Step(render, s, Send(job)), Entered(b, s.cache, Send(job)))
  {
    if job in b.outstanding && |s.queue| < QUEUE_CAPACITY {
      var accepted := b.accepted + [job];
      assert accepted[..b.taken] == b.accepted[..b.taken];
      assert accepted[b.taken..] == b.accepted[b.taken..] + [job];
    }
  }

  lemma {:induction false} StepKeeps(render: Renderer, s: Router, b: Ledger, e: Event)
    requires Keeps(s, b)
    ensures Keeps(Step(render, s, e), Entered(b, s.cache, e))
  {
    if e.Work? {
      if s.queue != [] {
        TurnTakesOldest(render, s, e.config, e.ok);
        TurnKeeps(s, b, Step(render, s, e));
      }
    } else if e.Send? {
      SendKeeps(render, s, b, e.job);
    }
  }

  lemma {:induction false} RunKeeps(render: Renderer, events: seq<Event>)
    ensures Keeps(Run(render, events), Book(render, events))
  {
    if |events| == 0 {
    } else {
      var init := events[..|events| - 1];
      RunKeeps(render, init);
      StepKeeps(render, Run(render, init), Book(render, init), events[|events| - 1]);
    }
  }

  /** Over every run the jobs taken up so far, followed by those that wait, are exactly the
      accepted ones in the order in which they were accepted. */
  lemma {:induction false} JobsKeepOrder(render: Renderer, events: seq<Event>)
    ensures HandledJobs(Run(render, events).memory.log) + Run(render, events).queue == Book(render, events).accepted
    ensures |HandledJobs(Run(render, events).memory.log)| == Book(render, events).taken
  {
    RunKeeps(render, events);
    var b := Book(render, events);
    assert b.accepted == b.accepted[..b.taken] + b.accepted[b.taken..];
  }

  // ------------------------------------------------------------- what is delivered

  /** The job that is being handled at the end of a log, and the routes of its table. */
  function Current(log: seq<Entry>): Option<(Job, set<RouteId>)> {
    if log == [] then None
    else
      match log[|log| - 1]
      case Handled(job, ids) => Some((job, ids))
      case NotConfigured(_) => None
      case _ => Current(log[..|log| - 1])
  }

  /** An enabled route of the table that the job concerns. */
  predicate Concerned(job: Job, ids: set<RouteId>, key: Key, r: Route) {
    && r.enabled && r.id == key.route && key.route in ids && key.profile == job.profile
    && (if r.trigger.OnStateChange? then job.event.None?
        else
          && job.event.Some?
          && (r.trigger.events == [] || job.event.value.event in r.trigger.events)
          && (r.trigger.states == [] || job.event.value.state in r.trigger.states))
  }

  ghost predicate ConcernsSome(job: Job, ids: set<RouteId>, key: Key) {
    exists r :: Concerned(job, ids, key, r)
  }

  /** A state route of the table renders this job's state to that. */
  ghost predicate RendersTo(render: Renderer, job: Job, ids: set<RouteId>, key: Key, outcome: Rendered) {
    exists r :: Concerned(job, ids, key, r) && r.trigger.OnStateChange? && render(r, job.state) == outcome
  }

  /** Why an attempt or a rendering error is in the log. */
  ghost predicate Justified(render: Renderer, before: seq<Entry>, e: Entry) {
    match e
    case StateDelivered(key, payload) =>
      Current(before).Some? && RendersTo(render, Current(before).value.0, Current(before).value.1, key, Payload(payload))
    case EventDelivered(key) =>
      Current(before).Some? && ConcernsSome(Current(before).value.0, Current(before).value.1, key)
      && Current(before).value.0.event.Some?
    case DeliveryFailed(key) =>
      Current(before).Some? && ConcernsSome(Current(before).value.0, Current(before).value.1, key)
    case NotRendered(key) =>
      Current(before).Some? && RendersTo(render, Current(before).value.0, Current(before).value.1, key, Broken)
    case _ => true
  }

  ghost predicate AllJustified(render: Renderer, log: seq<Entry>) {
    forall i :: 0 <= i < |log| ==> Justified(render, log[..i], log[i])
  }

  lemma {:induction false} MoreJustified(render: Renderer, log: seq<Entry>, e: Entry)
    requires AllJustified(render, log) && Justified(render, log, e)
    ensures AllJustified(render, log + [e])
  {
    var longer := log + [e];
    forall i | 0 <= i < |longer| ensures Justified(render, longer[..i], longer[i]) {
      assert longer[..i] == if i < |log| then log[..i] else log;
    }
  }

  /** While a job is handled under a table, everything in the log is justified. */
  ghost predicate Handling(render: Renderer, log: seq<Entry>, job: Job, ids: set<RouteId>) {
    AllJustified(render, log) && Current(log) == Some((job, ids))
  }

  lemma {:induction false} AttemptIsJustified(render: Renderer, log: seq<Entry>, job: Job, ids: set<RouteId>, e: Entry)
    requires Handling(render, log, job, ids) && Justified(render, log, e) && !e.Handled? && !e.NotConfigured?
    ensures Handling(render, log + [e], job, ids)
  {
    MoreJustified(render, log, e);
    assert (log + [e])[..|log|] == log;
  }

  lemma {:induction false} RouteIsJustified(
      render: Renderer, m: Memory, job: Job, ids: set<RouteId>, r: Route, ok: bool)
    requires Handling(render, m.log, job, ids) && r.id in ids
    ensures Handling(render, HandleRoute(render, m, job, r, ok).log, job, ids)
  {
    var (key, next) := (Key(job.profile, r.id), HandleRoute(render, m, job, r, ok));
    if next.log != m.log {
      var e := next.log[|m.log|];
      assert next.log == m.log + [e];
      assert Concerned(job, ids, key, r);
      AttemptIsJustified(render, m.log, job, ids, e);
    }
  }

  lemma {:induction false} RoutesAreJustified(
      render: Renderer, m: Memory, job: Job, ids: set<RouteId>, table: Table, ok: nat -> bool)
    requires Handling(render, m.log, job, ids) && forall r :: r in table ==> r.id in ids
    ensures Handling(render, HandleRoutes(render, m, job, table, ok).log, job, ids)
  {
    if table == [] {
    } else {
      var n := |table| - 1;
      RoutesAreJustified(render, m, job, ids, table[..n], ok);
      assert table[n] in table;
      RouteIsJustified(render, HandleRoutes(render, m, job, table[..n], ok), job, ids, table[n], ok(n));
    }
  }

  lemma {:induction false} JobIsJustified(render: Renderer, m: Memory, job: Job, table: Table, ok: nat -> bool)
    requires AllJustified(render, m.log)
    ensures AllJustified(render, HandleJob(render, m, job, table, ok).log)
  {
    var ids := Ids(table);
    var start := m.(previous := Retain(m.previous, job.profile, ids), log := m.log + [Handled(job, ids)]);
    MoreJustified(render, m.log, Handled(job, ids));
    RoutesAreJustified(render, start, job, ids, table, ok);
  }

  /** Over every run each attempt is made for the job being handled, by an enabled route of
      its table that accepts it, and a state delivery carries what that job's state renders to. */
  lemma {:induction false} DeliveriesAreJustified(render: Renderer, events: seq<Event>)
    ensures AllJustified(render, Run(render, events).memory.log)
  {
    if |events| == 0 {
    } else {
      var (init, e) := (events[..|events| - 1], events[|events| - 1]);
      DeliveriesAreJustified(render, init);
      var s := Run(render, init);
      if e.Work? && s.queue != [] {
        var job := s.queue[0];
        if job.profile in s.cache {
          JobIsJustified(render, s.memory, job, s.cache[job.profile], e.ok);
        } else if e.config.Some? {
          JobIsJustified(render, s.memory, job, e.config.value, e.ok);
        } else {
          MoreJustified(render, s.memory.log, NotConfigured(job));
        }
      }
    }
  }

  /** A route acts on a job exactly if it is enabled and accepts it and, for a state route,
      the state renders to something new or cannot be rendered for another reason than a
      missing value; and the entry says which of these it was. */
  lemma {:induction false} RouteActsExactly(render: Renderer, m: Memory, job: Job, r: Route, ok: bool)
    ensures var (key, next) := (Key(job.profile, r.id), HandleRoute(render, m, job, r, ok));
      && (next.log == m.log
          <==> !Concerned(job, {r.id}, key, r)
               || (r.trigger.OnStateChange?
                   && (render(r, job.state).Missing?
                       || (key in m.previous && render(r, job.state) == Payload(m.previous[key])))))
      && (next.log == m.log ==> next == m)
      && (next.log != m.log ==>
            && next.failed == (!ok || next.log[|next.log| - 1].NotRendered?)
            && next.log == m.log + [
                 if r.trigger.OnStateChange? && render(r, job.state).Broken? then NotRendered(key)
                 else if !ok then DeliveryFailed(key)
                 else if r.trigger.OnEvent? then EventDelivered(key)
                 else StateDelivered(key, render(r, job.state).payload)])
  {
    var (key, next) := (Key(job.profile, r.id), HandleRoute(render, m, job, r, ok));
    if next.log != m.log { assert next.log[|next.log| - 1] == next.log[|m.log|]; }
  }

  // ------------------------------------------------------------- what publish declines

  predicate SameKind(a: Job, b: Job) {
    a.profile == b.profile && (a.event.Some? <==> b.event.Some?)
  }

  /** Whatever is rendered, remembered and answered, a job of this kind does nothing. */
  ghost predicate Idle(table: Table, job: Job) {
    forall render: Renderer, m: Memory, other: Job, ok: nat -> bool :: SameKind(job, other) ==>
      HandleRoutes(render, m, other, table, ok) == m
  }

  /** The route leaves a line in the log for such a job, whatever its sink answers. */
  ghost predicate Reacts(render: Renderer, job: Job, r: Route) {
    forall before, ok :: HandleRoute(render, before, job, r, ok).log != before.log
  }

  const UNRENDERABLE: Renderer := (_, _) => Broken

  lemma {:induction false} ActingRouteShows(
      render: Renderer, m: Memory, job: Job, table: Table, ok: nat -> bool, i: nat)
    requires i < |table| && Reacts(render, job, table[i])
    ensures |HandleRoutes(render, m, job, table, ok).log| > |m.log|
  {
    var n := |table| - 1;
    var before := HandleRoutes(render, m, job, table[..n], ok);
    LogOnlyGrows(render, m, job, table[..n], ok);
    if i < n {
      ActingRouteShows(render, m, job, table[..n], ok, i);
    } else {
      assert HandleRoute(render, before, job, table[n], ok(n)).log != before.log;
    }
  }

  lemma {:induction false} LogOnlyGrows(render: Renderer, m: Memory, job: Job, table: Table, ok: nat -> bool)
    ensures |HandleRoutes(render, m, job, table, ok).log| >= |m.log|
  {
    if table == [] {
    } else {
      LogOnlyGrows(render, m, job, table[..|table| - 1], ok);
    }
  }

  /** Some job of the same kind to which this route reacts, if nothing can be rendered. */
  lemma {:induction false} SomeReaction(job: Job, r: Route) returns (other: Job)
    requires r.enabled && (job.event.Some? <==> r.trigger.OnEvent?)
    ensures SameKind(job, other) && Reacts(UNRENDERABLE, other, r)
  {
    other := job;
    if r.trigger.OnEvent? {
      var event := if r.trigger.events == [] then "" else r.trigger.events[0];
      var state := if r.trigger.states == [] then 0 else r.trigger.states[0];
      other := job.(event := Some(EventRecord(event, state)));
    }
  }

  /** `publish` declines a job exactly if no job of its kind could do anything under the
      cached table. */
  lemma {:induction false} DeclinesExactly(cache: map<ProfileId, Table>, job: Job)
    ensures !ShouldQueue(cache, job) <==> job.profile in cache && Idle(cache[job.profile], job)
  {
    if job.profile in cache {
      var table := cache[job.profile];
      if r :| r in table && r.enabled && (job.event.Some? <==> r.trigger.OnEvent?) {
        var i :| 0 <= i < |table| && table[i] == r;
        var other := SomeReaction(job, r);
        var m := Memory(map[], false, []);
        ActingRouteShows(UNRENDERABLE, m, other, table, _ => true, i);
      } else {
        forall render: Renderer, m: Memory, other: Job, ok: nat -> bool | SameKind(job, other)
          ensures HandleRoutes(render, m, other, table, ok) == m
        {
          UnconcernedRoutesDoNothing(render, m, other, table, ok);
        }
      }
    }
  }
}
