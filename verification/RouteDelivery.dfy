/**
 * The output route worker: one bounded queue of jobs, a cache of route tables that other
 * threads replace or drop at any time, and the last delivered payload of each state route.
 * Rendering is a parameter; whether a sink accepts a payload varies from job to job.
 */
module RouteDelivery {
  import opened Prelude
  import opened TemplateRendering

  type ProfileId = int

  type RouteId = int

  datatype Key = Key(profile: ProfileId, route: RouteId)

  datatype EventRecord = EventRecord(event: string, state: int)

  datatype Trigger = OnEvent(events: seq<string>, states: seq<int>) | OnStateChange

  datatype Route = Route(id: RouteId, enabled: bool, trigger: Trigger, template: Value)

  type Table = seq<Route>

  datatype Job = Job(profile: ProfileId, event: Option<EventRecord>, state: Value)

  datatype Rendered = Payload(payload: Value) | Missing | Broken

  type Renderer = (Route, Value) -> Rendered

  const QUEUE_CAPACITY: nat := 64

  /** What the worker did. A delivery of a state route carries its payload. */
  datatype Entry =
    | Handled(job: Job, ids: set<RouteId>)
    | StateDelivered(key: Key, payload: Value)
    | EventDelivered(key: Key)
    | DeliveryFailed(key: Key)
    | NotRendered(key: Key)
    | NotConfigured(job: Job)

  datatype Memory = Memory(previous: map<Key, Value>, failed: bool, log: seq<Entry>)

  // ------------------------------------------------------------- one job

  predicate AcceptsEvent(t: Trigger, e: EventRecord) {
    && t.OnEvent?
    && (t.events == [] || e.event in t.events)
    && (t.states == [] || e.state in t.states)
  }

  predicate Accepts(r: Route, job: Job) {
    if r.trigger.OnStateChange? then job.event.None?
    else job.event.Some? && AcceptsEvent(r.trigger, job.event.value)
  }

  function Report(m: Memory, e: Entry): Memory {
    m.(failed := true, log := m.log + [e])
  }

  predicate Repeats(m: Memory, key: Key, payload: Value) {
    key in m.previous && m.previous[key] == payload
  }

  /** One route of the table, for one job; `ok` is what its sink answers if it is asked. */
  function HandleRoute(render: Renderer, m: Memory, job: Job, r: Route, ok: bool): Memory {
    var key := Key(job.profile, r.id);
    if !r.enabled || !Accepts(r, job) then m
    else if r.trigger.OnEvent? then
      if ok then m.(failed := false, log := m.log + [EventDelivered(key)]) else Report(m, DeliveryFailed(key))
    else
      match render(r, job.state)
      case Missing => m
      case Broken => Report(m, NotRendered(key))
      case Payload(p) =>
        if Repeats(m, key, p) then m
        else if ok then Memory(m.previous[key := p], false, m.log + [StateDelivered(key, p)])
        else Report(m, DeliveryFailed(key))
  }

  function HandleRoutes(render: Renderer, m: Memory, job: Job, table: Table, ok: nat -> bool): Memory {
    if table == [] then m
    else
      var n := |table| - 1;
      HandleRoute(render, HandleRoutes(render, m, job, table[..n], ok), job, table[n], ok(n))
  }

  function Ids(table: Table): set<RouteId> {
    set r | r in table :: r.id
  }

  /** `retain`: payloads of this profile's routes that are no longer in its table are forgotten. */
  function Retain(previous: map<Key, Value>, profile: ProfileId, ids: set<RouteId>): map<Key, Value> {
    map key | key in previous && (key.profile != profile || key.route in ids) :: previous[key]
  }

  function HandleJob(render: Renderer, m: Memory, job: Job, table: Table, ok: nat -> bool): Memory {
    var ids := Ids(table);
    var start := m.(previous := Retain(m.previous, job.profile, ids), log := m.log + [Handled(job, ids)]);
    HandleRoutes(render, start, job, table, ok)
  }

  // ------------------------------------------------------------- the router

  /** `pending` are jobs that some `publish` has found wanted and not yet sent. */
  datatype Router = Router(queue: seq<Job>, pending: multiset<Job>, cache: map<ProfileId, Table>, memory: Memory)

  const STARTED: Router := Router([], multiset{}, map[], Memory(map[], false, []))

  datatype Event =
    | Consider(job: Job)
    | Send(job: Job)
    | Work(config: Option<Table>, ok: nat -> bool)
    | ReplaceRoutes(profile: ProfileId, table: Table)
    | InvalidateRoutes(profile: ProfileId)

  predicate Concerns(r: Route, job: Job) {
    r.enabled && (job.event.Some? <==> r.trigger.OnEvent?)
  }

  predicate ShouldQueue(cache: map<ProfileId, Table>, job: Job) {
    job.profile in cache ==> exists r :: r in cache[job.profile] && Concerns(r, job)
  }

  function Step(render: Renderer, s: Router, e: Event): Router {
    match e
    case Consider(job) => if ShouldQueue(s.cache, job) then s.(pending := s.pending + multiset{job}) else s
    case Send(job) =>
      if job !in s.pending then s
      else if |s.queue| < QUEUE_CAPACITY then s.(queue := s.queue + [job], pending := s.pending - multiset{job})
      else s.(pending := s.pending - multiset{job})
    case Work(config, ok) =>
      if s.queue == [] then s
      else
        var job, rest := s.queue[0], s.queue[1..];
        if job.profile in s.cache then
          s.(queue := rest, memory := HandleJob(render, s.memory, job, s.cache[job.profile], ok))
        else if config.None? then s.(queue := rest, memory := Report(s.memory, NotConfigured(job)))
        else Router(rest, s.pending, s.cache[job.profile := config.value], HandleJob(render, s.memory, job, config.value, ok))
    case ReplaceRoutes(profile, table) => s.(cache := s.cache[profile := table])
    case InvalidateRoutes(profile) => s.(cache := s.cache - {profile})
  }

  function Run(render: Renderer, events: seq<Event>): Router {
    if |events| == 0 then STARTED
    else Step(render, Run(render, events[..|events| - 1]), events[|events| - 1])
  }

  // ------------------------------------------------------------- the log as the reference

  /** The payloads that a log of past actions says were delivered last and not forgotten. */
  function Remembered(log: seq<Entry>): map<Key, Value> {
    if log == [] then map[]
    else
      var before := Remembered(log[..|log| - 1]);
      match log[|log| - 1]
      case Handled(job, ids) => Retain(before, job.profile, ids)
      case StateDelivered(key, payload) => before[key := payload]
      case _ => before
  }

  predicate Reports(e: Entry) {
    e.DeliveryFailed? || e.NotRendered? || e.NotConfigured?
  }

  /** The latest attempt or report was a failure. */
  predicate LatestFailed(log: seq<Entry>) {
    log != []
    && var e := log[|log| - 1];
       Reports(e) || (e.Handled? && LatestFailed(log[..|log| - 1]))
  }

  /** A delivery that does not repeat what was remembered when it happened. */
  predicate FreshAt(log: seq<Entry>, i: int)
    requires 0 <= i < |log|
  {
    log[i].StateDelivered? ==>
      !(log[i].key in Remembered(log[..i]) && Remembered(log[..i])[log[i].key] == log[i].payload)
  }

  predicate AllFresh(log: seq<Entry>) {
    forall i :: 0 <= i < |log| ==> FreshAt(log, i)
  }

  predicate Faithful(m: Memory) {
    m.previous == Remembered(m.log) && AllFresh(m.log) && (m.failed <==> LatestFailed(m.log))
  }

  lemma {:induction false} MoreLog(log: seq<Entry>, e: Entry)
    requires AllFresh(log)
    requires e.StateDelivered? ==> !(e.key in Remembered(log) && Remembered(log)[e.key] == e.payload)
    ensures AllFresh(log + [e])
  {
    var longer := log + [e];
    forall i | 0 <= i < |longer| ensures FreshAt(longer, i) {
      if i < |log| {
        assert longer[..i] == log[..i];
        assert FreshAt(log, i);
      } else {
        assert longer[..i] == log;
      }
    }
  }

  lemma {:induction false} MoreRemembered(log: seq<Entry>, e: Entry)
    ensures (log + [e])[..|log|] == log
    ensures e.StateDelivered? ==> Remembered(log + [e]) == Remembered(log)[e.key := e.payload]
    ensures e.Handled? ==> Remembered(log + [e]) == Retain(Remembered(log), e.job.profile, e.ids)
    ensures !e.StateDelivered? && !e.Handled? ==> Remembered(log + [e]) == Remembered(log)
  {
    assert (log + [e])[..|log|] == log;
  }

  lemma {:induction false} EntryKeepsFaithful(m: Memory, e: Entry, next: Memory)
    requires Faithful(m) && next.log == m.log + [e] && !e.StateDelivered?
    requires e.Handled? ==> next.failed == m.failed && next.previous == Retain(m.previous, e.job.profile, e.ids)
    requires !e.Handled? ==> next.failed == Reports(e) && next.previous == m.previous
    ensures Faithful(next)
  {
    MoreLog(m.log, e);
    MoreRemembered(m.log, e);
  }

  lemma {:induction false} DeliveryKeepsFaithful(m: Memory, key: Key, payload: Value, next: Memory)
    requires Faithful(m) && !Repeats(m, key, payload)
    requires next == Memory(m.previous[key := payload], false, m.log + [StateDelivered(key, payload)])
    ensures Faithful(next)
  {
    MoreLog(m.log, StateDelivered(key, payload));
    MoreRemembered(m.log, StateDelivered(key, payload));
  }

  lemma {:induction false} RouteKeepsFaithful(render: Renderer, m: Memory, job: Job, r: Route, ok: bool)
    requires Faithful(m)
    ensures Faithful(HandleRoute(render, m, job, r, ok))
  {
    var key, next := Key(job.profile, r.id), HandleRoute(render, m, job, r, ok);
    if !r.enabled || !Accepts(r, job) {
      assert next == m;
    } else if r.trigger.OnEvent? {
      EntryKeepsFaithful(m, if ok then EventDelivered(key) else DeliveryFailed(key), next);
    } else {
      match render(r, job.state)
      case Missing => assert next == m;
      case Broken => EntryKeepsFaithful(m, NotRendered(key), next);
      case Payload(p) =>
        if Repeats(m, key, p) {
          assert next == m;
        } else if ok {
          DeliveryKeepsFaithful(m, key, p, next);
        } else {
          EntryKeepsFaithful(m, DeliveryFailed(key), next);
        }
    }
  }

  lemma {:induction false} RoutesKeepFaithful(render: Renderer, m: Memory, job: Job, table: Table, ok: nat -> bool)
    requires Faithful(m)
    ensures Faithful(HandleRoutes(render, m, job, table, ok))
  {
    if table == [] {
    } else {
      var n := |table| - 1;
      RoutesKeepFaithful(render, m, job, table[..n], ok);
      RouteKeepsFaithful(render, HandleRoutes(render, m, job, table[..n], ok), job, table[n], ok(n));
    }
  }

  lemma {:induction false} JobKeepsFaithful(render: Renderer, m: Memory, job: Job, table: Table, ok: nat -> bool)
    requires Faithful(m)
    ensures Faithful(HandleJob(render, m, job, table, ok))
  {
    var ids := Ids(table);
    var start := m.(previous := Retain(m.previous, job.profile, ids), log := m.log + [Handled(job, ids)]);
    EntryKeepsFaithful(m, Handled(job, ids), start);
    RoutesKeepFaithful(render, start, job, table, ok);
  }

  /** In every interleaving of publishing, working and route edits: what the worker remembers
      is exactly what its past deliveries say, no delivery repeats it, and the shown error
      is there exactly when the latest attempt or report failed. The queue stays bounded. */
  lemma {:induction false} EveryRunIsFaithful(render: Renderer, events: seq<Event>)
    ensures Faithful(Run(render, events).memory) && |Run(render, events).queue| <= QUEUE_CAPACITY
  {
    if |events| == 0 {
    } else {
      var init, e := events[..|events| - 1], events[|events| - 1];
      EveryRunIsFaithful(render, init);
      StepKeepsFaithful(render, Run(render, init), e);
    }
  }

  lemma {:induction false} StepKeepsFaithful(render: Renderer, s: Router, e: Event)
    requires Faithful(s.memory) && |s.queue| <= QUEUE_CAPACITY
    ensures Faithful(Step(render, s, e).memory) && |Step(render, s, e).queue| <= QUEUE_CAPACITY
  {
    if e.Work? && s.queue != [] {
      var job := s.queue[0];
      if job.profile in s.cache {
        JobKeepsFaithful(render, s.memory, job, s.cache[job.profile], e.ok);
      } else if e.config.Some? {
        JobKeepsFaithful(render, s.memory, job, e.config.value, e.ok);
      } else {
        var report := NotConfigured(job);
        EntryKeepsFaithful(s.memory, report, Report(s.memory, report));
      }
    }
  }

  // ------------------------------------------------------------- successive deliveries

  /** An entry that replaces or forgets what is remembered for `key`. */
  predicate Touches(e: Entry, key: Key) {
    || (e.StateDelivered? && e.key == key)
    || (e.Handled? && e.job.profile == key.profile && key.route !in e.ids)
  }

  predicate UntouchedBetween(log: seq<Entry>, i: int, j: int, key: Key)
    requires 0 <= i && j <= |log|
  {
    forall k :: i < k < j ==> !Touches(log[k], key)
  }

  lemma {:induction false} StaysRemembered(log: seq<Entry>, i: nat, key: Key, payload: Value)
    requires i < |log| && log[i] == StateDelivered(key, payload) && UntouchedBetween(log, i, |log|, key)
    ensures key in Remembered(log) && Remembered(log)[key] == payload
  {
    var n := |log| - 1;
    if i < n {
      assert !Touches(log[n], key);
      StaysRemembered(log[..n], i, key, payload);
    }
  }

  /** Two successive deliveries of a state route, with the route in every table handled for
      its profile in between, never carry equal payloads. */
  lemma {:induction false} NoRepeatedDelivery(
      render: Renderer, events: seq<Event>, i: nat, j: nat, key: Key, first: Value, second: Value)
    requires var log := Run(render, events).memory.log;
      && i < j < |log| && log[i] == StateDelivered(key, first) && log[j] == StateDelivered(key, second)
      && UntouchedBetween(log, i, j, key)
    ensures first != second
  {
    EveryRunIsFaithful(render, events);
    var log := Run(render, events).memory.log;
    StaysRemembered(log[..j], i, key, first);
    assert FreshAt(log, j);
  }

  // ------------------------------------------------------------- declined jobs and failures

  /** A job that `publish` declines, handled under the table it was declined for: no attempt
      and no report, and it would have changed what is remembered if and only if something
      is remembered for a route that this table no longer has. */
  lemma {:induction false} DeclinedJobOnlyForgets(
      render: Renderer, m: Memory, cache: map<ProfileId, Table>, job: Job, ok: nat -> bool)
    requires job.profile in cache && !ShouldQueue(cache, job)
    ensures var ids := Ids(cache[job.profile]); var next := HandleJob(render, m, job, cache[job.profile], ok);
      && next == m.(previous := Retain(m.previous, job.profile, ids), log := m.log + [Handled(job, ids)])
      && (next.previous == m.previous
          <==> forall key :: key in m.previous && key.profile == job.profile ==> key.route in ids)
  {
    var table := cache[job.profile];
    var ids := Ids(table);
    var start := m.(previous := Retain(m.previous, job.profile, ids), log := m.log + [Handled(job, ids)]);
    forall r | r in table ensures !Concerns(r, job) {
    }
    UnconcernedRoutesDoNothing(render, start, job, table, ok);
    if start.previous == m.previous {
      forall key | key in m.previous && key.profile == job.profile ensures key.route in ids {
        assert key in start.previous;
      }
    }
  }

  lemma {:induction false} UnconcernedRoutesDoNothing(
      render: Renderer, m: Memory, job: Job, table: Table, ok: nat -> bool)
    requires forall r :: r in table ==> !Concerns(r, job)
    ensures HandleRoutes(render, m, job, table, ok) == m
  {
    if table == [] {
    } else {
      var n := |table| - 1;
      UnconcernedRoutesDoNothing(render, m, job, table[..n], ok);
      assert !Concerns(table[n], job);
    }
  }

  /** A state delivery that failed is attempted again by the next job with the same payload. */
  lemma {:induction false} FailureIsRetried(render: Renderer, m: Memory, job: Job, later: Job, r: Route, ok: bool)
    requires r.enabled && r.trigger.OnStateChange? && job.event.None? && later.event.None?
    requires later.profile == job.profile && render(r, job.state).Payload? && render(r, later.state) == render(r, job.state)
    requires !Repeats(m, Key(job.profile, r.id), render(r, job.state).payload)
    ensures var failed := HandleRoute(render, m, job, r, false); var again := HandleRoute(render, failed, later, r, ok);
      && failed.previous == m.previous
      && |again.log| == |m.log| + 2 && !again.log[|m.log| + 1].Handled?
      && (ok ==> Repeats(again, Key(job.profile, r.id), render(r, job.state).payload) && !again.failed)
  {
  }

  lemma {:induction false} SingleRoute(render: Renderer, m: Memory, job: Job, r: Route, ok: nat -> bool)
    ensures HandleJob(render, m, job, [r], ok)
         == HandleRoute(render, m.(previous := Retain(m.previous, job.profile, {r.id}),
                                   log := m.log + [Handled(job, {r.id})]), job, r, ok(0))
  {
    var table := [r];
    assert Ids(table) == {r.id} && table[..0] == [] && |table| == 1;
    var start := m.(previous := Retain(m.previous, job.profile, {r.id}), log := m.log + [Handled(job, {r.id})]);
    assert HandleRoutes(render, start, job, table[..0], ok) == start;
  }

  /** What declining can hide: while a state route is out of the table, a handled job makes
      the worker forget it and deliver again once it is back; if such a job was declined,
      the route that came back stays silent on its old payload. */
  lemma {:induction false} DecliningHidesRemoval(
      render: Renderer, m: Memory, job: Job, r: Route, payload: Value, ok: nat -> bool)
    requires r.enabled && r.trigger.OnStateChange? && job.event.None? && render(r, job.state) == Payload(payload)
    requires Repeats(m, Key(job.profile, r.id), payload) && ok(0)
    ensures !ShouldQueue(map[job.profile := []], job)
    ensures var key, silent := Key(job.profile, r.id), HandleJob(render, m, job, [r], ok);
      silent.log == m.log + [Handled(job, {r.id})] && Repeats(silent, key, payload)
    ensures var key, gone := Key(job.profile, r.id), HandleJob(render, m, job, [], ok);
      HandleJob(render, gone, job, [r], ok).log
      == gone.log + [Handled(job, {r.id}), StateDelivered(key, payload)]
  {
    SingleRoute(render, m, job, r, ok);
    var gone := HandleJob(render, m, job, [], ok);
    assert Key(job.profile, r.id) !in gone.previous;
    SingleRoute(render, gone, job, r, ok);
    var log := gone.log;
    assert log + [Handled(job, {r.id})] + [StateDelivered(Key(job.profile, r.id), payload)]
        == log + [Handled(job, {r.id}), StateDelivered(Key(job.profile, r.id), payload)];
  }

  function StepAll(render: Renderer, s: Router, events: seq<Event>): Router {
    if |events| == 0 then s
    else Step(render, StepAll(render, s, events[..|events| - 1]), events[|events| - 1])
  }

  lemma {:induction false} RunContinues(render: Renderer, events: seq<Event>, more: seq<Event>)
    ensures Run(render, events + more) == StepAll(render, Run(render, events), more)
  {
    if |more| == 0 {
      assert events + more == events;
    } else {
      var init := more[..|more| - 1];
      assert (events + more)[..|events + more| - 1] == events + init;
      RunContinues(render, events, init);
    }
  }

  lemma {:induction false} StepAllMore(render: Renderer, s: Router, events: seq<Event>, e: Event)
    ensures StepAll(render, s, events + [e]) == Step(render, StepAll(render, s, events), e)
  {
    assert (events + [e])[..|events|] == events;
  }

  /** Considering and sending one job, with nobody in between. */
  lemma {:induction false} Published(render: Renderer, s: Router, job: Job)
    requires job !in s.pending && |s.queue| < QUEUE_CAPACITY
    ensures var next := Step(render, Step(render, s, Consider(job)), Send(job));
      next == if ShouldQueue(s.cache, job) then s.(queue := s.queue + [job]) else s
  {
    assert s.pending + multiset{job} - multiset{job} == s.pending;
  }

  function TwoMore(events: seq<Event>, a: Event, b: Event): seq<Event> {
    events + [a] + [b]
  }

  lemma {:induction false} PublishedAfter(render: Renderer, s: Router, events: seq<Event>, job: Job)
    requires var now := StepAll(render, s, events); job !in now.pending && |now.queue| < QUEUE_CAPACITY
    ensures var now := StepAll(render, s, events);
      StepAll(render, s, TwoMore(events, Consider(job), Send(job)))
      == if ShouldQueue(now.cache, job) then now.(queue := now.queue + [job]) else now
  {
    StepAllMore(render, s, events, Consider(job));
    StepAllMore(render, s, events + [Consider(job)], Send(job));
    Published(render, StepAll(render, s, events), job);
  }

  /** The route is taken out of the table and put back, and a job is published before each
      time it is in force: first the removal, then the job. */
  function RemovedThenPublished(job: Job, r: Route, ok: nat -> bool): seq<Event> {
    TwoMore(TwoMore([ReplaceRoutes(job.profile, [])], Consider(job), Send(job))
            + [Work(None, ok)] + [ReplaceRoutes(job.profile, [r])], Consider(job), Send(job)) + [Work(None, ok)]
  }

  /** The same, but the job is published just before the removal, and so handled after it. */
  function PublishedThenRemoved(job: Job, r: Route, ok: nat -> bool): seq<Event> {
    TwoMore(TwoMore([], Consider(job), Send(job)) + [ReplaceRoutes(job.profile, [])]
            + [Work(None, ok)] + [ReplaceRoutes(job.profile, [r])], Consider(job), Send(job)) + [Work(None, ok)]
  }

  /** A router that has delivered `payload` for its only route and has nothing to do. */
  ghost predicate Quiescent(render: Renderer, s: Router, job: Job, r: Route, payload: Value) {
    && s.queue == [] && job !in s.pending && job.profile in s.cache && s.cache[job.profile] == [r]
    && r.enabled && r.trigger.OnStateChange? && job.event.None? && render(r, job.state) == Payload(payload)
    && Repeats(s.memory, Key(job.profile, r.id), payload)
  }

  /** One more event, from a known state to a known state. */
  lemma {:induction false} OneStep(render: Renderer, s: Router, events: seq<Event>, now: Router, e: Event, next: Router)
    requires StepAll(render, s, events) == now && next == Step(render, now, e)
    ensures StepAll(render, s, events + [e]) == next
  {
    StepAllMore(render, s, events, e);
  }

  /** One more job for an idle router whose table is the one route. */
  lemma {:induction false} DeliveredAgain(
      render: Renderer, s: Router, back: Router, events: seq<Event>, job: Job, r: Route, ok: nat -> bool)
    requires StepAll(render, s, events) == back && back.queue == [] && job !in back.pending
    requires job.profile in back.cache && back.cache[job.profile] == [r] && Concerns(r, job)
    ensures StepAll(render, s, TwoMore(events, Consider(job), Send(job)) + [Work(None, ok)]).memory
         == HandleJob(render, back.memory, job, [r], ok)
  {
    PublishedAfter(render, s, events, job);
    StepAllMore(render, s, TwoMore(events, Consider(job), Send(job)), Work(None, ok));
  }

  /** Installing the route and publishing one job. */
  function FirstDelivery(job: Job, r: Route, ok: nat -> bool): seq<Event> {
    TwoMore([ReplaceRoutes(job.profile, [r])], Consider(job), Send(job)) + [Work(None, ok)]
  }

  /** A router that has just started is quiescent after its first delivery. */
  lemma {:induction false} QuiescentIsReached(render: Renderer, job: Job, r: Route, payload: Value, ok: nat -> bool)
    requires r.enabled && r.trigger.OnStateChange? && job.event.None? && render(r, job.state) == Payload(payload) && ok(0)
    ensures Quiescent(render, Run(render, FirstDelivery(job, r, ok)), job, r, payload)
  {
    var (first, all) := ([ReplaceRoutes(job.profile, [r])], FirstDelivery(job, r, ok));
    RunContinues(render, [], all);
    assert [] + all == all && [] + first == first;
    StepAllMore(render, STARTED, [], ReplaceRoutes(job.profile, [r]));
    var installed := StepAll(render, STARTED, first);
    assert installed == STARTED.(cache := map[job.profile := [r]]);
    assert r in installed.cache[job.profile] && Concerns(r, job);
    PublishedAfter(render, STARTED, first, job);
    FirstWork(render, installed.(queue := [job]), job, r, payload, ok);
    StepAllMore(render, STARTED, TwoMore(first, Consider(job), Send(job)), Work(None, ok));
  }

  lemma {:induction false} FirstWork(render: Renderer, s: Router, job: Job, r: Route, payload: Value, ok: nat -> bool)
    requires s == Router([job], multiset{}, map[job.profile := [r]], Memory(map[], false, []))
    requires r.enabled && r.trigger.OnStateChange? && job.event.None? && render(r, job.state) == Payload(payload) && ok(0)
    ensures Quiescent(render, Step(render, s, Work(None, ok)), job, r, payload)
  {
    SingleRoute(render, s.memory, job, r, ok);
  }

  lemma {:induction false} DeclinedUntilBack(
      render: Renderer, s: Router, job: Job, r: Route, payload: Value, ok: nat -> bool, e1: seq<Event>, e2: seq<Event>)
    requires Quiescent(render, s, job, r, payload)
    requires e1 == [ReplaceRoutes(job.profile, [])] && e2 == TwoMore(e1, Consider(job), Send(job))
    ensures StepAll(render, s, e2 + [Work(None, ok)] + [ReplaceRoutes(job.profile, [r])])
         == s.(cache := s.cache[job.profile := []][job.profile := [r]])
  {
    var removed := s.(cache := s.cache[job.profile := []]);
    assert [] + e1 == e1 && StepAll(render, s, []) == s;
    OneStep(render, s, [], s, ReplaceRoutes(job.profile, []), removed);
    PublishedAfter(render, s, e1, job);
    assert StepAll(render, s, e2) == removed;
    OneStep(render, s, e2, removed, Work(None, ok), removed);
    OneStep(render, s, e2 + [Work(None, ok)], removed, ReplaceRoutes(job.profile, [r]),
            removed.(cache := removed.cache[job.profile := [r]]));
  }

  lemma {:induction false} DeclinedStream(
      render: Renderer, s: Router, job: Job, r: Route, payload: Value, ok: nat -> bool)
    requires Quiescent(render, s, job, r, payload) && ok(0)
    ensures StepAll(render, s, RemovedThenPublished(job, r, ok)).memory.log
         == s.memory.log + [Handled(job, {r.id})]
  {
    var e1 := [ReplaceRoutes(job.profile, [])];
    var e2 := TwoMore(e1, Consider(job), Send(job));
    DeclinedUntilBack(render, s, job, r, payload, ok, e1, e2);
    var e3 := e2 + [Work(None, ok)] + [ReplaceRoutes(job.profile, [r])];
    DeliveredAgain(render, s, s.(cache := s.cache[job.profile := []][job.profile := [r]]), e3, job, r, ok);
    DecliningHidesRemoval(render, s.memory, job, r, payload, ok);
  }

  lemma {:induction false} HandledUntilBack(
      render: Renderer, s: Router, job: Job, r: Route, payload: Value, ok: nat -> bool, e1: seq<Event>, e2: seq<Event>)
    requires Quiescent(render, s, job, r, payload)
    requires e1 == TwoMore([], Consider(job), Send(job)) && e2 == e1 + [ReplaceRoutes(job.profile, [])]
    ensures StepAll(render, s, e2 + [Work(None, ok)] + [ReplaceRoutes(job.profile, [r])])
         == s.(cache := s.cache[job.profile := []][job.profile := [r]], memory := HandleJob(render, s.memory, job, [], ok))
  {
    assert StepAll(render, s, []) == s;
    assert r in s.cache[job.profile] && Concerns(r, job);
    PublishedAfter(render, s, [], job);
    var queued := s.(queue := [job]);
    assert [] + [job] == [job] && StepAll(render, s, e1) == queued;
    var removed := queued.(cache := s.cache[job.profile := []]);
    OneStep(render, s, e1, queued, ReplaceRoutes(job.profile, []), removed);
    var idle := removed.(queue := [], memory := HandleJob(render, s.memory, job, [], ok));
    assert removed.queue[1..] == [] && removed.cache[job.profile] == [];
    OneStep(render, s, e2, removed, Work(None, ok), idle);
    OneStep(render, s, e2 + [Work(None, ok)], idle, ReplaceRoutes(job.profile, [r]),
            idle.(cache := idle.cache[job.profile := [r]]));
  }

  lemma {:induction false} HandledStream(
      render: Renderer, s: Router, job: Job, r: Route, payload: Value, ok: nat -> bool)
    requires Quiescent(render, s, job, r, payload) && ok(0)
    ensures StepAll(render, s, PublishedThenRemoved(job, r, ok)).memory.log
         == s.memory.log
            + [Handled(job, {}), Handled(job, {r.id}), StateDelivered(Key(job.profile, r.id), payload)]
  {
    var e1 := TwoMore([], Consider(job), Send(job));
    var e2 := e1 + [ReplaceRoutes(job.profile, [])];
    HandledUntilBack(render, s, job, r, payload, ok, e1, e2);
    var e3 := e2 + [Work(None, ok)] + [ReplaceRoutes(job.profile, [r])];
    var gone := HandleJob(render, s.memory, job, [], ok);
    DeliveredAgain(render, s, s.(cache := s.cache[job.profile := []][job.profile := [r]], memory := gone), e3, job, r, ok);
    DecliningHidesRemoval(render, s.memory, job, r, payload, ok);
    assert gone.log == s.memory.log + [Handled(job, {})] by { assert Ids([]) == {}; }
  }

  /** Two continuations of any run with the same events, but for the order of a removal and
      a publishing: the job that is published before the removal is handled under the
      empty table and makes the worker forget, so the route that comes back delivers again;
      the job published after it is declined, and the route that comes back stays silent. */
  lemma {:induction false} DecliningChangesDeliveries(
      render: Renderer, events: seq<Event>, job: Job, r: Route, payload: Value, ok: nat -> bool)
    requires Quiescent(render, Run(render, events), job, r, payload) && ok(0)
    ensures multiset(RemovedThenPublished(job, r, ok)) == multiset(PublishedThenRemoved(job, r, ok))
    ensures var (log, key) := (Run(render, events).memory.log, Key(job.profile, r.id));
      && Run(render, events + RemovedThenPublished(job, r, ok)).memory.log == log + [Handled(job, {r.id})]
      && Run(render, events + PublishedThenRemoved(job, r, ok)).memory.log
         == log + [Handled(job, {}), Handled(job, {r.id}), StateDelivered(key, payload)]
  {
    RunContinues(render, events, RemovedThenPublished(job, r, ok));
    RunContinues(render, events, PublishedThenRemoved(job, r, ok));
    DeclinedStream(render, Run(render, events), job, r, payload, ok);
    HandledStream(render, Run(render, events), job, r, payload, ok);
  }
}
