/**
 * The router as the daemon runs it: `publish` and the two route edits from the RPC threads,
 * one turn of the worker loop at a time.
 */
module RouteWorkers {
  import opened Prelude
  import TemplateRendering
  import opened RouteDelivery

  class RouteWorker {
    const render: Renderer
    var queue: seq<Job>
    ghost var pending: multiset<Job>
    var cache: map<ProfileId, Table>
    var previous: map<Key, TemplateRendering.Value>
    var failed: bool
    ghost var log: seq<Entry>

    constructor (render: Renderer)
      ensures this.render == render && View() == STARTED
    {
      this.render := render;
      queue, pending, cache, previous, failed, log := [], multiset{}, map[], map[], false, [];
    }

    ghost function View(): Router
      reads this
    {
      Router(queue, pending, cache, Memory(previous, failed, log))
    }

    /** The first half of `publish`, under the cache lock: is anyone interested? */
    method ConsiderJob(job: Job) returns (wanted: bool)
      modifies this`pending
      ensures View() == Step(render, old(View()), Consider(job))
      ensures wanted <==> ShouldQueue(cache, job)
    {
      wanted := job.profile !in cache || exists r :: r in cache[job.profile] && Concerns(r, job);
      if wanted { pending := pending + multiset{job}; }
    }

    /** The second half: the bounded queue takes the job or refuses it. */
    method SendJob(job: Job) returns (refused: bool)
      requires job in pending
      modifies this`queue, this`pending
      ensures View() == Step(render, old(View()), Send(job))
      ensures refused <==> |old(queue)| >= QUEUE_CAPACITY
    {
      refused := |queue| >= QUEUE_CAPACITY;
      if !refused { queue := queue + [job]; }
      pending := pending - multiset{job};
    }

    method ReplaceTable(profile: ProfileId, table: Table)
      modifies this`cache
      ensures View() == Step(render, old(View()), ReplaceRoutes(profile, table))
    {
      cache := cache[profile := table];
    }

    method InvalidateTable(profile: ProfileId)
      modifies this`cache
      ensures View() == Step(render, old(View()), InvalidateRoutes(profile))
    {
      cache := cache - {profile};
    }

    method ReportError(e: Entry)
      modifies this`failed, this`log
      ensures Memory(previous, failed, log) == Report(old(Memory(previous, failed, log)), e)
    {
      failed, log := true, log + [e];
    }

    /** One turn of the worker loop; `config` is what the configuration answers if it is
        asked, `ok` what each route's sink answers. */
    method WorkOnce(config: Option<Table>, ok: nat -> bool)
      modifies this
      ensures View() == Step(render, old(View()), Work(config, ok))
    {
      if queue == [] { return; }
      var job := queue[0];
      queue := queue[1..];
      if job.profile !in cache {
        if config.None? {
          ReportError(NotConfigured(job));
          return;
        }
        cache := cache[job.profile := config.value];
      }
      var table := cache[job.profile];
      var ids := Ids(table);
      previous := Retain(previous, job.profile, ids);
      log := log + [Handled(job, ids)];
      ghost var start := Memory(previous, failed, log);
      for k := 0 to |table|
        invariant Memory(previous, failed, log) == HandleRoutes(render, start, job, table[..k], ok)
        invariant queue == old(queue)[1..] && pending == old(pending) && cache == old(cache)[job.profile := table]
      {
        assert table[..k + 1][..k] == table[..k];
        Deliver(job, table[k], ok(k));
      }
      assert table[..|table|] == table;
      if job.profile in old(cache) { assert old(cache)[job.profile := table] == old(cache); }
    }

    /** The body of the loop over the routes. */
    method Deliver(job: Job, r: Route, ok: bool)
      modifies this`previous, this`failed, this`log
      ensures Memory(previous, failed, log) == HandleRoute(render, old(Memory(previous, failed, log)), job, r, ok)
    {
      if !r.enabled || !Accepts(r, job) { return; }
      var key := Key(job.profile, r.id);
      var payload: Option<TemplateRendering.Value> := None;
      if r.trigger.OnStateChange? {
        match render(r, job.state) {
          case Missing => return;
          case Broken =>
            ReportError(NotRendered(key));
            return;
          case Payload(p) =>
            if key in previous && previous[key] == p { return; }
            payload := Some(p);
        }
      }
      if !ok {
        ReportError(DeliveryFailed(key));
        return;
      }
      log := log + [if payload.Some? then StateDelivered(key, payload.value) else EventDelivered(key)];
      if payload.Some? { previous := previous[key := payload.value]; }
      failed := false;
    }
  }
}
