/** Worker-side Celery registration (`ref_celery.tasks`): one task per metric
    of a provider, named `"{provider}_{metric}"` and routed to the queue named
    after the provider. The Celery app is reduced to its task table. */
module CeleryTasks {
  import opened Wrappers
  import opened RefCore

  /** A Celery task body: configuration, trigger and arbitrary keyword
      arguments (modelled as a string map) to a result. */
  type Task = (Configuration, TriggerInfo, map<string, string>) -> MetricResult

  /** `metric_task_factory(metric)`: the task delegates to `metric.run` and
      ignores its keyword arguments. */
  function MetricTaskFactory(metric: Metric): (task: Task)
    ensures forall c, t, kw :: task(c, t, kw) == metric.run(c, t)
  {
    (c: Configuration, t: TriggerInfo, kw: map<string, string>) => metric.run(c, t)
  }

  /** The task name `f"{provider.name}_{metric.name}"`. */
  function TaskName(providerName: string, metricName: string): (name: string)
    ensures |name| == |providerName| + 1 + |metricName|
    ensures name[..|providerName|] == providerName && name[|providerName|] == '_'
    ensures name[|providerName| + 1..] == metricName
  {
    providerName + "_" + metricName
  }

  /** Within one provider, distinct metric names give distinct task names. */
  lemma TaskNameInjective(providerName: string, a: string, b: string)
    ensures TaskName(providerName, a) == TaskName(providerName, b) <==> a == b
  {
    if TaskName(providerName, a) == TaskName(providerName, b) {
      calc {
        a;
        TaskName(providerName, a)[|providerName| + 1..];
        TaskName(providerName, b)[|providerName| + 1..];
        b;
      }
    }
  }

  /** One entry of the app's task table. */
  datatype Registration = Registration(name: string, queue: string, handler: Task)

  /** The task table's names, in registration order. This is `RefCore.Names`
      again for another record type: Dafny has no structural field access
      across datatypes, and a generic version would need a projection
      function that every quantifier over names would then have to unfold. */
  function RegistryNames(registry: seq<Registration>): (names: seq<string>)
    ensures |names| == |registry|
    ensures forall i :: 0 <= i < |registry| ==> names[i] == registry[i].name
    decreases |registry|
  {
    if registry == [] then [] else RegistryNames(registry[..|registry| - 1]) + [registry[|registry| - 1].name]
  }

  /** `app.task(handler, name=..., queue=...)` on a task table: a name that
      is already registered keeps its first registration. */
  function WithTask(registry: seq<Registration>, t: Registration): (r: seq<Registration>)
    ensures t.name in RegistryNames(r)
    ensures |registry| <= |r| <= |registry| + 1 && r[..|registry|] == registry
    ensures t.name !in RegistryNames(registry) <==> |r| == |registry| + 1
    ensures |r| == |registry| + 1 ==> r[|registry|] == t
  {
    if t.name in RegistryNames(registry) then
      assert registry[..|registry|] == registry;
      registry
    else
      var r := registry + [t];
      assert r[..|registry|] == registry;
      assert RegistryNames(r)[|registry|] == t.name;
      r
  }

  /** Registering the tasks `news` one after another. */
  function Registered(registry: seq<Registration>, news: seq<Registration>): seq<Registration>
    decreases |news|
  {
    if news == [] then registry
    else WithTask(Registered(registry, news[..|news| - 1]), news[|news| - 1])
  }

  /** The registrations `register_celery_tasks` makes for a provider, in its
      iteration order. */
  function TasksFor(providerName: string, metrics: seq<Metric>): (tasks: seq<Registration>)
    ensures |tasks| == |metrics|
    ensures forall i :: 0 <= i < |metrics| ==>
              tasks[i].name == TaskName(providerName, metrics[i].name) && tasks[i].queue == providerName
    ensures forall i :: 0 <= i < |metrics| ==>
              forall c, t, kw :: tasks[i].handler(c, t, kw) == metrics[i].run(c, t)
    decreases |metrics|
  {
    if metrics == [] then []
    else
      var last := metrics[|metrics| - 1];
      TasksFor(providerName, metrics[..|metrics| - 1])
        + [Registration(TaskName(providerName, last.name), providerName, MetricTaskFactory(last))]
  }

  /** The task names of a provider with distinct metric names are distinct. */
  lemma TaskNamesDistinct(providerName: string, metrics: seq<Metric>)
    requires NamesDistinct(metrics)
    ensures forall i, j :: 0 <= i < j < |metrics| ==>
              TasksFor(providerName, metrics)[i].name != TasksFor(providerName, metrics)[j].name
  {
    var tasks := TasksFor(providerName, metrics);
    forall i, j | 0 <= i < j < |metrics|
      ensures tasks[i].name != tasks[j].name
    {
      TaskNameInjective(providerName, metrics[i].name, metrics[j].name);
    }
  }

  /** When none of the new names is taken and they are pairwise distinct,
      every new task is appended, in order. */
  lemma {:induction false} RegisteredAppends(registry: seq<Registration>, news: seq<Registration>)
    requires forall i :: 0 <= i < |news| ==> news[i].name !in RegistryNames(registry)
    requires forall i, j :: 0 <= i < j < |news| ==> news[i].name != news[j].name
    ensures Registered(registry, news) == registry + news
    decreases |news|
  {
    if news != [] {
      var init := news[..|news| - 1];
      var last := news[|news| - 1];
      assert forall i :: 0 <= i < |init| ==> init[i] == news[i];
      RegisteredAppends(registry, init);
      FreshAfter(registry, news);
      assert Registered(registry, news) == WithTask(registry + init, last);
      AppendLast(registry, news);
    }
  }

  /** The last new name is taken neither before nor by the earlier new tasks. */
  lemma FreshAfter(registry: seq<Registration>, news: seq<Registration>)
    requires news != []
    requires forall i :: 0 <= i < |news| ==> news[i].name !in RegistryNames(registry)
    requires forall i, j :: 0 <= i < j < |news| ==> news[i].name != news[j].name
    ensures news[|news| - 1].name !in RegistryNames(registry + news[..|news| - 1])
  {
    var before := registry + news[..|news| - 1];
    var last := news[|news| - 1];
    forall k | 0 <= k < |before|
      ensures RegistryNames(before)[k] != last.name
    {
      if k < |registry| {
        assert before[k] == registry[k];
        assert RegistryNames(registry)[k] == registry[k].name;
      } else {
        assert before[k] == news[k - |registry|];
      }
    }
  }

  lemma AppendLast(registry: seq<Registration>, news: seq<Registration>)
    requires news != []
    requires news[|news| - 1].name !in RegistryNames(registry + news[..|news| - 1])
    ensures WithTask(registry + news[..|news| - 1], news[|news| - 1]) == registry + news
  {
    var init := news[..|news| - 1];
    assert news == init + [news[|news| - 1]];
    assert registry + init + [news[|news| - 1]] == registry + (init + [news[|news| - 1]]);
  }

  /** The worker's Celery application, reduced to its task table. */
  class CeleryApp {
    var registry: seq<Registration>

    constructor()
      ensures registry == []
    {
      registry := [];
    }

    /** `app.task(handler, name=name, queue=queue)`. */
    method Task(handler: Task, name: string, queue: string)
      modifies this
      ensures registry == WithTask(old(registry), Registration(name, queue, handler))
    {
      registry := WithTask(registry, Registration(name, queue, handler));
    }
  }

  /** `register_celery_tasks(app, provider)`: registers the provider's tasks
      in iteration order; the provider is only read. */
  method RegisterCeleryTasks(app: CeleryApp, provider: MetricsProvider)
    modifies app
    ensures app.registry == Registered(old(app.registry), TasksFor(provider.name, provider.metrics))
  {
    var i := 0;
    while i < |provider.metrics|
      invariant 0 <= i <= |provider.metrics|
      invariant app.registry == Registered(old(app.registry), TasksFor(provider.name, provider.metrics[..i]))
    {
      var m := provider.metrics[i];
      assert provider.metrics[..i + 1][..i] == provider.metrics[..i];
      app.Task(MetricTaskFactory(m), TaskName(provider.name, m.name), provider.name);
      i := i + 1;
    }
    assert provider.metrics[..i] == provider.metrics;
  }

  /** On a fresh app, a provider with distinct metric names gets exactly one
      task per metric, at the metric's own position, named and routed by the
      naming rule, and delegating to that metric. */
  lemma OneTaskPerMetric(providerName: string, metrics: seq<Metric>)
    requires NamesDistinct(metrics)
    ensures var registry := Registered([], TasksFor(providerName, metrics));
            |registry| == |metrics|
            && (forall i :: 0 <= i < |metrics| ==>
                  registry[i].name == TaskName(providerName, metrics[i].name)
                  && registry[i].queue == providerName
                  && forall j :: 0 <= j < |registry| && registry[j].name == TaskName(providerName, metrics[i].name) ==> j == i)
  {
    var tasks := TasksFor(providerName, metrics);
    TaskNamesDistinct(providerName, metrics);
    RegisteredAppends([], tasks);
    assert [] + tasks == tasks;
  }
}
