/** The shared fixtures of the `ref_core` unit tests: a metric that always
    succeeds, one that always fails, and a provider registering both. */
module ProviderFixture {
  import opened Wrappers
  import opened Paths
  import opened RefCore
  import opened CeleryTasks

  /** `MockMetric.run`: successful, bundle at `output_fragment / "output.json"`. */
  function MockRun(configuration: Configuration, trigger: TriggerInfo): MetricResult
  {
    MetricResult(Some(Join(configuration.outputFragment, Name("output.json"))), true)
  }

  /** `FailedMetric.run`: unsuccessful, no bundle. */
  function FailedRun(configuration: Configuration, trigger: TriggerInfo): MetricResult
  {
    MetricResult(None, false)
  }

  const MockMetric: Metric := Metric("mock", MockRun)
  const FailedMetric: Metric := Metric("failed", FailedRun)

  /** Whatever the configuration and trigger, the mock metric succeeds and
      names an `output.json` file strictly inside its output fragment. */
  lemma MockMetricSucceeds(configuration: Configuration, trigger: TriggerInfo)
    ensures var r := MockMetric.run(configuration, trigger);
            r.successful && r.outputBundle.Some?
            && StrictlyInside(r.outputBundle.value, configuration.outputFragment)
            && r.outputBundle.value.parts[|r.outputBundle.value.parts| - 1] == "output.json"
  {
    var fragment := configuration.outputFragment;
    assert fragment.parts[..|fragment.parts|] == fragment.parts;
    JoinStaysInside(fragment, fragment, Name("output.json"));
  }

  /** Whatever the configuration and trigger, the failing metric reports
      failure and names no bundle. */
  lemma FailedMetricFails(configuration: Configuration, trigger: TriggerInfo)
    ensures !FailedMetric.run(configuration, trigger).successful
    ensures FailedMetric.run(configuration, trigger).outputBundle.None?
  {
  }

  /** The `provider` fixture: `mock_provider` at `v0.1.0`, registering `mock`
      and then `failed`; both registrations go through. */
  method Provider() returns (provider: MetricsProvider)
    ensures fresh(provider) && provider.Valid()
    ensures provider.name == "mock_provider" && provider.version == "v0.1.0"
    ensures provider.metrics == [MockMetric, FailedMetric]
  {
    provider := new MetricsProvider("mock_provider", "v0.1.0");
    var first := provider.Register(MockMetric);
    assert "failed" !in Names([MockMetric]);
    var second := provider.Register(FailedMetric);
  }

  /** The fixture's names are distinct, so each name finds its own metric. */
  lemma FixtureNamesIdentifyMetrics()
    ensures NamesDistinct([MockMetric, FailedMetric])
    ensures Find([MockMetric, FailedMetric], "mock") == Some(MockMetric)
    ensures Find([MockMetric, FailedMetric], "failed") == Some(FailedMetric)
  {
    var ms := [MockMetric, FailedMetric];
    assert ms[0].name == "mock" && ms[1].name == "failed";
    FindRegistered(ms, 0);
    FindRegistered(ms, 1);
  }

  /** Registering the fixture's tasks on a fresh worker app gives exactly
      the tasks `mock_provider_mock` and `mock_provider_failed`, in that
      order, both on queue `mock_provider`: `names` and `queues` are read off
      the whole task table. */
  method RegisterFixtureTasks() returns (names: seq<string>, queues: seq<string>)
    ensures names == ["mock_provider_mock", "mock_provider_failed"]
    ensures queues == ["mock_provider", "mock_provider"]
  {
    var provider := Provider();
    var app := new CeleryApp();
    RegisterCeleryTasks(app, provider);
    FixtureTaskTable();
    var registry := app.registry;
    assert registry == Registered([], TasksFor("mock_provider", [MockMetric, FailedMetric]));
    names := RegistryNames(registry);
    queues := [registry[0].queue, registry[1].queue];
  }

  /** The task table the fixture provider gives on a fresh app. */
  lemma FixtureTaskTable()
    ensures var registry := Registered([], TasksFor("mock_provider", [MockMetric, FailedMetric]));
            && RegistryNames(registry) == ["mock_provider_mock", "mock_provider_failed"]
            && |registry| == 2 && registry[0].queue == "mock_provider" && registry[1].queue == "mock_provider"
  {
    var registry := Registered([], TasksFor("mock_provider", [MockMetric, FailedMetric]));
    FixtureNamesIdentifyMetrics();
    OneTaskPerMetric("mock_provider", [MockMetric, FailedMetric]);
    FixtureTaskNames();
    var names := RegistryNames(registry);
    assert names[0] == "mock_provider_mock" && names[1] == "mock_provider_failed";
  }

  lemma FixtureTaskNames()
    ensures TaskName("mock_provider", "mock") == "mock_provider_mock"
    ensures TaskName("mock_provider", "failed") == "mock_provider_failed"
  {
    assert "mock_provider" + "_" + "mock" == "mock_provider_mock";
    assert "mock_provider" + "_" + "failed" == "mock_provider_failed";
  }
}
