/** The older `ref_core` API used by the Celery tasks, the example metric and
    the unit-test fixtures: a configuration naming an output fragment, a
    trigger naming a dataset, a result record with one optional bundle path,
    metrics as a name plus a `run` function, and the provider registry. */
module RefCore {
  import opened Wrappers
  import opened Paths

  /** `ref_core.metrics.Configuration`: where an execution writes. */
  datatype Configuration = Configuration(outputFragment: Path)

  /** `ref_core.metrics.TriggerInfo`: the dataset that caused the run. */
  datatype TriggerInfo = TriggerInfo(dataset: Path)

  /** `MetricResult(output_bundle=..., successful=...)` of this API generation. */
  datatype MetricResult = MetricResult(outputBundle: Option<Path>, successful: bool)

  /** A metric: its `name` and its `run` method. `run` is a pure function of
      its arguments here; whatever it does inside is not part of this model. */
  datatype Metric = Metric(name: string, run: (Configuration, TriggerInfo) -> MetricResult)

  /** The names of `metrics`, in order. */
  function Names(metrics: seq<Metric>): (names: seq<string>)
    ensures |names| == |metrics|
    ensures forall i :: 0 <= i < |metrics| ==> names[i] == metrics[i].name
    decreases |metrics|
  {
    if metrics == [] then [] else Names(metrics[..|metrics| - 1]) + [metrics[|metrics| - 1].name]
  }

  /** No two metrics share a name. */
  predicate NamesDistinct(metrics: seq<Metric>)
  {
    forall i, j :: 0 <= i < j < |metrics| ==> metrics[i].name != metrics[j].name
  }

  datatype RegistryError = DuplicateMetric(name: string)

  /** `register(metric)` on a registry holding `metrics`: append, unless a
      metric of that name is already there. */
  function Registering(metrics: seq<Metric>, m: Metric): (r: Result<seq<Metric>, RegistryError>)
    ensures r.Failure? <==> m.name in Names(metrics)
    ensures r.Failure? ==> r.error == DuplicateMetric(m.name)
    ensures r.Success? ==> Names(r.value) == Names(metrics) + [m.name]
    ensures r.Success? ==> |r.value| == |metrics| + 1 && r.value[..|metrics|] == metrics && r.value[|metrics|] == m
  {
    if m.name in Names(metrics) then Failure(DuplicateMetric(m.name))
    else
      var ms := metrics + [m];
      assert ms[..|metrics|] == metrics;
      Success(ms)
  }

  /** Registering keeps names unique: the registry is always a function from
      name to metric. */
  lemma RegisteringKeepsNamesDistinct(metrics: seq<Metric>, m: Metric)
    requires NamesDistinct(metrics)
    ensures Registering(metrics, m).Success? ==> NamesDistinct(Registering(metrics, m).value)
  {
    var r := Registering(metrics, m);
    if r.Success? {
      var ms := r.value;
      forall i, j | 0 <= i < j < |ms|
        ensures ms[i].name != ms[j].name
      {
        if j == |metrics| {
          assert ms[i] == metrics[i];
          assert Names(metrics)[i] == metrics[i].name;
        } else {
          assert ms[i] == metrics[i] && ms[j] == metrics[j];
        }
      }
    }
  }

  /** The first metric called `name`, if any. */
  function Find(metrics: seq<Metric>, name: string): (r: Option<Metric>)
    ensures r.None? <==> name !in Names(metrics)
    ensures r.Some? ==> r.value.name == name
    decreases |metrics|
  {
    if metrics == [] then None
    else if metrics[0].name == name then Some(metrics[0])
    else
      assert Names(metrics) == [metrics[0].name] + Names(metrics[1..]) by {
        assert forall i :: 0 <= i < |metrics[1..]| ==> metrics[1..][i] == metrics[i + 1];
      }
      Find(metrics[1..], name)
  }

  /** With distinct names, a name identifies its metric. */
  lemma {:induction false} FindRegistered(metrics: seq<Metric>, i: nat)
    requires NamesDistinct(metrics) && i < |metrics|
    ensures Find(metrics, metrics[i].name) == Some(metrics[i])
    decreases i
  {
    if i > 0 {
      assert metrics[0].name != metrics[i].name;
      assert metrics[1..][i - 1] == metrics[i];
      FindRegistered(metrics[1..], i - 1);
    }
  }

  /** `ref_core.providers.MetricsProvider`: a named, versioned registry whose
      iteration order is registration order. */
  class MetricsProvider {
    const name: string
    const version: string
    var metrics: seq<Metric>

    ghost predicate Valid()
      reads this
    {
      NamesDistinct(metrics)
    }

    constructor(name: string, version: string)
      ensures this.name == name && this.version == version
      ensures metrics == [] && Valid()
    {
      this.name := name;
      this.version := version;
      metrics := [];
    }

    /** `provider.register(metric)`: `ok` is false, and nothing changes, when
        the name is taken. */
    method Register(m: Metric) returns (ok: bool)
      requires Valid()
      modifies this
      ensures Valid()
      ensures ok <==> Registering(old(metrics), m).Success?
      ensures ok ==> metrics == Registering(old(metrics), m).value
      ensures !ok ==> metrics == old(metrics)
    {
      var r := Registering(metrics, m);
      RegisteringKeepsNamesDistinct(metrics, m);
      if r.Success? {
        metrics := r.value;
        ok := true;
      } else {
        ok := false;
      }
    }
  }
}
