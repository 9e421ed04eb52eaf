/** The two CMEC bundle models (`CMECOutput` and `CMECMetric`). Each is a
    record of top-level sections; a dict is accepted as one when its keys are
    exactly the section names, and the model dumps back to that dict. The
    sections' own contents are kept as JSON values. */
module Cmec {
  import opened Wrappers
  import opened Json

  /** The output (diagnostics) bundle. */
  datatype CMECOutput = CMECOutput(provenance: Json, index: Json, data: Json, html: Json, metrics: Json, plots: Json)

  const OutputSections: set<string> := {"provenance", "index", "data", "html", "metrics", "plots"}

  function OutputToDict(o: CMECOutput): (d: map<string, Json>)
    ensures d.Keys == OutputSections
  {
    map["provenance" := o.provenance, "index" := o.index, "data" := o.data,
        "html" := o.html, "metrics" := o.metrics, "plots" := o.plots]
  }

  /** `CMECOutput(**d)`: `None` when `d` does not have exactly the sections. */
  function OutputFromDict(d: map<string, Json>): (r: Option<CMECOutput>)
    ensures r.Some? <==> d.Keys == OutputSections
  {
    if d.Keys == OutputSections then
      Some(CMECOutput(d["provenance"], d["index"], d["data"], d["html"], d["metrics"], d["plots"]))
    else None
  }

  /** Loading a dict into the model and dumping it gives the dict back... */
  lemma OutputDictRoundTrip(d: map<string, Json>)
    requires OutputFromDict(d).Some?
    ensures OutputToDict(OutputFromDict(d).value) == d
  {
    var e := OutputToDict(OutputFromDict(d).value);
    assert e.Keys == d.Keys;
    forall k | k in d ensures e[k] == d[k] {
      assert k in OutputSections;
    }
  }

  /** ...and dumping a model and loading it gives the model back. */
  lemma OutputModelRoundTrip(o: CMECOutput)
    ensures OutputFromDict(OutputToDict(o)) == Some(o)
  {
  }

  /** The metric (scores) bundle. */
  datatype CMECMetric = CMECMetric(schema: Json, dimensions: Json, results: Json, disclaimer: Json, notes: Json, provenance: Json)

  const MetricSections: set<string> := {"SCHEMA", "DIMENSIONS", "RESULTS", "DISCLAIMER", "NOTES", "PROVENANCE"}

  function MetricToDict(m: CMECMetric): (d: map<string, Json>)
    ensures d.Keys == MetricSections
  {
    map["SCHEMA" := m.schema, "DIMENSIONS" := m.dimensions, "RESULTS" := m.results,
        "DISCLAIMER" := m.disclaimer, "NOTES" := m.notes, "PROVENANCE" := m.provenance]
  }

  /** `CMECMetric(**d)`: `None` when `d` does not have exactly the sections. */
  function MetricFromDict(d: map<string, Json>): (r: Option<CMECMetric>)
    ensures r.Some? <==> d.Keys == MetricSections
  {
    if d.Keys == MetricSections then
      Some(CMECMetric(d["SCHEMA"], d["DIMENSIONS"], d["RESULTS"], d["DISCLAIMER"], d["NOTES"], d["PROVENANCE"]))
    else None
  }

  lemma MetricDictRoundTrip(d: map<string, Json>)
    requires MetricFromDict(d).Some?
    ensures MetricToDict(MetricFromDict(d).value) == d
  {
    var e := MetricToDict(MetricFromDict(d).value);
    assert e.Keys == d.Keys;
    forall k | k in d ensures e[k] == d[k] {
      assert k in MetricSections;
    }
  }

  lemma MetricModelRoundTrip(m: CMECMetric)
    ensures MetricFromDict(MetricToDict(m)) == Some(m)
  {
  }
}
