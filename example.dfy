/** The example provider's `GlobalMeanTimeseries` metric: its declared data
    requirement, the CMEC output bundle it formats, and what `run` does
    before any computation. */
module ExampleMetric {
  import opened Wrappers
  import opened Json
  import opened Paths
  import opened Datasets
  import opened Requirements
  import RefCore

  const MetricName: string := "global_mean_timeseries"

  /** Keep `tas` and `rsut` ... */
  const KeepVariables: FacetFilter := FacetFilter([Facet("variable_id", AnyOf(["tas", "rsut"]))], true)
  /** ... and drop the listed experiments (matched as plain strings). */
  const DropExperiments: FacetFilter := FacetFilter([Facet("experiment_id", AnyOf(["1pctCO2-*", "hist-*"]))], false)

  const Requirement: DataRequirement := DataRequirement(
    CMIP6,
    [KeepVariables, DropExperiments],
    Some(["model_id", "variable_id", "experiment_id", "variant_label"]))

  /** A row passes the requirement exactly when its `variable_id` is `tas` or
      `rsut` and its `experiment_id` is not one of the listed values. */
  lemma RequirementRetains(r: Row)
    ensures RetainedByAll(Requirement.filters, r)
            <==> HasValueIn(r, "variable_id", {"tas", "rsut"}) && !HasValueIn(r, "experiment_id", {"1pctCO2-*", "hist-*"})
  {
    var fs := Requirement.filters;
    assert fs[0] == KeepVariables && fs[1] == DropExperiments;
    assert Alternatives(KeepVariables.facets[0].value) == {"tas", "rsut"};
    assert Alternatives(DropExperiments.facets[0].value) == {"1pctCO2-*", "hist-*"};
    assert MatchesAll(r, KeepVariables.facets) <==> HasValueIn(r, "variable_id", {"tas", "rsut"});
    assert MatchesAll(r, DropExperiments.facets) <==> HasValueIn(r, "experiment_id", {"1pctCO2-*", "hist-*"});
  }

  /** `apply_filters` on any catalog: the missing column reported first is
      `variable_id`, then `experiment_id`; with both present, the selection
      is the rows described by `RequirementRetains`, same columns, order kept. */
  lemma RequirementSelects(c: Catalog)
    ensures "variable_id" !in c.columns
            ==> Requirement.ApplyFilters(c) == Failure(MissingFacet("variable_id", c.columns))
    ensures "variable_id" in c.columns && "experiment_id" !in c.columns
            ==> Requirement.ApplyFilters(c) == Failure(MissingFacet("experiment_id", c.columns))
    ensures "variable_id" in c.columns && "experiment_id" in c.columns
            ==> Requirement.ApplyFilters(c).Success?
                && Requirement.ApplyFilters(c).value.columns == c.columns
                && IsSubsequence(Requirement.ApplyFilters(c).value.rows, c.rows)
                && Requirement.ApplyFilters(c).value.rows == Where(c.rows, Requirement.filters)
                && SelectsExactly(Requirement.ApplyFilters(c).value.rows, c.rows, Requirement.filters)
                && forall r :: r in Requirement.ApplyFilters(c).value.rows
                               <==> r in c.rows && HasValueIn(r, "variable_id", {"tas", "rsut"})
                                    && !HasValueIn(r, "experiment_id", {"1pctCO2-*", "hist-*"})
  {
    var fs := Requirement.filters;
    assert fs == [KeepVariables] + [DropExperiments];
    ApplyAllSequential(c, [KeepVariables], [DropExperiments]);
    assert [KeepVariables][0] == KeepVariables && [DropExperiments][0] == DropExperiments;
    if "variable_id" in c.columns && "experiment_id" in c.columns {
      WhereMembers(c.rows, fs);
      WhereSelectsExactly(c.rows, fs);
      forall r ensures RetainedByAll(fs, r)
                       <==> HasValueIn(r, "variable_id", {"tas", "rsut"}) && !HasValueIn(r, "experiment_id", {"1pctCO2-*", "hist-*"})
      {
        RequirementRetains(r);
      }
    }
  }

  /** `format_cmec_output_bundle(dataset)`, given the dataset's `source_id`
      attribute. */
  function FormatCmecOutputBundle(sourceId: string): (bundle: Json)
    ensures KeysAt(bundle, []) == {"DIMENSIONS", "SCHEMA", "RESULTS"}
  {
    var empty := JObject(map[]);
    JObject(map[
      "DIMENSIONS" := JObject(map[
        "dimensions" := JObject(map[
          "source_id" := JObject(map[sourceId := empty]),
          "region" := JObject(map["global" := empty]),
          "variable" := JObject(map["tas" := empty])]),
        "json_structure" := JArray([JString("model"), JString("region"), JString("statistic")])]),
      "SCHEMA" := JObject(map[
        "name" := JString("CMEC-REF"),
        "package" := JString("example"),
        "version" := JString("v1")]),
      "RESULTS" := JObject(map[sourceId := JObject(map["global" := JObject(map["tas" := JString("")])])])])
  }

  /** Looking up a path of two or three keys that all exist. */
  lemma LookupTwo(j: Json, a: string, b: string)
    requires j.JObject? && a in j.fields && j.fields[a].JObject? && b in j.fields[a].fields
    ensures Lookup(j, [a, b]) == Some(j.fields[a].fields[b])
  {
    assert [a, b][1..] == [b];
  }

  lemma LookupThree(j: Json, a: string, b: string, c: string)
    requires j.JObject? && a in j.fields && j.fields[a].JObject? && b in j.fields[a].fields
    requires j.fields[a].fields[b].JObject? && c in j.fields[a].fields[b].fields
    ensures Lookup(j, [a, b, c]) == Some(j.fields[a].fields[b].fields[c])
  {
    assert [a, b, c][1..] == [b, c];
    LookupTwo(j.fields[a], b, c);
  }

  /** `RESULTS` has exactly one key, the dataset's `source_id`, holding
      `{"global": {"tas": ""}}`. */
  lemma BundleResults(sourceId: string)
    ensures var b := FormatCmecOutputBundle(sourceId);
            KeysAt(b, ["RESULTS"]) == {sourceId}
            && Lookup(b, ["RESULTS", sourceId]) == Some(JObject(map["global" := JObject(map["tas" := JString("")])]))
            && KeysAt(b, ["RESULTS", sourceId]) == {"global"}
            && KeysAt(b, ["RESULTS", sourceId, "global"]) == {"tas"}
            && Lookup(b, ["RESULTS", sourceId, "global", "tas"]) == Some(JString(""))
  {
    var b := FormatCmecOutputBundle(sourceId);
    LookupTwo(b, "RESULTS", sourceId);
    LookupThree(b, "RESULTS", sourceId, "global");
    var path := ["RESULTS", sourceId, "global", "tas"];
    assert path[1..] == [sourceId, "global", "tas"];
    LookupThree(b.fields["RESULTS"], sourceId, "global", "tas");
  }

  /** `DIMENSIONS.dimensions` lists the one model, `region = {global}` and
      `variable = {tas}`. */
  lemma BundleDimensions(sourceId: string)
    ensures var b := FormatCmecOutputBundle(sourceId);
            KeysAt(b, ["DIMENSIONS", "dimensions"]) == {"source_id", "region", "variable"}
            && KeysAt(b, ["DIMENSIONS", "dimensions", "source_id"]) == {sourceId}
            && KeysAt(b, ["DIMENSIONS", "dimensions", "region"]) == {"global"}
            && KeysAt(b, ["DIMENSIONS", "dimensions", "variable"]) == {"tas"}
  {
    var b := FormatCmecOutputBundle(sourceId);
    LookupTwo(b, "DIMENSIONS", "dimensions");
    LookupThree(b, "DIMENSIONS", "dimensions", "source_id");
    LookupThree(b, "DIMENSIONS", "dimensions", "region");
    LookupThree(b, "DIMENSIONS", "dimensions", "variable");
  }

  /** `DIMENSIONS.json_structure` is model, region, statistic. */
  lemma BundleJsonStructure(sourceId: string)
    ensures Lookup(FormatCmecOutputBundle(sourceId), ["DIMENSIONS", "json_structure"])
            == Some(JArray([JString("model"), JString("region"), JString("statistic")]))
  {
    LookupTwo(FormatCmecOutputBundle(sourceId), "DIMENSIONS", "json_structure");
  }

  /** `SCHEMA` is fixed: name `CMEC-REF`, package `example`, version `v1`. */
  lemma BundleSchema(sourceId: string)
    ensures var b := FormatCmecOutputBundle(sourceId);
            KeysAt(b, ["SCHEMA"]) == {"name", "package", "version"}
            && Lookup(b, ["SCHEMA", "name"]) == Some(JString("CMEC-REF"))
            && Lookup(b, ["SCHEMA", "package"]) == Some(JString("example"))
            && Lookup(b, ["SCHEMA", "version"]) == Some(JString("v1"))
  {
    var b := FormatCmecOutputBundle(sourceId);
    LookupTwo(b, "SCHEMA", "name");
    LookupTwo(b, "SCHEMA", "package");
    LookupTwo(b, "SCHEMA", "version");
  }

  /** The bundle is self-consistent: its results are keyed by exactly the
      models its `source_id` dimension lists, and every dimension value
      declared for region and variable has an entry under each model. */
  lemma FormattedBundleConsistent(sourceId: string)
    ensures var b := FormatCmecOutputBundle(sourceId);
            KeysAt(b, ["RESULTS"]) == KeysAt(b, ["DIMENSIONS", "dimensions", "source_id"])
            && forall m :: m in KeysAt(b, ["RESULTS"]) ==>
                 KeysAt(b, ["RESULTS", m]) == KeysAt(b, ["DIMENSIONS", "dimensions", "region"])
                 && forall g :: g in KeysAt(b, ["RESULTS", m]) ==>
                      KeysAt(b, ["RESULTS", m, g]) == KeysAt(b, ["DIMENSIONS", "dimensions", "variable"])
  {
    BundleResults(sourceId);
    BundleDimensions(sourceId);
  }

  /** Bundles for different models differ: the model is recoverable as the
      one key of `RESULTS`. */
  lemma FormattedBundleInjective(a: string, b: string)
    requires a != b
    ensures FormatCmecOutputBundle(a) != FormatCmecOutputBundle(b)
  {
    BundleResults(a);
    BundleResults(b);
  }

  /** What `run` hands back: a finished result, or the call
      `MetricResult.build(metric_info, bundle)`, whose implementation is not
      part of this model. */
  datatype RunOutcome =
    | Finished(result: RefCore.MetricResult)
    | BuildRequested(configuration: RefCore.Configuration, bundle: Json)

  /** `GlobalMeanTimeseries.run(metric_info, trigger)`. `annualMeanSourceId`
      stands for computing the annual global mean of the trigger's dataset and
      reading the result's `source_id` attribute. */
  function Run(metricInfo: RefCore.Configuration, trigger: Option<RefCore.TriggerInfo>,
               annualMeanSourceId: Path -> string): (r: RunOutcome)
    ensures trigger.None? ==> r.Finished? && !r.result.successful
                              && r.result.outputBundle == Some(Join(metricInfo.outputFragment, Name("output.json")))
    ensures trigger.Some? ==> r.BuildRequested? && r.configuration == metricInfo
                              && r.bundle == FormatCmecOutputBundle(annualMeanSourceId(trigger.value.dataset))
                              && KeysAt(r.bundle, ["RESULTS"]) == {annualMeanSourceId(trigger.value.dataset)}
  {
    match trigger
    case None => Finished(RefCore.MetricResult(Some(Join(metricInfo.outputFragment, Name("output.json"))), false))
    case Some(t) =>
      BundleResults(annualMeanSourceId(t.dataset));
      BuildRequested(metricInfo, FormatCmecOutputBundle(annualMeanSourceId(t.dataset)))
  }

  /** Without a trigger nothing is computed: the outcome depends on the
      configuration alone, and it is a failure that still names a bundle
      path inside the output fragment. */
  lemma RunWithoutTrigger(metricInfo: RefCore.Configuration, f: Path -> string, g: Path -> string)
    ensures Run(metricInfo, None, f) == Run(metricInfo, None, g)
    ensures var r := Run(metricInfo, None, f).result;
            !r.successful && r.outputBundle.Some? && StrictlyInside(r.outputBundle.value, metricInfo.outputFragment)
  {
    var fragment := metricInfo.outputFragment;
    assert fragment.parts[..|fragment.parts|] == fragment.parts;
    JoinStaysInside(fragment, fragment, Name("output.json"));
  }
}
