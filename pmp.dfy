/** The PMP provider's `ExtratropicalModesOfVariability_PDO` metric: its
    declared data requirement and the decision its `run` makes from the
    outcomes of the external driver. The driver subprocess, the reference
    data download and the directory listings stay outside the model: their
    outcomes are parameters. */
module PmpVariabilityModes {
  import opened Wrappers
  import opened Json
  import opened Paths
  import opened Files
  import opened Datasets
  import opened Requirements
  import opened Cmec
  import opened Metrics

  const MetricName: string := "PMP Extratropical modes of variability PDO"
  const Slug: string := "pmp-extratropical-modes-of-variability-pdo"

  /** Monthly `ts` from the historical and hist-GHG experiments ... */
  const KeepMonthlyTs: FacetFilter := FacetFilter(
    [Facet("frequency", One("mon")),
     Facet("experiment_id", AnyOf(["historical", "hist-GHG"])),
     Facet("variable_id", One("ts"))],
    true)
  /** ... without `amip`. */
  const DropAmip: FacetFilter := FacetFilter([Facet("experiment_id", AnyOf(["amip"]))], false)

  const Requirement: DataRequirement := DataRequirement(
    CMIP6,
    [KeepMonthlyTs, DropAmip],
    Some(["source_id", "variable_id", "experiment_id", "variant_label", "member_id"]))

  /** The first filter keeps a row exactly when it is monthly, from one of
      the two experiments, and of variable `ts`. */
  lemma FirstFilterRetains(r: Row)
    ensures Retains(KeepMonthlyTs, r)
            <==> HasValueIn(r, "frequency", {"mon"})
                 && HasValueIn(r, "experiment_id", {"historical", "hist-GHG"})
                 && HasValueIn(r, "variable_id", {"ts"})
  {
    var facets := KeepMonthlyTs.facets;
    assert facets[0].column == "frequency" && Alternatives(facets[0].value) == {"mon"};
    assert facets[1].column == "experiment_id" && Alternatives(facets[1].value) == {"historical", "hist-GHG"};
    assert facets[2].column == "variable_id" && Alternatives(facets[2].value) == {"ts"};
  }

  /** The `amip` exclusion never removes a row, on any catalog: whatever
      survives the first filter has experiment `historical` or `hist-GHG`;
      and when the first filter fails, so does the whole requirement, with
      the same error. */
  lemma AmipExclusionIsDead(c: Catalog)
    ensures Requirement.ApplyFilters(c) == ApplyAll(c, [KeepMonthlyTs])
  {
    assert Requirement.filters == [KeepMonthlyTs] + [DropAmip];
    ApplyAllSequential(c, [KeepMonthlyTs], [DropAmip]);
    var first := ApplyAll(c, [KeepMonthlyTs]);
    if first.Success? {
      assert [KeepMonthlyTs][0] == KeepMonthlyTs;
      assert KeepMonthlyTs.facets[1].column == "experiment_id";
      assert "experiment_id" in c.columns;
      forall r | r in first.value.rows
        ensures !MatchesAll(r, DropAmip.facets)
      {
        assert RetainedByAll([KeepMonthlyTs], r);
        assert Retains([KeepMonthlyTs][0], r);
        FirstFilterRetains(r);
        NotAmip(r);
      }
      DeadExclusion(c, [KeepMonthlyTs], DropAmip);
    }
  }

  /** A historical or hist-GHG row does not match the `amip` exclusion. */
  lemma NotAmip(r: Row)
    requires HasValueIn(r, "experiment_id", {"historical", "hist-GHG"})
    ensures !MatchesAll(r, DropAmip.facets)
  {
    var f := DropAmip.facets[0];
    assert f.column == "experiment_id" && f.value.values == ["amip"];
    assert r.cells["experiment_id"] !in f.value.values;
  }

  /** With the three filtered columns present, the requirement selects
      exactly the monthly `ts` rows of the two experiments, order and
      indices kept; a catalog lacking one of them is rejected, naming the
      first absent column in the filter's facet order. */
  lemma RequirementSelects(c: Catalog)
    ensures "frequency" !in c.columns
            ==> Requirement.ApplyFilters(c) == Failure(MissingFacet("frequency", c.columns))
    ensures "frequency" in c.columns && "experiment_id" !in c.columns
            ==> Requirement.ApplyFilters(c) == Failure(MissingFacet("experiment_id", c.columns))
    ensures "frequency" in c.columns && "experiment_id" in c.columns && "variable_id" !in c.columns
            ==> Requirement.ApplyFilters(c) == Failure(MissingFacet("variable_id", c.columns))
    ensures "frequency" in c.columns && "experiment_id" in c.columns && "variable_id" in c.columns
            ==> Requirement.ApplyFilters(c).Success?
                && Requirement.ApplyFilters(c).value.columns == c.columns
                && IsSubsequence(Requirement.ApplyFilters(c).value.rows, c.rows)
                && Requirement.ApplyFilters(c).value.rows == Where(c.rows, [KeepMonthlyTs])
                && SelectsExactly(Requirement.ApplyFilters(c).value.rows, c.rows, [KeepMonthlyTs])
                && forall r :: r in Requirement.ApplyFilters(c).value.rows
                               <==> r in c.rows && HasValueIn(r, "frequency", {"mon"})
                                    && HasValueIn(r, "experiment_id", {"historical", "hist-GHG"})
                                    && HasValueIn(r, "variable_id", {"ts"})
  {
    AmipExclusionIsDead(c);
    var facets := KeepMonthlyTs.facets;
    assert [KeepMonthlyTs][0] == KeepMonthlyTs;
    assert facets[0].column == "frequency" && facets[1].column == "experiment_id" && facets[2].column == "variable_id";
    if "frequency" in c.columns && "experiment_id" in c.columns && "variable_id" in c.columns {
      WhereMembers(c.rows, [KeepMonthlyTs]);
      WhereSelectsExactly(c.rows, [KeepMonthlyTs]);
      forall r ensures RetainedByAll([KeepMonthlyTs], r) <==> Retains(KeepMonthlyTs, r) {
      }
      forall r ensures Retains(KeepMonthlyTs, r)
                       <==> HasValueIn(r, "frequency", {"mon"})
                            && HasValueIn(r, "experiment_id", {"historical", "hist-GHG"})
                            && HasValueIn(r, "variable_id", {"ts"})
      {
        FirstFilterRetains(r);
      }
    }
  }

  /** Why `run` stops before a result can be built: the exceptions the
      source lets propagate. */
  datatype RunError =
    | NoMetricDataset            // `definition.metric_dataset` is None
    | MissingSourceType          // no CMIP6 selection
    | MissingColumn(name: string) // a column the run reads is absent
    | NoRows                     // `unique()[0]` of an empty selection
    | NoOutputDirectory          // globbing a missing output directory
    | DriverError                // `fetch_reference_data` or the driver raised
                                 // something other than `CalledProcessError`

  /** How the `try` block around `execute_pmp_driver` ends: normally, with
      the `CalledProcessError` that `run` catches, or with any other
      exception, which escapes `run`. */
  datatype DriverOutcome = DriverSucceeded | ProcessFailed | DriverRaised

  /** The arguments handed to `execute_pmp_driver`. */
  datatype DriverArgs = DriverArgs(
    driverFile: string,
    parameterFile: string,
    modelFiles: seq<string>,
    referenceName: string,
    sourceId: string,
    memberId: string,
    outputDirectory: Option<Path>)

  /** Every selection of the definition is a rectangular table, as a data
      frame always is. */
  predicate DefinitionWellFormed(d: MetricExecutionDefinition)
  {
    d.metricDataset.Some? ==> forall t :: t in d.metricDataset.value ==> WellFormed(d.metricDataset.value[t])
  }

  /** The part of `run` before the driver call: pick the CMIP6 selection,
      take the first-appearing `source_id` and `member_id`, and list the
      `path` column as the model files. */
  function DriverInputs(definition: MetricExecutionDefinition): (r: Result<DriverArgs, RunError>)
    requires DefinitionWellFormed(definition)
    ensures definition.metricDataset.None? ==> r == Failure(NoMetricDataset)
    ensures definition.metricDataset.Some? && CMIP6 !in definition.metricDataset.value ==> r == Failure(MissingSourceType)
    ensures r.Success? <==>
              definition.metricDataset.Some? && CMIP6 in definition.metricDataset.value
              && (var c := definition.metricDataset.value[CMIP6];
                  "source_id" in c.columns && "member_id" in c.columns && "path" in c.columns && c.rows != [])
    ensures r.Success? ==>
              var c := definition.metricDataset.value[CMIP6];
              && r.value.sourceId == c.rows[0].cells["source_id"]
              && r.value.memberId == c.rows[0].cells["member_id"]
              && r.value.modelFiles == ColumnValues(c.rows, "path")
              && r.value.referenceName == "HadISST-1-1"
              && r.value.outputDirectory == definition.outputDirectory
  {
    match definition.metricDataset
    case None => Failure(NoMetricDataset)
    case Some(selections) =>
      if CMIP6 !in selections then Failure(MissingSourceType)
      else
        var c := selections[CMIP6];
        if "source_id" !in c.columns then Failure(MissingColumn("source_id"))
        else if c.rows == [] then Failure(NoRows)
        else if "member_id" !in c.columns then Failure(MissingColumn("member_id"))
        else if "path" !in c.columns then Failure(MissingColumn("path"))
        else
          var sources := ColumnValues(c.rows, "source_id");
          var members := ColumnValues(c.rows, "member_id");
          UniqueSpec(sources);
          UniqueSpec(members);
          Success(DriverArgs(
            "variability_mode/variability_modes_driver.py",
            "pmp_param_MoV-PDO.py",
            ColumnValues(c.rows, "path"),
            "HadISST-1-1",
            Unique(sources)[0],
            Unique(members)[0],
            definition.outputDirectory))
  }

  /** The error raised first follows the order in which `run` reads its
      inputs: `source_id`, then a row, then `member_id`, then `path`. */
  lemma DriverInputsErrorOrder(definition: MetricExecutionDefinition)
    requires DefinitionWellFormed(definition)
    requires definition.metricDataset.Some? && CMIP6 in definition.metricDataset.value
    ensures var c := definition.metricDataset.value[CMIP6];
            var r := DriverInputs(definition);
            && ("source_id" !in c.columns ==> r == Failure(MissingColumn("source_id")))
            && ("source_id" in c.columns && c.rows == [] ==> r == Failure(NoRows))
            && ("source_id" in c.columns && c.rows != [] && "member_id" !in c.columns ==> r == Failure(MissingColumn("member_id")))
            && ("source_id" in c.columns && c.rows != [] && "member_id" in c.columns && "path" !in c.columns
                ==> r == Failure(MissingColumn("path")))
  {
  }

  /** What `run` does once the inputs are known. */
  datatype Decision =
    | Raise(error: RunError)   // an exception escapes `run`
    | FailedRun                // `build_from_failure(definition)`
    | BuildBundles             // `build_from_output_bundle` with both bundles

  /** The decision of `run`, given how the driver call ends on its arguments
      and how many `*_cmec.json` files the output directory then holds. */
  function Decide(definition: MetricExecutionDefinition, driver: DriverArgs -> DriverOutcome, cmecFileCount: nat)
    : (d: Decision)
    requires DefinitionWellFormed(definition)
    ensures DriverInputs(definition).Failure? ==> d == Raise(DriverInputs(definition).error)
    ensures DriverInputs(definition).Success? && driver(DriverInputs(definition).value) == DriverRaised
            ==> d == Raise(DriverError)
    ensures (DriverInputs(definition).Success? && driver(DriverInputs(definition).value) == DriverSucceeded
             && definition.outputDirectory.None?) ==> d == Raise(NoOutputDirectory)
    ensures d == FailedRun <==>
              DriverInputs(definition).Success?
              && (driver(DriverInputs(definition).value) == ProcessFailed
                  || (driver(DriverInputs(definition).value) == DriverSucceeded
                      && definition.outputDirectory.Some? && cmecFileCount != 1))
    ensures d == BuildBundles <==>
              DriverInputs(definition).Success? && driver(DriverInputs(definition).value) == DriverSucceeded
              && definition.outputDirectory.Some? && cmecFileCount == 1
  {
    match DriverInputs(definition)
    case Failure(e) => Raise(e)
    case Success(args) =>
      match driver(args)
      case ProcessFailed => FailedRun
      case DriverRaised => Raise(DriverError)
      case DriverSucceeded =>
        if definition.outputDirectory.None? then Raise(NoOutputDirectory)
        else if cmecFileCount != 1 then FailedRun
        else BuildBundles
  }

  /** A driver that fails with `CalledProcessError` gives a failed result
      however many bundle files there are. */
  lemma DriverFailureDominates(definition: MetricExecutionDefinition, driver: DriverArgs -> DriverOutcome, m: nat, n: nat)
    requires DefinitionWellFormed(definition) && DriverInputs(definition).Success?
    requires driver(DriverInputs(definition).value) == ProcessFailed
    ensures Decide(definition, driver, m) == Decide(definition, driver, n) == FailedRun
  {
  }

  /** `ExtratropicalModesOfVariability_PDO.run(definition)`. The driver's
      outcome, the number of `*_cmec.json` files and the bundles
      `process_json_result` derives from them are parameters. Only a run
      that reaches `build_from_output_bundle` writes files. */
  method Run(store: FileStore, definition: MetricExecutionDefinition,
             driver: DriverArgs -> DriverOutcome, cmecFileCount: nat,
             cmecOutput: CMECOutput, cmecMetric: CMECMetric)
    returns (r: Result<MetricResult, RunError>)
    requires DefinitionWellFormed(definition)
    modifies store
    ensures var d := Decide(definition, driver, cmecFileCount);
            && (d.Raise? ==> r == Failure(d.error) && store.files == old(store.files))
            && (d == FailedRun ==> r == Success(BuildFromFailure(definition)) && store.files == old(store.files))
            && (d == BuildBundles ==>
                  && r.Success? && r.value.successful && r.value.definition == definition
                  && r.value.outputBundleFilename == Some(OutputBundleFilename)
                  && r.value.metricBundleFilename == Some(MetricBundleFilename)
                  && store.files == old(store.files)
                       [definition.ToOutputPath(OutputBundleFilename) := JObject(OutputToDict(cmecOutput))]
                       [definition.ToOutputPath(MetricBundleFilename) := JObject(MetricToDict(cmecMetric))])
    ensures r.Success? && SafeFragment(definition) ==> Placed(r.value, store.files)
  {
    var inputs := DriverInputs(definition);
    if inputs.Failure? {
      return Failure(inputs.error);
    }
    var outcome := driver(inputs.value);
    if outcome == ProcessFailed {
      return Success(BuildFromFailure(definition));
    }
    if outcome == DriverRaised {
      return Failure(DriverError);
    }
    if definition.outputDirectory.None? {
      return Failure(NoOutputDirectory);
    }
    if cmecFileCount != 1 {
      return Success(BuildFromFailure(definition));
    }
    var built := BuildFromOutputBundle(store, definition, OutputObject(cmecOutput), Some(MetricObject(cmecMetric)));
    r := Success(built.value);
  }
}
