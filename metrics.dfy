/** Execution definitions and results (`cmip_ref_core.metrics`).

    A definition says where one execution writes: `output_directory` (set by
    the executor) and `output_fragment` beneath it. A result says whether the
    execution succeeded and, if so, which bundle files it wrote, as filenames
    relative to the definition's output location. */
module Metrics {
  import opened Wrappers
  import opened Json
  import opened Paths
  import opened Files
  import opened Datasets
  import opened Cmec

  datatype MetricExecutionDefinition = MetricExecutionDefinition(
    outputFragment: Path,
    key: string,
    metricDataset: Option<map<SourceDatasetType, Catalog>>,
    outputDirectory: Option<Path>)
  {
    /** `attr.evolve(definition, output_directory=dir)`: only that field changes. */
    function WithOutputDirectory(dir: Path): (d: MetricExecutionDefinition)
      ensures d.outputDirectory == Some(dir)
      ensures d.outputFragment == outputFragment && d.key == key && d.metricDataset == metricDataset
    {
      this.(outputDirectory := Some(dir))
    }

    /** `output_directory / output_fragment / filename`. */
    function ToOutputPath(filename: Path): Path
      requires outputDirectory.Some?
    {
      Join(Join(outputDirectory.value, outputFragment), filename)
    }
  }

  datatype MetricResult = MetricResult(
    successful: bool,
    outputBundleFilename: Option<Path>,
    metricBundleFilename: Option<Path>,
    definition: MetricExecutionDefinition)
  {
    /** `result.to_output_path(filename)`. */
    function ToOutputPath(filename: Path): Path
      requires definition.outputDirectory.Some?
    {
      definition.ToOutputPath(filename)
    }
  }

  /** The names the bundles are written under. */
  const OutputBundleFilename: Path := Name("output.json")
  const MetricBundleFilename: Path := Name("metric.json")

  /** A bundle handed to a builder: a plain dict or a bundle model. */
  datatype OutputBundle = OutputDict(dict: map<string, Json>) | OutputObject(output: CMECOutput)
  datatype MetricBundle = MetricDict(dict: map<string, Json>) | MetricObject(metric: CMECMetric)

  /** Why a builder writes nothing: a bundle fails validation, or the
      definition has no output directory yet (it is set by the executor, and
      joining a fragment onto an unset directory raises). Validation comes
      first. */
  datatype BundleError = InvalidOutputBundle | InvalidMetricBundle | OutputDirectoryUnset

  /** The document written for an output bundle, after validating a dict
      against the bundle model; `None` when it does not validate. */
  function OutputDocument(b: OutputBundle): Option<Json>
  {
    match b
    case OutputObject(o) => Some(JObject(OutputToDict(o)))
    case OutputDict(d) =>
      match OutputFromDict(d)
      case Some(o) => Some(JObject(OutputToDict(o)))
      case None => None
  }

  function MetricDocument(b: MetricBundle): Option<Json>
  {
    match b
    case MetricObject(m) => Some(JObject(MetricToDict(m)))
    case MetricDict(d) =>
      match MetricFromDict(d)
      case Some(m) => Some(JObject(MetricToDict(m)))
      case None => None
  }

  /** A valid dict is written exactly as given, and so is the model built
      from it: the form the bundle was passed in does not matter. */
  lemma OutputDocumentOfDict(d: map<string, Json>)
    requires d.Keys == OutputSections
    ensures OutputDocument(OutputDict(d)) == Some(JObject(d))
    ensures OutputDocument(OutputObject(OutputFromDict(d).value)) == Some(JObject(d))
  {
    OutputDictRoundTrip(d);
  }

  lemma MetricDocumentOfDict(d: map<string, Json>)
    requires d.Keys == MetricSections
    ensures MetricDocument(MetricDict(d)) == Some(JObject(d))
    ensures MetricDocument(MetricObject(MetricFromDict(d).value)) == Some(JObject(d))
  {
    MetricDictRoundTrip(d);
  }

  /** The fragment keeps the output location below the output directory:
      it is relative, or (as when the fragment repeats the directory) joining
      it onto the directory lands at or below the directory. */
  predicate SafeFragment(d: MetricExecutionDefinition)
  {
    d.outputDirectory.Some? && IsRelativeTo(Join(d.outputDirectory.value, d.outputFragment), d.outputDirectory.value)
  }

  /** A written file named by a result: relative, present, strictly inside the output directory. */
  predicate FilePlaced(d: MetricExecutionDefinition, filename: Option<Path>, files: map<Path, Json>)
    requires d.outputDirectory.Some?
  {
    filename.Some? ==>
      && !filename.value.absolute
      && d.ToOutputPath(filename.value) in files
      && StrictlyInside(d.ToOutputPath(filename.value), d.outputDirectory.value)
  }

  /** The result invariant: a failed result names no files; a successful one
      names only files that exist inside its output directory. */
  predicate Placed(r: MetricResult, files: map<Path, Json>)
  {
    if !r.successful then r.outputBundleFilename.None? && r.metricBundleFilename.None?
    else
      && r.definition.outputDirectory.Some?
      && FilePlaced(r.definition, r.outputBundleFilename, files)
      && FilePlaced(r.definition, r.metricBundleFilename, files)
  }

  /** A relative fragment is always safe. */
  lemma RelativeFragmentSafe(d: MetricExecutionDefinition)
    requires d.outputDirectory.Some? && !d.outputFragment.absolute
    ensures SafeFragment(d)
  {
    var dir := d.outputDirectory.value;
    assert Join(dir, d.outputFragment).parts[..|dir.parts|] == dir.parts;
  }

  /** A non-empty relative filename under a safe fragment resolves strictly
      inside the output directory. */
  lemma OutputPathInside(d: MetricExecutionDefinition, filename: Path)
    requires SafeFragment(d)
    requires !filename.absolute && |filename.parts| > 0
    ensures StrictlyInside(d.ToOutputPath(filename), d.outputDirectory.value)
  {
    JoinStaysInside(Join(d.outputDirectory.value, d.outputFragment), d.outputDirectory.value, filename);
  }

  /** The bundle test's layout: an absolute fragment equal to the output
      directory replaces it, so the file lands directly in the directory. */
  lemma FragmentRepeatingDirectory(d: MetricExecutionDefinition, filename: Path)
    requires d.outputDirectory == Some(d.outputFragment) && d.outputFragment.absolute
    requires !filename.absolute
    ensures SafeFragment(d)
    ensures d.ToOutputPath(filename) == Join(d.outputFragment, filename)
  {
  }

  /** Without a safe fragment the output location can escape: an absolute
      fragment elsewhere puts the bundle outside the output directory. */
  lemma AbsoluteFragmentEscapes()
    ensures var d := MetricExecutionDefinition(Path(true, ["elsewhere"]), "k", None, Some(Path(true, ["out"])));
            !SafeFragment(d) && !IsRelativeTo(d.ToOutputPath(OutputBundleFilename), Path(true, ["out"]))
  {
    var d := MetricExecutionDefinition(Path(true, ["elsewhere"]), "k", None, Some(Path(true, ["out"])));
    assert d.ToOutputPath(OutputBundleFilename) == Path(true, ["elsewhere", "output.json"]);
    assert Path(true, ["elsewhere", "output.json"]).parts[..1] == ["elsewhere"] != ["out"];
    assert Join(Path(true, ["out"]), d.outputFragment) == Path(true, ["elsewhere"]);
  }

  /** `MetricResult.build_from_failure(definition)`: no files are written. */
  function BuildFromFailure(definition: MetricExecutionDefinition): (r: MetricResult)
    ensures !r.successful && r.definition == definition
    ensures forall files :: Placed(r, files)
  {
    MetricResult(false, None, None, definition)
  }

  /** `MetricResult.build_from_output_bundle(definition, output, metric)`:
      validates the bundles, writes each as JSON beneath the output location
      and returns a successful result naming them. */
  method BuildFromOutputBundle(store: FileStore, definition: MetricExecutionDefinition,
                               output: OutputBundle, metric: Option<MetricBundle>)
    returns (r: Result<MetricResult, BundleError>)
    modifies store
    ensures r.Success? <==> OutputDocument(output).Some? && (metric.Some? ==> MetricDocument(metric.value).Some?)
                            && definition.outputDirectory.Some?
    ensures r.Failure? ==> store.files == old(store.files)
    ensures OutputDocument(output).None? ==> r == Failure(InvalidOutputBundle)
    ensures OutputDocument(output).Some? && metric.Some? && MetricDocument(metric.value).None?
            ==> r == Failure(InvalidMetricBundle)
    ensures (OutputDocument(output).Some? && (metric.Some? ==> MetricDocument(metric.value).Some?)
             && definition.outputDirectory.None?) ==> r == Failure(OutputDirectoryUnset)
    ensures r.Success? ==> r.value == MetricResult(true, Some(OutputBundleFilename),
                                                   if metric.Some? then Some(MetricBundleFilename) else None,
                                                   definition)
    ensures r.Success? ==>
              (var written := old(store.files)[definition.ToOutputPath(OutputBundleFilename) := OutputDocument(output).value];
               store.files == if metric.Some? then written[definition.ToOutputPath(MetricBundleFilename) := MetricDocument(metric.value).value]
                              else written)
    ensures r.Success? ==> store.Read(r.value.ToOutputPath(r.value.outputBundleFilename.value)) == OutputDocument(output)
    ensures r.Success? && metric.Some? ==>
              store.Read(r.value.ToOutputPath(r.value.metricBundleFilename.value)) == MetricDocument(metric.value)
    ensures r.Success? && SafeFragment(definition) ==> Placed(r.value, store.files)
  {
    var outputDoc := OutputDocument(output);
    if outputDoc.None? {
      return Failure(InvalidOutputBundle);
    }
    var metricDoc: Option<Json> := None;
    if metric.Some? {
      metricDoc := MetricDocument(metric.value);
      if metricDoc.None? {
        return Failure(InvalidMetricBundle);
      }
    }
    if definition.outputDirectory.None? {
      return Failure(OutputDirectoryUnset);
    }
    var outputPath := definition.ToOutputPath(OutputBundleFilename);
    var metricPath := definition.ToOutputPath(MetricBundleFilename);
    JoinNameInjective(Join(definition.outputDirectory.value, definition.outputFragment), "output.json", "metric.json");
    store.Write(outputPath, outputDoc.value);
    var metricFilename: Option<Path> := None;
    if metric.Some? {
      store.Write(metricPath, metricDoc.value);
      metricFilename := Some(MetricBundleFilename);
    }
    r := Success(MetricResult(true, Some(OutputBundleFilename), metricFilename, definition));
    if SafeFragment(definition) {
      OutputPathInside(definition, OutputBundleFilename);
      OutputPathInside(definition, MetricBundleFilename);
    }
  }

  /** `MetricResult.build_from_metric_bundle(definition, metric)`: only the
      metric bundle is written; the output bundle filename stays `None`. */
  method BuildFromMetricBundle(store: FileStore, definition: MetricExecutionDefinition, metric: MetricBundle)
    returns (r: Result<MetricResult, BundleError>)
    modifies store
    ensures r.Success? <==> MetricDocument(metric).Some? && definition.outputDirectory.Some?
    ensures r.Failure? ==> store.files == old(store.files)
    ensures MetricDocument(metric).None? ==> r == Failure(InvalidMetricBundle)
    ensures MetricDocument(metric).Some? && definition.outputDirectory.None? ==> r == Failure(OutputDirectoryUnset)
    ensures r.Success? ==> r.value == MetricResult(true, None, Some(MetricBundleFilename), definition)
    ensures r.Success? ==> store.files == old(store.files)[definition.ToOutputPath(MetricBundleFilename) := MetricDocument(metric).value]
    ensures r.Success? ==> store.Read(r.value.ToOutputPath(r.value.metricBundleFilename.value)) == MetricDocument(metric)
    ensures r.Success? && SafeFragment(definition) ==> Placed(r.value, store.files)
  {
    var doc := MetricDocument(metric);
    if doc.None? {
      return Failure(InvalidMetricBundle);
    }
    if definition.outputDirectory.None? {
      return Failure(OutputDirectoryUnset);
    }
    store.Write(definition.ToOutputPath(MetricBundleFilename), doc.value);
    r := Success(MetricResult(true, None, Some(MetricBundleFilename), definition));
    if SafeFragment(definition) {
      OutputPathInside(definition, MetricBundleFilename);
    }
  }
}
