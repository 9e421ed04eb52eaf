# CMIP Rapid Evaluation Framework — a Dafny model of its core

This project models the parts of the CMIP Rapid Evaluation Framework (REF)
that decide which data a metric runs on and what a metric execution leaves
behind. It covers five areas:

- **Facet filtering.** A `DataRequirement` holds a sequence of `FacetFilter`s.
  They are applied one after another to a dataset catalog, which is a table of
  rows that keep their original index. Each filter keeps the rows that match
  all of its facets, or, with `keep=False`, the rows that do not. A facet on a
  missing column raises a `KeyError` with an exact message.
- **Result records.** `MetricResult.build_from_failure`,
  `build_from_output_bundle` and `build_from_metric_bundle` build results.
  The success builders write CMEC bundles as JSON files beneath the
  execution's output directory, which is modelled as a file store (a map from
  path to JSON value). The files read back as the bundle that was passed in,
  and they lie inside the output directory.
- **Two metric providers' declarations.** The example provider's
  `GlobalMeanTimeseries` covers its requirement, its CMEC bundle formatter and
  the `trigger is None` branch of `run`. The PMP provider's
  `ExtratropicalModesOfVariability_PDO` covers its requirement and the
  decision `run` makes from the driver's outcome.
- **Celery worker registration.** There is one task per metric of a provider,
  named `"{provider}_{metric}"`, on the provider's queue, in iteration order.
  Each task delegates to `metric.run`.
- **The unit-test fixtures.** These are the mock and failing metrics and the
  two-metric `mock_provider`. The concrete expectations of the filter and
  result tests in `packages/ref-core/tests/unit/test_metrics.py` are proved as
  lemmas about the model.

The modules are:

| module | file | what it holds |
|---|---|---|
| `Wrappers` | `wrappers.dfy` | `Option` and `Result` |
| `Json` | `json.dfy` | JSON values; key-path lookup |
| `Paths` | `paths.dfy` | `pathlib`-style paths and `/` |
| `Files` | `files.dfy` | the file store (a class whose map the writers update) |
| `Datasets` | `datasets.dfy` | catalogs, rows, facet filters, row selection, `unique()` |
| `Requirements` | `requirements.dfy` | `DataRequirement.apply_filters` as a fold over filters |
| `Cmec` | `cmec.dfy` | the `CMECOutput` and `CMECMetric` bundle models |
| `Metrics` | `metrics.dfy` | execution definitions, results and the three builders |
| `MetricsTests` | `metrics_tests.dfy` | the cases of the filter and result tests |
| `RefCore` | `ref_core.dfy` | the older `ref_core` API: configuration, trigger, result, metric, provider |
| `CeleryTasks` | `tasks.dfy` | `metric_task_factory` and `register_celery_tasks` |
| `ProviderFixture` | `conftest.dfy` | the shared test fixtures |
| `ExampleMetric` | `example.dfy` | the example provider's metric |
| `PmpVariabilityModes` | `pmp.dfy` | the PMP provider's PDO metric |

The repository mixes two API generations, and each file is modelled against
its own generation:

- The Celery tasks, the fixtures and the example metric use the older one.
  That is `Configuration`, `TriggerInfo` and
  `MetricResult(output_bundle, successful)`, in `RefCore`.
- The unit tests and the PMP metric use the newer one. That is
  `MetricExecutionDefinition` and the `build_from_*` builders, in `Metrics`.

The implementations of `cmip_ref_core.datasets`, `cmip_ref_core.metrics`,
`cmip_ref_core.pycmec` and `ref_core.providers` are not part of this model.
Their behaviour is taken from the unit tests and call sites that use them.
Where those leave a behaviour open, the model makes a choice, and each such
choice is listed under "Left out".

## Model

Paths in the source column are relative to the repository root.

| member | source | states |
|---|---|---|
| Paths.JoinAssociative | packages/ref-core/tests/unit/test_metrics.py:120 | `directory / fragment / filename` is the same however it is bracketed |
| Paths.JoinStaysInside | packages/ref-core/tests/unit/test_metrics.py:128 | joining a non-empty relative name onto a path at or below `base` lands strictly below `base` |
| Paths.JoinNameInjective | packages/ref-core/tests/unit/test_metrics.py:120-149 | two different file names under one directory are two different paths, so the output and metric bundles never overwrite each other |
| Files.FileStore.Read | packages/ref-core/tests/unit/test_metrics.py:122-125 | reading gives a document exactly when the path is a file, and the document is the one stored there |
| Files.FileStore.Write | packages/ref-core/tests/unit/test_metrics.py:122-126 | after a write the file reads back as the written document, and every other file reads as before |
| Datasets.Alternatives | packages/ref-core/tests/unit/test_metrics.py:191 | a scalar facet value means just that value; a list or tuple means any of its elements |
| Datasets.ScalarIsOneAlternative | packages/ref-core/tests/unit/test_metrics.py:179-191 | a scalar facet value and a one-element tuple of it select the same rows, with `keep` either way |
| Datasets.WhereSameRetention | packages/ref-core/tests/unit/test_metrics.py:203-218 | filters that let the same rows through select the same rows |
| Datasets.Where | packages/ref-core/tests/unit/test_metrics.py:203-218 | the selection is no longer than the input, and each selected row is an input row that every filter lets through |
| Datasets.WhereMembers | packages/ref-core/tests/unit/test_metrics.py:203-218 | a row is selected if and only if it is an input row that every filter lets through |
| Datasets.WhereSelectsExactly | packages/ref-core/tests/unit/test_metrics.py:210-218 | the selection is a subsequence of the input (same rows, same indices, original order) and holds each retained row exactly as often as the input does, and no other row |
| Datasets.SelectsExactlyUnique | packages/ref-core/tests/unit/test_metrics.py:210-218 | that description determines the selection: any sequence meeting it equals `Where` |
| Datasets.WhereCompose | packages/ref-core/tests/unit/test_metrics.py:221-242 | selecting by `fs`, then by `gs`, is selecting once by `fs + gs` |
| Datasets.KeepDropPartition | packages/ref-core/tests/unit/test_metrics.py:245-266 | a filter and its `keep=False` twin split the rows: together they give back the input multiset, and no row lands on both sides |
| Datasets.OppositeSides | packages/ref-core/tests/unit/test_metrics.py:248 | `keep=False` lets a row through exactly when `keep=True` does not |
| Datasets.FirstMissing | packages/ref-core/tests/unit/test_metrics.py:269-280 | no facet is reported missing if and only if every facet's column exists; a reported facet is absent and is the first absent one in declaration order |
| Datasets.UniqueSpec | packages/ref-metrics-pmp/src/cmip_ref_metrics_pmp/variability_modes.py:58-59 | `unique()` lists each value once, exactly the values present, in order of first appearance, so its first element is the first row's value |
| Datasets.ColumnValues | packages/ref-metrics-pmp/src/cmip_ref_metrics_pmp/variability_modes.py:65 | `path.to_list()` has one entry per row, in row order, each holding that row's cell |
| Requirements.ApplyFilter | packages/ref-core/tests/unit/test_metrics.py:175-280 | one filter fails if and only if one of its facets names an absent column; it then reports the first such facet and the current columns; otherwise it keeps the columns and selects the rows it lets through |
| Requirements.ApplyAll | packages/ref-core/tests/unit/test_metrics.py:175-280 | `apply_filters` succeeds if and only if every facet of every filter names a column; success keeps the columns and selects exactly the rows all filters let through; failure names an absent facet and the catalog's columns |
| Requirements.ApplyAllFirstError | packages/ref-core/tests/unit/test_metrics.py:269-280 | the reported facet is the first missing facet of the first filter that has one, and every earlier filter passed the check |
| Requirements.ApplyAllSequential | packages/ref-core/tests/unit/test_metrics.py:221-242 | applying `fs + gs` applies `fs` and then `gs` to the narrowed table; an error in `fs` stops there |
| Requirements.ApplyAllSelects | packages/ref-core/tests/unit/test_metrics.py:210-218 | with every facet present, the result has the same columns and selects exactly the retained rows, as a subsequence with the original indices |
| Requirements.ApplyAllWellFormed | packages/ref-core/tests/unit/test_metrics.py:212-218 | filtering a rectangular table gives a rectangular table |
| Requirements.DeadExclusion | packages/ref-metrics-pmp/src/cmip_ref_metrics_pmp/variability_modes.py:28-31 | an exclusion filter that matches no surviving row changes nothing, including which error is raised |
| Cmec.OutputFromDict | packages/ref-core/tests/unit/test_metrics.py:103-104 | `CMECOutput(**d)` is accepted if and only if `d` has exactly the output bundle's sections |
| Cmec.OutputDictRoundTrip | packages/ref-core/tests/unit/test_metrics.py:99-126 | loading an accepted dict into the output model and dumping it gives the dict back |
| Cmec.OutputModelRoundTrip | packages/ref-core/tests/unit/test_metrics.py:99-126 | dumping an output model and loading it gives the model back |
| Cmec.MetricFromDict | packages/ref-core/tests/unit/test_metrics.py:95-96 | `CMECMetric(**d)` is accepted if and only if `d` has exactly the metric bundle's sections |
| Cmec.MetricDictRoundTrip | packages/ref-core/tests/unit/test_metrics.py:91-149 | loading an accepted dict into the metric model and dumping it gives the dict back |
| Cmec.MetricModelRoundTrip | packages/ref-core/tests/unit/test_metrics.py:91-149 | dumping a metric model and loading it gives the model back |
| Metrics.MetricExecutionDefinition.WithOutputDirectory | packages/ref-core/tests/unit/test_metrics.py:113 | `evolve(definition, output_directory=dir)` sets the directory and leaves every other field unchanged |
| Metrics.OutputDocumentOfDict | packages/ref-core/tests/unit/test_metrics.py:115-126 | an output bundle passed as a valid dict or as the model built from it is written as exactly that dict |
| Metrics.MetricDocumentOfDict | packages/ref-core/tests/unit/test_metrics.py:137-149 | a metric bundle passed as a valid dict or as the model built from it is written as exactly that dict |
| Metrics.RelativeFragmentSafe | packages/ref-core/tests/unit/test_metrics.py:128 | a relative output fragment keeps the output location at or below the output directory |
| Metrics.OutputPathInside | packages/ref-core/tests/unit/test_metrics.py:119-128 | under such a fragment, `to_output_path` of a non-empty relative filename is strictly inside the output directory |
| Metrics.FragmentRepeatingDirectory | packages/ref-core/tests/unit/test_metrics.py:109-113 | the tests' absolute fragment, equal to the output directory, replaces it on joining and is still safe |
| Metrics.AbsoluteFragmentEscapes | packages/ref-core/tests/unit/test_metrics.py:128 | an absolute fragment elsewhere puts the bundle outside the output directory, so containment needs a safe fragment |
| Metrics.BuildFromFailure | packages/ref-core/tests/unit/test_metrics.py:153-162 | the result is unsuccessful, keeps the definition and names no file, so the placement invariant holds for every file store |
| Metrics.BuildFromOutputBundle | packages/ref-core/tests/unit/test_metrics.py:108-128 | succeeds if and only if the bundles validate and the output directory is set; on failure nothing is written, and the error is the invalid output bundle, then the invalid metric bundle, then the unset directory; on success it writes exactly the output bundle (and the metric bundle when given) under the canonical names, reading each back gives the validated document, and under a safe fragment each named file lies strictly inside the output directory |
| Metrics.BuildFromMetricBundle | packages/ref-core/tests/unit/test_metrics.py:130-151 | succeeds if and only if the bundle validates and the output directory is set, otherwise failing with that reason and writing nothing; writes exactly the metric bundle and names no output bundle; it reads back as the validated document and lies inside the output directory under a safe fragment |
| MetricsTests.KeepTasRows | packages/ref-core/tests/unit/test_metrics.py:178-188 | on the fixture catalog, `{"variable": "tas"}` selects the rows at indices 0, 3 and 4 |
| MetricsTests.ApplyFiltersSingleVariable | packages/ref-core/tests/unit/test_metrics.py:178-218 | that requirement succeeds with the same columns, the expected cells and the index `[0, 3, 4]` |
| MetricsTests.KeepTasFromTwoSourcesRows | packages/ref-core/tests/unit/test_metrics.py:190-200 | two facets combine with AND and a list means alternatives: rows 0 and 3 |
| MetricsTests.ApplyFiltersTwoFacets | packages/ref-core/tests/unit/test_metrics.py:190-218 | that requirement succeeds with the expected cells and the index `[0, 3]` |
| MetricsTests.DropAccessRows | packages/ref-core/tests/unit/test_metrics.py:226 | dropping `source_id == "ACCESS"` from the three `tas` rows leaves rows 0 and 4 |
| MetricsTests.ApplyFiltersMulti | packages/ref-core/tests/unit/test_metrics.py:221-242 | keeping `tas` and then dropping `ACCESS` gives the index `[0, 4]` with the expected cells |
| MetricsTests.DropTasRows | packages/ref-core/tests/unit/test_metrics.py:248 | `keep=False` on `tas` selects rows 1 and 2 |
| MetricsTests.ApplyFiltersDontKeep | packages/ref-core/tests/unit/test_metrics.py:245-266 | that requirement gives the index `[1, 2]` with the expected cells |
| MetricsTests.ApplyFiltersMissing | packages/ref-core/tests/unit/test_metrics.py:269-280 | a `keep=False` filter on the absent column `missing` fails with that facet and the catalog's columns |
| MetricsTests.MissingMessage | packages/ref-core/tests/unit/test_metrics.py:278 | the error's message is exactly `Facet 'missing' not in data catalog columns: ['variable', 'source_id']` |
| MetricsTests.BuildFromFailureTest | packages/ref-core/tests/unit/test_metrics.py:153-162 | the failure result is unsuccessful, has no filenames and keeps the input definition |
| MetricsTests.BuildFromOutputBundleTest | packages/ref-core/tests/unit/test_metrics.py:108-128 | for the dict and for the model form, the result is successful, the file is relative to the temporary directory and reads back equal to the dict |
| MetricsTests.BuildFromMetricBundleTest | packages/ref-core/tests/unit/test_metrics.py:130-151 | the same for the metric bundle |
| RefCore.Names | packages/ref-core/tests/conftest.py:28-29 | the registry's names, one per metric, in registration order |
| RefCore.Registering | packages/ref-core/tests/conftest.py:28-29 | `register` fails if and only if the name is taken; otherwise it appends the metric, so the names grow by exactly that name |
| RefCore.RegisteringKeepsNamesDistinct | packages/ref-core/tests/conftest.py:28-29 | registering keeps every name unique in the registry |
| RefCore.Find | packages/ref-core/tests/conftest.py:28-29 | a name finds nothing if and only if no metric has it; anything found carries that name |
| RefCore.FindRegistered | packages/ref-core/tests/conftest.py:28-29 | with distinct names, each metric's name finds that metric |
| RefCore.MetricsProvider.constructor | packages/ref-core/tests/conftest.py:27 | a new provider has the given name and version and no metrics |
| RefCore.MetricsProvider.Register | packages/ref-core/tests/conftest.py:28-29 | the registry keeps distinct names; the call succeeds if and only if the name was free, and then the registry is the old one plus the metric; otherwise it is unchanged |
| CeleryTasks.MetricTaskFactory | packages/ref-celery/src/ref_celery/tasks.py:26-41 | the task returns exactly `metric.run(configuration, trigger)`, whatever keyword arguments it gets |
| CeleryTasks.TaskName | packages/ref-celery/src/ref_celery/tasks.py:59 | the name is the provider name, then `_`, then the metric name |
| CeleryTasks.TaskNameInjective | packages/ref-celery/src/ref_celery/tasks.py:59 | within one provider, two task names are equal if and only if the metric names are |
| CeleryTasks.WithTask | packages/ref-celery/src/ref_celery/tasks.py:59 | `app.task` leaves the name registered and keeps the earlier entries; it adds an entry if and only if the name was new, and that entry is the task |
| CeleryTasks.TasksFor | packages/ref-celery/src/ref_celery/tasks.py:57-59 | one registration per metric, in iteration order, with the task name, the provider's queue, and a handler that delegates to that metric |
| CeleryTasks.TaskNamesDistinct | packages/ref-celery/src/ref_celery/tasks.py:57-59 | a provider with distinct metric names gets distinct task names |
| CeleryTasks.RegisteredAppends | packages/ref-celery/src/ref_celery/tasks.py:57-59 | registering fresh, pairwise distinct names appends them all, in order |
| CeleryTasks.CeleryApp.constructor | packages/ref-celery/src/ref_celery/tasks.py:44 | a new app has no tasks |
| CeleryTasks.CeleryApp.Task | packages/ref-celery/src/ref_celery/tasks.py:59 | the task table becomes the old table with this registration added |
| CeleryTasks.RegisterCeleryTasks | packages/ref-celery/src/ref_celery/tasks.py:44-59 | the loop registers the provider's tasks in iteration order and only changes the app |
| CeleryTasks.OneTaskPerMetric | packages/ref-celery/src/ref_celery/tasks.py:57-59 | on a fresh app, a provider with distinct names gets exactly one task per metric, at that metric's position, named and routed by the rule, and no other task carries that name |
| ProviderFixture.MockMetricSucceeds | packages/ref-core/tests/conftest.py:6-13 | the mock metric always succeeds and names `output.json` strictly inside the output fragment |
| ProviderFixture.FailedMetricFails | packages/ref-core/tests/conftest.py:16-22 | the failing metric always fails and names no bundle |
| ProviderFixture.Provider | packages/ref-core/tests/conftest.py:25-31 | the fixture is `mock_provider` at `v0.1.0` holding `mock` then `failed`, and both registrations go through |
| ProviderFixture.FixtureNamesIdentifyMetrics | packages/ref-core/tests/conftest.py:7-29 | the two names are distinct, and each finds its own metric |
| ProviderFixture.FixtureTaskNames | packages/ref-core/tests/conftest.py:27-29 | the naming rule gives `mock_provider_mock` and `mock_provider_failed` |
| ProviderFixture.FixtureTaskTable | packages/ref-core/tests/conftest.py:27-29 | the fixture provider's task table on a fresh app has exactly two entries, `mock_provider_mock` and `mock_provider_failed`, both on queue `mock_provider` |
| ProviderFixture.RegisterFixtureTasks | packages/ref-core/tests/conftest.py:27-29 | registering the fixture's tasks on a fresh app gives a table whose names are exactly those two, in that order, both on queue `mock_provider` |
| ExampleMetric.RequirementRetains | packages/ref-metrics-example/src/ref_metrics_example/example.py:85-98 | a row passes if and only if its `variable_id` is `tas` or `rsut` and its `experiment_id` is neither listed value |
| ExampleMetric.RequirementSelects | packages/ref-metrics-example/src/ref_metrics_example/example.py:85-98 | on any catalog: a missing `variable_id`, then a missing `experiment_id`, is the error; with both present, the selection is `Where` over the requirement's filters: exactly those rows, each as often as in the catalog, order, indices and columns kept |
| ExampleMetric.FormatCmecOutputBundle | packages/ref-metrics-example/src/ref_metrics_example/example.py:37-75 | the bundle's top-level keys are exactly `DIMENSIONS`, `SCHEMA` and `RESULTS` |
| ExampleMetric.BundleResults | packages/ref-metrics-example/src/ref_metrics_example/example.py:70-72 | `RESULTS` has exactly one key, the dataset's `source_id`, holding `{"global": {"tas": ""}}` |
| ExampleMetric.BundleDimensions | packages/ref-metrics-example/src/ref_metrics_example/example.py:52-57 | the dimensions are `source_id` (that one model), `region = {global}` and `variable = {tas}` |
| ExampleMetric.BundleJsonStructure | packages/ref-metrics-example/src/ref_metrics_example/example.py:58-62 | `json_structure` is `["model", "region", "statistic"]` |
| ExampleMetric.BundleSchema | packages/ref-metrics-example/src/ref_metrics_example/example.py:65-69 | `SCHEMA` is exactly name `CMEC-REF`, package `example`, version `v1` |
| ExampleMetric.FormattedBundleConsistent | packages/ref-metrics-example/src/ref_metrics_example/example.py:51-73 | results are keyed by exactly the declared models, and each model has an entry for exactly the declared regions and variables |
| ExampleMetric.FormattedBundleInjective | packages/ref-metrics-example/src/ref_metrics_example/example.py:54-71 | bundles for different models differ |
| ExampleMetric.Run | packages/ref-metrics-example/src/ref_metrics_example/example.py:100-129 | without a trigger, an unsuccessful result naming `output_fragment / "output.json"`; with one, a build request for the configuration carrying the formatted bundle of the computed dataset's `source_id`, so its `RESULTS` is keyed by that `source_id` |
| ExampleMetric.RunWithoutTrigger | packages/ref-metrics-example/src/ref_metrics_example/example.py:117-122 | without a trigger nothing is computed: the outcome does not depend on the computation, and it is a failure naming a path inside the fragment |
| PmpVariabilityModes.FirstFilterRetains | packages/ref-metrics-pmp/src/cmip_ref_metrics_pmp/variability_modes.py:21-27 | the first filter keeps a row if and only if it is monthly, from `historical` or `hist-GHG`, and of variable `ts` |
| PmpVariabilityModes.NotAmip | packages/ref-metrics-pmp/src/cmip_ref_metrics_pmp/variability_modes.py:29-31 | a `historical` or `hist-GHG` row does not match the `amip` exclusion |
| PmpVariabilityModes.AmipExclusionIsDead | packages/ref-metrics-pmp/src/cmip_ref_metrics_pmp/variability_modes.py:28-31 | on every catalog, the whole requirement gives the same outcome as its first filter alone |
| PmpVariabilityModes.RequirementSelects | packages/ref-metrics-pmp/src/cmip_ref_metrics_pmp/variability_modes.py:17-38 | on any catalog: the first absent one of `frequency`, `experiment_id`, `variable_id` is the error; with all present, the selection is `Where` over the first filter alone: exactly the monthly `ts` rows of the two experiments, each as often as in the catalog, order, indices and columns kept |
| PmpVariabilityModes.DriverInputs | packages/ref-metrics-pmp/src/cmip_ref_metrics_pmp/variability_modes.py:54-71 | the driver's inputs exist if and only if there is a CMIP6 selection with `source_id`, `member_id` and `path` columns and at least one row; then `source_id` and `member_id` are the first row's values, the model files are the `path` column and the reference is `HadISST-1-1` |
| PmpVariabilityModes.DriverInputsErrorOrder | packages/ref-metrics-pmp/src/cmip_ref_metrics_pmp/variability_modes.py:54-65 | the error raised follows the order in which `run` reads: `source_id`, then a row, then `member_id`, then `path` |
| PmpVariabilityModes.Decide | packages/ref-metrics-pmp/src/cmip_ref_metrics_pmp/variability_modes.py:61-90 | an input error propagates; an exception other than `CalledProcessError` escapes, and so does the glob on an unset output directory; the run fails if and only if the driver raises `CalledProcessError`, or it succeeds, there is an output directory and the `*_cmec.json` count is not 1; it builds bundles if and only if the driver succeeds, there is an output directory and the count is exactly 1 |
| PmpVariabilityModes.DriverFailureDominates | packages/ref-metrics-pmp/src/cmip_ref_metrics_pmp/variability_modes.py:61-73 | a driver failing with `CalledProcessError` gives a failed result whatever the file count |
| PmpVariabilityModes.Run | packages/ref-metrics-pmp/src/cmip_ref_metrics_pmp/variability_modes.py:40-90 | each decision's result: the error, `build_from_failure` with nothing written, or a successful result naming both bundles with exactly those two files written; under a safe fragment, every named file lies inside the output directory |

## Left out

- The solver, execution history and grouping by `group_by`: no code implementing them is part of this model. Each metric's `group_by` is declared as data in its `Requirement` constant and nothing is proved about it.
- Wildcards in facet values (`"1pctCO2-*"`, `"hist-*"`): facet values are matched as plain strings by membership only, because no code giving them another meaning is part of this model.
- Facet filter semantics: the implementation of `apply_filters` is not part of this model. A `keep=False` filter drops the rows that match all of its facets; every `keep=False` filter in the modelled code has one facet, where this and per-facet negation agree. The facets' columns are checked, in declaration order, before any row is selected.
- Python's `repr` of the column list is modelled for plain strings only, without quote escaping.
- Bundle file names: the builders' module is not part of this model, so `output.json` and `metric.json` are the chosen canonical names.
- Bundle validation: a dict is accepted when its keys are exactly the bundle's sections. The nested CMEC schema is not checked, and JSON numbers are opaque literals.
- JSON text serialisation is not modelled. The file store holds JSON values, so a file reads back as the value written.
- Paths are already normalised part sequences. `pathlib` normalisation, symlinks and `resolve()` are not modelled.
- Output fragments are meant to be relative to the output directory, but the result tests pass an absolute fragment equal to the output directory (packages/ref-core/tests/unit/test_metrics.py:110-113). The model follows the code: `/` with an absolute right operand replaces the left. Containment is proved under `Metrics.SafeFragment`, which covers both cases, and `Metrics.AbsoluteFragmentEscapes` shows why it is needed.
- `MetricExecutionInfo` in the example metric is modelled as `RefCore.Configuration`, which carries only the output fragment.
- `calculate_annual_mean_timeseries` (xarray and floating-point means) is a parameter of `ExampleMetric.Run` that yields the `source_id` attribute of the result. `MetricResult.build` is not part of this model, so `ExampleMetric.Run` returns the build request instead of its result.
- PMP `run`: these are parameters of `PmpVariabilityModes.Run`, or left out:
  - the driver subprocess and `fetch_reference_data`, together reduced to how the `try` block ends: normally, with `CalledProcessError` (a failed result), or with any other exception (which escapes `run`, as `DriverError`); the kind of that other exception is not modelled;
  - the `*_cmec.json`, `*.png` and `*.nc` globs, reduced to the count of CMEC files;
  - `process_json_result`, reduced to the two bundles it returns.
  `reference_paths` is not among the modelled driver arguments. A missing output directory is passed to the driver as the text `None`; the model passes the `Option` itself.
- Celery: broker transport, asynchronous dispatch, retries, pickling, logging and the `print` in the registration loop are left out. `app.task` keeps the first registration under a name; the app's other state is not modelled.
- That registration never calls `metric.run` holds by construction: `run` is a pure function value that registration only stores.
- The local executor's pass-through, the Celery configuration module, the CLI tests and the database models are not part of this model.
- RefCore.Registering: `ref_core.providers` is not part of this model, so registering a name that is already taken is a chosen behaviour: `RefCore.Registering` fails with `DuplicateMetric` and `RefCore.MetricsProvider.Register` leaves the registry unchanged. The fixture's two names are distinct, so the fixture never takes that path.
- Metrics.BuildFromOutputBundle: the order of its errors (validation before the unset output directory) is a chosen behaviour; `Metrics.BuildFromMetricBundle` uses the same order.
