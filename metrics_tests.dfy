/** The unit tests of result building and filter application, restated as
    facts about the model: the five-row catalog, the filters applied to it
    and the exact rows (with their original indices) that come back. */
module MetricsTests {
  import opened Wrappers
  import opened Json
  import opened Paths
  import opened Files
  import opened Datasets
  import opened Requirements
  import opened Cmec
  import opened Metrics

  const Columns: seq<string> := ["variable", "source_id"]

  function TestRow(index: int, variable: string, sourceId: string): Row
  {
    Row(index, map["variable" := variable, "source_id" := sourceId])
  }

  /** The `apply_data_catalog` fixture. */
  const TestCatalog: Catalog := Catalog(Columns, [
    TestRow(0, "tas", "CESM2"),
    TestRow(1, "pr", "CESM2"),
    TestRow(2, "rsut", "CESM2"),
    TestRow(3, "tas", "ACCESS"),
    TestRow(4, "tas", "CAS")])

  function Requirement(filters: seq<FacetFilter>): DataRequirement
  {
    DataRequirement(CMIP6, filters, None)
  }

  /** The data frame's index: each remaining row's position in the original table. */
  function Indices(rows: seq<Row>): (ix: seq<int>)
    ensures |ix| == |rows| && forall i :: 0 <= i < |rows| ==> ix[i] == rows[i].index
  {
    seq(|rows|, i requires 0 <= i < |rows| => rows[i].index)
  }

  lemma IndicesOfTwo(a: Row, b: Row)
    ensures Indices([a, b]) == [a.index, b.index]
  {
  }

  lemma IndicesOfThree(a: Row, b: Row, c: Row)
    ensures Indices([a, b, c]) == [a.index, b.index, c.index]
  {
  }

  lemma TestRowCells(index: int, variable: string, sourceId: string)
    ensures TestRow(index, variable, sourceId).cells["variable"] == variable
    ensures TestRow(index, variable, sourceId).cells["source_id"] == sourceId
    ensures TestRow(index, variable, sourceId).cells.Keys == {"variable", "source_id"}
  {
    assert "variable" != "source_id";
  }

  /** One filter whose facets all name columns narrows the catalog to `Where`. */
  lemma ApplyOne(c: Catalog, f: FacetFilter)
    requires forall j :: 0 <= j < |f.facets| ==> f.facets[j].column in c.columns
    ensures ApplyAll(c, [f]) == Success(Catalog(c.columns, Where(c.rows, [f])))
  {
    assert AllFacetsPresent(c.columns, [f]) by {
      assert [f][0] == f;
    }
  }

  /** Whether a single-facet filter lets a row through. */
  lemma RetainedBySingleFacet(f: FacetFilter, r: Row)
    requires |f.facets| == 1
    ensures RetainedByAll([f], r) <==> (HasValueIn(r, f.facets[0].column, Alternatives(f.facets[0].value)) == f.keep)
  {
    assert [f][0] == f;
  }

  lemma WhereCons(x: Row, rest: seq<Row>, fs: seq<FacetFilter>)
    ensures Where([x] + rest, fs) == (if RetainedByAll(fs, x) then [x] else []) + Where(rest, fs)
  {
    assert ([x] + rest)[0] == x && ([x] + rest)[1..] == rest;
  }

  /** `Where` over five rows, one row at a time. */
  lemma WhereFive(a: Row, b: Row, c: Row, d: Row, e: Row, fs: seq<FacetFilter>)
    ensures Where([a, b, c, d, e], fs) ==
      (if RetainedByAll(fs, a) then [a] else []) + ((if RetainedByAll(fs, b) then [b] else [])
      + ((if RetainedByAll(fs, c) then [c] else []) + ((if RetainedByAll(fs, d) then [d] else [])
      + (if RetainedByAll(fs, e) then [e] else []))))
  {
    assert [a, b, c, d, e] == [a] + [b, c, d, e];
    assert [b, c, d, e] == [b] + [c, d, e];
    assert [c, d, e] == [c] + [d, e];
    assert [d, e] == [d] + [e];
    assert [e] == [e] + [];
    WhereCons(a, [b, c, d, e], fs);
    WhereCons(b, [c, d, e], fs);
    WhereCons(c, [d, e], fs);
    WhereCons(d, [e], fs);
    WhereCons(e, [], fs);
    assert (if RetainedByAll(fs, e) then [e] else []) + [] == (if RetainedByAll(fs, e) then [e] else []);
  }

  /** The three selections of five rows that the tests expect. */
  lemma WhereKeeps034(a: Row, b: Row, c: Row, d: Row, e: Row, fs: seq<FacetFilter>)
    requires RetainedByAll(fs, a) && !RetainedByAll(fs, b) && !RetainedByAll(fs, c)
    requires RetainedByAll(fs, d) && RetainedByAll(fs, e)
    ensures Where([a, b, c, d, e], fs) == [a, d, e]
  {
    WhereFive(a, b, c, d, e, fs);
    var none: seq<Row> := [];
    assert [a] + (none + (none + ([d] + [e]))) == [a, d, e];
  }

  lemma WhereKeeps03(a: Row, b: Row, c: Row, d: Row, e: Row, fs: seq<FacetFilter>)
    requires RetainedByAll(fs, a) && !RetainedByAll(fs, b) && !RetainedByAll(fs, c)
    requires RetainedByAll(fs, d) && !RetainedByAll(fs, e)
    ensures Where([a, b, c, d, e], fs) == [a, d]
  {
    WhereFive(a, b, c, d, e, fs);
    var none: seq<Row> := [];
    assert [a] + (none + (none + ([d] + none))) == [a, d];
  }

  lemma WhereKeeps12(a: Row, b: Row, c: Row, d: Row, e: Row, fs: seq<FacetFilter>)
    requires !RetainedByAll(fs, a) && RetainedByAll(fs, b) && RetainedByAll(fs, c)
    requires !RetainedByAll(fs, d) && !RetainedByAll(fs, e)
    ensures Where([a, b, c, d, e], fs) == [b, c]
  {
    WhereFive(a, b, c, d, e, fs);
    var none: seq<Row> := [];
    assert (if RetainedByAll(fs, a) then [a] else []) == none;
    assert (if RetainedByAll(fs, b) then [b] else []) == [b];
    assert (if RetainedByAll(fs, c) then [c] else []) == [c];
    assert (if RetainedByAll(fs, d) then [d] else []) == none;
    assert (if RetainedByAll(fs, e) then [e] else []) == none;
    assert none + ([b] + ([c] + (none + none))) == [b, c];
  }

  lemma WhereKeepsOuter(a: Row, b: Row, c: Row, fs: seq<FacetFilter>)
    requires RetainedByAll(fs, a) && !RetainedByAll(fs, b) && RetainedByAll(fs, c)
    ensures Where([a, b, c], fs) == [a, c]
  {
    assert [a, b, c] == [a] + ([b] + ([c] + []));
    WhereCons(a, [b] + ([c] + []), fs);
    WhereCons(b, [c] + [], fs);
    WhereCons(c, [], fs);
  }

  /** A one-facet filter on a fixture row looks at that row's cell only. */
  lemma OneFacetOnTestRow(col: string, v: FacetValue, keep: bool, index: int, variable: string, sourceId: string)
    requires col == "variable" || col == "source_id"
    ensures RetainedByAll([FacetFilter([Facet(col, v)], keep)], TestRow(index, variable, sourceId))
            <==> ((if col == "variable" then variable else sourceId) in Alternatives(v)) == keep
  {
    RetainedBySingleFacet(FacetFilter([Facet(col, v)], keep), TestRow(index, variable, sourceId));
    TestRowCells(index, variable, sourceId);
  }

  lemma ApplyOneToFixture(f: FacetFilter)
    requires forall j :: 0 <= j < |f.facets| ==> f.facets[j].column in Columns
    ensures Requirement([f]).ApplyFilters(TestCatalog) == Success(Catalog(Columns, Where(TestCatalog.rows, [f])))
  {
    ApplyOne(TestCatalog, f);
  }

  /** The filters of the parametrised and multi-filter tests. */
  const KeepTas := FacetFilter([Facet("variable", One("tas"))], true)
  const KeepTasFromTwoSources := FacetFilter([Facet("variable", One("tas")), Facet("source_id", AnyOf(["CESM2", "ACCESS"]))], true)
  const DropAccess := FacetFilter([Facet("source_id", One("ACCESS"))], false)
  const DropTas := FacetFilter([Facet("variable", One("tas"))], false)

  lemma KeepTasRows()
    ensures Where(TestCatalog.rows, [KeepTas]) == [TestRow(0, "tas", "CESM2"), TestRow(3, "tas", "ACCESS"), TestRow(4, "tas", "CAS")]
  {
    OneFacetOnTestRow("variable", One("tas"), true, 0, "tas", "CESM2");
    OneFacetOnTestRow("variable", One("tas"), true, 1, "pr", "CESM2");
    OneFacetOnTestRow("variable", One("tas"), true, 2, "rsut", "CESM2");
    OneFacetOnTestRow("variable", One("tas"), true, 3, "tas", "ACCESS");
    OneFacetOnTestRow("variable", One("tas"), true, 4, "tas", "CAS");
    WhereKeeps034(TestRow(0, "tas", "CESM2"), TestRow(1, "pr", "CESM2"), TestRow(2, "rsut", "CESM2"),
                  TestRow(3, "tas", "ACCESS"), TestRow(4, "tas", "CAS"), [KeepTas]);
  }

  /** `{"variable": "tas"}` keeps the rows at indices 0, 3 and 4. */
  lemma ApplyFiltersSingleVariable()
    ensures var r := Requirement([KeepTas]).ApplyFilters(TestCatalog);
            r == Success(Catalog(Columns, [TestRow(0, "tas", "CESM2"), TestRow(3, "tas", "ACCESS"), TestRow(4, "tas", "CAS")]))
            && Indices(r.value.rows) == [0, 3, 4]
  {
    assert KeepTas.facets[0].column == "variable";
    ApplyOneToFixture(KeepTas);
    KeepTasRows();
    IndicesOfThree(TestRow(0, "tas", "CESM2"), TestRow(3, "tas", "ACCESS"), TestRow(4, "tas", "CAS"));
  }

  lemma TwoFacetsOnTestRow(index: int, variable: string, sourceId: string)
    ensures RetainedByAll([KeepTasFromTwoSources], TestRow(index, variable, sourceId))
            <==> variable == "tas" && sourceId in {"CESM2", "ACCESS"}
  {
    var f := KeepTasFromTwoSources;
    assert [f][0] == f;
    TestRowCells(index, variable, sourceId);
    assert Alternatives(AnyOf(["CESM2", "ACCESS"])) == {"CESM2", "ACCESS"};
    var r := TestRow(index, variable, sourceId);
    assert MatchesAll(r, f.facets) <==> HasValueIn(r, f.facets[0].column, {"tas"}) && HasValueIn(r, f.facets[1].column, {"CESM2", "ACCESS"});
  }

  lemma KeepTasFromTwoSourcesRows()
    ensures Where(TestCatalog.rows, [KeepTasFromTwoSources]) == [TestRow(0, "tas", "CESM2"), TestRow(3, "tas", "ACCESS")]
  {
    TwoFacetsOnTestRow(0, "tas", "CESM2");
    TwoFacetsOnTestRow(1, "pr", "CESM2");
    TwoFacetsOnTestRow(2, "rsut", "CESM2");
    TwoFacetsOnTestRow(3, "tas", "ACCESS");
    TwoFacetsOnTestRow(4, "tas", "CAS");
    WhereKeeps03(TestRow(0, "tas", "CESM2"), TestRow(1, "pr", "CESM2"), TestRow(2, "rsut", "CESM2"),
                 TestRow(3, "tas", "ACCESS"), TestRow(4, "tas", "CAS"), [KeepTasFromTwoSources]);
  }

  /** Two facets combine with AND, and a list is a set of alternatives. */
  lemma ApplyFiltersTwoFacets()
    ensures var r := Requirement([KeepTasFromTwoSources]).ApplyFilters(TestCatalog);
            r == Success(Catalog(Columns, [TestRow(0, "tas", "CESM2"), TestRow(3, "tas", "ACCESS")]))
            && Indices(r.value.rows) == [0, 3]
  {
    assert KeepTasFromTwoSources.facets[0].column == "variable";
    assert KeepTasFromTwoSources.facets[1].column == "source_id";
    ApplyOneToFixture(KeepTasFromTwoSources);
    KeepTasFromTwoSourcesRows();
    IndicesOfTwo(TestRow(0, "tas", "CESM2"), TestRow(3, "tas", "ACCESS"));
  }

  lemma DropAccessRows()
    ensures ApplyAll(Catalog(Columns, [TestRow(0, "tas", "CESM2"), TestRow(3, "tas", "ACCESS"), TestRow(4, "tas", "CAS")]), [DropAccess])
            == Success(Catalog(Columns, [TestRow(0, "tas", "CESM2"), TestRow(4, "tas", "CAS")]))
  {
    var kept := [TestRow(0, "tas", "CESM2"), TestRow(3, "tas", "ACCESS"), TestRow(4, "tas", "CAS")];
    assert DropAccess.facets[0].column == "source_id";
    ApplyOne(Catalog(Columns, kept), DropAccess);
    OneFacetOnTestRow("source_id", One("ACCESS"), false, 0, "tas", "CESM2");
    OneFacetOnTestRow("source_id", One("ACCESS"), false, 3, "tas", "ACCESS");
    OneFacetOnTestRow("source_id", One("ACCESS"), false, 4, "tas", "CAS");
    WhereKeepsOuter(TestRow(0, "tas", "CESM2"), TestRow(3, "tas", "ACCESS"), TestRow(4, "tas", "CAS"), [DropAccess]);
  }

  /** Keep `tas`, then drop `source_id == "ACCESS"`: indices 0 and 4. */
  lemma ApplyFiltersMulti()
    ensures var r := Requirement([KeepTas, DropAccess]).ApplyFilters(TestCatalog);
            r == Success(Catalog(Columns, [TestRow(0, "tas", "CESM2"), TestRow(4, "tas", "CAS")]))
            && Indices(r.value.rows) == [0, 4]
  {
    KeepThenDrop();
    IndicesOfTwo(TestRow(0, "tas", "CESM2"), TestRow(4, "tas", "CAS"));
  }

  lemma KeepTasFirst()
    ensures ApplyAll(TestCatalog, [KeepTas])
            == Success(Catalog(Columns, [TestRow(0, "tas", "CESM2"), TestRow(3, "tas", "ACCESS"), TestRow(4, "tas", "CAS")]))
  {
    assert KeepTas.facets[0].column == "variable";
    ApplyOneToFixture(KeepTas);
    KeepTasRows();
  }

  lemma KeepThenDrop()
    ensures ApplyAll(TestCatalog, [KeepTas, DropAccess])
            == Success(Catalog(Columns, [TestRow(0, "tas", "CESM2"), TestRow(4, "tas", "CAS")]))
  {
    KeepTasFirst();
    DropAccessRows();
    ApplyTwo(TestCatalog, KeepTas, DropAccess,
             Catalog(Columns, [TestRow(0, "tas", "CESM2"), TestRow(3, "tas", "ACCESS"), TestRow(4, "tas", "CAS")]),
             Catalog(Columns, [TestRow(0, "tas", "CESM2"), TestRow(4, "tas", "CAS")]));
  }

  lemma ApplyTwo(c: Catalog, f: FacetFilter, g: FacetFilter, mid: Catalog, out: Catalog)
    requires ApplyAll(c, [f]) == Success(mid) && ApplyAll(mid, [g]) == Success(out)
    ensures ApplyAll(c, [f, g]) == Success(out)
  {
    ApplyAllSequential(c, [f], [g]);
    assert [f] + [g] == [f, g];
  }

  lemma DropTasRows()
    ensures Where(TestCatalog.rows, [DropTas]) == [TestRow(1, "pr", "CESM2"), TestRow(2, "rsut", "CESM2")]
  {
    OneFacetOnTestRow("variable", One("tas"), false, 0, "tas", "CESM2");
    OneFacetOnTestRow("variable", One("tas"), false, 1, "pr", "CESM2");
    OneFacetOnTestRow("variable", One("tas"), false, 2, "rsut", "CESM2");
    OneFacetOnTestRow("variable", One("tas"), false, 3, "tas", "ACCESS");
    OneFacetOnTestRow("variable", One("tas"), false, 4, "tas", "CAS");
    WhereKeeps12(TestRow(0, "tas", "CESM2"), TestRow(1, "pr", "CESM2"), TestRow(2, "rsut", "CESM2"),
                 TestRow(3, "tas", "ACCESS"), TestRow(4, "tas", "CAS"), [DropTas]);
  }

  /** `keep=False` on `tas` keeps the other two rows. */
  lemma ApplyFiltersDontKeep()
    ensures var r := Requirement([DropTas]).ApplyFilters(TestCatalog);
            r == Success(Catalog(Columns, [TestRow(1, "pr", "CESM2"), TestRow(2, "rsut", "CESM2")]))
            && Indices(r.value.rows) == [1, 2]
  {
    assert DropTas.facets[0].column == "variable";
    ApplyOneToFixture(DropTas);
    DropTasRows();
    IndicesOfTwo(TestRow(1, "pr", "CESM2"), TestRow(2, "rsut", "CESM2"));
  }

  /** A facet on an absent column fails with the exact message, `keep=False` or not. */
  lemma ApplyFiltersMissing()
    ensures var r := Requirement([FacetFilter([Facet("missing", One("tas"))], false)]).ApplyFilters(TestCatalog);
            r == Failure(MissingFacet("missing", Columns))
            && Message(r.error) == "Facet 'missing' not in data catalog columns: ['variable', 'source_id']"
  {
    var f := FacetFilter([Facet("missing", One("tas"))], false);
    assert "missing" !in Columns;
    assert FirstMissing(Columns, f.facets) == Some("missing");
    assert ApplyAll(TestCatalog, [f]) == Failure(MissingFacet("missing", Columns)) by {
      assert [f][0] == f;
    }
    MissingMessage();
  }

  lemma MissingMessage()
    ensures Message(MissingFacet("missing", Columns)) == "Facet 'missing' not in data catalog columns: ['variable', 'source_id']"
  {
    ReprListOfTwo("variable", "source_id");
    ColumnsLiteral();
    MessageLiteralHead();
    MessageLiteralMiddle();
    MessageLiteralTail();
  }

  /** Literal concatenations, one per lemma to keep each proof small. */
  lemma ColumnsLiteral()
    ensures "['" + "variable" + "', '" + "source_id" + "']" == "['variable', 'source_id']"
  {
  }

  lemma MessageLiteralHead()
    ensures "Facet '" + "missing" == "Facet 'missing"
  {
  }

  lemma MessageLiteralMiddle()
    ensures "Facet 'missing" + "' not in data catalog columns: " == "Facet 'missing' not in data catalog columns: "
  {
  }

  lemma MessageLiteralTail()
    ensures "Facet 'missing' not in data catalog columns: " + "['variable', 'source_id']"
            == "Facet 'missing' not in data catalog columns: ['variable', 'source_id']"
  {
  }

  lemma ReprListOfTwo(a: string, b: string)
    ensures ReprList([a, b]) == "['" + a + "', '" + b + "']"
  {
    assert [a, b][1..] == [b];
    assert ReprItems([a, b]) == "'" + a + "', " + ("'" + b + "'");
    assert "['" == "[" + "'";
    assert "', '" == "', " + "'";
    assert "']" == "'" + "]";
  }

  /** `test_build_from_failure`. */
  lemma BuildFromFailureTest()
    ensures var d := MetricExecutionDefinition(Name("output"), "mocked-metric-slug", None, None);
            var r := BuildFromFailure(d);
            !r.successful && r.outputBundleFilename == None && r.metricBundleFilename == None && r.definition == d
  {
  }

  /** `test_build_from_output_bundle`, for the dict and for the model built
      from it: the file exists below the temporary directory and reads back
      as the dict. */
  method BuildFromOutputBundleTest(tmp: Path, bundle: map<string, Json>, asModel: bool)
    returns (r: MetricResult, content: Option<Json>)
    requires tmp.absolute && bundle.Keys == OutputSections
    ensures r.successful && r.definition.outputDirectory == Some(tmp)
    ensures r.outputBundleFilename.Some? && IsRelativeTo(r.ToOutputPath(r.outputBundleFilename.value), tmp)
    ensures content == Some(JObject(bundle))
  {
    var d := MetricExecutionDefinition(tmp, "mocked-metric-slug", None, None).WithOutputDirectory(tmp);
    var store := new FileStore();
    OutputDocumentOfDict(bundle);
    var passed := if asModel then OutputObject(OutputFromDict(bundle).value) else OutputDict(bundle);
    var built := BuildFromOutputBundle(store, d, passed, None);
    r := built.value;
    FragmentRepeatingDirectory(d, OutputBundleFilename);
    OutputPathInside(d, OutputBundleFilename);
    content := store.Read(r.ToOutputPath(r.outputBundleFilename.value));
  }

  /** `test_build_from_metric_bundle`, for the dict and for the model. */
  method BuildFromMetricBundleTest(tmp: Path, bundle: map<string, Json>, asModel: bool)
    returns (r: MetricResult, content: Option<Json>)
    requires tmp.absolute && bundle.Keys == MetricSections
    ensures r.successful && r.definition.outputDirectory == Some(tmp)
    ensures r.metricBundleFilename.Some? && IsRelativeTo(r.ToOutputPath(r.metricBundleFilename.value), tmp)
    ensures content == Some(JObject(bundle))
  {
    var d := MetricExecutionDefinition(tmp, "mocked-metric-slug", None, None).WithOutputDirectory(tmp);
    var store := new FileStore();
    MetricDocumentOfDict(bundle);
    var passed := if asModel then MetricObject(MetricFromDict(bundle).value) else MetricDict(bundle);
    var built := BuildFromMetricBundle(store, d, passed);
    r := built.value;
    FragmentRepeatingDirectory(d, MetricBundleFilename);
    OutputPathInside(d, MetricBundleFilename);
    content := store.Read(r.ToOutputPath(r.metricBundleFilename.value));
  }
}
