/** Data requirements (`cmip_ref_core.metrics.DataRequirement`): which source
    dataset family a metric reads, the facet filters that select its rows, and
    the columns its executions are grouped by. */
module Requirements {
  import opened Wrappers
  import opened Datasets

  datatype DataRequirement = DataRequirement(
    sourceType: SourceDatasetType,
    filters: seq<FacetFilter>,
    groupBy: Option<seq<string>>)
  {
    /** `requirement.apply_filters(catalog)`. */
    function ApplyFilters(catalog: Catalog): Result<Catalog, FilterError>
    {
      ApplyAll(catalog, filters)
    }
  }

  /** Every facet of every filter names a column of the catalog. */
  predicate AllFacetsPresent(columns: seq<string>, fs: seq<FacetFilter>)
  {
    forall i, j :: 0 <= i < |fs| && 0 <= j < |fs[i].facets| ==> fs[i].facets[j].column in columns
  }

  /** One filter: first check every facet's column, then keep the matching
      (or, with `keep=False`, the non-matching) rows. Columns never change. */
  function ApplyFilter(c: Catalog, f: FacetFilter): (r: Result<Catalog, FilterError>)
    ensures r.Failure? <==> exists j :: 0 <= j < |f.facets| && f.facets[j].column !in c.columns
    ensures r.Failure? ==> r.error == MissingFacet(FirstMissing(c.columns, f.facets).value, c.columns)
    ensures r.Success? ==> r.value == Catalog(c.columns, Where(c.rows, [f]))
  {
    match FirstMissing(c.columns, f.facets)
    case Some(name) => Failure(MissingFacet(name, c.columns))
    case None => Success(Catalog(c.columns, Where(c.rows, [f])))
  }

  /** Splits `AllFacetsPresent` into the head filter and the rest. */
  lemma AllFacetsPresentCons(columns: seq<string>, fs: seq<FacetFilter>)
    requires fs != []
    ensures AllFacetsPresent(columns, fs)
            <==> (forall j :: 0 <= j < |fs[0].facets| ==> fs[0].facets[j].column in columns)
                 && AllFacetsPresent(columns, fs[1..])
  {
    if (forall j :: 0 <= j < |fs[0].facets| ==> fs[0].facets[j].column in columns)
       && AllFacetsPresent(columns, fs[1..])
    {
      forall i, j | 0 <= i < |fs| && 0 <= j < |fs[i].facets| ensures fs[i].facets[j].column in columns {
        if i > 0 { assert fs[i] == fs[1..][i - 1]; }
      }
    }
  }

  /** The filters, applied one after another to the already-narrowed table. */
  function ApplyAll(c: Catalog, fs: seq<FacetFilter>): (r: Result<Catalog, FilterError>)
    ensures fs == [] ==> r == Success(c)
    ensures r.Success? <==> AllFacetsPresent(c.columns, fs)
    ensures r.Success? ==> r.value == Catalog(c.columns, Where(c.rows, fs))
    ensures r.Failure? ==> r.error.columns == c.columns && r.error.facet !in c.columns
    decreases |fs|
  {
    if fs == [] then
      WhereKeepsAll(c.rows, []);
      Success(c)
    else
      AllFacetsPresentCons(c.columns, fs);
      match ApplyFilter(c, fs[0])
      case Failure(e) => Failure(e)
      case Success(narrowed) =>
        var r := ApplyAll(narrowed, fs[1..]);
        assert fs == [fs[0]] + fs[1..];
        WhereCompose(c.rows, [fs[0]], fs[1..]);
        r
  }

  /** The error reported is the first missing facet of the first filter
      that has one: the filters before it all passed. */
  lemma {:induction false} ApplyAllFirstError(c: Catalog, fs: seq<FacetFilter>)
    requires ApplyAll(c, fs).Failure?
    ensures exists i :: 0 <= i < |fs| && AllFacetsPresent(c.columns, fs[..i])
                        && FirstMissing(c.columns, fs[i].facets) == Some(ApplyAll(c, fs).error.facet)
    decreases |fs|
  {
    var e := ApplyAll(c, fs).error;
    assert fs != [];
    match ApplyFilter(c, fs[0])
    case Failure(e0) =>
      assert AllFacetsPresent(c.columns, fs[..0]);
    case Success(narrowed) =>
      assert ApplyAll(c, fs) == ApplyAll(narrowed, fs[1..]);
      ApplyAllFirstError(narrowed, fs[1..]);
      var i :| 0 <= i < |fs[1..]| && AllFacetsPresent(c.columns, fs[1..][..i])
               && FirstMissing(c.columns, fs[1..][i].facets) == Some(e.facet);
      PresentPrefixCons(c.columns, fs, i);
      assert fs[i + 1] == fs[1..][i];
  }

  /** A passing head filter extends a passing prefix of the rest. */
  lemma PresentPrefixCons(columns: seq<string>, fs: seq<FacetFilter>, i: nat)
    requires i < |fs| - 1
    requires forall j :: 0 <= j < |fs[0].facets| ==> fs[0].facets[j].column in columns
    requires AllFacetsPresent(columns, fs[1..][..i])
    ensures AllFacetsPresent(columns, fs[..i + 1])
  {
    var prefix := fs[..i + 1];
    forall k, j | 0 <= k < |prefix| && 0 <= j < |prefix[k].facets|
      ensures prefix[k].facets[j].column in columns
    {
      if k > 0 {
        assert prefix[k] == fs[1..][..i][k - 1];
      }
    }
  }

  /** Applying `fs + gs` is applying `fs`, then `gs` to what is left; an error
      in `fs` stops there. */
  lemma {:induction false} ApplyAllSequential(c: Catalog, fs: seq<FacetFilter>, gs: seq<FacetFilter>)
    ensures ApplyAll(c, fs + gs) == (match ApplyAll(c, fs)
                                     case Success(narrowed) => ApplyAll(narrowed, gs)
                                     case Failure(e) => Failure(e))
    decreases |fs|
  {
    if fs == [] {
      assert fs + gs == gs;
    } else {
      assert (fs + gs)[0] == fs[0] && (fs + gs)[1..] == fs[1..] + gs;
      match ApplyFilter(c, fs[0])
      case Failure(e) =>
      case Success(narrowed) =>
        ApplyAllSequential(narrowed, fs[1..], gs);
    }
  }

  /** When every facet names a column, filtering succeeds and returns exactly
      the rows every filter lets through, as a subsequence with the original
      indices and the same columns. */
  lemma ApplyAllSelects(c: Catalog, fs: seq<FacetFilter>)
    requires AllFacetsPresent(c.columns, fs)
    ensures ApplyAll(c, fs).Success?
    ensures ApplyAll(c, fs).value.columns == c.columns
    ensures SelectsExactly(ApplyAll(c, fs).value.rows, c.rows, fs)
  {
    WhereSelectsExactly(c.rows, fs);
  }

  /** Filtering keeps a rectangular table rectangular. */
  lemma ApplyAllWellFormed(c: Catalog, fs: seq<FacetFilter>)
    requires WellFormed(c) && ApplyAll(c, fs).Success?
    ensures WellFormed(ApplyAll(c, fs).value)
  {
  }

  /** An exclusion filter is dead after `prefix` when no row that survives
      `prefix` matches it: appending it never changes the outcome. */
  lemma DeadExclusion(c: Catalog, prefix: seq<FacetFilter>, f: FacetFilter)
    requires !f.keep
    requires forall j :: 0 <= j < |f.facets| ==> f.facets[j].column in c.columns
    requires ApplyAll(c, prefix).Success? ==> forall r :: r in ApplyAll(c, prefix).value.rows ==> !MatchesAll(r, f.facets)
    ensures ApplyAll(c, prefix + [f]) == ApplyAll(c, prefix)
  {
    ApplyAllSequential(c, prefix, [f]);
    match ApplyAll(c, prefix)
    case Failure(e) =>
    case Success(narrowed) =>
      assert ApplyAll(narrowed, [f]) == ApplyAll(narrowed, [f] + []);
      assert [f][1..] == [];
      WhereKeepsAll(narrowed.rows, [f]);
  }
}
