/** Dataset catalogs and facet filters (`cmip_ref_core.datasets`).

    A catalog is a table: named columns and rows, each row keeping the index
    it had in the original table (filtering never re-indexes). A facet filter
    maps column names to one value or a tuple of alternative values; a row
    matches when, for every facet, its value in that column is one of the
    alternatives. `keep` says whether matching rows are kept or dropped. */
module Datasets {
  import opened Wrappers

  /** The dataset families a requirement can select from (only CMIP6 is used by the modelled metrics). */
  datatype SourceDatasetType = CMIP6

  datatype Row = Row(index: int, cells: map<string, string>)

  datatype Catalog = Catalog(columns: seq<string>, rows: seq<Row>)

  /** A data frame is rectangular: every row has a cell for exactly the table's columns. */
  predicate WellFormed(c: Catalog)
  {
    forall r :: r in c.rows ==> r.cells.Keys == (set col | col in c.columns)
  }

  /** A facet's value: a single string or a tuple of alternatives. */
  datatype FacetValue = One(value: string) | AnyOf(values: seq<string>)

  /** The value(s) of a facet normalised to a set. */
  function Alternatives(v: FacetValue): (alts: set<string>)
    ensures v.One? ==> alts == {v.value}
    ensures v.AnyOf? ==> forall x :: x in alts <==> x in v.values
  {
    match v
    case One(x) => {x}
    case AnyOf(xs) => set x | x in xs
  }

  datatype Facet = Facet(column: string, value: FacetValue)

  /** `FacetFilter(facets, keep)`; the facets are the dict's items in insertion order. */
  datatype FacetFilter = FacetFilter(facets: seq<Facet>, keep: bool)

  /** The same facets with the opposite `keep`. */
  function Negated(f: FacetFilter): FacetFilter
  {
    FacetFilter(f.facets, !f.keep)
  }

  predicate HasValueIn(r: Row, column: string, values: set<string>)
  {
    column in r.cells && r.cells[column] in values
  }

  /** The row mask: every facet of the filter holds of the row. */
  predicate MatchesAll(r: Row, facets: seq<Facet>)
  {
    forall i :: 0 <= i < |facets| ==> HasValueIn(r, facets[i].column, Alternatives(facets[i].value))
  }

  /** `f` lets `r` through: matching rows when keeping, the others when dropping. */
  predicate Retains(f: FacetFilter, r: Row)
  {
    MatchesAll(r, f.facets) == f.keep
  }

  predicate RetainedByAll(fs: seq<FacetFilter>, r: Row)
  {
    forall i :: 0 <= i < |fs| ==> Retains(fs[i], r)
  }

  /** The rows every filter of `fs` lets through, in their original order. */
  function Where(rows: seq<Row>, fs: seq<FacetFilter>): (out: seq<Row>)
    ensures |out| <= |rows|
    ensures forall r :: r in out ==> r in rows && RetainedByAll(fs, r)
    decreases |rows|
  {
    if rows == [] then []
    else (if RetainedByAll(fs, rows[0]) then [rows[0]] else []) + Where(rows[1..], fs)
  }

  /** `s` can be obtained from `t` by deleting elements (order is kept). */
  predicate IsSubsequence<T(==)>(s: seq<T>, t: seq<T>)
    decreases |t|
  {
    if s == [] then true
    else if t == [] then false
    else if s[0] == t[0] then IsSubsequence(s[1..], t[1..])
    else IsSubsequence(s, t[1..])
  }

  lemma {:induction false} SubsequenceMultiset<T>(s: seq<T>, t: seq<T>)
    requires IsSubsequence(s, t)
    ensures multiset(s) <= multiset(t)
    decreases |t|
  {
    if s == [] {
    } else if s[0] == t[0] {
      SubsequenceMultiset(s[1..], t[1..]);
      assert s == [s[0]] + s[1..] && t == [t[0]] + t[1..];
    } else {
      SubsequenceMultiset(s, t[1..]);
      assert t == [t[0]] + t[1..];
    }
  }

  /** What filtering promises: the result is a subsequence of the input rows
      (same rows, same indices, original order) holding every retained row as
      often as the input does and no other row. */
  ghost predicate SelectsExactly(out: seq<Row>, rows: seq<Row>, fs: seq<FacetFilter>)
  {
    && IsSubsequence(out, rows)
    && forall x :: multiset(out)[x] == (if RetainedByAll(fs, x) then multiset(rows)[x] else 0)
  }

  lemma {:induction false} WhereSelectsExactly(rows: seq<Row>, fs: seq<FacetFilter>)
    ensures SelectsExactly(Where(rows, fs), rows, fs)
    decreases |rows|
  {
    if rows != [] {
      var rest := Where(rows[1..], fs);
      WhereSelectsExactly(rows[1..], fs);
      assert rows == [rows[0]] + rows[1..];
      if RetainedByAll(fs, rows[0]) {
        assert Where(rows, fs) == [rows[0]] + rest;
      } else {
        assert Where(rows, fs) == rest;
        if rest != [] {
          assert rest[0] in rest;
        }
      }
    }
  }

  /** `SelectsExactly` pins the result down: `Where` is the only sequence that meets it. */
  lemma {:induction false} SelectsExactlyUnique(s: seq<Row>, rows: seq<Row>, fs: seq<FacetFilter>)
    requires SelectsExactly(s, rows, fs)
    ensures s == Where(rows, fs)
    decreases |rows|
  {
    if rows == [] {
      if s != [] {
        assert false;
      }
    } else {
      var x := rows[0];
      var rest := rows[1..];
      assert rows == [x] + rest;
      assert multiset(rows) == multiset{x} + multiset(rest);
      if RetainedByAll(fs, x) {
        assert multiset(s)[x] >= 1;
        assert s != [];
        if s[0] != x {
          SubsequenceMultiset(s, rest);
          assert false;
        }
        assert s == [x] + s[1..];
        forall y ensures multiset(s[1..])[y] == (if RetainedByAll(fs, y) then multiset(rest)[y] else 0) {
          assert multiset(s) == multiset{x} + multiset(s[1..]);
        }
        SelectsExactlyUnique(s[1..], rest, fs);
      } else {
        if s != [] {
          assert s[0] != x by {
            assert s[0] in multiset(s);
          }
        }
        assert IsSubsequence(s, rest);
        forall y ensures multiset(s)[y] == (if RetainedByAll(fs, y) then multiset(rest)[y] else 0) {
        }
        SelectsExactlyUnique(s, rest, fs);
      }
    }
  }

  /** Filtering by `fs` and then by `gs` is filtering once by all of them. */
  lemma {:induction false} WhereCompose(rows: seq<Row>, fs: seq<FacetFilter>, gs: seq<FacetFilter>)
    ensures Where(Where(rows, fs), gs) == Where(rows, fs + gs)
    decreases |rows|
  {
    if rows != [] {
      WhereCompose(rows[1..], fs, gs);
      var x := rows[0];
      assert RetainedByAll(fs + gs, x) <==> RetainedByAll(fs, x) && RetainedByAll(gs, x) by {
        if RetainedByAll(fs, x) && RetainedByAll(gs, x) {
          forall i | 0 <= i < |fs + gs| ensures Retains((fs + gs)[i], x) {
            if i < |fs| { assert (fs + gs)[i] == fs[i]; } else { assert (fs + gs)[i] == gs[i - |fs|]; }
          }
        }
        if RetainedByAll(fs + gs, x) {
          forall i | 0 <= i < |fs| ensures Retains(fs[i], x) {
            assert (fs + gs)[i] == fs[i];
          }
          forall i | 0 <= i < |gs| ensures Retains(gs[i], x) {
            assert (fs + gs)[|fs| + i] == gs[i];
          }
        }
      }
      var w := Where(rows, fs);
      if RetainedByAll(fs, x) {
        assert w == [x] + Where(rows[1..], fs);
        assert w[0] == x && w[1..] == Where(rows[1..], fs);
        assert Where(w, gs) == (if RetainedByAll(gs, x) then [x] else []) + Where(w[1..], gs);
      } else {
        assert w == Where(rows[1..], fs);
      }
    }
  }

  /** A filter that lets every row through leaves the rows as they are. */
  lemma {:induction false} WhereKeepsAll(rows: seq<Row>, fs: seq<FacetFilter>)
    requires forall r :: r in rows ==> RetainedByAll(fs, r)
    ensures Where(rows, fs) == rows
    decreases |rows|
  {
    if rows != [] {
      assert rows[0] in rows;
      WhereKeepsAll(rows[1..], fs);
    }
  }

  /** Filters that let the same rows through select the same rows. */
  lemma {:induction false} WhereSameRetention(rows: seq<Row>, fs: seq<FacetFilter>, gs: seq<FacetFilter>)
    requires forall r :: RetainedByAll(fs, r) <==> RetainedByAll(gs, r)
    ensures Where(rows, fs) == Where(rows, gs)
    decreases |rows|
  {
    if rows != [] {
      WhereSameRetention(rows[1..], fs, gs);
    }
  }

  /** A scalar facet value selects what a one-element tuple of it selects. */
  lemma ScalarIsOneAlternative(rows: seq<Row>, column: string, v: string, keep: bool)
    ensures Where(rows, [FacetFilter([Facet(column, One(v))], keep)])
            == Where(rows, [FacetFilter([Facet(column, AnyOf([v]))], keep)])
  {
    var scalar := FacetFilter([Facet(column, One(v))], keep);
    var tuple := FacetFilter([Facet(column, AnyOf([v]))], keep);
    assert Alternatives(scalar.facets[0].value) == Alternatives(tuple.facets[0].value);
    forall r ensures RetainedByAll([scalar], r) <==> RetainedByAll([tuple], r) {
      assert [scalar][0] == scalar && [tuple][0] == tuple;
    }
    WhereSameRetention(rows, [scalar], [tuple]);
  }

  /** A row is in the result exactly when it is in the input and every
      filter lets it through. */
  lemma {:induction false} WhereMembers(rows: seq<Row>, fs: seq<FacetFilter>)
    ensures forall r :: r in Where(rows, fs) <==> r in rows && RetainedByAll(fs, r)
    decreases |rows|
  {
    if rows != [] {
      WhereMembers(rows[1..], fs);
      assert rows == [rows[0]] + rows[1..];
    }
  }

  /** Keeping and dropping by the same facets split the rows between them:
      every row lands on exactly one side, as often as it occurs. */
  lemma KeepDropPartition(rows: seq<Row>, f: FacetFilter)
    ensures multiset(Where(rows, [f])) + multiset(Where(rows, [Negated(f)])) == multiset(rows)
    ensures multiset(Where(rows, [f])) !! multiset(Where(rows, [Negated(f)]))
  {
    KeepDropSum(rows, f);
    WhereMembers(rows, [f]);
    WhereMembers(rows, [Negated(f)]);
    forall r | r in Where(rows, [f])
      ensures r !in Where(rows, [Negated(f)])
    {
      OppositeSides(f, r);
    }
  }

  /** A row is let through by exactly one of a filter and its negation. */
  lemma OppositeSides(f: FacetFilter, r: Row)
    ensures RetainedByAll([Negated(f)], r) <==> !RetainedByAll([f], r)
  {
    assert [f][0] == f && [Negated(f)][0] == Negated(f);
  }

  lemma {:induction false} KeepDropSum(rows: seq<Row>, f: FacetFilter)
    ensures multiset(Where(rows, [f])) + multiset(Where(rows, [Negated(f)])) == multiset(rows)
    decreases |rows|
  {
    if rows != [] {
      KeepDropSum(rows[1..], f);
      OppositeSides(f, rows[0]);
      assert rows == [rows[0]] + rows[1..];
    }
  }

  /** The error raised for a facet naming an absent column. */
  datatype FilterError = MissingFacet(facet: string, columns: seq<string>)

  /** Python's `repr` of a list of plain strings: `['a', 'b']`. */
  function ReprList(xs: seq<string>): string
  {
    "[" + ReprItems(xs) + "]"
  }

  function ReprItems(xs: seq<string>): string
    decreases |xs|
  {
    if xs == [] then ""
    else if |xs| == 1 then "'" + xs[0] + "'"
    else "'" + xs[0] + "', " + ReprItems(xs[1..])
  }

  /** The `KeyError` message. */
  function Message(e: FilterError): string
  {
    "Facet '" + e.facet + "' not in data catalog columns: " + ReprList(e.columns)
  }

  /** The first facet, in declaration order, whose column is absent. */
  function FirstMissing(columns: seq<string>, facets: seq<Facet>): (r: Option<string>)
    ensures r.None? <==> forall i :: 0 <= i < |facets| ==> facets[i].column in columns
    ensures r.Some? ==> r.value !in columns
    ensures r.Some? ==> exists i :: 0 <= i < |facets| && facets[i].column == r.value
                                    && forall k :: 0 <= k < i ==> facets[k].column in columns
    decreases |facets|
  {
    if facets == [] then None
    else if facets[0].column !in columns then Some(facets[0].column)
    else
      var r := FirstMissing(columns, facets[1..]);
      if r.Some? then
        assert forall i :: 0 < i < |facets| ==> facets[i] == facets[1..][i - 1];
        r
      else r
  }

  /** `series.unique()`: the distinct values in order of first appearance. */
  function Unique<T(==)>(s: seq<T>): (u: seq<T>)
    ensures forall x :: x in u ==> x in s
    decreases |s|
  {
    if s == [] then []
    else
      var u := Unique(s[..|s| - 1]);
      if s[|s| - 1] in u then u else u + [s[|s| - 1]]
  }

  predicate NoDuplicates<T(==)>(s: seq<T>)
  {
    forall i, j :: 0 <= i < j < |s| ==> s[i] != s[j]
  }

  /** The position at which `x` first occurs in `s`. */
  function FirstIndex<T(==)>(s: seq<T>, x: T): (k: nat)
    requires x in s
    ensures k < |s| && s[k] == x && x !in s[..k]
    decreases |s|
  {
    if s[0] == x then 0
    else
      var k := FirstIndex(s[1..], x) + 1;
      assert s[..k] == [s[0]] + s[1..][..k - 1];
      k
  }

  lemma {:induction false} FirstIndexOfPrefix<T>(s: seq<T>, n: nat, x: T)
    requires n <= |s| && x in s[..n]
    ensures FirstIndex(s, x) == FirstIndex(s[..n], x)
  {
    var k := FirstIndex(s[..n], x);
    var m := FirstIndex(s, x);
    assert s[..n][..k] == s[..k];
    assert s[k] == x;
    assert forall i :: 0 <= i < k ==> s[..k][i] == s[i];
    assert forall i :: 0 <= i < m ==> s[..m][i] == s[i];
  }

  /** `unique()` lists every value once, nothing else, in order of first
      appearance; so `unique()[0]` is the first row's value. */
  lemma UniqueSpec<T>(s: seq<T>)
    ensures NoDuplicates(Unique(s))
    ensures forall x :: x in Unique(s) <==> x in s
    ensures forall i, j :: 0 <= i < j < |Unique(s)| ==> FirstIndex(s, Unique(s)[i]) < FirstIndex(s, Unique(s)[j])
    ensures |s| > 0 ==> |Unique(s)| > 0 && Unique(s)[0] == s[0]
  {
    UniqueMembers(s);
    UniqueNoDuplicates(s);
    UniqueOrder(s);
    UniqueHead(s);
  }

  lemma {:induction false} UniqueMembers<T>(s: seq<T>)
    ensures forall x :: x in Unique(s) <==> x in s
    decreases |s|
  {
    if s != [] {
      UniqueMembers(s[..|s| - 1]);
      assert s == s[..|s| - 1] + [s[|s| - 1]];
    }
  }

  lemma {:induction false} UniqueNoDuplicates<T>(s: seq<T>)
    ensures NoDuplicates(Unique(s))
    decreases |s|
  {
    if s != [] {
      UniqueNoDuplicates(s[..|s| - 1]);
    }
  }

  lemma {:induction false} UniqueHead<T>(s: seq<T>)
    ensures |s| > 0 ==> |Unique(s)| > 0 && Unique(s)[0] == s[0]
    decreases |s|
  {
    if |s| > 1 {
      var p := s[..|s| - 1];
      UniqueHead(p);
      assert p[0] == s[0];
    } else if |s| == 1 {
      assert s[..0] == [];
    }
  }

  lemma {:induction false} UniqueOrder<T>(s: seq<T>)
    ensures forall i, j :: 0 <= i < j < |Unique(s)| ==> FirstIndex(s, Unique(s)[i]) < FirstIndex(s, Unique(s)[j])
    decreases |s|
  {
    if s != [] {
      var p := s[..|s| - 1];
      var last := s[|s| - 1];
      UniqueOrder(p);
      UniqueMembers(p);
      var u := Unique(p);
      forall i | 0 <= i < |u|
        ensures u[i] in p && u[i] in s
        ensures FirstIndex(s, u[i]) == FirstIndex(p, u[i]) < |s| - 1
      {
        assert u[i] in p;
        assert s[FirstIndex(p, u[i])] == u[i];
        FirstIndexOfPrefix(s, |s| - 1, u[i]);
      }
      if last !in u {
        FirstIndexOfLast(s);
      }
    }
  }

  /** A value seen only at the end is first seen there. */
  lemma FirstIndexOfLast<T>(s: seq<T>)
    requires s != [] && s[|s| - 1] !in s[..|s| - 1]
    ensures FirstIndex(s, s[|s| - 1]) == |s| - 1
  {
  }

  /** The values of column `col`, row by row. */
  function ColumnValues(rows: seq<Row>, col: string): (vs: seq<string>)
    requires forall r :: r in rows ==> col in r.cells
    ensures |vs| == |rows| && forall i :: 0 <= i < |rows| ==> vs[i] == rows[i].cells[col]
  {
    seq(|rows|, i requires 0 <= i < |rows| => rows[i].cells[col])
  }
}
