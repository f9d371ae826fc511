/** The site table of map.py and the cascading filter over it: the
    required-column check, the regency and KCP candidate lists, and the final
    filter that decides which rows reach the map. */
module Sites {
  import opened Wrappers
  import opened Ordering

  /** One row of the spreadsheet, projected to the four columns map.py reads.
      The regency ("KABUPATEN/KOTA") and branch ("KCP") cells may be null. */
  datatype Site = Site(
    regency: Option<string>,
    kcp: Option<string>,
    latitude: real,
    longitude: real)

  const RegencyColumn: string := "KABUPATEN/KOTA"
  const LatitudeColumn: string := "Latitude"
  const LongitudeColumn: string := "Longitude"
  const KcpColumn: string := "KCP"

  const RequiredColumns: set<string> := {RegencyColumn, LatitudeColumn, LongitudeColumn, KcpColumn}

  /** The one error of the app: a required column is missing. The message
      names every required column, not only the missing ones. */
  datatype LoadError = MissingColumns(required: set<string>)

  /** The column check that runs right after loading: the app goes on with
      the table only when all four required headers are present, and stops
      with the error otherwise. */
  function CheckColumns(columns: seq<string>, rows: seq<Site>): (r: Result<seq<Site>, LoadError>)
    ensures r.Success? <==>
      RegencyColumn in columns && LatitudeColumn in columns &&
      LongitudeColumn in columns && KcpColumn in columns
    ensures r.Success? ==> r.value == rows
    ensures r.Failure? ==> r.error == MissingColumns(RequiredColumns)
  {
    if RequiredColumns <= set c | c in columns then Success(rows)
    else Failure(MissingColumns(RequiredColumns))
  }

  /** Boolean-mask row selection `df[mask]`: the rows for which `keep` holds,
      in their original order. */
  function Where(rows: seq<Site>, keep: Site -> bool): (r: seq<Site>)
    ensures |r| <= |rows|
    ensures forall row :: row in r <==> row in rows && keep(row)
  {
    if rows == [] then []
    else
      assert forall row :: row in rows <==> row == rows[0] || row in rows[1..] by {
        assert rows == [rows[0]] + rows[1..];
      }
      if keep(rows[0]) then [rows[0]] + Where(rows[1..], keep)
      else Where(rows[1..], keep)
  }

  /** `a` is `b` with zero or more rows dropped, the rest in the same order. */
  predicate IsSubsequence(a: seq<Site>, b: seq<Site>)
    decreases |b|
  {
    a == [] ||
    (b != [] &&
     ((a[0] == b[0] && IsSubsequence(a[1..], b[1..])) || IsSubsequence(a, b[1..])))
  }

  /** Masking only drops rows: it never adds, alters or reorders one. */
  lemma {:induction false} WhereIsSubsequence(rows: seq<Site>, keep: Site -> bool)
    ensures IsSubsequence(Where(rows, keep), rows)
  {
    if rows != [] {
      WhereIsSubsequence(rows[1..], keep);
    }
  }

  /** Masking keeps every copy of a kept row and no copy of a dropped one. */
  lemma {:induction false} WhereMultiplicity(rows: seq<Site>, keep: Site -> bool, row: Site)
    ensures multiset(Where(rows, keep))[row] == if keep(row) then multiset(rows)[row] else 0
  {
    if rows != [] {
      WhereMultiplicity(rows[1..], keep, row);
      assert rows == [rows[0]] + rows[1..];
    }
  }

  /** Two masks that agree on every row of the table select the same rows. */
  lemma {:induction false} WhereCongruent(rows: seq<Site>, p: Site -> bool, q: Site -> bool)
    requires forall row :: row in rows ==> p(row) == q(row)
    ensures Where(rows, p) == Where(rows, q)
  {
    if rows != [] {
      assert forall row :: row in rows[1..] ==> row in rows;
      WhereCongruent(rows[1..], p, q);
    }
  }

  /** Applying one mask after another selects what the conjunction selects. */
  lemma {:induction false} WhereTwice(rows: seq<Site>, p: Site -> bool, q: Site -> bool, both: Site -> bool)
    requires forall row :: both(row) == (p(row) && q(row))
    ensures Where(Where(rows, p), q) == Where(rows, both)
  {
    if rows != [] {
      WhereTwice(rows[1..], p, q, both);
    }
  }

  /** pandas `isin`: the cell is non-null and one of the selected values. */
  predicate IsIn(cell: Option<string>, selected: seq<string>)
  {
    cell.Some? && cell.value in selected
  }

  /** The column of regency cells, one per row. */
  function Regencies(rows: seq<Site>): (cells: seq<Option<string>>)
    ensures |cells| == |rows|
    ensures forall i :: 0 <= i < |rows| ==> cells[i] == rows[i].regency
  {
    seq(|rows|, i requires 0 <= i < |rows| => rows[i].regency)
  }

  /** The column of KCP cells, one per row. */
  function Kcps(rows: seq<Site>): (cells: seq<Option<string>>)
    ensures |cells| == |rows|
    ensures forall i :: 0 <= i < |rows| ==> cells[i] == rows[i].kcp
  {
    seq(|rows|, i requires 0 <= i < |rows| => rows[i].kcp)
  }

  /** The regency choices: the distinct non-null regencies of the whole
      table, ascending. */
  function RegencyOptions(rows: seq<Site>): (r: seq<string>)
    ensures StrictlySorted(r)
    ensures forall v :: v in r <==> exists row :: row in rows && row.regency == Some(v)
  {
    var cells := Regencies(rows);
    assert forall v :: Some(v) in cells <==> exists row :: row in rows && row.regency == Some(v) by {
      forall v ensures Some(v) in cells <==> exists row :: row in rows && row.regency == Some(v) {
        if exists row :: row in rows && row.regency == Some(v) {
          var row :| row in rows && row.regency == Some(v);
          var i :| 0 <= i < |rows| && rows[i] == row;
          assert cells[i] == Some(v);
        }
      }
    }
    DistinctSorted(cells)
  }

  /** The KCP choices: the distinct non-null KCPs of the rows whose regency
      is selected, ascending; nothing while no regency is selected. */
  function KcpOptions(rows: seq<Site>, selectedRegencies: seq<string>): (r: seq<string>)
    ensures StrictlySorted(r)
    ensures selectedRegencies == [] ==> r == []
    ensures forall v :: v in r <==>
      exists row :: row in rows && IsIn(row.regency, selectedRegencies) && row.kcp == Some(v)
  {
    if selectedRegencies == [] then []
    else
      var candidates := Where(rows, (row: Site) => IsIn(row.regency, selectedRegencies));
      var cells := Kcps(candidates);
      assert forall v :: Some(v) in cells <==> exists row :: row in candidates && row.kcp == Some(v) by {
        forall v ensures Some(v) in cells <==> exists row :: row in candidates && row.kcp == Some(v) {
          if exists row :: row in candidates && row.kcp == Some(v) {
            var row :| row in candidates && row.kcp == Some(v);
            var i :| 0 <= i < |candidates| && candidates[i] == row;
            assert cells[i] == Some(v);
          }
        }
      }
      DistinctSorted(cells)
  }

  /** The rule a row must meet to reach the map, stated in one place: some
      selection is made, the regency restriction holds if regencies are
      selected, and the KCP restriction holds if KCPs are selected. */
  predicate Admits(selectedRegencies: seq<string>, selectedKcps: seq<string>, row: Site)
  {
    && (selectedRegencies != [] || selectedKcps != [])
    && (selectedRegencies == [] || IsIn(row.regency, selectedRegencies))
    && (selectedKcps == [] || IsIn(row.kcp, selectedKcps))
  }

  /** The final filter as map.py performs it: an empty table while nothing is
      selected; otherwise the regency mask when regencies are selected,
      followed by the KCP mask when KCPs are selected. */
  function FinalFilter(rows: seq<Site>, selectedRegencies: seq<string>, selectedKcps: seq<string>): (r: seq<Site>)
    ensures selectedRegencies == [] && selectedKcps == [] ==> r == []
    ensures |r| <= |rows|
  {
    if selectedRegencies != [] || selectedKcps != [] then
      var byRegency :=
        if selectedRegencies != [] then Where(rows, (row: Site) => IsIn(row.regency, selectedRegencies))
        else rows;
      if selectedKcps != [] then Where(byRegency, (row: Site) => IsIn(row.kcp, selectedKcps))
      else byRegency
    else []
  }

  /** The staged filter equals one pass of the single rule `Admits`. */
  lemma FinalFilterIsAdmitted(rows: seq<Site>, selectedRegencies: seq<string>, selectedKcps: seq<string>)
    ensures FinalFilter(rows, selectedRegencies, selectedKcps) ==
            Where(rows, (row: Site) => Admits(selectedRegencies, selectedKcps, row))
  {
    var rs, ks := selectedRegencies, selectedKcps;
    var admitted := (row: Site) => Admits(rs, ks, row);
    var byRegency := (row: Site) => IsIn(row.regency, rs);
    var byKcp := (row: Site) => IsIn(row.kcp, ks);
    if rs == [] && ks == [] {
      WhereCongruent(rows, admitted, (row: Site) => false);
      WhereNothing(rows);
    } else if rs == [] {
      WhereCongruent(rows, admitted, byKcp);
    } else if ks == [] {
      WhereCongruent(rows, admitted, byRegency);
    } else {
      WhereTwice(rows, byRegency, byKcp, admitted);
    }
  }

  lemma {:induction false} WhereNothing(rows: seq<Site>)
    ensures Where(rows, (row: Site) => false) == []
  {
    if rows != [] {
      WhereNothing(rows[1..]);
    }
  }

  /** What the final filter promises: exactly the admitted rows, each as
      often as in the table, in the table's order, unaltered. */
  lemma FinalFilterCorrect(rows: seq<Site>, selectedRegencies: seq<string>, selectedKcps: seq<string>)
    ensures var r := FinalFilter(rows, selectedRegencies, selectedKcps);
      && IsSubsequence(r, rows)
      && (forall row :: row in r <==> row in rows && Admits(selectedRegencies, selectedKcps, row))
      && (forall row :: multiset(r)[row] ==
            if Admits(selectedRegencies, selectedKcps, row) then multiset(rows)[row] else 0)
  {
    var admitted := (row: Site) => Admits(selectedRegencies, selectedKcps, row);
    FinalFilterIsAdmitted(rows, selectedRegencies, selectedKcps);
    WhereIsSubsequence(rows, admitted);
    forall row
      ensures multiset(Where(rows, admitted))[row] ==
              if Admits(selectedRegencies, selectedKcps, row) then multiset(rows)[row] else 0
    {
      WhereMultiplicity(rows, admitted, row);
    }
  }

  /** The cascade is consistent: while a regency is selected, every KCP that
      reaches the map is one of the KCP choices offered. */
  lemma FilteredKcpsAreOffered(rows: seq<Site>, selectedRegencies: seq<string>, selectedKcps: seq<string>)
    requires selectedRegencies != []
    ensures forall row :: row in FinalFilter(rows, selectedRegencies, selectedKcps) && row.kcp.Some? ==>
      row.kcp.value in KcpOptions(rows, selectedRegencies)
  {
    FinalFilterCorrect(rows, selectedRegencies, selectedKcps);
  }
}
