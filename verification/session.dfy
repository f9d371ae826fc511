/** One run of the map.py script against a user's session: the selections
    kept between runs, the reset button, and the page computed from them. */
module Session {
  import opened Wrappers
  import opened Sites
  import opened Markers

  /** The session keys under which the two multiselects keep their choices. */
  const RegencyKey: string := "selected_kabupaten"
  const KcpKey: string := "selected_kcp"

  /** What one run shows: the two choice lists, the rows that reach the map,
      and the map's centre and markers. */
  datatype Page = Page(
    regencyOptions: seq<string>,
    kcpOptions: seq<string>,
    filtered: seq<Site>,
    center: Center,
    markers: seq<Marker>)

  /** The page for a table and the current selections. */
  function PageFor(rows: seq<Site>, selectedRegencies: seq<string>, selectedKcps: seq<string>): (p: Page)
    ensures p.filtered == [] ==> p.markers == [] && p.center == Fixed(FallbackLatitude, FallbackLongitude)
    ensures |p.markers| == |p.filtered|
    ensures selectedRegencies == [] && selectedKcps == [] ==> p.filtered == [] && p.markers == []
  {
    var filtered := FinalFilter(rows, selectedRegencies, selectedKcps);
    Page(RegencyOptions(rows), KcpOptions(rows, selectedRegencies), filtered,
         CenterFor(filtered), MarkersOf(filtered))
  }

  /** The session state a user's runs share: a value per key. */
  class SessionState {
    var entries: map<string, seq<string>>

    /** A new session holds nothing. */
    constructor ()
      ensures entries == map[]
    {
      entries := map[];
    }

    /** Gives each selection key an empty list if it has none yet; a value
        kept from an earlier run is left as it is. */
    method InitSelections()
      modifies this
      ensures entries.Keys == old(entries).Keys + {RegencyKey, KcpKey}
      ensures forall k :: k in old(entries) ==> entries[k] == old(entries)[k]
      ensures RegencyKey !in old(entries) ==> entries[RegencyKey] == []
      ensures KcpKey !in old(entries) ==> entries[KcpKey] == []
    {
      if RegencyKey !in entries {
        entries := entries[RegencyKey := []];
      }
      if KcpKey !in entries {
        entries := entries[KcpKey := []];
      }
    }

    /** The reset button: both selections become empty, every other entry
        stays as it was. */
    method Reset()
      modifies this
      ensures entries.Keys == old(entries).Keys + {RegencyKey, KcpKey}
      ensures entries[RegencyKey] == [] && entries[KcpKey] == []
      ensures forall k :: k in old(entries) && k != RegencyKey && k != KcpKey ==> entries[k] == old(entries)[k]
    {
      entries := entries[RegencyKey := []][KcpKey := []];
    }

    /** One run of the script. When a required column is missing it stops
        before the session is touched. Otherwise it sets up the selection
        keys, clears them if the reset button was pressed, and computes the
        page from the selections the multiselects then hold. */
    method Rerun(columns: seq<string>, rows: seq<Site>, resetPressed: bool) returns (r: Result<Page, LoadError>)
      modifies this
      ensures CheckColumns(columns, rows).Failure? ==>
        r == Failure(MissingColumns(RequiredColumns)) && entries == old(entries)
      ensures CheckColumns(columns, rows).Success? ==>
        && entries.Keys == old(entries).Keys + {RegencyKey, KcpKey}
        && (forall k :: k in old(entries) && k != RegencyKey && k != KcpKey ==> entries[k] == old(entries)[k])
        && (resetPressed || RegencyKey !in old(entries) ==> entries[RegencyKey] == [])
        && (resetPressed || KcpKey !in old(entries) ==> entries[KcpKey] == [])
        && (!resetPressed && RegencyKey in old(entries) ==> entries[RegencyKey] == old(entries)[RegencyKey])
        && (!resetPressed && KcpKey in old(entries) ==> entries[KcpKey] == old(entries)[KcpKey])
        && r == Success(PageFor(rows, entries[RegencyKey], entries[KcpKey]))
    {
      var checked := CheckColumns(columns, rows);
      if checked.Failure? {
        return Failure(checked.error);
      }
      var table := checked.value;
      InitSelections();
      if resetPressed {
        Reset();
      }
      var selectedRegencies := entries[RegencyKey];
      var selectedKcps := entries[KcpKey];
      var filtered := FinalFilter(table, selectedRegencies, selectedKcps);
      var m := RenderMap(filtered);
      r := Success(Page(RegencyOptions(table), KcpOptions(table, selectedRegencies), filtered,
                        m.center, m.markers));
    }
  }
}
