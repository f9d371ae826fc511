# Site map of KCP branches — verified model of the filter core

`map.py` is a Streamlit page that loads a spreadsheet of geocoded branch
offices (KCP) with their regency or city ("KABUPATEN/KOTA"), lets the user
pick regencies and then KCPs in the sidebar, and shows the chosen sites as
blue markers on a folium map. This project models, in Dafny, everything in
that page that is logic rather than widget wiring, except the mean-based map
centre:

- `Sites` — a row (`Site`, with null cells as `None`), the required-column
  check, the regency and KCP candidate lists, and the final filter, all as
  pure functions over a sequence of rows;
- `Ordering` — Python's code-point string order and
  `sorted(...dropna().unique())`;
- `Markers` — the map centre fallback, the marker label, and the loop that
  adds one marker per filtered row to a map object (`SiteMap`);
- `Session` — the Streamlit session state holding the two selections, the
  reset button, and one rerun of the script (`SessionState.Rerun`), which
  ties the state to the pure pipeline.

Two behaviours of `map.py` are easy to misread. An empty regency selection
together with a KCP selection means "no regency restriction", not "no rows"
(map.py:68-72). And the missing-column error names all four required
columns, not only the missing ones (map.py:23).

## Model

| member | source | states |
|---|---|---|
| Sites.CheckColumns | map.py:20-24 | the app continues with the table unchanged exactly when "KABUPATEN/KOTA", "Latitude", "Longitude" and "KCP" are all column names; otherwise it stops with the error naming the required columns |
| Sites.RegencyOptions | map.py:28 | the regency choices are strictly ascending (so duplicate-free) and contain a value exactly when some row has that non-null regency |
| Ordering.BelowIrreflexive | map.py:28 | Python's code-point order on strings (a proper prefix first) never puts a string below itself |
| Ordering.BelowTransitive | map.py:28 | that order is transitive |
| Ordering.BelowTotal | map.py:28 | that order relates any two distinct strings one way or the other, so `sorted` has one answer |
| Ordering.DistinctSorted | map.py:28 | sorted-unique of a column drops nulls, is strictly ascending, and holds exactly the non-null values of the column |
| Ordering.Insert | map.py:28 | adding a value to a strictly ascending list keeps it strictly ascending and adds exactly that value |
| Ordering.SortedUnique | map.py:28 | two strictly ascending lists with the same elements are equal, so the candidate lists do not depend on row order |
| Ordering.StrictlySortedHasNoDuplicates | map.py:28 | a strictly ascending list holds no value twice |
| Sites.KcpOptions | map.py:51-53 | the KCP choices are empty while no regency is selected; otherwise strictly ascending and containing a value exactly when a row whose regency is selected has that non-null KCP (`isin` as `IsIn`: a null cell never matches) |
| Sites.Where | map.py:52 | a boolean mask keeps a row exactly when the row is in the table and the mask holds of it, and never lengthens the table |
| Sites.WhereIsSubsequence | map.py:70-72 | masking yields a subsequence of the table: rows are dropped, never added, altered or reordered |
| Sites.WhereMultiplicity | map.py:70-72 | masking keeps every copy of a kept row and no copy of a dropped row |
| Sites.FinalFilter | map.py:64-74 | with neither selection made the result is empty, and the result is never longer than the table |
| Sites.FinalFilterIsAdmitted | map.py:65-74 | the staged filter (regency mask if regencies are selected, then KCP mask if KCPs are selected, nothing if neither) equals one pass of the single admission rule |
| Sites.FinalFilterCorrect | map.py:65-74 | the filtered rows are a subsequence of the table; a row is in them exactly when some selection is made, its regency is selected or no regency is, and its KCP is selected or no KCP is; each admitted row keeps its multiplicity (`isin` as `IsIn`: a null cell never matches) |
| Sites.FilteredKcpsAreOffered | map.py:52-72 | while a regency is selected, every non-null KCP that reaches the map is one of the KCP choices offered |
| Markers.MarkersOf | map.py:88-96 | one marker per row in row order, each at its row's latitude and longitude, coloured "blue", with the popup: the KCP text, `<br>`, the regency text, a null cell printing as `nan` |
| Markers.LabelSplits | map.py:91 | when the KCP text holds no `<br>`, the popup splits at its first `<br>` back into exactly the KCP text and the regency text |
| Markers.FirstBreak | map.py:91 | the position found is the first `<br>` of the text, or the end when there is none |
| Markers.CenterFor | map.py:76-82 | the fallback centre (0.85, 114.15) is used exactly when no row is filtered; otherwise the centre is the rows' mean |
| Markers.SiteMap.constructor | map.py:85 | a new map has the given centre and no markers |
| Markers.SiteMap.Add | map.py:92-96 | adding a marker appends it and leaves the centre unchanged |
| Markers.PlaceMarkers | map.py:87-96 | the marker loop appends exactly the markers of the rows, in order, and none for no rows |
| Markers.RenderMap | map.py:76-96 | the built map has the centre for the filtered rows and exactly their markers |
| Session.PageFor | map.py:26-96 | a page with no filtered rows has no markers and the fallback centre; there is one marker per filtered row; with no selection nothing is filtered |
| Session.SessionState.constructor | map.py:30-35 | a new session holds no entries |
| Session.SessionState.InitSelections | map.py:30-35 | each selection key absent from the session is set to the empty list; values kept from earlier runs are unchanged |
| Session.SessionState.Reset | map.py:37-40 | both selections become empty and every other session entry is unchanged |
| Session.SessionState.Rerun | map.py:18-96 | a run with a missing column stops with the error and leaves the session untouched; otherwise the selections are initialised, cleared on reset, and the page is the one computed from them |

## Left out

- Reading the spreadsheet and caching it (`load_data`, map.py:12-18): file I/O and framework caching. The model takes the loaded headers, already stripped of surrounding whitespace, and the rows as parameters.
- Columns other than the four that map.py reads: rows are projected to them; masking carries whole rows, so the other cells are untouched as well.
- Streamlit page and widget calls (`set_page_config`, `sidebar.title`, `multiselect`, `button`, `title`, `markdown`, `st_folium`): the user's picks are taken to be already stored under the multiselects' keys, the button press is a parameter of `Rerun`, and a multiselect returns what its key holds. Streamlit's multiselect raises an exception when a stored pick is not among its options; the model does not capture this, so a stored KCP pick with no regency selected (or one whose regency was deselected) yields a page here where the real page stops at map.py:56-62.
- folium's tiles, zoom and drawing of the map: only the centre and the abstract marker list are modelled.
- The mean-based centre (map.py:78-79): floating-point arithmetic; a non-empty result gives `MeanOfRows` without a value.
- Latitude and longitude are carried as `real` values and never computed with, so NaN coordinates are not distinguished.
- pandas NaN semantics beyond "a null cell is dropped from a candidate list, never matches a selection, and prints as nan".
- CheckColumns: headers are taken to be distinct after stripping; a required header that occurs twice passes the check at map.py:22 but makes map.py fail at line 28 or 53 (or gives a non-scalar centre at 78-79 for a coordinate), which is not modelled.
- Site: non-null regency and KCP cells are taken to be text; numeric cells (a different sort order, a TypeError from `sorted` on mixed types, numeric popup text such as "123.0") are not modelled.
