/** The map that map.py draws: its centre and one marker per filtered row.
    Only the abstract marker list is modelled, not folium's rendering. */
module Markers {
  import opened Wrappers
  import opened Sites

  /** A map pin: where it stands, the popup text, and the icon's colour and glyph. */
  datatype Marker = Marker(latitude: real, longitude: real, popup: string, color: string, icon: string)

  /** Where the map is centred. With no filtered rows it is the fixed point
      over Kalimantan; otherwise it is the mean of the rows' coordinates, which
      is floating-point arithmetic and not computed here. */
  datatype Center = Fixed(latitude: real, longitude: real) | MeanOfRows

  const FallbackLatitude: real := 0.85
  const FallbackLongitude: real := 114.15
  const MarkerColor: string := "blue"
  const MarkerIcon: string := "info-sign"
  const LineBreak: string := "<br>"

  /** How an f-string shows a cell: the text itself, or "nan" for a null. */
  function CellText(cell: Option<string>): string
  {
    match cell
    case Some(v) => v
    case None => "nan"
  }

  /** The popup: the KCP, a line break, then the regency. */
  function Label(row: Site): string
  {
    CellText(row.kcp) + LineBreak + CellText(row.regency)
  }

  /** `t` holds the line break starting at position `i`. */
  predicate BreakAt(t: string, i: nat)
  {
    i + |LineBreak| <= |t| && t[i..i + |LineBreak|] == LineBreak
  }

  /** The position of the first line break in `t`, or `|t|` if there is none. */
  function FirstBreak(t: string): (i: nat)
    ensures i <= |t|
    ensures i < |t| ==> BreakAt(t, i)
    ensures forall j :: 0 <= j < i ==> !BreakAt(t, j)
  {
    if |t| < |LineBreak| then |t|
    else if BreakAt(t, 0) then 0
    else
      var i := FirstBreak(t[1..]);
      assert forall j :: 0 < j <= i ==> (BreakAt(t, j) <==> BreakAt(t[1..], j - 1)) by {
        forall j | 0 < j <= i ensures BreakAt(t, j) <==> BreakAt(t[1..], j - 1) {
          if j + |LineBreak| <= |t| {
            assert t[j..j + |LineBreak|] == t[1..][j - 1..j - 1 + |LineBreak|];
          }
        }
      }
      1 + i
  }

  /** Reads a popup back: the text before its first line break and the text
      after it. */
  function SplitLabel(t: string): (parts: (string, string))
    ensures FirstBreak(t) < |t| ==> t == parts.0 + LineBreak + parts.1
  {
    var i := FirstBreak(t);
    if i < |t| then (t[..i], t[i + |LineBreak|..]) else (t, "")
  }

  lemma {:induction false} FirstBreakOfJoin(k: string, rest: string)
    requires forall j :: 0 <= j < |k| ==> !BreakAt(k, j)
    ensures FirstBreak(k + LineBreak + rest) == |k|
  {
    var t := k + LineBreak + rest;
    if k != [] {
      assert !BreakAt(t, 0) by {
        if |k| >= |LineBreak| {
          assert t[..|LineBreak|] == k[..|LineBreak|];
          assert !BreakAt(k, 0);
        } else {
          assert t[|k|] == '<' && LineBreak[|k|] != '<';
          assert t[..|LineBreak|][|k|] != LineBreak[|k|];
        }
      }
      forall j | 0 <= j < |k[1..]| ensures !BreakAt(k[1..], j) {
        assert !BreakAt(k, j + 1);
        if j + |LineBreak| <= |k[1..]| {
          assert k[1..][j..j + |LineBreak|] == k[j + 1..j + 1 + |LineBreak|];
        }
      }
      FirstBreakOfJoin(k[1..], rest);
      assert t[1..] == k[1..] + LineBreak + rest;
    }
  }

  /** The popup gives back the KCP and regency texts it was made from, as long
      as the KCP text itself holds no line break. */
  lemma LabelSplits(row: Site)
    requires forall j :: 0 <= j < |CellText(row.kcp)| ==> !BreakAt(CellText(row.kcp), j)
    ensures SplitLabel(Label(row)) == (CellText(row.kcp), CellText(row.regency))
  {
    var k, r := CellText(row.kcp), CellText(row.regency);
    FirstBreakOfJoin(k, r);
    var t := Label(row);
    assert t == k + LineBreak + r;
    assert t[..|k|] == k;
    assert t[|k| + |LineBreak|..] == r;
  }

  function MarkerFor(row: Site): Marker
  {
    Marker(row.latitude, row.longitude, Label(row), MarkerColor, MarkerIcon)
  }

  /** The markers of a sequence of rows: one per row, in row order, each blue,
      at its row's coordinates and labelled with its row's KCP and regency. */
  function MarkersOf(rows: seq<Site>): (ms: seq<Marker>)
    ensures |ms| == |rows|
    ensures forall i :: 0 <= i < |rows| ==>
      && ms[i].latitude == rows[i].latitude
      && ms[i].longitude == rows[i].longitude
      && ms[i].color == MarkerColor
      && ms[i].popup == Label(rows[i])
  {
    if rows == [] then []
    else MarkersOf(rows[..|rows| - 1]) + [MarkerFor(rows[|rows| - 1])]
  }

  /** The centre of the map for the filtered rows. */
  function CenterFor(filtered: seq<Site>): (c: Center)
    ensures c.Fixed? <==> filtered == []
    ensures c.Fixed? ==> c.latitude == FallbackLatitude && c.longitude == FallbackLongitude
  {
    if filtered != [] then MeanOfRows else Fixed(FallbackLatitude, FallbackLongitude)
  }

  /** The folium map object: a centre and the markers added to it so far. */
  class SiteMap {
    var center: Center
    var markers: seq<Marker>

    constructor (center: Center)
      ensures this.center == center && markers == []
    {
      this.center := center;
      markers := [];
    }

    /** `Marker(...).add_to(m)`. */
    method Add(marker: Marker)
      modifies this
      ensures markers == old(markers) + [marker]
      ensures center == old(center)
    {
      markers := markers + [marker];
    }
  }

  /** The marker loop: when there are rows, adds one marker per row to the
      map, in row order. */
  method PlaceMarkers(m: SiteMap, rows: seq<Site>)
    modifies m
    ensures m.markers == old(m.markers) + MarkersOf(rows)
    ensures m.center == old(m.center)
  {
    if rows != [] {
      for i := 0 to |rows|
        invariant m.markers == old(m.markers) + MarkersOf(rows[..i])
        invariant m.center == old(m.center)
      {
        assert rows[..i + 1][..i] == rows[..i];
        m.Add(MarkerFor(rows[i]));
      }
      assert rows[..|rows|] == rows;
    }
  }

  /** Builds the map for the filtered rows: the centre, then the markers. */
  method RenderMap(filtered: seq<Site>) returns (m: SiteMap)
    ensures fresh(m)
    ensures m.center == CenterFor(filtered)
    ensures m.markers == MarkersOf(filtered)
  {
    var center := CenterFor(filtered);
    m := new SiteMap(center);
    PlaceMarkers(m, filtered);
  }
}
