/** The feature-to-marker mapper of the earthquake map.

  Every earthquake feature of the feed becomes one circle marker: its radius
  scales the magnitude, its fill colour steps with the depth, its stroke is
  fixed, and it carries a popup naming the place and the event time.
  Magnitudes and depths are mathematical reals, not IEEE doubles.
 */
module Markers {
  import opened Palette

  /** One earthquake record of the feed: `properties.place`, `properties.time`
      (epoch milliseconds), `properties.mag` and `geometry.coordinates`
      `[lon, lat, depth]`. */
  datatype Feature = Feature(place: string, time: int, mag: real, lon: real, lat: real, depth: real)

  /** A circle marker with the style options the map gives it. */
  datatype Marker = Marker(
    lat: real,
    lng: real,
    radius: real,
    fillColor: Color,
    strokeColor: string,
    weight: int,
    opacity: real,
    fillOpacity: real,
    popup: string)

  const StrokeColor: string := "#000"
  const StrokeWeight: int := 1
  const StrokeOpacity: real := 1.0
  const FillOpacity: real := 0.65

  /** The depth thresholds of the colour scale, shallowest first. */
  const Thresholds: seq<real> := [10.0, 30.0, 50.0, 70.0, 90.0]

  /** Marker radius for a magnitude: four units per magnitude unit, with no
      clamping, so a zero magnitude gives a zero radius and a negative one a
      negative radius. */
  function MarkerSize(magnitude: real): (radius: real)
    ensures radius / 4.0 == magnitude
    ensures radius > 0.0 <==> magnitude > 0.0
    ensures radius == 0.0 <==> magnitude == 0.0
  {
    magnitude * 4.0
  }

  /** A larger magnitude always gives a larger radius. */
  lemma MarkerSizeStrictlyMonotone(m1: real, m2: real)
    requires m1 < m2
    ensures MarkerSize(m1) < MarkerSize(m2)
  {
  }

  /** Fill colour for a depth: thresholds are exclusive lower bounds checked
      from the deepest down, and the first one exceeded decides. */
  function MarkerColor(depth: real): (c: Color)
    ensures c == Red <==> depth > 90.0
    ensures c == DarkOrange <==> 70.0 < depth <= 90.0
    ensures c == Gold <==> 50.0 < depth <= 70.0
    ensures c == GreenYellow <==> 30.0 < depth <= 50.0
    ensures c == YellowGreen <==> 10.0 < depth <= 30.0
    ensures c == Lime <==> depth <= 10.0
  {
    if depth > 90.0 then Red
    else if depth > 70.0 then DarkOrange
    else if depth > 50.0 then Gold
    else if depth > 30.0 then GreenYellow
    else if depth > 10.0 then YellowGreen
    else Lime
  }

  /** Reference definition of a depth bucket: how many thresholds lie strictly below the depth. */
  function Exceeded(thresholds: seq<real>, depth: real): (n: nat)
    ensures n <= |thresholds|
  {
    if |thresholds| == 0 then 0
    else (if thresholds[0] < depth then 1 else 0) + Exceeded(thresholds[1..], depth)
  }

  /** The colour's position on the scale is the number of thresholds the depth exceeds. */
  lemma {:induction false} MarkerColorCountsThresholds(depth: real)
    ensures Rank(MarkerColor(depth)) == Exceeded(Thresholds, depth)
  {
    var t := Thresholds;
    assert t[1..][1..][1..][1..][1..] == [];
    assert Exceeded(t[1..][1..][1..][1..], depth) == if 90.0 < depth then 1 else 0;
    assert Exceeded(t[1..][1..][1..], depth) == (if 70.0 < depth then 1 else 0) + (if 90.0 < depth then 1 else 0);
    assert Exceeded(t[1..][1..], depth)
        == (if 50.0 < depth then 1 else 0) + (if 70.0 < depth then 1 else 0) + (if 90.0 < depth then 1 else 0);
  }

  /** A deeper event never gets a shallower colour. */
  lemma MarkerColorMonotone(d1: real, d2: real)
    requires d1 <= d2
    ensures Rank(MarkerColor(d1)) <= Rank(MarkerColor(d2))
  {
  }

  /** The popup text: the place as a heading, a rule, then the rendered time. */
  function Popup(place: string, timeText: string): (html: string)
    ensures |html| == |place| + |timeText| + 20
    ensures html[..4] == "<h3>" && html[4..4 + |place|] == place
    ensures html[4 + |place|..16 + |place|] == "</h3><hr><p>"
    ensures html[16 + |place|..16 + |place| + |timeText|] == timeText
    ensures html[|html| - 4..] == "</p>"
  {
    "<h3>" + place + "</h3><hr><p>" + timeText + "</p>"
  }

  /** The longest prefix of `s` that does not contain `c`. */
  function TakeUntil(s: string, c: char): (p: string)
    ensures p <= s
    ensures c !in p
    ensures |p| < |s| ==> s[|p|] == c
  {
    if |s| == 0 || s[0] == c then [] else [s[0]] + TakeUntil(s[1..], c)
  }

  /** Reads the place back out of a popup: the heading text up to the first tag. */
  function PlaceOfPopup(html: string): Option<string>
  {
    if |html| >= 4 && html[..4] == "<h3>" then Some(TakeUntil(html[4..], '<')) else None
  }

  lemma {:induction false} TakeUntilStopsAtFirst(p: string, c: char, rest: string)
    requires c !in p
    ensures TakeUntil(p + [c] + rest, c) == p
  {
    if |p| > 0 {
      assert (p + [c] + rest)[1..] == p[1..] + [c] + rest;
      TakeUntilStopsAtFirst(p[1..], c, rest);
    }
  }

  /** A place without a `<` is recovered from its popup unchanged. */
  lemma PopupPlaceRoundTrip(place: string, timeText: string)
    requires '<' !in place
    ensures PlaceOfPopup(Popup(place, timeText)) == Some(place)
  {
    var html := Popup(place, timeText);
    assert html[4..] == place + ['<'] + ("/h3><hr><p>" + timeText + "</p>");
    TakeUntilStopsAtFirst(place, '<', "/h3><hr><p>" + timeText + "</p>");
  }

  /** The marker `pointToLayer` builds for one feature, with the popup
      `onEachFeature` binds to it; `dateText` stands for the host's rendering
      of an epoch-millisecond timestamp. */
  function ToMarker(f: Feature, dateText: int -> string): (m: Marker)
    ensures m.radius / 4.0 == f.mag
    ensures Rank(m.fillColor) == Exceeded(Thresholds, f.depth)
    ensures m.lat == f.lat && m.lng == f.lon
    ensures m.strokeColor == "#000" && m.weight == 1 && m.opacity == 1.0 && m.fillOpacity == 0.65
    ensures m.popup == Popup(f.place, dateText(f.time))
    ensures '<' !in f.place ==> PlaceOfPopup(m.popup) == Some(f.place)
  {
    MarkerColorCountsThresholds(f.depth);
    var popup := Popup(f.place, dateText(f.time));
    assert '<' !in f.place ==> PlaceOfPopup(popup) == Some(f.place) by {
      if '<' !in f.place {
        PopupPlaceRoundTrip(f.place, dateText(f.time));
      }
    }
    Marker(f.lat, f.lon, MarkerSize(f.mag), MarkerColor(f.depth),
           StrokeColor, StrokeWeight, StrokeOpacity, FillOpacity, popup)
  }

  /** The whole feature collection, one marker per feature, in feed order. */
  function MapFeatures(fs: seq<Feature>, dateText: int -> string): (ms: seq<Marker>)
    ensures |ms| == |fs|
    ensures forall i :: 0 <= i < |fs| ==> ms[i] == ToMarker(fs[i], dateText)
  {
    if |fs| == 0 then [] else [ToMarker(fs[0], dateText)] + MapFeatures(fs[1..], dateText)
  }

  /** Mapping a concatenation maps each part in turn: the mapper keeps feed order. */
  lemma {:induction false} MapFeaturesAppend(a: seq<Feature>, b: seq<Feature>, dateText: int -> string)
    ensures MapFeatures(a + b, dateText) == MapFeatures(a, dateText) + MapFeatures(b, dateText)
  {
    if |a| > 0 {
      assert (a + b)[1..] == a[1..] + b;
      MapFeaturesAppend(a[1..], b, dateText);
    }
  }

  /** One feature of magnitude 5 at depth 95 named "Test" yields a single red marker of radius 20 whose popup names "Test". */
  lemma SingleDeepFeature(dateText: int -> string, lon: real, lat: real)
    ensures var ms := MapFeatures([Feature("Test", 1700000000000, 5.0, lon, lat, 95.0)], dateText);
      |ms| == 1 && ms[0].radius == 20.0 && ms[0].fillColor == Red
      && PlaceOfPopup(ms[0].popup) == Some("Test")
  {
  }
}
