# Earthquake map: marker styling and depth legend

A Dafny model of the logic of a small web map of recent earthquakes. The map
reads a GeoJSON feed of earthquake features and draws each one as a circle
marker. The radius scales the magnitude. The fill colour steps with the depth
across six buckets. The stroke style is fixed. A popup names the place and
the time. A legend in the corner lists the six depth ranges with their
colours.

The project has three modules:

- `Palette` (`palette.dfy`): the six fill colours, their hex texts and their
  order on the depth scale.
- `Markers` (`markers.dfy`): earthquake features and markers, the radius and
  colour functions, the popup template, and the mapping of the whole feature
  collection to markers.
- `Legend` (`legend.dfy`): the legend loop over the constant depth and colour
  tables, with JavaScript's `undefined` and truthiness made explicit. It also
  holds the cross-check that the hand-written legend agrees with the colour
  function.

Magnitudes and depths are mathematical reals, not IEEE doubles. Legend labels
are structured values (`Range(lo, hi)` for `lo–hi`, `OpenEnded(lo)` for
`lo+`), not HTML.

Colour names: the constructors carry the CSS names of the hex values the code
writes. `#ADFF2F` is `GreenYellow` and `#9ACD32` is `YellowGreen`.

## Model

| member | source | states |
|---|---|---|
| Palette.Hex | static/js/logic.js:23-28 | each colour has a seven-character `#` hex text, and reading that text back gives the same colour |
| Markers.MarkerSize | static/js/logic.js:17-19 | the radius divided by four is the magnitude, with no clamping: the radius is positive exactly for positive magnitudes and zero exactly for magnitude zero |
| Markers.MarkerSizeStrictlyMonotone | static/js/logic.js:17-19 | a strictly larger magnitude gives a strictly larger radius |
| Markers.MarkerColor | static/js/logic.js:22-29 | each colour holds exactly on its half-open depth interval: red above 90, dark orange on (70, 90], gold on (50, 70], green-yellow on (30, 50], yellow-green on (10, 30], lime at 10 or below, so a boundary depth takes the lower bucket |
| Markers.MarkerColorCountsThresholds | static/js/logic.js:22-29 | the colour's position on the scale equals the number of thresholds 10, 30, 50, 70, 90 that the depth strictly exceeds |
| Markers.MarkerColorMonotone | static/js/logic.js:22-29 | a deeper event never gets a colour lower on the scale |
| Markers.Popup | static/js/logic.js:13 | the popup is `<h3>`, the place, `</h3><hr><p>`, the time text and `</p>`, each at its stated position, and nothing else |
| Markers.PopupPlaceRoundTrip | static/js/logic.js:13 | for a place without `<`, the heading text of the popup is the place |
| Markers.ToMarker | static/js/logic.js:32-43 | one feature's marker: radius over four is the magnitude, the colour's rank counts the thresholds the third coordinate exceeds, the position is the feature's latitude and longitude, the stroke colour is `#000` with weight 1, opacity 1 and fill opacity 0.65, and the popup is the template filled with the place and the rendered time of that feature, whose heading gives back the place when the place has no `<` |
| Markers.MapFeatures | static/js/logic.js:32-44 | exactly one marker per feature, and the marker at position i is the one built from feature i |
| Markers.MapFeaturesAppend | static/js/logic.js:32-44 | mapping a concatenated collection gives the concatenation of the mapped parts, so feed order is kept |
| Markers.SingleDeepFeature | static/js/logic.js:13-41 | a single feature of magnitude 5 at depth 95 named "Test" yields one red marker of radius 20 whose popup names "Test" |
| Legend.LegendRows | static/js/logic.js:85-92 | one row per threshold in table order; row i starts at depths[i]; it is open-ended exactly when the next threshold is missing or zero, and otherwise ends at depths[i+1]; its swatch is colors[i], or `undefined` past the end of the colour table |
| Legend.RenderLegend | static/js/logic.js:89-92 | the loop appends exactly the rows that `LegendRows` describes, in order |
| Legend.MapLegendRows | static/js/logic.js:85-92 | the map's legend is the six rows -10–10, 10–30, 30–50, 50–70, 70–90 and 90+, each with its colour |
| Legend.MapLegendOpenOnlyAtEnd | static/js/logic.js:85-91 | in the map's legend the `+` appears on the last row and on no other |
| Legend.LegendAgreesWithMarkerColor | static/js/logic.js:85-86 | every depth a row's label covers is painted by `markerColor` (lines 22-29) in that row's swatch colour |
| Legend.LegendRowOfDepth | static/js/logic.js:85-86 | above -10, a row covers a depth exactly when the row's position is the rank of the depth's colour, so the rows split the depths without gaps or overlaps |
| Legend.LegendMissesBelowFirstThreshold | static/js/logic.js:85 | no row covers a depth of -10 or less, yet `markerColor` still paints it in the first row's colour |

## Left out

- The feed fetch and its promise continuation (static/js/logic.js:2-8): network I/O. The model starts from the feature sequence.
- Leaflet calls: tile layer, map, layer control and legend control (static/js/logic.js:50-78, 95). They are foreign library calls with no local logic.
- The legend's DOM styling and swatch HTML (static/js/logic.js:81-84, 91): presentation. Rows are modelled as structured values.
- `new Date(time)` in the popup (static/js/logic.js:13): host formatting. `ToMarker` and `MapFeatures` take a `dateText` function that stands for it.
- Marker position: Leaflet turns GeoJSON `[lon, lat]` into a latitude/longitude pair. That conversion is library code and is modelled as a field swap.
- IEEE floating point in `magnitude * 4` and in the depth comparisons: reals are used instead. NaN is not modelled, so no threshold is NaN-falsy.
- Missing or malformed feature properties: the code never checks for them. A `Feature` always carries every field.
- Markers.PopupPlaceRoundTrip: only claims recovery for places without `<`. A place containing `<` is still inserted verbatim, but the heading text cannot then be read back by looking for the first tag.
