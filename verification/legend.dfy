/** The depth legend of the earthquake map.

  The legend walks two constant tables side by side, the depth thresholds and
  the colours, and writes one row per threshold: a swatch of `colors[i]` and
  the label `lo–hi`, or `lo+` when the next threshold is not truthy. Labels
  are kept as structure rather than HTML.
 */
module Legend {
  import opened Palette
  import Markers

  /** A JavaScript array read: the element, or `undefined` past either end. */
  datatype Slot<T> = Undefined | Defined(value: T)

  function At<T>(a: seq<T>, i: int): Slot<T>
  {
    if 0 <= i < |a| then Defined(a[i]) else Undefined
  }

  /** JavaScript truthiness of a read integer slot: `undefined` and `0` are falsy. */
  predicate Truthy(s: Slot<int>)
  {
    s.Defined? && s.value != 0
  }

  /** A row label: `lo–hi`, or `lo+` for an open upper end. */
  datatype Label = Range(lo: int, hi: int) | OpenEnded(lo: int)

  /** One legend row: the swatch colour text and the depth caption. */
  datatype Row = Row(swatch: Slot<string>, caption: Label)

  /** The legend's depth thresholds, as written by the map. */
  const Depths: seq<int> := [-10, 10, 30, 50, 70, 90]

  /** The legend's colour table, as written by the map; `Colors[i]` is the swatch for `Depths[i]`. */
  const Colors: seq<string> := ["#00FF00", "#9ACD32", "#ADFF2F", "#FFD700", "#FF8C00", "#FF0000"]

  /** Row `i` of the legend loop body. */
  function LegendRow(depths: seq<int>, colors: seq<string>, i: nat): Row
    requires i < |depths|
  {
    var next := At(depths, i + 1);
    Row(At(colors, i), if Truthy(next) then Range(depths[i], next.value) else OpenEnded(depths[i]))
  }

  /** All rows of the legend, one per threshold, in table order. */
  function LegendRows(depths: seq<int>, colors: seq<string>): (rows: seq<Row>)
    ensures |rows| == |depths|
    ensures forall i :: 0 <= i < |rows| ==> rows[i].caption.lo == depths[i]
    ensures forall i :: 0 <= i < |rows| ==>
      (rows[i].caption.OpenEnded? <==> i + 1 == |depths| || depths[i + 1] == 0)
    ensures forall i :: 0 <= i < |rows| && rows[i].caption.Range? ==> rows[i].caption.hi == depths[i + 1]
    ensures forall i :: 0 <= i < |rows| ==>
      (if i < |colors| then rows[i].swatch == Defined(colors[i]) else rows[i].swatch.Undefined?)
  {
    seq(|depths|, i requires 0 <= i < |depths| => LegendRow(depths, colors, i))
  }

  /** The legend loop: appends one row per threshold to the legend contents. */
  method RenderLegend(depths: seq<int>, colors: seq<string>) returns (rows: seq<Row>)
    ensures rows == LegendRows(depths, colors)
  {
    ghost var all := LegendRows(depths, colors);
    rows := [];
    var i := 0;
    while i < |depths|
      invariant 0 <= i <= |depths|
      invariant rows == all[..i]
    {
      assert all[..i + 1] == all[..i] + [LegendRow(depths, colors, i)];
      rows := rows + [LegendRow(depths, colors, i)];
      i := i + 1;
    }
    assert all[..|depths|] == all;
  }

  /** The map's legend: six rows pairing each colour with its range, the last one open-ended at 90. */
  lemma MapLegendRows()
    ensures LegendRows(Depths, Colors) == [
      Row(Defined("#00FF00"), Range(-10, 10)),
      Row(Defined("#9ACD32"), Range(10, 30)),
      Row(Defined("#ADFF2F"), Range(30, 50)),
      Row(Defined("#FFD700"), Range(50, 70)),
      Row(Defined("#FF8C00"), Range(70, 90)),
      Row(Defined("#FF0000"), OpenEnded(90))]
  {
  }

  /** The `+` appears on the last row only, because no threshold after the first is zero. */
  lemma MapLegendOpenOnlyAtEnd(i: nat)
    requires i < |Depths|
    ensures LegendRows(Depths, Colors)[i].caption.OpenEnded? <==> i == |Depths| - 1
  {
  }

  /** Whether a label's range contains a depth: `lo–hi` is the half-open interval (lo, hi], `lo+` is (lo, ∞). */
  predicate Covers(l: Label, depth: real)
  {
    match l
    case Range(lo, hi) => lo as real < depth <= hi as real
    case OpenEnded(lo) => lo as real < depth
  }

  /** The legend agrees with the marker colouring: a depth that a row's label
      covers is painted in that row's swatch colour. */
  lemma LegendAgreesWithMarkerColor(i: nat, depth: real)
    requires i < |Depths|
    requires Covers(LegendRows(Depths, Colors)[i].caption, depth)
    ensures LegendRows(Depths, Colors)[i].swatch == Defined(Hex(Markers.MarkerColor(depth)))
  {
    MapLegendRows();
  }

  /** Above -10 the rows partition the depths: the one row whose label covers
      a depth is the row at the rank of the depth's colour. */
  lemma LegendRowOfDepth(i: nat, depth: real)
    requires i < |Depths|
    requires depth > -10.0
    ensures Covers(LegendRows(Depths, Colors)[i].caption, depth) <==> i == Rank(Markers.MarkerColor(depth))
  {
    MapLegendRows();
  }

  /** No row covers a depth of -10 or less, yet such events are still painted
      in the first row's colour. */
  lemma LegendMissesBelowFirstThreshold(i: nat, depth: real)
    requires i < |Depths|
    requires depth <= -10.0
    ensures !Covers(LegendRows(Depths, Colors)[i].caption, depth)
    ensures Hex(Markers.MarkerColor(depth)) == Colors[0]
  {
    MapLegendRows();
  }
}
