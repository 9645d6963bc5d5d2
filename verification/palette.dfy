/** The six fill colours of the depth scale used by the earthquake map.

  Constructors carry the CSS colour names of the hex values the map writes;
  they are listed from the shallowest bucket to the deepest.
 */
module Palette {

  /** An optional value, for reads that can fail: `FromHex` on text that is not
      one of the six colours, and the popup reader of the marker module. It lives
      here because every other module imports this one. */
  datatype Option<T> = None | Some(value: T)

  datatype Color = Lime | YellowGreen | GreenYellow | Gold | DarkOrange | Red

  /** The hex text the map writes for each colour. */
  function Hex(c: Color): (h: string)
    ensures |h| == 7 && h[0] == '#'
    ensures FromHex(h) == Some(c)
  {
    match c
    case Lime => "#00FF00"
    case YellowGreen => "#9ACD32"
    case GreenYellow => "#ADFF2F"
    case Gold => "#FFD700"
    case DarkOrange => "#FF8C00"
    case Red => "#FF0000"
  }

  /** Reads a colour back from its hex text; `None` for any other text. */
  function FromHex(h: string): Option<Color>
  {
    if h == "#00FF00" then Some(Lime)
    else if h == "#9ACD32" then Some(YellowGreen)
    else if h == "#ADFF2F" then Some(GreenYellow)
    else if h == "#FFD700" then Some(Gold)
    else if h == "#FF8C00" then Some(DarkOrange)
    else if h == "#FF0000" then Some(Red)
    else None
  }

  /** Position of a colour on the depth scale: 0 is the shallowest bucket, 5 the deepest. */
  function Rank(c: Color): (k: nat)
    ensures k < 6
  {
    match c
    case Lime => 0
    case YellowGreen => 1
    case GreenYellow => 2
    case Gold => 3
    case DarkOrange => 4
    case Red => 5
  }

  /** Distinct colours sit at distinct positions, so the rank order is a strict order on colours. */
  lemma RankInjective(a: Color, b: Color)
    ensures Rank(a) == Rank(b) <==> a == b
  {
  }

  /** `FromHex` accepts exactly the six hex texts of the scale, so hex text and colour determine each other. */
  lemma FromHexAcceptsOnlyHex(h: string, c: Color)
    ensures FromHex(h) == Some(c) <==> h == Hex(c)
  {
  }
}
