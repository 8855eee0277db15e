/** The fixed classification rules: the three level tags a user can log, the
    (value, status) pair each tag stores, and the colour band a stored value is
    displayed with. */
module Levels {
  import opened Wrappers

  /** The three tags; they name both the loggable levels and the colour bands. */
  datatype Color = Green | Yellow | Red

  /** The text form of a tag, as it appears in `/log/<level>` and in views. */
  function ColorName(c: Color): string
  {
    match c
    case Green => "green"
    case Yellow => "yellow"
    case Red => "red"
  }

  /** Reads a tag; any other text is not a tag. */
  function ParseColor(tag: string): (c: Option<Color>)
    ensures c.Some? <==> tag == "green" || tag == "yellow" || tag == "red"
    ensures c.Some? ==> ColorName(c.value) == tag
  {
    if tag == "green" then Some(Green)
    else if tag == "yellow" then Some(Yellow)
    else if tag == "red" then Some(Red)
    else None
  }

  /** Every tag reads back as itself. */
  lemma ParseColorName(c: Color)
    ensures ParseColor(ColorName(c)) == Some(c)
  {
  }

  /** The columns a logged level stores: a numeric value and a status label. */
  datatype Level = Level(value: int, status: string)

  /** One entry of the level table. */
  function LevelOf(c: Color): (l: Level)
    ensures c == Green ==> l == Level(10, "Good")
    ensures c == Yellow ==> l == Level(50, "Smoky")
    ensures c == Red ==> l == Level(90, "Danger")
  {
    match c
    case Green => Level(10, "Good")
    case Yellow => Level(50, "Smoky")
    case Red => Level(90, "Danger")
  }

  /** `LEVEL_MAP[tag]`, or None when the tag is not a key of the table. */
  function LevelMap(tag: string): (l: Option<Level>)
    ensures l.Some? <==> tag == "green" || tag == "yellow" || tag == "red"
    ensures tag == "green" ==> l == Some(Level(10, "Good"))
    ensures tag == "yellow" ==> l == Some(Level(50, "Smoky"))
    ensures tag == "red" ==> l == Some(Level(90, "Danger"))
  {
    match ParseColor(tag)
    case Some(c) => Some(LevelOf(c))
    case None => None
  }

  /** `get_status_color`: the colour band of any integer value, with 30 and 70
      both inside the yellow band. */
  function StatusColor(value: int): (c: Color)
    ensures c == Green <==> value < 30
    ensures c == Yellow <==> 30 <= value <= 70
    ensures c == Red <==> 70 < value
  {
    if value < 30 then Green
    else if value <= 70 then Yellow
    else Red
  }

  /** The band edges: 29 is the last green value, 30 and 70 are yellow, and 71
      is the first red value. */
  lemma StatusColorBoundaries()
    ensures StatusColor(29) == Green
    ensures StatusColor(30) == Yellow
    ensures StatusColor(70) == Yellow
    ensures StatusColor(71) == Red
  {
  }

  /** Round trip: the colour recomputed from the value a tag stores is that
      tag again, so a displayed colour always agrees with the logged level. */
  lemma LevelColorRoundTrip(tag: string)
    requires LevelMap(tag).Some?
    ensures ColorName(StatusColor(LevelMap(tag).value.value)) == tag
  {
  }

  /** The same round trip on the typed tag: the band of the value stored for
      `c` is `c`. */
  lemma LevelOfColorRoundTrip(c: Color)
    ensures StatusColor(LevelOf(c).value) == c
  {
  }
}
