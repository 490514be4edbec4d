/** The fixed screen layout shared by both entry points, and the flow states. */
module Screen {
  import opened Geometry

  const ScreenWidth := 1024
  const ScreenHeight := 768

  /** The four stages of a reading session. */
  datatype Phase = Intro | Selecting | Reading | DetailedReading

  /** The pygame events the main loop tells apart. */
  datatype Event = Quit | MouseDown | Other

  /** The start button on the intro screen and the back button on the reading screen,
      each 200 by 50 and centred horizontally. */
  const StartButtonRect := Rect(ScreenWidth / 2 - 100, ScreenHeight / 2 + 100, 200, 50)
  const BackButtonRect := Rect(ScreenWidth / 2 - 100, ScreenHeight - 80, 200, 50)

  /** Where the past, present and future cards go when the reading starts. */
  const Slots: seq<Point> := [
    Point(ScreenWidth / 4 - 60, ScreenHeight / 2 - 90),
    Point(ScreenWidth / 2 - 60, ScreenHeight / 2 - 90),
    Point(3 * ScreenWidth / 4 - 60, ScreenHeight / 2 - 90)
  ]

  /** The slots are three distinct points on one row, left to right. */
  lemma SlotsInARow()
    ensures |Slots| == 3
    ensures Slots[0].y == Slots[1].y == Slots[2].y
    ensures Slots[0].x < Slots[1].x < Slots[2].x
  {
  }

  /** The wrap width of a description on the detail screen: the detail card's width plus 100. */
  const DetailCardWidth := 240
  const WrapLimit := DetailCardWidth + 100
}
