/** game.py's init_game: shuffle the card list in place and deal its first
    entries onto a 3 by 7 grid. */
module Dealing {
  import opened Geometry
  import opened Cards

  const Rows := 3
  const Cols := 7
  const GridSize := Rows * Cols
  const CardWidth := 120
  const CardHeight := 180
  const MarginX := 30
  const MarginY := 50
  /** Distance from one column (row) to the next: card size plus gutter. */
  const PitchX := CardWidth + 10
  const PitchY := CardHeight + 20

  function Min(a: int, b: int): int { if a <= b then a else b }

  /** The cell of grid index `idx` (row idx / 7, column idx % 7). */
  function CellRect(idx: nat): (r: Rect)
    requires idx < GridSize
    ensures r.w == CardWidth && r.h == CardHeight
    ensures MarginX <= r.x && r.x + r.w <= MarginX + Cols * PitchX
    ensures MarginY <= r.y && r.y + r.h <= MarginY + Rows * PitchY
  {
    Rect(MarginX + (idx % Cols) * PitchX, MarginY + (idx / Cols) * PitchY, CardWidth, CardHeight)
  }

  /** The module-level card list of game.py; shuffling reorders it in place. */
  class TarotDeck {
    var entries: seq<CardData>

    constructor (entries: seq<CardData>)
      ensures this.entries == entries
    {
      this.entries := entries;
    }
  }

  /** init_game. `shuffled` is the order random.shuffle produces, which can be
      any permutation of the deck. */
  method InitGame(deck: TarotDeck, shuffled: seq<CardData>) returns (cards: seq<Card>)
    requires multiset(shuffled) == multiset(deck.entries)
    modifies deck
    ensures deck.entries == shuffled
    ensures |cards| == Min(GridSize, |shuffled|)
    ensures forall i :: 0 <= i < |cards| ==>
              && fresh(cards[i]) && cards[i].Valid()
              && cards[i].data == shuffled[i]
              && cards[i].State() == NewCard(CellRect(i))
    ensures forall i, j :: 0 <= i < j < |cards| ==> cards[i] != cards[j]
  {
    deck.entries := shuffled;
    cards := [];
    for row := 0 to Rows
      invariant deck.entries == shuffled
      invariant |cards| == Min(row * Cols, |shuffled|)
      invariant forall i :: 0 <= i < |cards| ==>
                  && fresh(cards[i]) && cards[i].Valid()
                  && cards[i].data == shuffled[i]
                  && cards[i].State() == NewCard(CellRect(i))
      invariant forall i, j :: 0 <= i < j < |cards| ==> cards[i] != cards[j]
    {
      for col := 0 to Cols
        invariant deck.entries == shuffled
        invariant |cards| == Min(row * Cols + col, |shuffled|)
        invariant forall i :: 0 <= i < |cards| ==>
                    && fresh(cards[i]) && cards[i].Valid()
                    && cards[i].data == shuffled[i]
                    && cards[i].State() == NewCard(CellRect(i))
        invariant forall i, j :: 0 <= i < j < |cards| ==> cards[i] != cards[j]
      {
        var idx := row * Cols + col;
        if idx < |deck.entries| {
          var x := MarginX + col * PitchX;
          var y := MarginY + row * PitchY;
          GridIndex(row, col);
          var c := new Card(x, y, CardWidth, CardHeight, deck.entries[idx]);
          cards := cards + [c];
        }
      }
    }
  }

  /** Index row * 7 + col lies in row `row` and column `col`. */
  lemma GridIndex(row: nat, col: nat)
    requires col < Cols
    ensures (row * Cols + col) / Cols == row && (row * Cols + col) % Cols == col
  {
  }

  /** Distinct grid indices get distinct cells. */
  lemma CellsDistinct(i: nat, j: nat)
    requires i < GridSize && j < GridSize && i != j
    ensures CellRect(i).TopLeft() != CellRect(j).TopLeft()
  {
  }

  /** The dealt cards never overlap: no point lies in two cells. */
  lemma CellsDisjoint(i: nat, j: nat, p: Point)
    requires i < GridSize && j < GridSize && i != j
    ensures !(CellRect(i).Contains(p) && CellRect(j).Contains(p))
  {
  }

  /** is_clickable's grown rects do overlap: two horizontal neighbours share a
      10-pixel wide strip, so one click there hits both. */
  lemma NeighboursShareHitArea(i: nat)
    requires i + 1 < GridSize && i % Cols < Cols - 1
    ensures var p := Point(CellRect(i).x + CardWidth + 5, CellRect(i).y);
            CellRect(i).Inflate(ClickSlack, ClickSlack).Contains(p)
            && CellRect(i + 1).Inflate(ClickSlack, ClickSlack).Contains(p)
  {
  }

  /** Only horizontal neighbours share hit area: rows do not overlap even when grown. */
  lemma HitAreasMeetOnlyAsNeighbours(i: nat, j: nat, p: Point)
    requires i < j < GridSize
    requires CellRect(i).Inflate(ClickSlack, ClickSlack).Contains(p)
    requires CellRect(j).Inflate(ClickSlack, ClickSlack).Contains(p)
    ensures j == i + 1 && i / Cols == j / Cols
  {
  }

  /** Hence no point is in the hit area of three cells. */
  lemma AtMostTwoHitAreas(i: nat, j: nat, k: nat, p: Point)
    requires i < j < k < GridSize
    ensures !(&& CellRect(i).Inflate(ClickSlack, ClickSlack).Contains(p)
              && CellRect(j).Inflate(ClickSlack, ClickSlack).Contains(p)
              && CellRect(k).Inflate(ClickSlack, ClickSlack).Contains(p))
  {
    if && CellRect(i).Inflate(ClickSlack, ClickSlack).Contains(p)
       && CellRect(j).Inflate(ClickSlack, ClickSlack).Contains(p)
       && CellRect(k).Inflate(ClickSlack, ClickSlack).Contains(p)
    {
      HitAreasMeetOnlyAsNeighbours(i, j, p);
      HitAreasMeetOnlyAsNeighbours(i, k, p);
      assert false;
    }
  }
}
