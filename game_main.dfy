/** game.py's main loop: each frame handles the pending events, runs the hover
    pass and draws, which advances the animations of the drawn cards. */
module GameFlow {
  import opened Geometry
  import opened Cards
  import opened Screen
  import opened Dealing
  import opened Flow
  import opened WordWrap

  /** A click in the 5-pixel gutter between horizontal neighbours i and i+1
      of a dealt grid, with both cards still pickable, passes the guard of
      exactly those two cards: the first n turns of game.py's selection
      loop pick card i and card i+1 when their turns are among them, and
      nothing else. With n the whole table, one click adds two cards to the
      selection, so a selection of two becomes four. */
  lemma {:induction false} GutterClickOnGrid(i: nat, cs: seq<Card>, ss: seq<CardState>, n: nat)
    requires |cs| == |ss| && n <= |cs| <= GridSize
    requires i + 1 < |cs| && i % Cols < Cols - 1
    requires forall j :: 0 <= j < |ss| ==> ss[j].rect == CellRect(j)
    requires CanFlip(ss[i]) && CanFlip(ss[i + 1])
    ensures var p := Point(CellRect(i).x + CardWidth + 5, CellRect(i).y);
            FiredIn(InflatedHit, cs[..n], ss[..n], p)
            == (if i < n then [cs[i]] else []) + (if i + 1 < n then [cs[i + 1]] else [])
  {
    var p := Point(CellRect(i).x + CardWidth + 5, CellRect(i).y);
    if n == 0 {
      assert cs[..0] == [] && ss[..0] == [];
    } else {
      var k := n - 1;
      GutterClickOnGrid(i, cs, ss, k);
      FiredInStep(InflatedHit, cs, ss, p, k);
      NeighboursShareHitArea(i);
      if k == i || k == i + 1 {
        assert Fires(InflatedHit, ss[k], p);
      } else if k < i {
        AtMostTwoHitAreas(k, i, i + 1, p);
        assert !Fires(InflatedHit, ss[k], p);
      } else {
        AtMostTwoHitAreas(i, i + 1, k, p);
        assert !Fires(InflatedHit, ss[k], p);
      }
    }
  }

  /** One MOUSEBUTTONDOWN at `p`. `shuffled` is the order random.shuffle
      leaves the card list in, should this click start a session. */
  method Click(s: Session, deck: TarotDeck, p: Point, shuffled: seq<CardData>)
    requires s.Valid()
    requires multiset(shuffled) == multiset(deck.entries)
    modifies s, s.cards, deck
    ensures s.Valid()
    ensures multiset(deck.entries) == old(multiset(deck.entries))
    ensures old(s.phase) == Intro && s.startButton.rect.Contains(p) ==>
              && s.phase == Selecting && s.selected == [] && deck.entries == shuffled
              && |s.cards| == Min(GridSize, |shuffled|)
              && forall i :: 0 <= i < |s.cards| ==>
                   fresh(s.cards[i]) && s.cards[i].data == shuffled[i] && s.cards[i].State() == NewCard(CellRect(i))
    ensures old(s.phase) == Intro && !s.startButton.rect.Contains(p) ==>
              s.phase == Intro && s.cards == old(s.cards) && deck.entries == old(deck.entries)
    ensures old(s.phase) == Selecting ==>
              && s.cards == old(s.cards)
              && s.selected == old(s.selected) + FiredIn(InflatedHit, s.cards, old(States(s.cards)), p)
              && s.phase == (if |s.selected| >= 3 then Reading else Selecting)
    ensures old(s.phase) == Selecting ==>
              forall j :: 0 <= j < |s.cards| && (s.phase == Selecting || s.cards[j] !in s.selected[..3]) ==>
                s.cards[j].State() == Selected(InflatedHit, old(States(s.cards))[j], p)
    ensures old(s.phase) == Selecting && s.phase == Reading ==>
              forall k :: 0 <= k < 3 ==>
                var c := s.selected[k]; c.State() == MovedTo(Selected(InflatedHit, old(c.State()), p), Slots[k])
    ensures old(s.phase) == Reading ==>
              var k := old(LastHit(s.selected, p));
              s.detailed == if k >= 0 then old(s.selected)[k] else old(s.detailed)
    ensures old(s.phase) == Reading && s.backButton.rect.Contains(p) ==>
              s.cards == old(s.cards) && s.phase == Intro && s.selected == []
    ensures old(s.phase) == Reading && !s.backButton.rect.Contains(p) ==>
              && s.cards == old(s.cards) && s.selected == old(s.selected)
              && s.phase == (if old(LastHit(s.selected, p)) >= 0 then DetailedReading else Reading)
    ensures old(s.phase) == DetailedReading ==>
              s.phase == Reading && s.cards == old(s.cards) && s.selected == old(s.selected) && s.detailed == old(s.detailed)
    ensures old(s.phase) in {Intro, Selecting} ==> s.detailed == old(s.detailed)
    ensures old(s.phase) != Selecting && !(old(s.phase) == Intro && s.startButton.rect.Contains(p)) ==>
              forall j :: 0 <= j < |s.cards| ==> s.cards[j].State() == old(s.cards[j].State())
  {
    match s.phase {
      case Intro =>
        if s.startButton.rect.Contains(p) {
          var dealt := InitGame(deck, shuffled);
          s.Start(dealt);
        }
      case Selecting =>
        s.SelectPass(p, InflatedHit);
      case Reading =>
        s.ReadingClick(p);
      case DetailedReading =>
        s.Dismiss();
    }
  }

  /** One event of the loop, as far as the loop as a whole depends on it:
      only a click changes the session, and the table then holds its earlier
      cards or fresh ones. */
  method Dispatch(s: Session, deck: TarotDeck, p: Point, e: Event, shuffled: seq<CardData>)
    requires s.Valid()
    requires multiset(shuffled) == multiset(deck.entries)
    modifies s, s.cards, deck
    ensures s.Valid()
    ensures multiset(deck.entries) == old(multiset(deck.entries))
    ensures forall k :: 0 <= k < |s.cards| ==> s.cards[k] in old(s.cards) || fresh(s.cards[k])
    ensures e != MouseDown ==>
              && s.phase == old(s.phase) && s.cards == old(s.cards)
              && s.selected == old(s.selected) && s.detailed == old(s.detailed)
    ensures e != MouseDown ==> forall j :: 0 <= j < |s.cards| ==> s.cards[j].State() == old(s.cards[j].State())
  {
    if e == MouseDown {
      Click(s, deck, p, shuffled);
    }
  }

  /** The event loop of one frame: each event in order. `shuffles[i]` is the
      order random.shuffle produces if event i starts a session. */
  method HandleEvents(s: Session, deck: TarotDeck, p: Point, events: seq<Event>, shuffles: seq<seq<CardData>>)
    returns (running: bool)
    requires s.Valid()
    requires |shuffles| == |events|
    requires forall i :: 0 <= i < |events| ==> multiset(shuffles[i]) == multiset(deck.entries)
    modifies s, s.cards, deck
    ensures s.Valid()
    ensures forall k :: 0 <= k < |s.cards| ==> s.cards[k] in old(s.cards) || fresh(s.cards[k])
    ensures running <==> Quit !in events
    ensures MouseDown !in events ==>
              && s.phase == old(s.phase) && s.cards == old(s.cards)
              && s.selected == old(s.selected) && s.detailed == old(s.detailed)
              && forall j :: 0 <= j < |s.cards| ==> s.cards[j].State() == old(s.cards[j].State())
  {
    running := true;
    var i := 0;
    while i < |events|
      invariant 0 <= i <= |events|
      invariant s.Valid()
      invariant forall k :: 0 <= k < |s.cards| ==> s.cards[k] in old(s.cards) || fresh(s.cards[k])
      invariant forall k :: i <= k < |events| ==> multiset(shuffles[k]) == multiset(deck.entries)
      invariant running <==> Quit !in events[..i]
      invariant MouseDown !in events[..i] ==>
                  && s.phase == old(s.phase) && s.cards == old(s.cards)
                  && s.selected == old(s.selected) && s.detailed == old(s.detailed)
                  && forall j :: 0 <= j < |s.cards| ==> s.cards[j].State() == old(s.cards[j].State())
    {
      if events[i] == Quit {
        running := false;
      }
      Dispatch(s, deck, p, events[i], shuffles[i]);
      assert events[..i + 1] == events[..i] + [events[i]];
      i := i + 1;
    }
    assert events[..i] == events;
  }

  /** One pass of the `while running` loop with the pointer at `p`: the
      events in order, then the hover pass, then drawing. `running` is false
      once a QUIT was seen. `crashed` is true when drawing the reading screen
      looks up a fourth position label. On the detail screen `description`
      is the wrapped description of the card shown, under the font widths
      `measure`. */
  method Frame(s: Session, deck: TarotDeck, p: Point, events: seq<Event>, shuffles: seq<seq<CardData>>,
               measure: string -> int)
    returns (running: bool, crashed: bool, description: seq<string>)
    requires s.Valid()
    requires |shuffles| == |events|
    requires forall i :: 0 <= i < |events| ==> multiset(shuffles[i]) == multiset(deck.entries)
    modifies s, s.cards, s.startButton, s.backButton, deck
    ensures s.Valid()
    ensures running <==> Quit !in events
    ensures crashed <==> s.phase == Reading && |s.selected| > 3
    ensures s.phase == Intro ==> s.startButton.hover == s.startButton.rect.Contains(p)
    ensures s.phase == Reading ==> s.backButton.hover == s.backButton.rect.Contains(p)
    ensures s.phase == DetailedReading ==>
              s.detailed != null && description == WrapLines(s.detailed.data.description, measure)
    ensures s.phase != DetailedReading ==> description == []
  {
    running := HandleEvents(s, deck, p, events, shuffles);
    s.HoverPass(p);
    var ok := s.Render();
    crashed := !ok;
    description := [];
    if s.phase == DetailedReading {
      description := WrapDescription(s.detailed.data.description, measure);
    }
  }
}
