/** main.py's main loop. It differs from game.py's in two places: a card is
    selected when check_hover reports a change of its hover flag, and the
    start button calls an `init_game` that main.py does not define, so the
    cards it deals are a parameter here. */
module MainFlow {
  import opened Geometry
  import opened Cards
  import opened Screen
  import opened Flow
  import opened WordWrap

  /** The cards of a sequence, as a set. */
  ghost function CardSet(cs: seq<Card>): set<Card> {
    set c | c in cs
  }

  /** The cards of the deals from index `i` on. */
  ghost function Pending(deals: seq<seq<Card>>, i: nat): set<Card> {
    set k, j | i <= k < |deals| && 0 <= j < |deals[k]| :: deals[k][j]
  }

  /** What the dealer's cards satisfy before a frame: each deal is a list
      of distinct face-down cards, no card is in two deals, and none is on
      the table already. */
  ghost predicate FreshDeals(deals: seq<seq<Card>>, table: seq<Card>)
    reads Pending(deals, 0)
  {
    && (forall k :: 0 <= k < |deals| ==> Distinct(deals[k]) && CardSet(deals[k]) !! Pending(deals, k + 1))
    && Pending(deals, 0) !! CardSet(table)
    && forall c :: c in Pending(deals, 0) ==> Undealt(c)
  }

  /** The deals still to come are a part of all deals, and deal `i` is among them. */
  lemma PendingShrinks(deals: seq<seq<Card>>, i: nat)
    requires i < |deals|
    ensures Pending(deals, i + 1) <= Pending(deals, i) <= Pending(deals, 0)
    ensures CardSet(deals[i]) <= Pending(deals, i)
  {
    forall c | c in CardSet(deals[i]) ensures c in Pending(deals, i) {
      var j :| 0 <= j < |deals[i]| && deals[i][j] == c;
    }
  }

  /** One MOUSEBUTTONDOWN at `p`. `dealt` are the cards the start button's
      dealer returns, should this click start a session. */
  method Click(s: Session, p: Point, dealt: seq<Card>)
    requires s.Valid()
    requires Distinct(dealt) && forall i :: 0 <= i < |dealt| ==> Undealt(dealt[i])
    modifies s, s.cards
    ensures s.Valid()
    ensures old(s.phase) == Intro && s.startButton.rect.Contains(p) ==>
              s.phase == Selecting && s.cards == dealt && s.selected == []
    ensures old(s.phase) == Intro && !s.startButton.rect.Contains(p) ==>
              s.phase == Intro && s.cards == old(s.cards)
    ensures old(s.phase) == Selecting ==>
              && s.cards == old(s.cards)
              && s.selected == old(s.selected) + FiredIn(HoverChange, s.cards, old(States(s.cards)), p)
              && s.phase == (if |s.selected| >= 3 then Reading else Selecting)
    ensures old(s.phase) == Selecting && old(s.HoverSettled(p)) ==>
              s.selected == old(s.selected) && s.phase == Selecting
    ensures old(s.phase) == Selecting ==>
              forall j :: 0 <= j < |s.cards| && (s.phase == Selecting || s.cards[j] !in s.selected[..3]) ==>
                s.cards[j].State() == Selected(HoverChange, old(States(s.cards))[j], p)
    ensures old(s.phase) == Selecting && s.phase == Reading ==>
              forall k :: 0 <= k < 3 ==>
                var c := s.selected[k]; c.State() == MovedTo(Selected(HoverChange, old(c.State()), p), Slots[k])
    ensures old(s.phase) == Reading ==>
              var k := old(LastHit(s.selected, p));
              s.detailed == if k >= 0 then old(s.selected)[k] else old(s.detailed)
    ensures old(s.phase) == Reading && s.backButton.rect.Contains(p) ==>
              s.cards == old(s.cards) && s.phase == Intro && s.selected == []
    ensures old(s.phase) == Reading && !s.backButton.rect.Contains(p) ==>
              && s.cards == old(s.cards) && s.selected == old(s.selected)
              && s.phase == (if old(LastHit(s.selected, p)) >= 0 then DetailedReading else Reading)
    ensures old(s.phase) == DetailedReading ==>
              s.phase == Reading && s.cards == old(s.cards) && s.selected == old(s.selected) && s.detailed == old(s.detailed)
    ensures old(s.phase) in {Intro, Selecting} ==> s.detailed == old(s.detailed)
    ensures old(s.phase) != Selecting && !(old(s.phase) == Intro && s.startButton.rect.Contains(p)) ==>
              forall j :: 0 <= j < |s.cards| ==> s.cards[j].State() == old(s.cards[j].State())
  {
    match s.phase {
      case Intro =>
        if s.startButton.rect.Contains(p) {
          s.Start(dealt);
        }
      case Selecting =>
        if s.HoverSettled(p) {
          SettledFiresNothing(s.cards, States(s.cards), p);
        }
        s.SelectPass(p, HoverChange);
      case Reading =>
        s.ReadingClick(p);
      case DetailedReading =>
        s.Dismiss();
    }
  }

  /** One event of the loop, as far as the loop as a whole depends on it:
      only a click changes the session, and the table then holds its earlier
      cards or the dealt ones. */
  method Dispatch(s: Session, p: Point, e: Event, dealt: seq<Card>)
    requires s.Valid()
    requires Distinct(dealt) && forall i :: 0 <= i < |dealt| ==> Undealt(dealt[i])
    modifies s, s.cards
    ensures s.Valid()
    ensures forall c :: c in s.cards ==> c in old(s.cards) || c in dealt
    ensures e != MouseDown ==>
              && s.phase == old(s.phase) && s.cards == old(s.cards)
              && s.selected == old(s.selected) && s.detailed == old(s.detailed)
    ensures e != MouseDown ==> forall j :: 0 <= j < |s.cards| ==> s.cards[j].State() == old(s.cards[j].State())
  {
    if e == MouseDown {
      Click(s, p, dealt);
    }
  }

  /** The event loop of one frame: each event in order. `deals[i]` is what
      the dealer returns if event i starts a session; the deals are fresh
      cards, distinct from each other and from the cards on the table. */
  method HandleEvents(s: Session, p: Point, events: seq<Event>, deals: seq<seq<Card>>) returns (running: bool)
    requires s.Valid()
    requires |deals| == |events|
    requires FreshDeals(deals, s.cards)
    modifies s, s.cards, Pending(deals, 0)
    ensures s.Valid()
    ensures forall c :: c in s.cards ==> c in old(s.cards) || c in Pending(deals, 0)
    ensures running <==> Quit !in events
    ensures MouseDown !in events ==>
              && s.phase == old(s.phase) && s.cards == old(s.cards)
              && s.selected == old(s.selected) && s.detailed == old(s.detailed)
              && forall j :: 0 <= j < |s.cards| ==> s.cards[j].State() == old(s.cards[j].State())
  {
    running := true;
    var i := 0;
    while i < |events|
      invariant 0 <= i <= |events|
      invariant s.Valid()
      invariant forall c :: c in s.cards ==> c in old(s.cards) || c in Pending(deals, 0)
      invariant Pending(deals, i) !! CardSet(s.cards)
      invariant forall c :: c in Pending(deals, i) ==> Undealt(c)
      invariant running <==> Quit !in events[..i]
      invariant MouseDown !in events[..i] ==>
                  && s.phase == old(s.phase) && s.cards == old(s.cards)
                  && s.selected == old(s.selected) && s.detailed == old(s.detailed)
                  && forall j :: 0 <= j < |s.cards| ==> s.cards[j].State() == old(s.cards[j].State())
    {
      PendingShrinks(deals, i);
      if events[i] == Quit {
        running := false;
      }
      Dispatch(s, p, events[i], deals[i]);
      assert events[..i + 1] == events[..i] + [events[i]];
      i := i + 1;
    }
    assert events[..i] == events;
  }

  /** One pass of the `while running` loop with the pointer at `p`, as in
      game.py. After the frame, while selecting, every hover flag is settled
      for `p`, so a click in the next frame with the pointer still at `p`
      selects nothing. */
  method Frame(s: Session, p: Point, events: seq<Event>, deals: seq<seq<Card>>, measure: string -> int)
    returns (running: bool, crashed: bool, description: seq<string>)
    requires s.Valid()
    requires |deals| == |events|
    requires FreshDeals(deals, s.cards)
    modifies s, s.cards, s.startButton, s.backButton, Pending(deals, 0)
    ensures s.Valid()
    ensures running <==> Quit !in events
    ensures crashed <==> s.phase == Reading && |s.selected| > 3
    ensures s.phase == Selecting ==> s.HoverSettled(p)
    ensures s.phase == Intro ==> s.startButton.hover == s.startButton.rect.Contains(p)
    ensures s.phase == Reading ==> s.backButton.hover == s.backButton.rect.Contains(p)
    ensures s.phase == DetailedReading ==>
              s.detailed != null && description == WrapLines(s.detailed.data.description, measure)
    ensures s.phase != DetailedReading ==> description == []
  {
    running := HandleEvents(s, p, events, deals);
    s.HoverPass(p);
    var ok := s.Render();
    crashed := !ok;
    description := [];
    if s.phase == DetailedReading {
      description := WrapDescription(s.detailed.data.description, measure);
    }
  }
}
