/** One tarot card's animation state (flip and move), and the on-screen buttons.

    The game keeps each card as an object whose fields are updated in place; the
    class `Card` below mirrors those fields, and `CardState` is the value of all of
    them at one moment, so that what each method does is stated as a function of
    values and proved about once. */
module Cards {
  import opened Geometry

  /** Progress counters advance by this much per drawn frame ... */
  const Step := 5
  /** ... and stop here. */
  const Done := 100
  /** Below this flip progress the back face is shown, from here on the front. */
  const FrontFrom := 50
  /** is_clickable grows the card's rect by this many pixels in each dimension. */
  const ClickSlack := 20

  /** The read-only content of a card (an entry of the tarot card list). */
  datatype CardData = CardData(name: string, meaning: string, description: string, imageFile: string)

  /** The mutable fields of a card, as one value. */
  datatype CardState = CardState(
    rect: Rect,
    revealed: bool,
    hover: bool,
    flipProgress: int,
    flipping: bool,
    origin: Point,
    target: Point,
    moveProgress: int,
    moving: bool)

  /** What every card satisfies at every observation. */
  predicate Inv(s: CardState) {
    && 0 <= s.flipProgress <= Done && s.flipProgress % Step == 0
    && (s.flipping ==> !s.revealed && s.flipProgress < Done)
    && (s.revealed ==> s.flipProgress == Done)
    && (!s.flipping && !s.revealed ==> s.flipProgress == 0)
    && 0 <= s.moveProgress <= Done && s.moveProgress % Step == 0
    && (s.moving ==> s.moveProgress < Done)
    && (!s.moving ==> s.moveProgress == 0 || s.moveProgress == Done)
    && (s.moveProgress == Done ==> s.rect.TopLeft() == s.target)
  }

  /** A card as the constructor builds it: face down, still, at its own position. */
  function NewCard(r: Rect): (s: CardState)
    ensures Inv(s)
    ensures !s.revealed && !s.flipping && !s.moving && !s.hover
    ensures s.rect == r && s.origin == r.TopLeft() && s.target == r.TopLeft()
  {
    CardState(r, false, false, 0, false, r.TopLeft(), r.TopLeft(), 0, false)
  }

  /** start_flip succeeds exactly on a card that is neither revealed nor flipping. */
  predicate CanFlip(s: CardState) {
    !s.revealed && !s.flipping
  }

  /** The state after a successful start_flip. */
  function FlipStarted(s: CardState): (r: CardState)
    requires CanFlip(s)
    ensures Inv(s) ==> Inv(r)
    ensures r.flipping && r.flipProgress == 0 && !r.revealed
    ensures r.(flipping := s.flipping, flipProgress := s.flipProgress) == s
  {
    s.(flipping := true, flipProgress := 0)
  }

  /** The state after move_to(t): the current position becomes the origin. */
  function MovedTo(s: CardState, t: Point): (r: CardState)
    ensures Inv(s) ==> Inv(r)
    ensures r.moving && r.moveProgress == 0
    ensures r.origin == s.rect.TopLeft() && r.target == t
    ensures r.(origin := s.origin, target := s.target, moving := s.moving, moveProgress := s.moveProgress) == s
  {
    s.(origin := s.rect.TopLeft(), target := t, moving := true, moveProgress := 0)
  }

  /** The move half of one drawn frame. The intermediate, interpolated
      positions are not modelled: the rect keeps its place until the move
      completes, where it snaps onto the target. */
  function MoveStep(s: CardState): (r: CardState)
    ensures Inv(s) ==> Inv(r)
    ensures !s.moving ==> r == s
    ensures s.moving && Inv(s) ==>
              if s.moveProgress + Step < Done then r.moving && r.moveProgress == s.moveProgress + Step && r.rect == s.rect
              else !r.moving && r.moveProgress == Done && r.rect.TopLeft() == s.target
    ensures r.(rect := s.rect, moving := s.moving, moveProgress := s.moveProgress) == s
    ensures r.rect.w == s.rect.w && r.rect.h == s.rect.h
  {
    if !s.moving then s
    else if s.moveProgress + Step >= Done then
      s.(moveProgress := Done, moving := false, rect := s.rect.(x := s.target.x, y := s.target.y))
    else s.(moveProgress := s.moveProgress + Step)
  }

  /** The flip half of one drawn frame. */
  function FlipStep(s: CardState): (r: CardState)
    ensures Inv(s) ==> Inv(r)
    ensures !s.flipping ==> r == s
    ensures s.revealed ==> r.revealed
    ensures (r.revealed || r.flipping) == (s.revealed || s.flipping)
    ensures s.flipping && Inv(s) ==>
              if s.flipProgress + Step < Done then r.flipping && r.flipProgress == s.flipProgress + Step
              else r.revealed && !r.flipping && r.flipProgress == Done
    ensures r.(flipProgress := s.flipProgress, flipping := s.flipping, revealed := s.revealed) == s
  {
    if !s.flipping then s
    else if s.flipProgress + Step >= Done then
      s.(flipProgress := Done, flipping := false, revealed := true)
    else s.(flipProgress := s.flipProgress + Step)
  }

  /** One call of Card.draw: the move advances first, then the flip. */
  function Tick(s: CardState): (r: CardState)
    ensures Inv(s) ==> Inv(r)
    ensures s.revealed ==> r.revealed
    ensures Inv(s) ==> s.flipProgress <= r.flipProgress && s.moveProgress <= r.moveProgress
    ensures (r.revealed || r.flipping) == (s.revealed || s.flipping)
    ensures !s.moving ==> r.rect == s.rect && !r.moving
    ensures r.hover == s.hover
  {
    FlipStep(MoveStep(s))
  }

  /** `n` drawn frames in a row. */
  function Ticks(s: CardState, n: nat): CardState
    decreases n
  {
    if n == 0 then s else Ticks(Tick(s), n - 1)
  }

  /** Which face draw shows: the back while the flip is in its first half. */
  predicate ShowsFront(s: CardState) {
    s.flipProgress >= FrontFrom
  }

  /** check_hover's new flag: over the (un-inflated) rect of a card that can still be picked. */
  predicate HoverAt(s: CardState, p: Point) {
    s.rect.Contains(p) && !s.revealed && !s.flipping
  }

  /** is_clickable in game.py: inside the rect grown by ClickSlack, on a card that can still be picked. */
  predicate Clickable(s: CardState, p: Point)
    ensures Clickable(s, p) <==>
              && s.rect.x - 10 <= p.x < s.rect.x + s.rect.w + 10
              && s.rect.y - 10 <= p.y < s.rect.y + s.rect.h + 10
              && CanFlip(s)
  {
    s.rect.Inflate(ClickSlack, ClickSlack).Contains(p) && !s.revealed && !s.flipping
  }

  /** A card can be shown face up only once its flip has gone half way; a settled card
      shows the front exactly when it is revealed. */
  lemma FaceFollowsReveal(s: CardState)
    requires Inv(s) && !s.flipping
    ensures ShowsFront(s) <==> s.revealed
  {
  }

  /** Drawing never takes a progress counter out of its range, and a revealed
      card stays revealed however many frames are drawn. */
  lemma {:induction false} TicksKeepInv(s: CardState, n: nat)
    requires Inv(s)
    ensures Inv(Ticks(s, n))
    ensures s.revealed ==> Ticks(s, n).revealed
    ensures (Ticks(s, n).revealed || Ticks(s, n).flipping) == (s.revealed || s.flipping)
    decreases n
  {
    if n > 0 {
      TicksKeepInv(Tick(s), n - 1);
    }
  }

  /** A flip in progress ends after exactly (Done - flipProgress) / Step more
      frames: the card is still flipping one frame earlier and revealed then. */
  lemma {:induction false} FlipCompletes(s: CardState)
    requires Inv(s) && s.flipping
    ensures var n := (Done - s.flipProgress) / Step;
            n >= 1 && Ticks(s, n - 1).flipping && Ticks(s, n).revealed && !Ticks(s, n).flipping
    decreases Done - s.flipProgress
  {
    var n := (Done - s.flipProgress) / Step;
    var t := Tick(s);
    if s.flipProgress + Step < Done {
      assert t.flipping && t.flipProgress == s.flipProgress + Step;
      FlipCompletes(t);
      assert (Done - t.flipProgress) / Step == n - 1;
    } else {
      assert n == 1;
      assert Ticks(s, 0) == s;
      assert Ticks(s, 1) == Ticks(t, 0) == t;
    }
  }

  /** A started flip reveals the card on the twentieth drawn frame, not before. */
  lemma FlipTakesTwentyFrames(s: CardState)
    requires Inv(s) && CanFlip(s)
    ensures Ticks(FlipStarted(s), 19).flipping
    ensures Ticks(FlipStarted(s), 20).revealed
  {
    FlipCompletes(FlipStarted(s));
  }

  /** A move in progress ends, after (Done - moveProgress) / Step more frames,
      with the card exactly on its target and no longer moving. */
  lemma {:induction false} MoveCompletes(s: CardState)
    requires Inv(s) && s.moving
    ensures var n := (Done - s.moveProgress) / Step;
            n >= 1 && Ticks(s, n - 1).moving
            && !Ticks(s, n).moving && Ticks(s, n).rect.TopLeft() == s.target
            && Ticks(s, n).rect.w == s.rect.w && Ticks(s, n).rect.h == s.rect.h
    decreases Done - s.moveProgress
  {
    var n := (Done - s.moveProgress) / Step;
    var t := Tick(s);
    if s.moveProgress + Step < Done {
      assert t.moving && t.moveProgress == s.moveProgress + Step && t.target == s.target && t.rect == s.rect;
      MoveCompletes(t);
      assert (Done - t.moveProgress) / Step == n - 1;
    } else {
      assert n == 1;
      assert Ticks(s, 0) == s;
      assert Ticks(s, 1) == Ticks(t, 0) == t;
    }
  }

  /** A card moved with move_to lands exactly on the requested point twenty frames later. */
  lemma MoveLandsOnTarget(s: CardState, t: Point)
    requires Inv(s)
    ensures !Ticks(MovedTo(s, t), 20).moving
    ensures Ticks(MovedTo(s, t), 20).rect.TopLeft() == t
  {
    MoveCompletes(MovedTo(s, t));
  }

  /** A card on screen. Its fields are those of the source's Card; `State()`
      reads them all as one value. */
  class Card {
    const data: CardData
    var rect: Rect
    var revealed: bool
    var hover: bool
    var flipProgress: int
    var flipping: bool
    var originPos: Point
    var targetPos: Point
    var moveProgress: int
    var moving: bool

    function State(): CardState
      reads this
    {
      CardState(rect, revealed, hover, flipProgress, flipping, originPos, targetPos, moveProgress, moving)
    }

    ghost predicate Valid()
      reads this
    {
      Inv(State())
    }

    constructor (x: int, y: int, width: int, height: int, data: CardData)
      ensures this.data == data
      ensures State() == NewCard(Rect(x, y, width, height))
      ensures Valid()
    {
      this.data := data;
      rect := Rect(x, y, width, height);
      revealed := false;
      hover := false;
      flipProgress := 0;
      flipping := false;
      originPos := Point(x, y);
      targetPos := Point(x, y);
      moveProgress := 0;
      moving := false;
    }

    /** The animation step of draw(); the pixels it paints are not modelled. */
    method Draw()
      modifies this
      ensures State() == Tick(old(State()))
    {
      if moving {
        moveProgress := moveProgress + Step;
        if moveProgress >= Done {
          moveProgress := Done;
          moving := false;
          rect := rect.(x := targetPos.x, y := targetPos.y);
        }
      }
      if flipping {
        flipProgress := flipProgress + Step;
        if flipProgress >= Done {
          flipProgress := Done;
          flipping := false;
          revealed := true;
        }
      }
    }

    /** Sets the hover flag from the pointer and reports whether it changed. */
    method CheckHover(pos: Point) returns (changed: bool)
      modifies this
      ensures State() == old(State()).(hover := HoverAt(old(State()), pos))
      ensures changed <==> hover != old(hover)
    {
      var was := hover;
      hover := rect.Contains(pos) && !revealed && !flipping;
      changed := hover != was;
    }

    /** game.py's hit test, with a 10-pixel margin on each side. */
    predicate IsClickable(pos: Point)
      reads this
    {
      Clickable(State(), pos)
    }

    method StartFlip() returns (ok: bool)
      modifies this
      ensures ok <==> CanFlip(old(State()))
      ensures State() == if ok then FlipStarted(old(State())) else old(State())
    {
      if !revealed && !flipping {
        flipping := true;
        flipProgress := 0;
        return true;
      }
      return false;
    }

    method MoveTo(x: int, y: int)
      modifies this
      ensures State() == MovedTo(old(State()), Point(x, y))
    {
      originPos := Point(rect.x, rect.y);
      targetPos := Point(x, y);
      moving := true;
      moveProgress := 0;
    }
  }

  /** A screen button; only its hover flag changes. */
  class Button {
    const rect: Rect
    var hover: bool

    constructor (rect: Rect)
      ensures this.rect == rect && !hover
    {
      this.rect := rect;
      hover := false;
    }

    method CheckHover(pos: Point) returns (changed: bool)
      modifies this
      ensures hover <==> rect.Contains(pos)
      ensures changed <==> hover != old(hover)
    {
      var was := hover;
      hover := rect.Contains(pos);
      changed := hover != was;
    }
  }
}
