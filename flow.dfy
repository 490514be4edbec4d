/** The session flow shared by game.py and main.py: the variables `game_state`,
    `cards`, `selected_cards` and `detailed_card` of `main()`, and what each branch
    of its mouse-click dispatch, its hover pass and its draw pass does to them. */
module Flow {
  import opened Geometry
  import opened Cards
  import opened Screen

  /** The test a card must pass in SELECTING before it is flipped: game.py
      asks is_clickable (a hit within the grown rect), main.py asks
      check_hover, which answers whether the hover flag changed. */
  datatype Guard = InflatedHit | HoverChange

  /** The card's state once its guard has been evaluated (check_hover writes the flag). */
  function Probed(g: Guard, s: CardState, p: Point): (r: CardState)
    ensures r.(hover := s.hover) == s
    ensures r.rect == s.rect && r.revealed == s.revealed && r.flipping == s.flipping && r.moving == s.moving
    ensures g == HoverChange ==> r.hover == HoverAt(s, p)
  {
    match g
    case InflatedHit => s
    case HoverChange => s.(hover := HoverAt(s, p))
  }

  /** Whether the selection branch flips this card. */
  predicate Fires(g: Guard, s: CardState, p: Point)
    ensures Fires(g, s, p) ==> CanFlip(s)
    ensures g == InflatedHit ==> (Fires(g, s, p) <==> Clickable(s, p))
    ensures g == HoverChange ==> (Fires(g, s, p) <==> CanFlip(s) && s.hover != s.rect.Contains(p))
  {
    match g
    case InflatedHit => Clickable(s, p) && !s.revealed && !s.flipping
    case HoverChange => HoverAt(s, p) != s.hover && !s.revealed && !s.flipping
  }

  /** The card's state after its turn in the selection loop (before any move). */
  function Selected(g: Guard, s: CardState, p: Point): (r: CardState)
    ensures Inv(s) ==> Inv(r)
    ensures Fires(g, s, p) ==> r.flipping && r.flipProgress == 0
    ensures !Fires(g, s, p) ==> r == Probed(g, s, p)
    ensures r.rect == s.rect && r.moving == s.moving && r.revealed == s.revealed
  {
    if Fires(g, s, p) then FlipStarted(Probed(g, s, p)) else Probed(g, s, p)
  }

  /** A card that is already flipping or revealed is left alone by the selection
      loop except for its hover flag, so it does not matter whether it was moved
      to its reading slot before or after its turn. */
  lemma SelectedCommutesWithMove(g: Guard, s: CardState, p: Point, t: Point)
    requires !CanFlip(s)
    ensures Selected(g, MovedTo(s, t), p) == MovedTo(Selected(g, s, p), t)
  {
  }

  /** The states of the cards `cs`, in order. */
  ghost function States(cs: seq<Card>): (r: seq<CardState>)
    reads cs
    ensures |r| == |cs| && forall i :: 0 <= i < |cs| ==> r[i] == cs[i].State()
  {
    seq(|cs|, i requires 0 <= i < |cs| reads cs => cs[i].State())
  }

  /** The cards of `cs` that the selection loop flips, in loop order, when
      card `cs[i]` is in state `ss[i]` at its turn. */
  function FiredIn(g: Guard, cs: seq<Card>, ss: seq<CardState>, p: Point): (r: seq<Card>)
    requires |cs| == |ss|
    ensures |r| <= |cs|
    decreases |cs|
  {
    if cs == [] then []
    else
      var n := |cs| - 1;
      FiredIn(g, cs[..n], ss[..n], p) + (if Fires(g, ss[n], p) then [cs[n]] else [])
  }

  /** The greatest index of a selected card whose rect contains `p`, or -1. */
  ghost function LastHit(sel: seq<Card>, p: Point): (k: int)
    reads sel
    ensures -1 <= k < |sel|
    ensures k >= 0 ==> sel[k].rect.Contains(p)
    ensures forall j :: k < j < |sel| ==> !sel[j].rect.Contains(p)
    decreases |sel|
  {
    if sel == [] then -1
    else if sel[|sel| - 1].rect.Contains(p) then |sel| - 1
    else LastHit(sel[..|sel| - 1], p)
  }

  /** When every hover flag already reflects `p`, check_hover reports no change
      for any card, so main.py's selection loop flips nothing. */
  lemma {:induction false} SettledFiresNothing(cs: seq<Card>, ss: seq<CardState>, p: Point)
    requires |cs| == |ss|
    requires forall i :: 0 <= i < |ss| ==> ss[i].hover == HoverAt(ss[i], p)
    ensures FiredIn(HoverChange, cs, ss, p) == []
    decreases |cs|
  {
    if cs != [] {
      SettledFiresNothing(cs[..|cs| - 1], ss[..|ss| - 1], p);
    }
  }

  /** The position of `c` in `cs`. */
  ghost function IndexOf(cs: seq<Card>, c: Card): (i: int)
    requires c in cs
    ensures 0 <= i < |cs| && cs[i] == c
  {
    var i :| 0 <= i < |cs| && cs[i] == c; i
  }

  ghost predicate Distinct(cs: seq<Card>) {
    forall i, j :: 0 <= i < j < |cs| ==> cs[i] != cs[j]
  }

  /** A card the session is about to deal: as freshly constructed. */
  ghost predicate Undealt(c: Card)
    reads c
  {
    c.Valid() && !c.revealed && !c.flipping && !c.moving
  }

  ghost predicate DistinctInts(xs: seq<int>) {
    forall a, b :: 0 <= a < b < |xs| ==> xs[a] != xs[b]
  }

  /** The guard of the selection loop for one card: `card.is_clickable(pos)`
      (game.py) or `card.check_hover(pos)` (main.py), followed by
      `not card.revealed and not card.flipping`. */
  method Probe(card: Card, g: Guard, p: Point) returns (fires: bool)
    modifies card
    ensures card.State() == Probed(g, old(card.State()), p)
    ensures fires == Fires(g, old(card.State()), p)
  {
    var hit: bool;
    match g {
      case InflatedHit => hit := card.IsClickable(p);
      case HoverChange => hit := card.CheckHover(p);
    }
    fires := hit && !card.revealed && !card.flipping;
  }

  /** The value-level state of the selection loop: the selection, the index
      in `cards` of each selected card, the flow state and every card's state. */
  datatype Pass = Pass(sel: seq<Card>, pos: seq<int>, phase: Phase, now: seq<CardState>)

  /** The positions of the selected cards among the cards. */
  ghost function PositionsIn(cs: seq<Card>, sel: seq<Card>): (pos: seq<int>)
    requires forall k :: 0 <= k < |sel| ==> sel[k] in cs
    ensures |pos| == |sel| && forall k :: 0 <= k < |sel| ==> 0 <= pos[k] < |cs| && cs[pos[k]] == sel[k]
  {
    seq(|sel|, k requires 0 <= k < |sel| => IndexOf(cs, sel[k]))
  }

  /** The move of the first three selected cards (at positions pos[..3]) to the slots. */
  function MoveSlots(now: seq<CardState>, pos: seq<int>): (r: seq<CardState>)
    requires |pos| >= 3 && forall k :: 0 <= k < 3 ==> 0 <= pos[k] < |now|
    ensures |r| == |now|
  {
    seq(|now|, j requires 0 <= j < |now| =>
      if j == pos[0] then MovedTo(now[j], Slots[0])
      else if j == pos[1] then MovedTo(now[j], Slots[1])
      else if j == pos[2] then MovedTo(now[j], Slots[2])
      else now[j])
  }

  /** One turn of the selection loop on values: card i is probed and, if it
      fires, flipped and appended; the append that makes the selection three
      long switches to READING and moves the three. */
  function TurnOf(g: Guard, p: Point, cs: seq<Card>, i: int, st: Pass): Pass
    requires 0 <= i < |cs| == |st.now| && |st.pos| == |st.sel|
    requires forall k :: 0 <= k < |st.pos| ==> 0 <= st.pos[k] < |cs|
  {
    var now1 := st.now[i := Selected(g, st.now[i], p)];
    if !Fires(g, st.now[i], p) then st.(now := now1)
    else
      var sel := st.sel + [cs[i]];
      var pos := st.pos + [i];
      if |sel| == 3 then Pass(sel, pos, Reading, MoveSlots(now1, pos))
      else Pass(sel, pos, st.phase, now1)
  }

  /** The card states, apart from any move, once the first i cards had their turn. */
  function Taken(g: Guard, p: Point, i: int, before: seq<CardState>): (r: seq<CardState>)
    ensures |r| == |before|
  {
    seq(|before|, j requires 0 <= j < |before| => if j < i then Selected(g, before[j], p) else before[j])
  }

  /** The card states with the first three selected moved, once there are three. */
  function Laid(now: seq<CardState>, pos: seq<int>): (r: seq<CardState>)
    requires |pos| >= 3 ==> forall k :: 0 <= k < 3 ==> 0 <= pos[k] < |now|
    ensures |r| == |now|
  {
    if |pos| >= 3 then MoveSlots(now, pos) else now
  }

  /** `pos` gives, for each selected card, its distinct index in `cs`. */
  ghost predicate Placed(cs: seq<Card>, sel: seq<Card>, pos: seq<int>) {
    && |pos| == |sel| && DistinctInts(pos)
    && forall k :: 0 <= k < |pos| ==> 0 <= pos[k] < |cs| && sel[k] == cs[pos[k]]
  }

  /** Every card state is consistent, and exactly the selected cards can no longer be flipped. */
  ghost predicate Flags(now: seq<CardState>, pos: seq<int>) {
    forall j :: 0 <= j < |now| ==> Inv(now[j]) && (j in pos <==> !CanFlip(now[j]))
  }

  /** Where the selection loop stands after the turns of cs[..i], when the
      cards were in states `before` and the selection was `sel0` at its start. */
  ghost predicate Stage(g: Guard, p: Point, cs: seq<Card>, before: seq<CardState>, sel0: seq<Card>, i: int, st: Pass) {
    && 0 <= i <= |cs| && |before| == |cs|
    && st.sel == sel0 + FiredIn(g, cs[..i], before[..i], p)
    && Placed(cs, st.sel, st.pos)
    && st.phase == (if |st.sel| >= 3 then Reading else Selecting)
    && Distinct(cs)
    && st.now == Laid(Taken(g, p, i, before), st.pos)
    && Flags(st.now, st.pos)
  }

  /** FiredIn grows by at most the card whose turn comes next. */
  lemma FiredInStep(g: Guard, cs: seq<Card>, ss: seq<CardState>, p: Point, i: int)
    requires |cs| == |ss| && 0 <= i < |cs|
    ensures FiredIn(g, cs[..i + 1], ss[..i + 1], p)
            == FiredIn(g, cs[..i], ss[..i], p) + (if Fires(g, ss[i], p) then [cs[i]] else [])
  {
    assert cs[..i + 1][..i] == cs[..i] && ss[..i + 1][..i] == ss[..i];
  }

  /** Card i's turn changes only its own entry of Taken. */
  lemma TakenStep(g: Guard, p: Point, i: int, before: seq<CardState>)
    requires 0 <= i < |before|
    ensures Taken(g, p, i + 1, before) == Taken(g, p, i, before)[i := Selected(g, before[i], p)]
  {
  }

  /** MoveSlots puts the k-th selected card on slot k. */
  lemma MoveSlotsAt(now: seq<CardState>, pos: seq<int>, k: int)
    requires |pos| >= 3 && DistinctInts(pos) && forall k :: 0 <= k < 3 ==> 0 <= pos[k] < |now|
    requires 0 <= k < 3
    ensures MoveSlots(now, pos)[pos[k]] == MovedTo(now[pos[k]], Slots[k])
  {
  }

  /** Changing a card that is not moved commutes with the move. */
  lemma MoveSlotsUpdate(now: seq<CardState>, pos: seq<int>, i: int, v: CardState)
    requires |pos| >= 3 && forall k :: 0 <= k < 3 ==> 0 <= pos[k] < |now|
    requires 0 <= i < |now| && i !in pos[..3]
    ensures MoveSlots(now, pos)[i := v] == MoveSlots(now[i := v], pos)
  {
    assert i != pos[0] && i != pos[1] && i != pos[2];
  }

  /** Changing a moved card before the move is changing it after the move. */
  lemma MoveSlotsUpdateMoved(now: seq<CardState>, pos: seq<int>, k: int, v: CardState)
    requires |pos| >= 3 && DistinctInts(pos) && forall k :: 0 <= k < 3 ==> 0 <= pos[k] < |now|
    requires 0 <= k < 3
    ensures MoveSlots(now, pos)[pos[k] := MovedTo(v, Slots[k])] == MoveSlots(now[pos[k] := v], pos)
  {
  }

  /** Only the first three positions take part in the move. */
  lemma MoveSlotsExtend(now: seq<CardState>, pos: seq<int>, x: int)
    requires |pos| >= 3 && forall k :: 0 <= k < 3 ==> 0 <= pos[k] < |now|
    ensures MoveSlots(now, pos + [x]) == MoveSlots(now, pos)
  {
  }

  /** The move keeps every card consistent and keeps which of them can be flipped. */
  lemma MoveSlotsFlags(now: seq<CardState>, pos: seq<int>)
    requires |pos| >= 3 && forall k :: 0 <= k < 3 ==> 0 <= pos[k] < |now|
    requires Flags(now, pos)
    ensures Flags(MoveSlots(now, pos), pos)
  {
    var r := MoveSlots(now, pos);
    forall j | 0 <= j < |now|
      ensures Inv(r[j]) && CanFlip(r[j]) == CanFlip(now[j])
    {
      if j == pos[0] || j == pos[1] || j == pos[2] {
        var t := if j == pos[0] then Slots[0] else if j == pos[1] then Slots[1] else Slots[2];
        assert r[j] == MovedTo(now[j], t);
        FiresIgnoresMove(InflatedHit, now[j], Point(0, 0), t);
      }
    }
  }

  /** The move to a slot does not change what the guard sees. */
  lemma FiresIgnoresMove(g: Guard, s: CardState, p: Point, t: Point)
    ensures Fires(g, MovedTo(s, t), p) == Fires(g, s, p)
    ensures CanFlip(MovedTo(s, t)) == CanFlip(s)
  {
    var m := MovedTo(s, t);
    assert m.rect == s.rect && m.hover == s.hover && m.revealed == s.revealed && m.flipping == s.flipping;
  }

  /** Card i's state before its turn: its state at the start of the pass,
      moved to slot k if it is the k-th of three selected. */
  lemma TurnSees(g: Guard, p: Point, cs: seq<Card>, before: seq<CardState>, sel0: seq<Card>, i: int, st: Pass)
    requires Stage(g, p, cs, before, sel0, i, st) && i < |cs|
    ensures Fires(g, st.now[i], p) == Fires(g, before[i], p)
    ensures CanFlip(st.now[i]) == CanFlip(before[i])
    ensures |st.pos| < 3 || i !in st.pos[..3] ==> st.now[i] == before[i]
    ensures forall k :: 0 <= k < 3 <= |st.pos| && st.pos[k] == i ==> st.now[i] == MovedTo(before[i], Slots[k])
  {
    var t := Taken(g, p, i, before);
    assert t[i] == before[i];
    if |st.pos| >= 3 {
      if i in st.pos[..3] {
        var k :| 0 <= k < 3 && st.pos[k] == i;
        MoveSlotsAt(t, st.pos, k);
        FiresIgnoresMove(g, before[i], p, Slots[k]);
        forall k' | 0 <= k' < 3 && st.pos[k'] == i
          ensures k' == k
        {
        }
      } else {
        assert i != st.pos[0] && i != st.pos[1] && i != st.pos[2];
      }
    }
  }

  /** A turn that flips nothing keeps the loop state in step. */
  lemma QuietTurn(g: Guard, p: Point, cs: seq<Card>, before: seq<CardState>, sel0: seq<Card>, i: int, st: Pass)
    requires Stage(g, p, cs, before, sel0, i, st) && i < |cs|
    requires !Fires(g, st.now[i], p)
    ensures Stage(g, p, cs, before, sel0, i + 1, TurnOf(g, p, cs, i, st))
  {
    TurnSees(g, p, cs, before, sel0, i, st);
    FiredInStep(g, cs, before, p, i);
    TakenStep(g, p, i, before);
    var t := Taken(g, p, i, before);
    var v := Selected(g, before[i], p);
    var now' := st.now[i := Selected(g, st.now[i], p)];
    assert TurnOf(g, p, cs, i, st) == st.(now := now');
    if |st.pos| < 3 {
      assert now' == t[i := v];
    } else if i !in st.pos[..3] {
      MoveSlotsUpdate(t, st.pos, i, v);
    } else {
      var k :| 0 <= k < 3 && st.pos[k] == i;
      SelectedCommutesWithMove(g, before[i], p, Slots[k]);
      MoveSlotsUpdateMoved(t, st.pos, k, v);
    }
    assert Flags(now', st.pos);
  }

  /** A turn that flips card i without completing three keeps the loop state in step. */
  lemma PickTurn(g: Guard, p: Point, cs: seq<Card>, before: seq<CardState>, sel0: seq<Card>, i: int, st: Pass)
    requires Stage(g, p, cs, before, sel0, i, st) && i < |cs|
    requires Fires(g, st.now[i], p) && |st.sel| != 2
    ensures Stage(g, p, cs, before, sel0, i + 1, TurnOf(g, p, cs, i, st))
  {
    TurnSees(g, p, cs, before, sel0, i, st);
    FiredInStep(g, cs, before, p, i);
    TakenStep(g, p, i, before);
    var t := Taken(g, p, i, before);
    var v := Selected(g, before[i], p);
    assert i !in st.pos;
    var pos := st.pos + [i];
    var now' := st.now[i := v];
    assert TurnOf(g, p, cs, i, st) == Pass(st.sel + [cs[i]], pos, st.phase, now');
    if |st.pos| < 3 {
      assert now' == t[i := v];
    } else {
      assert pos[..3] == st.pos[..3];
      MoveSlotsUpdate(t, st.pos, i, v);
      MoveSlotsExtend(t[i := v], st.pos, i);
    }
    assert Placed(cs, st.sel + [cs[i]], pos);
    forall j | 0 <= j < |cs|
      ensures Inv(now'[j]) && (j in pos <==> !CanFlip(now'[j]))
    {
      assert j in pos <==> j in st.pos || j == i;
    }
  }

  /** The turn that makes the selection three long moves the three to their slots. */
  lemma ThirdTurn(g: Guard, p: Point, cs: seq<Card>, before: seq<CardState>, sel0: seq<Card>, i: int, st: Pass)
    requires Stage(g, p, cs, before, sel0, i, st) && i < |cs|
    requires Fires(g, st.now[i], p) && |st.sel| == 2
    ensures Stage(g, p, cs, before, sel0, i + 1, TurnOf(g, p, cs, i, st))
  {
    TurnSees(g, p, cs, before, sel0, i, st);
    FiredInStep(g, cs, before, p, i);
    TakenStep(g, p, i, before);
    var v := Selected(g, before[i], p);
    assert i !in st.pos;
    var pos := st.pos + [i];
    var now1 := st.now[i := v];
    assert TurnOf(g, p, cs, i, st) == Pass(st.sel + [cs[i]], pos, Reading, MoveSlots(now1, pos));
    assert Placed(cs, st.sel + [cs[i]], pos);
    forall j | 0 <= j < |cs|
      ensures Inv(now1[j]) && (j in pos <==> !CanFlip(now1[j]))
    {
      assert j in pos <==> j in st.pos || j == i;
    }
    MoveSlotsFlags(now1, pos);
  }

  /** A turn keeps the loop state in step with the specification. */
  lemma TurnStep(g: Guard, p: Point, cs: seq<Card>, before: seq<CardState>, sel0: seq<Card>, i: int, st: Pass)
    requires Stage(g, p, cs, before, sel0, i, st) && i < |cs|
    ensures Stage(g, p, cs, before, sel0, i + 1, TurnOf(g, p, cs, i, st))
  {
    if !Fires(g, st.now[i], p) {
      QuietTurn(g, p, cs, before, sel0, i, st);
    } else if |st.sel| == 2 {
      ThirdTurn(g, p, cs, before, sel0, i, st);
    } else {
      PickTurn(g, p, cs, before, sel0, i, st);
    }
  }

  /** The SELECTING part of the session invariant, on values: `ss` are the
      states of the cards `cs` and `sel` the selection. */
  ghost predicate Choosing(cs: seq<Card>, sel: seq<Card>, ss: seq<CardState>) {
    && |ss| == |cs| && Distinct(cs) && Distinct(sel) && |sel| < 3
    && (forall k :: 0 <= k < |sel| ==> sel[k] in cs)
    && forall j :: 0 <= j < |cs| ==> Inv(ss[j]) && !ss[j].moving && (cs[j] in sel <==> !CanFlip(ss[j]))
  }

  /** Where the selection loop starts. */
  lemma StageStart(g: Guard, p: Point, cs: seq<Card>, sel0: seq<Card>, before: seq<CardState>)
    requires Choosing(cs, sel0, before)
    ensures Stage(g, p, cs, before, sel0, 0, Pass(sel0, PositionsIn(cs, sel0), Selecting, before))
  {
    var pos := PositionsIn(cs, sel0);
    assert cs[..0] == [] && before[..0] == [];
    assert Taken(g, p, 0, before) == before;
    forall a, b | 0 <= a < b < |pos|
      ensures pos[a] != pos[b]
    {
      assert sel0[a] != sel0[b];
    }
    PlacedSelection(cs, sel0, pos);
  }

  /** Through distinct positions, distinct cards give a distinct selection,
      and a card is selected exactly when its index is among the positions. */
  lemma PlacedSelection(cs: seq<Card>, sel: seq<Card>, pos: seq<int>)
    requires Placed(cs, sel, pos) && Distinct(cs)
    ensures Distinct(sel) && forall k :: 0 <= k < |sel| ==> sel[k] in cs
    ensures forall j :: 0 <= j < |cs| ==> (cs[j] in sel <==> j in pos)
    ensures |sel| >= 3 ==> forall j :: 0 <= j < |cs| ==> (cs[j] in sel[..3] <==> j in pos[..3])
  {
    forall a, b | 0 <= a < b < |sel|
      ensures sel[a] != sel[b]
    {
      assert pos[a] != pos[b];
    }
    forall j | 0 <= j < |cs|
      ensures cs[j] in sel <==> j in pos
      ensures |sel| >= 3 ==> (cs[j] in sel[..3] <==> j in pos[..3])
    {
      if cs[j] in sel {
        var k :| 0 <= k < |sel| && sel[k] == cs[j];
        assert pos[k] == j;
      }
      if |sel| >= 3 && cs[j] in sel[..3] {
        var k :| 0 <= k < 3 && sel[k] == cs[j];
        assert pos[k] == j;
      }
    }
  }

  /** The card states at the end of the selection loop. */
  lemma StageStates(g: Guard, p: Point, cs: seq<Card>, before: seq<CardState>, sel0: seq<Card>, st: Pass)
    requires Stage(g, p, cs, before, sel0, |cs|, st)
    ensures forall j :: 0 <= j < |cs| && (|st.pos| < 3 || j !in st.pos[..3]) ==>
              st.now[j] == Selected(g, before[j], p)
    ensures |st.pos| >= 3 ==> forall k :: 0 <= k < 3 ==>
              st.now[st.pos[k]] == MovedTo(Selected(g, before[st.pos[k]], p), Slots[k])
  {
    var t := Taken(g, p, |cs|, before);
    if |st.pos| >= 3 {
      forall j | 0 <= j < |cs| && j !in st.pos[..3]
        ensures st.now[j] == Selected(g, before[j], p)
      {
        assert j != st.pos[0] && j != st.pos[1] && j != st.pos[2];
      }
      forall k | 0 <= k < 3
        ensures st.now[st.pos[k]] == MovedTo(Selected(g, before[st.pos[k]], p), Slots[k])
      {
        MoveSlotsAt(t, st.pos, k);
      }
    }
  }

  /** When every card had its turn, the loop state is the one SelectPass
      promises: the selection grew by the fired cards, every card is selected
      or left as its guard left it, the first three selected are on their
      slots, and the session invariant holds again. */
  lemma StageDone(g: Guard, p: Point, cs: seq<Card>, before: seq<CardState>, sel0: seq<Card>, st: Pass)
    requires Choosing(cs, sel0, before)
    requires Stage(g, p, cs, before, sel0, |cs|, st)
    ensures st.sel == sel0 + FiredIn(g, cs, before, p)
    ensures Distinct(st.sel) && forall k :: 0 <= k < |st.sel| ==> st.sel[k] in cs
    ensures forall j :: 0 <= j < |cs| ==> Inv(st.now[j])
    ensures st.phase == Selecting ==> Choosing(cs, st.sel, st.now)
    ensures forall j :: 0 <= j < |cs| && (|st.sel| < 3 || cs[j] !in st.sel[..3]) ==>
              st.now[j] == Selected(g, before[j], p)
    ensures |st.sel| >= 3 ==> forall k :: 0 <= k < 3 ==>
              0 <= st.pos[k] < |cs| && st.sel[k] == cs[st.pos[k]] &&
              st.now[st.pos[k]] == MovedTo(Selected(g, before[st.pos[k]], p), Slots[k])
  {
    assert cs[..|cs|] == cs && before[..|cs|] == before;
    PlacedSelection(cs, st.sel, st.pos);
    StageStates(g, p, cs, before, sel0, st);
  }

  /** The state of main()'s loop. */
  class Session {
    var phase: Phase
    var cards: seq<Card>
    var selected: seq<Card>
    var detailed: Card?
    const startButton: Button
    const backButton: Button

    ghost predicate Valid()
      reads this, cards
    {
      && (forall i :: 0 <= i < |cards| ==> cards[i].Valid())
      && startButton != backButton
      && Distinct(cards)
      && Distinct(selected)
      && (forall k :: 0 <= k < |selected| ==> selected[k] in cards)
      && (phase == Intro ==> selected == [])
      && (phase == Selecting ==>
            && |selected| < 3
            && forall i :: 0 <= i < |cards| ==>
                 !cards[i].moving && (cards[i] in selected <==> cards[i].revealed || cards[i].flipping))
      && (phase == Reading || phase == DetailedReading ==> |selected| >= 3)
      && (phase == DetailedReading ==> detailed != null && detailed in selected)
    }

    /** Every card's hover flag is what check_hover would set for pointer `p`. */
    ghost predicate HoverSettled(p: Point)
      reads this, cards
    {
      forall c :: c in cards ==> c.hover == HoverAt(c.State(), p)
    }

    constructor ()
      ensures Valid()
      ensures phase == Intro && cards == [] && selected == [] && detailed == null
      ensures startButton.rect == StartButtonRect && backButton.rect == BackButtonRect
      ensures fresh(startButton) && fresh(backButton)
    {
      phase := Intro;
      cards := [];
      selected := [];
      detailed := null;
      startButton := new Button(StartButtonRect);
      backButton := new Button(BackButtonRect);
    }

    /** INTRO, click on the start button: a new deal replaces the cards. */
    method Start(dealt: seq<Card>)
      requires Valid() && phase == Intro
      requires Distinct(dealt) && forall i :: 0 <= i < |dealt| ==> Undealt(dealt[i])
      modifies this
      ensures Valid()
      ensures phase == Selecting && cards == dealt
      ensures selected == old(selected) == [] && detailed == old(detailed)
    {
      phase := Selecting;
      cards := dealt;
    }

    /** The move of the three selected cards to the past, present and future slots. */
    method MoveToSlots(ghost st: Pass) returns (ghost st': Pass)
      requires Distinct(cards) && Mirrors(st) && |selected| == 3
      requires |st.pos| == 3 && DistinctInts(st.pos)
      requires forall k :: 0 <= k < 3 ==> 0 <= st.pos[k] < |cards| && selected[k] == cards[st.pos[k]]
      modifies selected
      ensures st' == st.(now := MoveSlots(st.now, st.pos))
      ensures Mirrors(st')
    {
      st' := st.(now := MoveSlots(st.now, st.pos));
      var i := 0;
      while i < 3
        invariant 0 <= i <= 3
        invariant forall j :: 0 <= j < |cards| ==>
                    cards[j].State() == if j in st.pos[..i] then st'.now[j] else st.now[j]
      {
        selected[i].MoveTo(Slots[i].x, Slots[i].y);
        i := i + 1;
      }
    }

    /** The session's fields agree with the value-level loop state `st`. */
    ghost predicate Mirrors(st: Pass)
      reads this, cards
    {
      && selected == st.sel && phase == st.phase && |st.now| == |cards|
      && forall j :: 0 <= j < |cards| ==> cards[j].State() == st.now[j]
    }

    /** One turn of the selection loop: card i's guard, flip and append, and the
        move to the slots if that append made the selection three long. */
    method Turn(g: Guard, p: Point, i: int, ghost st: Pass) returns (ghost st': Pass)
      requires 0 <= i < |cards| && Distinct(cards) && Mirrors(st)
      requires |st.pos| == |st.sel| && DistinctInts(st.pos)
      requires forall k :: 0 <= k < |st.pos| ==> 0 <= st.pos[k] < |cards| && st.sel[k] == cards[st.pos[k]]
      requires Fires(g, st.now[i], p) ==> i !in st.pos
      modifies this, cards
      ensures cards == old(cards) && detailed == old(detailed)
      ensures st' == TurnOf(g, p, cards, i, st)
      ensures Mirrors(st')
    {
      var card := cards[i];
      ghost var s0 := st.now[i];
      ghost var probed := st.(now := st.now[i := Probed(g, s0, p)]);
      var fires := Probe(card, g, p);
      assert Mirrors(probed);
      if fires {
        assert Fires(g, s0, p) && CanFlip(Probed(g, s0, p));
        assert probed.now[i := FlipStarted(probed.now[i])] == st.now[i := Selected(g, s0, p)];
        st' := Take(i, probed);
      } else {
        st' := probed;
        assert Selected(g, s0, p) == Probed(g, s0, p);
      }
    }

    /** Card i passed the guard: it is flipped and appended, and the append
        that makes the selection three long switches to READING and moves the
        three to their slots. */
    method Take(i: int, ghost st: Pass) returns (ghost st': Pass)
      requires 0 <= i < |cards| && Distinct(cards) && Mirrors(st)
      requires |st.pos| == |st.sel| && DistinctInts(st.pos) && i !in st.pos
      requires forall k :: 0 <= k < |st.pos| ==> 0 <= st.pos[k] < |cards| && st.sel[k] == cards[st.pos[k]]
      requires CanFlip(st.now[i])
      modifies this, cards
      ensures cards == old(cards) && detailed == old(detailed)
      ensures var now1 := st.now[i := FlipStarted(st.now[i])];
              var sel := st.sel + [cards[i]];
              var pos := st.pos + [i];
              st' == if |sel| == 3 then Pass(sel, pos, Reading, MoveSlots(now1, pos)) else Pass(sel, pos, st.phase, now1)
      ensures Mirrors(st')
    {
      st' := Pick(i, st);
      if |selected| == 3 {
        phase := Reading;
        st' := st'.(phase := Reading);
        assert DistinctInts(st'.pos);
        st' := MoveToSlots(st');
      }
    }

    /** A successful start_flip on card i and the append to the selection. */
    method Pick(i: int, ghost st: Pass) returns (ghost st': Pass)
      requires 0 <= i < |cards| && Distinct(cards) && Mirrors(st)
      requires CanFlip(st.now[i])
      modifies this, cards[i]
      ensures cards == old(cards) && detailed == old(detailed) && phase == old(phase)
      ensures st' == Pass(st.sel + [cards[i]], st.pos + [i], st.phase, st.now[i := FlipStarted(st.now[i])])
      ensures Mirrors(st')
    {
      var ok := cards[i].StartFlip();
      selected := selected + [cards[i]];
      st' := Pass(selected, st.pos + [i], phase, st.now[i := FlipStarted(st.now[i])]);
    }

    /** SELECTING, a click: every card that passes the guard is flipped and
        appended to the selection, in card order and without stopping early;
        the append that makes the selection exactly three long switches to
        READING and moves those three cards to their slots. Later cards in the
        same loop can still be selected, so the selection can end up longer
        than three. */
    method SelectPass(p: Point, g: Guard)
      requires Valid() && phase == Selecting
      modifies this, cards
      ensures Valid()
      ensures cards == old(cards) && detailed == old(detailed)
      ensures selected == old(selected) + FiredIn(g, cards, old(States(cards)), p)
      ensures phase == (if |selected| >= 3 then Reading else Selecting)
      ensures forall j :: 0 <= j < |cards| && (phase == Selecting || cards[j] !in selected[..3]) ==>
                cards[j].State() == Selected(g, old(States(cards))[j], p)
      ensures phase == Reading ==> forall k :: 0 <= k < 3 ==>
                var c := selected[k]; c.State() == MovedTo(Selected(g, old(c.State()), p), Slots[k])
    {
      ghost var before := States(cards);
      ghost var sel0 := selected;
      assert Choosing(cards, sel0, before);
      StageStart(g, p, cards, sel0, before);
      ghost var st := Pass(selected, PositionsIn(cards, selected), phase, before);
      st := AllTurns(g, p, before, sel0, st);
      StageDone(g, p, cards, before, sel0, st);
    }

    /** The selection loop itself: every card takes its turn, in order. */
    method AllTurns(g: Guard, p: Point, ghost before: seq<CardState>, ghost sel0: seq<Card>, ghost st0: Pass)
      returns (ghost st: Pass)
      requires Stage(g, p, cards, before, sel0, 0, st0) && Mirrors(st0)
      modifies this, cards
      ensures cards == old(cards) && detailed == old(detailed)
      ensures Stage(g, p, cards, before, sel0, |cards|, st) && Mirrors(st)
    {
      st := st0;
      var i := 0;
      while i < |cards|
        invariant cards == old(cards) && detailed == old(detailed)
        invariant Stage(g, p, cards, before, sel0, i, st)
        invariant Mirrors(st)
      {
        ghost var prev := st;
        st := Turn(g, p, i, st);
        TurnStep(g, p, cards, before, sel0, i, prev);
        i := i + 1;
      }
    }

    /** READING, a click: a click on a selected card opens its detail view, the
        last such card winning; a click on the back button, tested afterwards,
        returns to INTRO and empties the selection. `detailed` keeps its value
        when no card is hit. */
    method ReadingClick(p: Point)
      requires Valid() && phase == Reading
      modifies this
      ensures Valid()
      ensures cards == old(cards)
      ensures var k := old(LastHit(selected, p));
              detailed == if k >= 0 then old(selected)[k] else old(detailed)
      ensures backButton.rect.Contains(p) ==> phase == Intro && selected == []
      ensures !backButton.rect.Contains(p) ==>
                && selected == old(selected)
                && phase == if old(LastHit(selected, p)) >= 0 then DetailedReading else Reading
    {
      var k := LastCardHit(p);
      if k >= 0 {
        detailed := selected[k];
        phase := DetailedReading;
      }
      if backButton.rect.Contains(p) {
        phase := Intro;
        selected := [];
      }
    }

    /** The card loop of the READING click: the index of the last selected
        card under the pointer, or -1. */
    method LastCardHit(p: Point) returns (k: int)
      ensures k == LastHit(selected, p)
    {
      k := -1;
      for i := 0 to |selected|
        invariant k == LastHit(selected[..i], p)
      {
        assert selected[..i + 1][..i] == selected[..i];
        if selected[i].rect.Contains(p) {
          k := i;
        }
      }
      assert selected[..|selected|] == selected;
    }

    /** DETAILED_READING, any click: back to READING; `detailed` is not cleared. */
    method Dismiss()
      requires Valid() && phase == DetailedReading
      modifies this
      ensures Valid()
      ensures phase == Reading
      ensures cards == old(cards) && selected == old(selected) && detailed == old(detailed)
    {
      phase := Reading;
    }

    /** The per-frame hover pass: the start button on the intro screen, every card
        while selecting, the back button while reading. */
    method HoverPass(p: Point)
      requires Valid()
      modifies startButton, backButton, cards
      ensures Valid()
      ensures phase == Intro ==> startButton.hover == startButton.rect.Contains(p)
      ensures phase != Intro ==> startButton.hover == old(startButton.hover)
      ensures phase == Reading ==> backButton.hover == backButton.rect.Contains(p)
      ensures phase != Reading ==> backButton.hover == old(backButton.hover)
      ensures forall i :: 0 <= i < |cards| ==>
                var c := cards[i];
                c.State() == if phase == Selecting then Probed(HoverChange, old(c.State()), p) else old(c.State())
      ensures phase == Selecting ==> HoverSettled(p)
    {
      match phase {
        case Intro =>
          var _ := startButton.CheckHover(p);
        case Selecting =>
          var i := 0;
          while i < |cards|
            invariant 0 <= i <= |cards|
            invariant startButton.hover == old(startButton.hover) && backButton.hover == old(backButton.hover)
            invariant forall j :: 0 <= j < |cards| ==>
                        var c := cards[j];
                        c.State() == if j < i then Probed(HoverChange, old(c.State()), p) else old(c.State())
          {
            var _ := cards[i].CheckHover(p);
            i := i + 1;
          }
        case Reading =>
          var _ := backButton.CheckHover(p);
        case DetailedReading =>
      }
    }

    /** The cards draw() is called on in this frame, which are the cards whose
        animation advances: every card while selecting; while reading, the
        selected cards up to the one whose label lookup fails. */
    ghost predicate Drawn(c: Card)
      reads this
    {
      || phase == Selecting
      || (phase == Reading && c in selected[..if |selected| < 4 then |selected| else 4])
    }

    /** The per-frame draw pass, as far as it changes state. `ok` is false when
        the reading screen looks up a fourth position label, which does not exist. */
    method Render() returns (ok: bool)
      requires Valid()
      modifies cards
      ensures Valid()
      ensures ok <==> !(phase == Reading && |selected| > 3)
      ensures forall i :: 0 <= i < |cards| ==>
                var c := cards[i]; c.State() == if Drawn(c) then Tick(old(c.State())) else old(c.State())
    {
      ok := true;
      if phase == Selecting {
        DrawCards();
      } else if phase == Reading {
        ok := DrawSelection();
      }
    }

    /** The SELECTING draw loop: every card advances one frame. */
    method DrawCards()
      requires Distinct(cards)
      modifies cards
      ensures forall i :: 0 <= i < |cards| ==> cards[i].State() == Tick(old(cards[i].State()))
    {
      var i := 0;
      while i < |cards|
        invariant 0 <= i <= |cards|
        invariant forall j :: 0 <= j < |cards| ==>
                    var c := cards[j]; c.State() == if j < i then Tick(old(c.State())) else old(c.State())
      {
        cards[i].Draw();
        i := i + 1;
      }
    }

    /** The READING draw loop: the selected cards advance one frame each, in
        order, until the label lookup for a fourth card fails. */
    method DrawSelection() returns (ok: bool)
      requires Distinct(selected) && forall k :: 0 <= k < |selected| ==> selected[k] in cards
      modifies cards
      ensures ok <==> |selected| <= 3
      ensures forall j :: 0 <= j < |cards| ==>
                var c := cards[j];
                c.State() == if c in selected[..if |selected| < 4 then |selected| else 4] then Tick(old(c.State())) else old(c.State())
    {
      ok := true;
      var i := 0;
      while i < |selected| && ok
        invariant 0 <= i <= |selected|
        invariant ok <==> i <= 3
        invariant !ok ==> i == 4
        invariant forall j :: 0 <= j < |cards| ==>
                    var c := cards[j]; c.State() == if c in selected[..i] then Tick(old(c.State())) else old(c.State())
      {
        selected[i].Draw();
        if i >= 3 {
          ok := false;
        }
        i := i + 1;
      }
    }
  }
}
