# Tarot card reading game — a Dafny model

This project models the game logic of a small pygame tarot reading game. The
game has two entry scripts, `game.py` and `main.py`.

- **Intro.** The player presses the start button.
- **Selecting.** The player picks three of up to 21 face-down cards. The cards
  are dealt from a shuffled card list onto a 3 by 7 grid.
- **Reading.** The three picked cards flip over and slide into three slots:
  past, present and future.
- **Detailed reading.** Clicking a card in the reading shows it enlarged, with
  its description word-wrapped under it.

Both scripts share one card and button implementation, one state machine and
one word-wrap loop. They differ in three places:

- `game.py` selects a card when the click falls inside the card's rect grown
  by 10 pixels on each side (`is_clickable`).
- `main.py` selects a card when `check_hover` reports that the card's hover
  flag changed.
- `main.py` calls an `init_game` it never defines.

The modules follow that structure:

- **`Geometry`:** points and rectangles, with pygame's half-open
  `collidepoint` and `inflate`.
- **`Screen`:** screen constants, the four game states and the three reading
  slots.
- **`Cards`:** the card's mutable state as a value `CardState`, and the pure
  step functions of its animations (`Tick`, `FlipStarted`, `MovedTo`).
  - The classes `Card` and `Button` mirror the source's objects. Their methods
    are stated as those functions on the object's state.
- **`Dealing`:** `init_game` of `game.py`. It deals a shuffled deck onto the
  grid.
- **`Flow`:** the class `Session`, which holds the main loop's variables
  (`game_state`, `cards`, `selected_cards`, `detailed_card` and the two
  buttons). It has one method per branch of the event dispatch, plus the
  hover pass and the draw pass.
  - The selection loop is proved against a specification function: card by
    card, a card is picked exactly when the source's guard fires.
  - The reading screen's label lookup fails on a fourth selected card. This is
    modelled as an explicit failure flag.
- **`WordWrap`:** the greedy line wrapping of the detail screen. Font widths
  are a parameter `measure`. The model proves that wrapping keeps every word
  in order, that every line with two or more words fits, where empty lines can
  appear, and that each line is as full as the limit allows.
- **`GameFlow` / `MainFlow`:** one pass of each script's `while running` loop.
  That is the events in order, then the hover pass, then drawing, then the
  wrapped description.

## Model

| member | source | states |
|---|---|---|
| Geometry.Rect.Inflate | game.py:174 | growing a rect by 20 in each dimension keeps its centre: the new rect reaches exactly 10 further on every side and contains the old one |
| Cards.Card.constructor | game.py:65-75 | a new card is face down, not hovered, not flipping, not moving, with all progress at 0 and original and target position equal to its own position |
| Cards.Tick | game.py:119-139 | one frame keeps the card invariant; progress never decreases; a revealed card stays revealed; the card stays pickable or not; a still card does not move; the hover flag is untouched |
| Cards.Card.Draw | game.py:119-139 | drawing advances the card's state by exactly one animation frame |
| Cards.FaceFollowsReveal | game.py:142-164 | a card that is not flipping shows its front exactly when it is revealed |
| Cards.TicksKeepInv | game.py:119-139 | any number of frames keeps the card invariant, never un-reveals a card and never changes whether a card can be picked |
| Cards.FlipCompletes | game.py:134-139 | a flip in progress is still flipping after (100 - progress)/5 - 1 frames and ends revealed after (100 - progress)/5 frames |
| Cards.FlipTakesTwentyFrames | game.py:177-182 | a freshly started flip takes exactly 20 frames to reveal the card |
| Cards.MoveCompletes | game.py:121-127 | a move in progress is still moving one frame before (100 - progress)/5 frames, and stopped on the target after them |
| Cards.MoveLandsOnTarget | game.py:184-188 | 20 frames after move_to the card is stopped with its top-left corner on the target |
| Cards.Card.CheckHover | game.py:166-169 | the hover flag becomes "pointer inside the rect and the card neither revealed nor flipping"; the result says whether the flag changed; nothing else changes |
| Cards.Clickable | game.py:171-175 | a click counts when it is at most 10 pixels outside the card on each side (right and bottom exclusive) and the card is neither revealed nor flipping |
| Cards.Card.StartFlip | game.py:177-182 | succeeds exactly on a card neither revealed nor flipping, which then flips from progress 0; otherwise nothing changes |
| Cards.Card.MoveTo | game.py:184-188 | the move starts from the current position towards the target, with progress 0 |
| Cards.Button.CheckHover | game.py:211-214 | the button's hover flag becomes "pointer inside"; the result says whether it changed |
| Dealing.InitGame | game.py:239-255 | the deck becomes the shuffled order; min(21, deck size) new, pairwise distinct cards are dealt; card i holds deck entry i and stands face down in grid cell i |
| Dealing.CellsDistinct | game.py:247-253 | no two grid cells share a position |
| Dealing.CellsDisjoint | game.py:247-253 | no point lies on two cards of the grid |
| Dealing.NeighboursShareHitArea | game.py:288-289 | the enlarged click areas of horizontal neighbours share a point in the gutter between them |
| Dealing.HitAreasMeetOnlyAsNeighbours | game.py:288-289 | two grid cards' click areas overlap only when they are horizontal neighbours |
| Dealing.AtMostTwoHitAreas | game.py:288-289 | no click on a freshly dealt grid falls into three cards' click areas |
| Screen.SlotsInARow | game.py:300-304 | the three reading positions lie on one row, from left to right |
| Flow.Fires | game.py:289-290 | a card is picked under game.py's guard exactly when the click is clickable, and under main.py's guard exactly when the pickable card's hover flag disagrees with the pointer |
| Flow.SettledFiresNothing | main.py:190-194 | when every card's hover flag already matches the pointer, main.py's selection picks nothing |
| Flow.LastHit | game.py:311-314 | the card the reading click opens is the last selected card under the pointer, and none after it is under the pointer |
| Flow.Session.constructor | game.py:264-271 | the session starts on the intro screen with no cards, no selection and no detailed card |
| Flow.Session.Start | game.py:282-285 | the start button switches to card selection with the dealt cards and an empty selection |
| Flow.Session.SelectPass | game.py:287-307 | the selection gains, in table order, exactly the cards whose guard fires; it switches to reading once 3 or more cards are selected; unpicked cards only see their guard's side effects; when the reading starts, the first three picks are flipped and moving to the three slots |
| Flow.Session.ReadingClick | game.py:309-319 | the detailed card becomes the last selected card under the pointer; a click on the back button returns to the intro and clears the selection, overriding the card hit |
| Flow.Session.LastCardHit | game.py:311-314 | the reading click's card loop finds the last selected card under the pointer, or none |
| Flow.Session.Dismiss | game.py:321-323 | any click on the detail screen goes back to the reading screen, with the selection and the detailed card kept |
| Flow.Session.HoverPass | game.py:325-332 | the start button's hover is refreshed on the intro screen, every card's while selecting, the back button's while reading; afterwards, while selecting, every card's hover flag matches the pointer |
| Flow.Session.Render | game.py:367-391 | every card advances one frame while selecting; while reading, only the selected cards do, up to the fourth; the pass fails exactly when reading with more than three selected cards |
| WordWrap.Split | game.py:430 | the words of a description are non-empty and hold no whitespace |
| WordWrap.SplitJoin | game.py:430 | splitting words joined with single spaces gives the words back |
| WordWrap.WrapDescription | game.py:429-443 | the loop computes the greedy wrapping; its lines hold the description's words in order; every line of two or more words is narrower than 340; only the first line can be empty, exactly when the first word alone is too wide; each line is as full as the limit allows |
| WordWrap.WrapKeepsWords | game.py:434-443 | concatenating the words of the wrapped lines gives the words of the description |
| WordWrap.WrapShape | game.py:434-443 | every line is its words joined by single spaces, and every line of two or more words fits the width |
| WordWrap.WrapEmptyLine | game.py:434-443 | an empty line appears only as the first line, exactly when the first word alone does not fit |
| WordWrap.WrapGreedy | main.py:311-320 | every line but the last is followed by a non-empty line whose first word would not have fitted on it |
| GameFlow.GutterClickOnGrid | game.py:288-291 | on a table dealt onto the grid, a click in the gutter between two pickable horizontal neighbours passes the guard of exactly those two cards, in table order, over any prefix of the selection loop; with SelectPass's contract, one click adds both to the selection, so two earlier picks become four |
| GameFlow.Click | game.py:281-323 | dispatches one click by game state: the start button deals a fresh shuffled grid; while selecting, game.py's click guard picks as in SelectPass, with the same card states (picked cards flipping, the first three moving to the slots); in the reading, the detailed card becomes the last selected card under the pointer and the back button returns to the intro; the detail screen goes back to the reading; the detailed card is kept on the intro and selection screens, and no card's state changes outside the selection and the start of a session |
| GameFlow.HandleEvents | game.py:277-323 | after the frame's events the loop keeps running exactly when none of them was QUIT; without a click the phase, the cards and each card's state, the selection and the detailed card are unchanged; the session stays consistent and holds only its earlier cards or freshly dealt ones |
| GameFlow.Frame | game.py:274-456 | after one frame the loop keeps running exactly when no QUIT came; the frame fails exactly when reading with more than three cards; the visible button's hover matches the pointer; on the detail screen the description is wrapped |
| MainFlow.Click | main.py:184-219 | as GameFlow.Click, with main.py's hover-change guard and the dealer's cards, including the card states after a selection, the detailed card after a reading click and the card states left alone by every other click; a click after the hover flags have settled selects nothing |
| MainFlow.HandleEvents | main.py:180-219 | as GameFlow.HandleEvents for main.py: the loop keeps running exactly when no event was QUIT; without a click the phase, the cards and each card's state, the selection and the detailed card are unchanged; the table holds only its earlier cards or the dealer's |
| MainFlow.Frame | main.py:177-332 | as GameFlow.Frame for main.py; in addition, while selecting after the frame, every card's hover flag matches the pointer |

## Left out

- Drawing: pixels, images, fonts, colours, the background stars, the overlay and text layout. The width scaling of a flipping card uses floating point, and only the face shown (back below progress 50, front from 50) is kept.
- Image loading and generation (`create_card_back`, `create_card_front`, `load_image`) and `download_images.py`: these are file and network I/O.
- Intermediate positions of a moving card. The interpolation is floating point, so the rect is kept where it was until the move ends and snaps onto the target.
- `pygame.time.delay`, `clock.tick`, `pygame.quit` and `sys.exit`: these are timing and process control with no effect on the state.
- `random.shuffle`: the order it produces is a parameter that must be a permutation of the deck.
- main.py's `init_game` is called but never defined, so in Python the start button raises NameError. The model passes the dealer's cards as a parameter: fresh, distinct, face-down cards.
- The outer `while running` loop is modelled as one frame (`GameFlow.Frame`, `MainFlow.Frame`). The mouse position is a parameter.
- Render's failed label lookup (`labels[3]`) is reported as a flag rather than as an exception that ends the program.
- `Flow.Session.SelectPass`: a fourth card can be selected in the same pass after the third. Like the source, the model only switches to reading and moves cards at exactly three. The fourth card stays flipping on the grid, and the draw pass of the same frame fails (`GameFlow.Frame` reports `crashed`).
- `GameFlow.Frame`: states the frame's outcome per screen, not the composition of the individual clicks it handled; what each click does is `GameFlow.Click`'s contract.
- `MainFlow.Frame`: as for `GameFlow.Frame`; what each click does is `MainFlow.Click`'s contract.
- `GameFlow.HandleEvents`: does not state the session after a sequence of several clicks as a composition of `GameFlow.Click`; it states only that events other than clicks change nothing, the running flag and the provenance of the cards.
- `MainFlow.HandleEvents`: as for `GameFlow.HandleEvents`, with `MainFlow.Click`.
- The per-card `hover` highlight is drawn but never read by game.py's selection. The model keeps the flag, because main.py's selection reads it.
