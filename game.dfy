/** The game state of memory.js: the module-level variables `firstCard`,
    `preventClick`, `currentFoundPairs` and `currentTimeRemaining`
    (memory.js:44-57), the cards on the board, and the handlers that update
    them: the load handler (69-98), `reset` (138-146), `setUpCards` (168-185),
    `checkWin` (202-209), `flipCardActions` (212-254), the mismatch callback
    (236-241) and the timer body (85-96).

    A card is a DOM element: `firstCard` refers to one by identity and keeps
    referring to it after `reset` has taken it off the board, so cards are
    objects here. Card visibility is the `color-showing` / `color-hidden`
    class (a boolean) and the inline background colour (a string). */
module Game {
  import opened FisherYates
  import opened Deal

  /** memory.js:53 */
  const ORIG_TIME_REMAINING: int := 100

  /** The remaining time at which the timer posts its notice (memory.js:88). */
  const LOW_TIME: int := 30

  /** What the game tells the player: the pairs-found text (memory.js:248), the
      win alert (205), the 30-seconds text (89) and the time-up alert (92). */
  datatype Notice = PairsFound(count: int) | Won | LowTime | TimeUp(pairs: int)

  /** A card element as `setUpCards` creates it (memory.js:177-181). */
  class Card {
    /** The `data-color` attribute. */
    const colour: string
    /** True for class `color-showing`, false for `color-hidden`. */
    var showing: bool
    /** `style.backgroundColor`. */
    var background: string

    constructor (colour: string)
      ensures this.colour == colour && !showing && background == ""
    {
      this.colour := colour;
      showing := false;
      background := "";
    }
  }

  /** The number of `true` entries. */
  function CountTrue(v: seq<bool>): nat
  {
    if v == [] then 0 else (if v[0] then 1 else 0) + CountTrue(v[1..])
  }

  lemma {:induction false} CountTrueUpdate(v: seq<bool>, k: nat, b: bool)
    requires k < |v|
    ensures CountTrue(v[k := b]) == CountTrue(v) - (if v[k] then 1 else 0) + (if b then 1 else 0)
  {
    if k == 0 {
      assert v[k := b][1..] == v[1..];
    } else {
      CountTrueUpdate(v[1..], k - 1, b);
      assert v[k := b][1..] == v[1..][k - 1 := b];
    }
  }

  lemma {:induction false} CountTrueNone(v: seq<bool>)
    requires forall i :: 0 <= i < |v| ==> !v[i]
    ensures CountTrue(v) == 0
  {
    if v != [] {
      CountTrueNone(v[1..]);
    }
  }

  /** The class of each card, in board order. */
  function Visibility(cards: seq<Card>): (v: seq<bool>)
    reads cards
    ensures |v| == |cards|
    ensures forall i :: 0 <= i < |cards| ==> v[i] == cards[i].showing
  {
    if cards == [] then [] else [cards[0].showing] + Visibility(cards[1..])
  }

  /** The number of cards on the board with class `color-showing`. */
  function ShowingCount(cards: seq<Card>): nat
    reads cards
  {
    CountTrue(Visibility(cards))
  }

  /** The `data-color` of each card, in board order. */
  function Colours(cards: seq<Card>): (r: seq<string>)
    ensures |r| == |cards|
    ensures forall i :: 0 <= i < |cards| ==> r[i] == cards[i].colour
  {
    if cards == [] then [] else [cards[0].colour] + Colours(cards[1..])
  }

  lemma ColoursAppend(cards: seq<Card>, card: Card)
    ensures Colours(cards + [card]) == Colours(cards) + [card.colour]
  {
  }

  lemma NoDuplicatesAppend(cards: seq<Card>, card: Card)
    requires NoDuplicates(cards) && card !in cards
    ensures NoDuplicates(cards + [card])
  {
  }

  /** Every card has class `color-hidden` and no background of its own. */
  ghost predicate AllHidden(cards: seq<Card>)
    reads cards
  {
    forall card | card in cards :: !card.showing && card.background == ""
  }

  /** `setCardToShowing` (memory.js:195-199): paints the card's colour as its
      background; its class is not touched. */
  method SetCardToShowing(card: Card)
    modifies card
    ensures card.background == card.colour && card.showing == old(card.showing)
  {
    card.background := card.colour;
  }

  /** The class change of memory.js:224 (`color-hidden` becomes
      `color-showing`); `board` is the list whose showing cards are counted. */
  method ReplaceHiddenClass(card: Card, ghost board: seq<Card>)
    requires NoDuplicates(board)
    modifies card
    ensures card.showing && card.background == old(card.background)
    ensures ShowingCount(board)
         == old(ShowingCount(board)) + (if card in board && !old(card.showing) then 1 else 0)
  {
    ghost var v0 := Visibility(board);
    card.showing := true;
    if card in board {
      var k := IndexOf(board, card);
      assert Visibility(board) == v0[k := true] by {
        forall j | 0 <= j < |board| ensures Visibility(board)[j] == v0[k := true][j] {
          if j != k {
            assert board[j] != card;
          }
        }
      }
      CountTrueUpdate(v0, k, true);
    } else {
      assert Visibility(board) == v0;
    }
  }

  /** `setCardToHidden` (memory.js:188-192): removes the background and turns
      the class back to `color-hidden`. */
  method SetCardToHidden(card: Card, ghost board: seq<Card>)
    requires NoDuplicates(board)
    modifies card
    ensures !card.showing && card.background == ""
    ensures ShowingCount(board)
         == old(ShowingCount(board)) - (if card in board && old(card.showing) then 1 else 0)
  {
    ghost var v0 := Visibility(board);
    card.background := "";
    card.showing := false;
    if card in board {
      var k := IndexOf(board, card);
      assert Visibility(board) == v0[k := false] by {
        forall j | 0 <= j < |board| ensures Visibility(board)[j] == v0[k := false][j] {
          if j != k {
            assert board[j] != card;
          }
        }
      }
      CountTrueUpdate(v0, k, false);
    } else {
      assert Visibility(board) == v0;
    }
  }

  /** The two `setCardToHidden` calls of memory.js:237-238: both cards end
      hidden, and the board loses one showing card for each of them that was
      on it and showing. */
  method HidePair(current: Card, first: Card, ghost board: seq<Card>)
    requires NoDuplicates(board) && current != first
    modifies current, first
    ensures !current.showing && current.background == ""
    ensures !first.showing && first.background == ""
    ensures ShowingCount(board)
         == old(ShowingCount(board))
            - (if current in board && old(current.showing) then 1 else 0)
            - (if first in board && old(first.showing) then 1 else 0)
  {
    SetCardToHidden(current, board);
    SetCardToHidden(first, board);
  }

  class Game {
    /** The children of CONTAINER_DIV, in order. */
    var deck: seq<Card>
    var firstCard: Card?
    var preventClick: bool
    var foundPairs: int
    var timeRemaining: int
    /** The card (`currentCard`) captured by the pending mismatch callback of
        memory.js:236-241, or null when none is pending. */
    var hideTarget: Card?
    /** Whether the interval of memory.js:85 is active. */
    var timerRunning: bool
    /** LOAD_CARDS_BTN.disabled. */
    var loadDisabled: bool

    /** The pending pick and the lock agree, and the pair count is in range. */
    ghost predicate Selection()
      reads this
    {
      && (preventClick <==> hideTarget != null)
      && (hideTarget != null ==> firstCard != null && hideTarget != firstCard)
      && 0 <= foundPairs <= ALLOWED_NUM_PAIRS
    }

    /** The invariant every handler keeps. The load button is enabled only on
        an empty board with the timer stopped and full time; a board with cards
        belongs to a round that is not yet won. */
    ghost predicate Valid()
      reads this
    {
      && Selection()
      && NoDuplicates(deck)
      && (deck != [] ==> foundPairs < ALLOWED_NUM_PAIRS && timerRunning && loadDisabled)
      && (!loadDisabled ==> deck == [] && !timerRunning && timeRemaining == ORIG_TIME_REMAINING)
      && 0 <= timeRemaining <= ORIG_TIME_REMAINING
    }

    /** How many showing cards the pending pick accounts for: none, the first
        card, or the two cards of a mismatch waiting to be hidden. */
    function Pending(): nat
      reads this
    {
      if firstCard == null then 0 else if hideTarget == null then 1 else 2
    }

    /** The round's bookkeeping matches the board: the pending cards are on
        it and showing, and the showing cards are the found pairs plus the
        pending ones. Holds trivially on an empty board. */
    ghost predicate Tally()
      reads this, deck
    {
      deck == [] ||
      (&& (firstCard != null ==> firstCard in deck && firstCard.showing)
       && (hideTarget != null ==> hideTarget in deck && hideTarget.showing)
       && ShowingCount(deck) == 2 * foundPairs + Pending())
    }

    /** The state when the script has loaded (memory.js:44-57). */
    constructor ()
      ensures Valid() && Tally()
      ensures deck == [] && firstCard == null && !preventClick && hideTarget == null
      ensures foundPairs == 0 && timeRemaining == ORIG_TIME_REMAINING
      ensures !timerRunning && !loadDisabled
    {
      deck := [];
      firstCard := null;
      preventClick := false;
      foundPairs := 0;
      timeRemaining := ORIG_TIME_REMAINING;
      hideTarget := null;
      timerRunning := false;
      loadDisabled := false;
    }

    /** memory.js:138-146: empties the board, re-enables loading, restores the
        time and stops the timer. The pending pick, the lock and the pair count
        are left as they were. */
    method Reset()
      requires Selection()
      modifies this
      ensures Valid() && Tally()
      ensures deck == [] && !loadDisabled
      ensures timeRemaining == ORIG_TIME_REMAINING && !timerRunning
      ensures firstCard == old(firstCard) && preventClick == old(preventClick)
      ensures hideTarget == old(hideTarget) && foundPairs == old(foundPairs)
    {
      deck := [];
      loadDisabled := false;
      timeRemaining := ORIG_TIME_REMAINING;
      timerRunning := false;
    }

    /** memory.js:202-209: reaching ALLOWED_NUM_PAIRS announces the win and
        resets; any other count changes nothing. */
    method CheckWin(pairs: int) returns (notices: seq<Notice>)
      requires Selection()
      modifies this
      ensures pairs == ALLOWED_NUM_PAIRS ==>
                && notices == [Won] && Valid() && deck == [] && !loadDisabled
                && timeRemaining == ORIG_TIME_REMAINING && !timerRunning
                && firstCard == old(firstCard) && preventClick == old(preventClick)
                && hideTarget == old(hideTarget) && foundPairs == old(foundPairs)
      ensures pairs != ALLOWED_NUM_PAIRS ==> notices == [] && unchanged(this)
    {
      notices := [];
      if pairs == ALLOWED_NUM_PAIRS {
        notices := [Won];
        Reset();
      }
    }

    /** The loop of memory.js:175-183: one new hidden card per index below
        NUM_CARDS, coloured by `colors[i]`, appended to the board. */
    method AppendCards(colors: seq<string>)
      requires NoDuplicates(deck)
      modifies this
      ensures NoDuplicates(deck)
      ensures |deck| == |old(deck)| + NUM_CARDS && deck[..|old(deck)|] == old(deck)
      ensures forall card | card in deck[|old(deck)|..] :: fresh(card)
      ensures AllHidden(deck[|old(deck)|..])
      ensures Colours(deck[|old(deck)|..]) == CardColours(colors)
      ensures firstCard == old(firstCard) && preventClick == old(preventClick)
      ensures hideTarget == old(hideTarget) && foundPairs == old(foundPairs)
      ensures timeRemaining == old(timeRemaining) && timerRunning == old(timerRunning)
      ensures loadDisabled == old(loadDisabled)
    {
      ghost var added: seq<Card> := [];
      var i := 0;
      while i < NUM_CARDS
        invariant 0 <= i <= NUM_CARDS
        invariant deck == old(deck) + added && |added| == i
        invariant NoDuplicates(deck)
        invariant forall card | card in added :: fresh(card)
        invariant AllHidden(added)
        invariant Colours(added) == CardColours(colors)[..i]
        invariant firstCard == old(firstCard) && preventClick == old(preventClick)
        invariant hideTarget == old(hideTarget) && foundPairs == old(foundPairs)
        invariant timeRemaining == old(timeRemaining) && timerRunning == old(timerRunning)
        invariant loadDisabled == old(loadDisabled)
      {
        var card := new Card(CardColour(colors, i));
        ColoursAppend(added, card);
        assert CardColours(colors)[..i + 1] == CardColours(colors)[..i] + [card.colour];
        NoDuplicatesAppend(deck, card);
        deck := deck + [card];
        added := added + [card];
        i := i + 1;
      }
      assert deck[..|old(deck)|] == old(deck) && deck[|old(deck)|..] == added;
    }

    /** memory.js:168-185: the colours are chosen and the cards appended. */
    method SetUpCards(palette: array<string>, palettePicks: seq<nat>, deckPicks: seq<nat>)
      requires DealPicks(palette.Length, palettePicks, deckPicks)
      requires NoDuplicates(deck)
      modifies this, palette
      ensures palette[..] == Shuffled(old(palette[..]), palettePicks)
      ensures NoDuplicates(deck)
      ensures |deck| == |old(deck)| + NUM_CARDS && deck[..|old(deck)|] == old(deck)
      ensures forall card | card in deck[|old(deck)|..] :: fresh(card)
      ensures AllHidden(deck[|old(deck)|..])
      ensures Colours(deck[|old(deck)|..]) == DealtColours(old(palette[..]), palettePicks, deckPicks)
      ensures firstCard == old(firstCard) && preventClick == old(preventClick)
      ensures hideTarget == old(hideTarget) && foundPairs == old(foundPairs)
      ensures timeRemaining == old(timeRemaining) && timerRunning == old(timerRunning)
      ensures loadDisabled == old(loadDisabled)
    {
      var colors := ChooseColours(palette, palettePicks, deckPicks);
      AppendCards(colors[..]);
    }

    /** The load handler, memory.js:69-98: clears the pair count, disables the
        load button, deals the cards and starts the timer. */
    method LoadCards(palette: array<string>, palettePicks: seq<nat>, deckPicks: seq<nat>)
      requires Valid() && !loadDisabled
      requires DealPicks(palette.Length, palettePicks, deckPicks)
      modifies this, palette
      ensures Valid()
      ensures palette[..] == Shuffled(old(palette[..]), palettePicks)
      ensures |deck| == NUM_CARDS && AllHidden(deck)
      ensures forall card | card in deck :: fresh(card)
      ensures Colours(deck) == DealtColours(old(palette[..]), palettePicks, deckPicks)
      ensures foundPairs == 0 && timerRunning && loadDisabled
      ensures timeRemaining == ORIG_TIME_REMAINING
      ensures firstCard == old(firstCard) && preventClick == old(preventClick)
      ensures hideTarget == old(hideTarget)
      ensures old(firstCard) == null ==> Tally()
    {
      foundPairs := 0;
      loadDisabled := true;
      SetUpCards(palette, palettePicks, deckPicks);
      timerRunning := true;
      assert deck[0..] == deck;
      if firstCard == null {
        CountTrueNone(Visibility(deck));
      }
    }

    /** `flipCardActions` (memory.js:212-254) for a click or key press on card c.
        The card's background is painted first, whatever happens next. The flip
        is ignored while a mismatch is shown, for the pending first card and for
        a showing card. Otherwise the card shows and becomes the first card, or
        completes a pair: equal colours count a pair (and may win), different
        colours lock input until FireHide. */
    method Flip(c: Card) returns (notices: seq<Notice>)
      requires Valid() && c in deck
      modifies this, c
      ensures Valid()
      ensures c.background == c.colour
      ensures forall d | d in old(deck) && d != c :: d.showing == old(d.showing)
      // An ignored flip: only the paint happens.
      ensures old(preventClick || c == firstCard || c.showing) ==>
                && notices == [] && c.showing == old(c.showing)
                && deck == old(deck) && firstCard == old(firstCard)
                && preventClick == old(preventClick) && hideTarget == old(hideTarget)
                && foundPairs == old(foundPairs) && timeRemaining == old(timeRemaining)
                && timerRunning == old(timerRunning) && loadDisabled == old(loadDisabled)
      // The first card of a pair.
      ensures !old(preventClick || c == firstCard || c.showing) && old(firstCard) == null ==>
                && notices == [] && c.showing && firstCard == c
                && !preventClick && hideTarget == null
                && deck == old(deck) && foundPairs == old(foundPairs)
                && timeRemaining == old(timeRemaining) && timerRunning
      // A second card of another colour: both show, input is locked.
      ensures !old(preventClick || c == firstCard || c.showing) && old(firstCard) != null
              && old(firstCard.colour) != c.colour ==>
                && notices == [] && c.showing && old(firstCard).showing == old(firstCard.showing)
                && firstCard == old(firstCard) && preventClick && hideTarget == c
                && deck == old(deck) && foundPairs == old(foundPairs)
                && timeRemaining == old(timeRemaining) && timerRunning
      // A second card of the same colour: a pair is found.
      ensures !old(preventClick || c == firstCard || c.showing) && old(firstCard) != null
              && old(firstCard.colour) == c.colour ==>
                && c.showing && old(firstCard).showing == old(firstCard.showing)
                && firstCard == null && !preventClick && hideTarget == null
                && foundPairs == old(foundPairs) + 1
                && (foundPairs < ALLOWED_NUM_PAIRS ==>
                      notices == [PairsFound(foundPairs)] && deck == old(deck)
                      && timeRemaining == old(timeRemaining) && timerRunning)
                && (foundPairs == ALLOWED_NUM_PAIRS ==>
                      notices == [PairsFound(foundPairs), Won] && deck == []
                      && timeRemaining == ORIG_TIME_REMAINING && !timerRunning && !loadDisabled)
      ensures old(Tally()) ==> Tally()
    {
      ghost var wasTally := Tally();
      SetCardToShowing(c);
      assert Visibility(deck) == old(Visibility(deck));
      assert wasTally ==> Tally();
      if preventClick || c == firstCard || c.showing {
        return [];
      }
      notices := Accept(c);
    }

    /** memory.js:224-252, a flip that passed the guard: the card is revealed,
        then the win is checked. */
    method Accept(c: Card) returns (notices: seq<Notice>)
      requires Valid() && c in deck
      requires !preventClick && c != firstCard && !c.showing
      modifies this, c
      ensures Valid()
      ensures c.showing && c.background == old(c.background)
      ensures forall d | d in old(deck) && d != c :: d.showing == old(d.showing)
      ensures old(firstCard) == null ==>
                && notices == [] && firstCard == c && !preventClick && hideTarget == null
                && deck == old(deck) && foundPairs == old(foundPairs)
                && timeRemaining == old(timeRemaining) && timerRunning
      ensures old(firstCard) != null && old(firstCard.colour) != c.colour ==>
                && notices == [] && old(firstCard).showing == old(firstCard.showing)
                && firstCard == old(firstCard) && preventClick && hideTarget == c
                && deck == old(deck) && foundPairs == old(foundPairs)
                && timeRemaining == old(timeRemaining) && timerRunning
      ensures old(firstCard) != null && old(firstCard.colour) == c.colour ==>
                && old(firstCard).showing == old(firstCard.showing)
                && firstCard == null && !preventClick && hideTarget == null
                && foundPairs == old(foundPairs) + 1
                && (foundPairs < ALLOWED_NUM_PAIRS ==>
                      notices == [PairsFound(foundPairs)] && deck == old(deck)
                      && timeRemaining == old(timeRemaining) && timerRunning)
                && (foundPairs == ALLOWED_NUM_PAIRS ==>
                      notices == [PairsFound(foundPairs), Won] && deck == []
                      && timeRemaining == ORIG_TIME_REMAINING && !timerRunning && !loadDisabled)
      ensures old(Tally()) ==> Tally()
    {
      notices := Reveal(c);
      var won := CheckWin(foundPairs);
      notices := notices + won;
    }

    /** memory.js:224-249, an accepted flip before the win check: the card
        shows; it becomes the first card, or it is compared with the first
        card, which either locks input for FireHide or counts a pair. */
    method Reveal(c: Card) returns (notices: seq<Notice>)
      requires Valid() && c in deck
      requires !preventClick && c != firstCard && !c.showing
      modifies this, c
      ensures Selection() && NoDuplicates(deck) && 0 <= timeRemaining <= ORIG_TIME_REMAINING
      ensures c.showing && c.background == old(c.background)
      ensures deck == old(deck) && timeRemaining == old(timeRemaining)
      ensures timerRunning == old(timerRunning) && loadDisabled == old(loadDisabled)
      ensures old(firstCard) == null ==>
                && notices == [] && firstCard == c && !preventClick && hideTarget == null
                && foundPairs == old(foundPairs)
      ensures old(firstCard) != null && old(firstCard.colour) != c.colour ==>
                && notices == [] && firstCard == old(firstCard) && preventClick && hideTarget == c
                && foundPairs == old(foundPairs)
      ensures old(firstCard) != null && old(firstCard.colour) == c.colour ==>
                && notices == [PairsFound(foundPairs)] && firstCard == null && !preventClick
                && hideTarget == null && foundPairs == old(foundPairs) + 1
      ensures old(Tally()) ==> Tally()
    {
      ghost var wasTally := Tally();
      ReplaceHiddenClass(c, deck);
      ghost var count := ShowingCount(deck);
      assert wasTally ==> count == 2 * foundPairs + Pending() + 1;
      notices := [];
      if firstCard == null {
        firstCard := c;
      } else {
        preventClick := true;
        if firstCard.colour != c.colour {
          hideTarget := c;
        } else {
          firstCard := null;
          preventClick := false;
          foundPairs := foundPairs + 1;
          notices := [PairsFound(foundPairs)];
        }
      }
      assert ShowingCount(deck) == count;
    }

    /** The mismatch callback of memory.js:236-241: hides the captured card and
        the current first card, and clears the pick and the lock. */
    method FireHide()
      requires Valid() && hideTarget != null
      modifies this, hideTarget, firstCard
      ensures Valid()
      ensures !old(hideTarget).showing && old(hideTarget).background == ""
      ensures !old(firstCard).showing && old(firstCard).background == ""
      ensures forall d | d in old(deck) && d != old(hideTarget) && d != old(firstCard) :: d.showing == old(d.showing)
      ensures firstCard == null && !preventClick && hideTarget == null
      ensures deck == old(deck) && foundPairs == old(foundPairs)
      ensures timeRemaining == old(timeRemaining) && timerRunning == old(timerRunning)
      ensures loadDisabled == old(loadDisabled)
      ensures old(Tally()) ==> Tally()
    {
      var current := hideTarget;
      var first := firstCard;
      HidePair(current, first, deck);
      firstCard := null;
      preventClick := false;
      hideTarget := null;
    }

    /** The interval body of memory.js:85-96: one second passes. */
    method Tick() returns (notices: seq<Notice>)
      requires Valid() && timerRunning
      modifies this
      ensures Valid()
      ensures (LowTime in notices) <==> old(timeRemaining) - 1 == LOW_TIME
      ensures old(timeRemaining) - 1 >= 0 ==>
                && timeRemaining == old(timeRemaining) - 1 && deck == old(deck)
                && timerRunning && loadDisabled == old(loadDisabled)
                && (notices == if timeRemaining == LOW_TIME then [LowTime] else [])
      ensures old(timeRemaining) - 1 < 0 ==>
                && notices == [TimeUp(foundPairs)] && deck == []
                && timeRemaining == ORIG_TIME_REMAINING && !timerRunning && !loadDisabled
      ensures firstCard == old(firstCard) && preventClick == old(preventClick)
      ensures hideTarget == old(hideTarget) && foundPairs == old(foundPairs)
      ensures old(Tally()) ==> Tally()
    {
      notices := [];
      timeRemaining := timeRemaining - 1;
      if timeRemaining == LOW_TIME {
        notices := notices + [LowTime];
      }
      if timeRemaining < 0 {
        notices := notices + [TimeUp(foundPairs)];
        Reset();
      }
    }
  }
}
