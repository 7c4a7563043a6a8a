/** Sequences of events run against the handlers of module Game, each proved
    from the handlers' contracts alone. */
module Scenarios {
  import opened Deal
  import opened Game

  /** A timer started at full time: the low-time notice comes with the 70th
      tick, and the 101st tick (the first that takes the time below zero)
      reports the pairs found and resets. */
  method Countdown(g: Game) returns (lowAt: nat, upAt: nat)
    requires g.Valid() && g.timerRunning && g.timeRemaining == ORIG_TIME_REMAINING
    modifies g
    ensures lowAt == ORIG_TIME_REMAINING - LOW_TIME && upAt == ORIG_TIME_REMAINING + 1
    ensures g.Valid() && g.deck == [] && !g.timerRunning
    ensures g.timeRemaining == ORIG_TIME_REMAINING && g.foundPairs == old(g.foundPairs)
  {
    var ticks := 0;
    lowAt, upAt := 0, 0;
    while g.timerRunning
      invariant g.Valid() && 0 <= ticks <= ORIG_TIME_REMAINING + 1
      invariant g.foundPairs == old(g.foundPairs)
      invariant g.timerRunning ==> g.timeRemaining == ORIG_TIME_REMAINING - ticks && upAt == 0
      invariant !g.timerRunning ==>
                  ticks == upAt == ORIG_TIME_REMAINING + 1 && g.deck == [] && g.timeRemaining == ORIG_TIME_REMAINING
      invariant lowAt == if ticks < ORIG_TIME_REMAINING - LOW_TIME then 0 else ORIG_TIME_REMAINING - LOW_TIME
      decreases ORIG_TIME_REMAINING + 1 - ticks
    {
      var notices := g.Tick();
      ticks := ticks + 1;
      if LowTime in notices {
        lowAt := ticks;
      }
      if !g.timerRunning {
        upAt := ticks;
      }
    }
  }

  /** Two hidden cards of different colours: both show and input locks; a
      third card flipped during the lock stays hidden but gets its colour
      painted; the hide callback turns the pair back and unlocks. */
  method MismatchRound(g: Game, a: Card, b: Card, x: Card) returns (ignored: seq<Notice>)
    requires g.Valid() && g.Tally() && g.firstCard == null
    requires a in g.deck && b in g.deck && x in g.deck
    requires a != b && a != x && b != x
    requires !a.showing && !b.showing && !x.showing && a.colour != b.colour
    modifies g, a, b, x
    ensures ignored == [] && !a.showing && !b.showing && !x.showing
    ensures x.background == x.colour
    ensures g.Valid() && g.Tally() && g.firstCard == null && !g.preventClick
    ensures g.deck == old(g.deck) && g.foundPairs == old(g.foundPairs)
  {
    var n := g.Flip(a);
    assert g.firstCard == a && !g.preventClick;
    n := g.Flip(b);
    assert g.preventClick && g.hideTarget == b;
    ignored := g.Flip(x);
    g.FireHide();
  }

  /** Two hidden cards of the same colour: a pair is counted, both stay
      showing, and flipping either again is ignored. */
  method MatchRound(g: Game, a: Card, b: Card) returns (notices: seq<Notice>)
    requires g.Valid() && g.Tally() && g.firstCard == null
    requires a in g.deck && b in g.deck && a != b
    requires !a.showing && !b.showing && a.colour == b.colour
    modifies g, a, b
    ensures g.Valid() && g.Tally() && g.firstCard == null && !g.preventClick
    ensures a.showing && b.showing && g.foundPairs == old(g.foundPairs) + 1
    ensures PairsFound(g.foundPairs) in notices
    ensures (Won in notices) <==> g.foundPairs == ALLOWED_NUM_PAIRS
    ensures g.foundPairs < ALLOWED_NUM_PAIRS ==> g.deck == old(g.deck)
  {
    var n := g.Flip(a);
    notices := g.Flip(b);
    if g.foundPairs < ALLOWED_NUM_PAIRS {
      var again := g.Flip(a);
      assert again == [];
    }
  }

  /** `reset` keeps a pending first card. After "start over" and a new deal,
      that card is off the board but still `firstCard`, so the first card
      flipped in the new round is compared with it: if it has the same
      colour, a pair is counted with a single card showing, and the round's
      bookkeeping no longer matches the board. */
  method StaleFirstCard(g: Game, a: Card, palette: array<string>, palettePicks: seq<nat>, deckPicks: seq<nat>)
    returns (paired: bool)
    requires g.Valid() && g.Tally() && g.firstCard == null
    requires a in g.deck && !a.showing
    requires DealPicks(palette.Length, palettePicks, deckPicks)
    modifies g, a, palette
    ensures paired <==> a.colour in DealtColours(old(palette[..]), palettePicks, deckPicks)
    ensures paired ==> g.foundPairs == 1 && g.firstCard == null && ShowingCount(g.deck) == 1
    ensures paired ==> !g.Tally()
    ensures !paired ==> g.firstCard == a && a !in g.deck && g.foundPairs == 0
  {
    var n := g.Flip(a);
    g.Reset();
    g.LoadCards(palette, palettePicks, deckPicks);
    assert a !in g.deck;
    var i := FindColour(g.deck, a.colour);
    paired := i < |g.deck|;
    if paired {
      assert g.deck[i] in g.deck && fresh(g.deck[i]);
      FlipAgainstStale(g, g.deck[i], i);
    }
  }

  /** The index of the first card of the given colour, or |cards| if none. */
  method FindColour(cards: seq<Card>, colour: string) returns (i: nat)
    ensures i <= |cards|
    ensures i < |cards| <==> colour in Colours(cards)
    ensures i < |cards| ==> cards[i].colour == colour
  {
    i := 0;
    while i < |cards| && cards[i].colour != colour
      invariant 0 <= i <= |cards|
      invariant forall j :: 0 <= j < i ==> Colours(cards)[j] != colour
    {
      i := i + 1;
    }
  }

  /** A fresh board, and a first card left over from the previous round with
      the colour of card b: flipping b counts a pair. */
  method FlipAgainstStale(g: Game, b: Card, i: nat)
    requires g.Valid() && AllHidden(g.deck) && i < |g.deck| && g.deck[i] == b
    requires g.firstCard != null && g.firstCard !in g.deck && g.firstCard.colour == b.colour
    requires !g.preventClick && g.foundPairs == 0
    modifies g, b
    ensures g.foundPairs == 1 && g.firstCard == null && ShowingCount(g.deck) == 1
    ensures !g.Tally()
  {
    ghost var v0 := Visibility(g.deck);
    assert forall j :: 0 <= j < |v0| ==> !v0[j];
    CountTrueNone(v0);
    var n := g.Flip(b);
    assert Visibility(g.deck) == v0[i := true];
    CountTrueUpdate(v0, i, true);
  }

  /** A first card left over from the previous round, and a new board: a card
      of another colour mismatches against the card that is off the board and
      locks input; once the hide callback has run, a card of the old card's
      colour simply becomes the first card of a fresh pick. */
  method StaleMismatch(g: Game, b: Card, x: Card) returns (locked: bool)
    requires g.Valid() && b in g.deck && x in g.deck && b != x
    requires !b.showing && !x.showing
    requires g.firstCard != null && g.firstCard !in g.deck && !g.preventClick
    requires b.colour != g.firstCard.colour && x.colour == g.firstCard.colour
    modifies g, b, x, g.firstCard
    ensures locked
    ensures g.firstCard == x && x.showing && !b.showing && !g.preventClick
    ensures g.foundPairs == old(g.foundPairs) && g.deck == old(g.deck)
  {
    var n := g.Flip(b);
    locked := g.preventClick && g.hideTarget == b;
    g.FireHide();
    n := g.Flip(x);
  }
}
