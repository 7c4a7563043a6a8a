# Memory game core, modelled in Dafny

`memory.js` is a browser memory game. It deals 16 face-down cards, one pair for
each of 8 colours picked from a palette. The player turns them over two at a
time, and a one-second countdown from 100 ends the round. This project models
the game's core in Dafny and proves properties of that model:

- **`FisherYates`** (`shuffle.dfy`) is the in-place Fisher–Yates shuffle.
  - `Math.random` becomes an oracle: the list of indices drawn, one per pass.
  - The method `Shuffle` is proved equal to a recursive reference definition, `Shuffled`.
  - `Shuffled` is proved to permute its input, whatever the draws.
  - Every permutation is proved reachable: `PicksFor` builds the draws that produce it.
- **`Deal`** (`deal.dfy`) covers the colour choice of `setUpCards`.
  - The palette is shuffled in place and its first 8 colours are kept.
  - That list is doubled and shuffled again, and card `i` gets `colors[i]`.
  - With a palette of at least 8 distinct colours, the deal is proved to be 8 distinct palette colours, each on exactly two cards.
  - With a shorter palette, the cards past the doubled list get the attribute value `"undefined"`. That is what `colors[i]` becomes past the end of a JavaScript array.
- **`Styles`** (`styles.dfy`) holds the twelve built-in palettes. Each is proved to have at least 8 colours and no colour twice, so the deal from any of them is 8 distinct colours on two cards each. This holds in whatever order earlier loads have left the palette, since each load shuffles the palette array in place.
- **`Game`** (`game.dfy`) holds the mutable state of the page: the cards on the board and the variables `firstCard`, `preventClick`, `currentFoundPairs` and `currentTimeRemaining`.
  - Cards are objects, because `firstCard` refers to a DOM element by identity.
  - The handlers are methods: load, `reset`, `checkWin`, `flipCardActions`, the delayed mismatch callback and the timer tick.
  - Every handler keeps `Valid()`.
  - While a round's bookkeeping holds, every handler also keeps `Tally()`: the number of showing cards equals twice the pairs found, plus the cards of the pending pick. The exception is `LoadCards` while a pick is pending from before "start over" (see below); it keeps `Tally()` only when no pick is pending.
- **`Navigation`** (`navigation.dfy`) covers the arrow-key handler. `next('.card')` and `prev('.card')` are modelled on the board's indices.
- **`Scenarios`** (`scenarios.dfy`) proves whole event sequences from the handlers' contracts alone: a full countdown, a mismatched pair, a matched pair, and a first card left over from before "start over".

The model follows what `memory.js` does:

- The branch that tests the two colours with `!==` (`memory.js:235`) is the mismatch branch. It schedules the hide callback; the comments next to the two branches have them the other way round.
- `setCardToShowing` paints the card's colour before the guard (`memory.js:217-223`) runs. A card clicked while input is locked, or a showing card clicked again, is ignored apart from the paint.
- `reset` does not clear `firstCard`, `preventClick` or `currentFoundPairs`.
  - A card picked before "start over" stays the pending first card in the next round.
  - If the first card flipped in the new round has that card's colour, it completes a pair with only one card showing (`Scenarios.StaleFirstCard`).
  - If the first card flipped has another colour, it is a mismatch against a card that is no longer on the board: input locks until the hide callback, which clears the pending pick. A card of the old card's colour flipped after that only starts a new pick (`Scenarios.StaleMismatch`).
- Winning and running out of time both call `reset`, which empties the board. There is no separate "won" or "timed out" state that refuses further events.
- The load handler sets the pair count to 0 but not the time. The time is already full, because `reset` restores it and loading is enabled only after `reset` or at page load.
- The test `CONTAINER_DIV.hasChildNodes` (`memory.js:75`) reads the method without calling it, so it is always true. Loading therefore always disables the load button.
- The timer posts the low-time notice when the time reaches 30, on the 70th tick. It stops the round when the time drops below 0, on the 101st tick.

## Model

| member | source | states |
|---|---|---|
| FisherYates.Swap | memory.js:160-162 | exchanges two slots and leaves every other slot as it was |
| FisherYates.Exchange | memory.js:160-162 | the swap through a temporary leaves the array equal to the two slots exchanged |
| FisherYates.Shuffled | memory.js:150-165 | the reference shuffle keeps the length of its input |
| FisherYates.ShufflePermutes | memory.js:150-165 | for every valid sequence of draws the shuffle is a permutation (same multiset) |
| FisherYates.Shuffle | memory.js:150-165 | the in-place loop leaves the array equal to the reference shuffle of its old contents, and a permutation of them |
| FisherYates.PicksFor | memory.js:156-163 | every permutation of the input is produced by some valid sequence of draws |
| Deal.NumChosen | memory.js:170 | `slice(0, 8)` keeps 8 colours, or the whole palette when it is shorter |
| Deal.Chosen | memory.js:170 | the kept colours are `NumChosen` many, all drawn from the palette (a sub-multiset of it) |
| Deal.DeckColours | memory.js:172-174 | the doubled and reshuffled list has twice as many entries as were kept, all of them palette colours |
| Deal.CardColour | memory.js:179 | a card's colour is an entry of the list or "undefined", and it is "undefined" exactly when the index is past the list's end (or the entry itself is that string) |
| Deal.CardColours | memory.js:175-181 | exactly 16 cards are coloured, whatever the length of the colour list |
| Deal.DealtColours | memory.js:168-183 | the 16 dealt cards each carry a palette colour or "undefined" |
| Deal.DeckMultiset | memory.js:170-174 | the chosen colours come from the palette, and the shuffled deck holds each of them twice as often as the chosen list does |
| Deal.DealPairs | memory.js:170-183 | a palette of at least 8 distinct colours yields 8 distinct palette colours, each dealt on exactly two cards, with no card left uncoloured |
| Deal.DealShortPalette | memory.js:170-183 | a palette of n < 8 colours puts each colour on two of the first 2n cards and "undefined" on the rest |
| Deal.ChooseColours | memory.js:170-174 | the palette array is left shuffled in place, and the new colour array is the doubled choice shuffled again |
| Styles.PalettesFitTheDeal | memory.js:22-39 | every built-in palette has at least 8 colours and no colour twice |
| Styles.BuiltInPaletteDeal | memory.js:22-39 | with any built-in palette, in any order earlier in-place shuffles have left it, and any draws, the deal is 8 distinct colours of that palette, each on exactly two cards, and every card shows one of them |
| Game.Card.constructor | memory.js:177-182 | a new card carries its colour, is hidden, and has no background of its own |
| Game.SetCardToShowing | memory.js:195-199 | the card's background becomes its colour; its class is unchanged |
| Game.ReplaceHiddenClass | memory.js:224 | the card shows, and the board's count of showing cards grows by one exactly when the card was on the board and hidden |
| Game.HidePair | memory.js:237-238 | both cards end hidden, and the board loses one showing card for each of them that was on it and showing |
| Game.SetCardToHidden | memory.js:188-192 | the card is hidden with no background, and the count of showing cards drops by one exactly when it was on the board and showing |
| Game.Game.constructor | memory.js:44-57 | the page starts with an empty board, no pick, no lock, no pairs, full time, the timer stopped and loading enabled |
| Game.Game.Reset | memory.js:138-146 | empties the board, enables loading, restores full time and stops the timer; the pending pick, the lock and the pair count are kept |
| Game.Game.CheckWin | memory.js:202-209 | 8 pairs announce the win and reset the game; any other count changes nothing |
| Game.Game.AppendCards | memory.js:175-183 | appends 16 new, distinct, hidden cards whose colours are the colour list read index by index |
| Game.Game.SetUpCards | memory.js:168-185 | appends 16 new hidden cards whose colours are the dealt colours of the palette and draws, and leaves the palette shuffled |
| Game.Game.LoadCards | memory.js:69-98 | zeroes the pairs, disables loading, deals 16 new hidden cards and starts the timer at full time; keeps the round's bookkeeping when no pick is pending |
| Game.Game.Flip | memory.js:212-254 | paints the card; ignores it during the lock, for the pending first card and for a showing card; otherwise it becomes the first card, or a different colour locks input, or the same colour counts a pair, announces it and may win and reset; no other card changes and the bookkeeping is kept |
| Game.Game.Accept | memory.js:224-252 | a flip that passed the guard shows the card, then starts a pick, locks input on a mismatch, or counts a pair and may win and reset; no other card changes and the bookkeeping is kept |
| Game.Game.Reveal | memory.js:224-250 | an accepted card shows and becomes the first card, or locks input against the first card on a colour mismatch, or counts a pair on a match |
| Game.Game.FireHide | memory.js:236-241 | hides the mismatched card and the current first card, clears the pick and unlocks input; no other card changes and the bookkeeping is kept |
| Game.Game.Tick | memory.js:85-96 | one second passes; the low-time notice comes exactly when the time reaches 30; below 0 the pairs found are reported and the game resets |
| Navigation.NextTimes | memory.js:109 | moving forward k cards lands k places on, or on nothing past the last card |
| Navigation.PrevTimes | memory.js:113 | moving back k cards lands k places back, or on nothing before the first card |
| Navigation.Focus | memory.js:109-121 | `.focus()` moves the focus to the selected card, and leaves it where it was when the selection is empty |
| Navigation.KeyUp | memory.js:101-127 | down and up move focus by a row of 4, left and right by one card, and stay put at the board's edge; any other key keeps focus; space and enter flip the card |
| Navigation.DownThenUp | memory.js:107-114 | a down move that happened is undone by up |
| Navigation.RightThenLeft | memory.js:115-122 | a right move that happened is undone by left |
| Scenarios.Countdown | memory.js:85-96 | from full time the low-time notice comes on the 70th tick and the game resets on the 101st, with the pair count kept |
| Scenarios.MismatchRound | memory.js:212-254 | two cards of different colours show and lock input; a third card is ignored but painted; the callback hides the pair and unlocks |
| Scenarios.MatchRound | memory.js:226-252 | two cards of the same colour count one pair and stay showing, and flipping one again is ignored |
| Scenarios.StaleFirstCard | memory.js:138-146 | a first card picked before "start over" pairs with a same-coloured card of the next deal, leaving one card showing against one pair found |
| Scenarios.StaleMismatch | memory.js:226-241 | after "start over" with a pick pending, a card of another colour locks input against the card off the board; after the hide callback a card of the old colour becomes the first card and no pair is counted |

The helpers `Scenarios.FindColour` and `Scenarios.FlipAgainstStale` only set up `Scenarios.StaleFirstCard` and model no source lines.

## Left out

- Rendering is not modelled:
  - the CSS class strings are reduced to a showing flag;
  - the `tabindex` and `aria-label` attributes are not kept;
  - the timer display, and focusing the style drop-down on reset, are not modelled.
- The accessibility text and the `alert` pop-ups become the `Notice` values a handler returns. The win message's elapsed-time figure, which is read from the timer display, is not modelled.
- `Math.random` is replaced by an explicit list of draws. Nothing is claimed about how likely each draw is.
- `setInterval`, `setTimeout` and `clearTimeout` are not scheduled.
  - The running interval is a flag, and `Tick` runs only while it is set.
  - The pending mismatch callback is the card it captured, and `FireHide` may run whenever one is pending.
  - The 1000 ms and 500 ms delays are not modelled.
- The "start over" button's disabled state is not modelled, and neither is the `keydown` handler that suppresses scrolling (`memory.js:1-10`).
- `preventDefault` and `stopPropagation` on the handled events are not modelled.
- The palette is a parameter of the load handler. The model assumes that the page's drop-down offers only palette names; the page itself is not part of this model. For a value that names no palette, `shuffle(undefined)` throws at `memory.js:151`. By then `memory.js:71-77` have already zeroed the pairs and disabled the load button, and no timer has started. That path is not modelled.
- `selectedLevel` (`memory.js:48`) is never used and is not modelled.
