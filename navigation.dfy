/** The arrow-key focus moves of the keyup handler (memory.js:101-127). The
    cards are the only children of the container, in board order, so a card
    is its index below n. `$(el).next('.card')` is the following card or an
    empty set, and `.focus()` on an empty set does nothing. */
module Navigation {

  const KEY_ENTER: int := 13
  const KEY_SPACE: int := 32
  const KEY_LEFT: int := 37
  const KEY_UP: int := 38
  const KEY_RIGHT: int := 39
  const KEY_DOWN: int := 40

  /** Up and down chain four `next` / `prev` calls (memory.js:109, 113): the
      width of a board row. */
  const ROW_WIDTH: nat := 4

  /** A jQuery set of at most one card. */
  datatype Selection = Empty | At(index: nat)

  /** `.next('.card')` applied k times to a selection on a board of n cards. */
  function NextTimes(s: Selection, k: nat, n: nat): (r: Selection)
    requires s.At? ==> s.index < n
    ensures s.At? && s.index + k < n ==> r == At(s.index + k)
    ensures !(s.At? && s.index + k < n) ==> r == Empty
    decreases k
  {
    if k == 0 then (if s.At? then At(s.index) else Empty)
    else if s.At? && s.index + 1 < n then NextTimes(At(s.index + 1), k - 1, n)
    else NextTimes(Empty, k - 1, n)
  }

  /** `.prev('.card')` applied k times. */
  function PrevTimes(s: Selection, k: nat): (r: Selection)
    ensures s.At? && k <= s.index ==> r == At(s.index - k)
    ensures !(s.At? && k <= s.index) ==> r == Empty
    decreases k
  {
    if k == 0 then (if s.At? then At(s.index) else Empty)
    else if s.At? && s.index > 0 then PrevTimes(At(s.index - 1), k - 1)
    else PrevTimes(Empty, k - 1)
  }

  /** `.focus()`: the selected card takes the focus; nothing moves when the
      selection is empty. */
  function Focus(current: nat, s: Selection): (r: nat)
    ensures r == current || s == At(r)
    ensures s.At? ==> r == s.index
  {
    if s.At? then s.index else current
  }

  /** What a key released on card i does: where the focus goes, and whether
      `flipCardActions` runs for card i (space or enter, memory.js:124-126). */
  datatype KeyEffect = KeyEffect(focus: nat, flip: bool)

  function KeyUp(key: int, i: nat, n: nat): (e: KeyEffect)
    requires i < n
    ensures e.focus < n
    ensures key == KEY_DOWN ==> e.focus == (if i + ROW_WIDTH < n then i + ROW_WIDTH else i)
    ensures key == KEY_UP ==> e.focus == (if ROW_WIDTH <= i then i - ROW_WIDTH else i)
    ensures key == KEY_LEFT ==> e.focus == (if 0 < i then i - 1 else i)
    ensures key == KEY_RIGHT ==> e.focus == (if i + 1 < n then i + 1 else i)
    ensures key !in {KEY_LEFT, KEY_UP, KEY_RIGHT, KEY_DOWN} ==> e.focus == i
    ensures e.flip <==> key == KEY_SPACE || key == KEY_ENTER
  {
    var target :=
      if key == KEY_DOWN then NextTimes(At(i), ROW_WIDTH, n)
      else if key == KEY_UP then PrevTimes(At(i), ROW_WIDTH)
      else if key == KEY_LEFT then PrevTimes(At(i), 1)
      else if key == KEY_RIGHT then NextTimes(At(i), 1, n)
      else Empty;
    KeyEffect(Focus(i, target), key == KEY_SPACE || key == KEY_ENTER)
  }

  /** Down then up returns to the same card whenever down moved. */
  lemma DownThenUp(i: nat, n: nat)
    requires i + ROW_WIDTH < n
    ensures KeyUp(KEY_UP, KeyUp(KEY_DOWN, i, n).focus, n).focus == i
  {
  }

  /** Right then left returns to the same card whenever right moved. */
  lemma RightThenLeft(i: nat, n: nat)
    requires i + 1 < n
    ensures KeyUp(KEY_LEFT, KeyUp(KEY_RIGHT, i, n).focus, n).focus == i
  {
  }
}
