/** The colour choice of `setUpCards` (memory.js:168-185): shuffle the chosen
    palette in place, keep its first ALLOWED_NUM_PAIRS colours, concatenate
    that list with itself, shuffle the result and read one colour per card for
    2 * ALLOWED_NUM_PAIRS cards. The card objects themselves are made in
    module Game; this module states which colours they get. */
module Deal {
  import opened FisherYates

  /** memory.js:19 */
  const ALLOWED_NUM_PAIRS: nat := 8

  /** The number of cards `setUpCards` creates, whatever the palette. */
  const NUM_CARDS: nat := 2 * ALLOWED_NUM_PAIRS

  /** What `setAttribute('data-color', colors[i])` stores when i is past the
      end of `colors`: the attribute value is the string form of `undefined`. */
  const UNDEFINED: string := "undefined"

  predicate NoDuplicates<T(==)>(s: seq<T>)
  {
    forall i, j :: 0 <= i < j < |s| ==> s[i] != s[j]
  }

  /** How many colours `slice(0, ALLOWED_NUM_PAIRS)` keeps of a palette of n. */
  function NumChosen(n: nat): (k: nat)
    ensures k <= n && k <= ALLOWED_NUM_PAIRS
    ensures k == n || k == ALLOWED_NUM_PAIRS
  {
    if n < ALLOWED_NUM_PAIRS then n else ALLOWED_NUM_PAIRS
  }

  /** The draws of both shuffles fit a palette of n colours: one draw per
      palette entry, then one per entry of the doubled list. */
  predicate DealPicks(n: nat, palettePicks: seq<nat>, deckPicks: seq<nat>)
  {
    ValidPicks(palettePicks, n) && ValidPicks(deckPicks, 2 * NumChosen(n))
  }

  /** memory.js:170: the shuffled palette, cut after ALLOWED_NUM_PAIRS. */
  function Chosen(palette: seq<string>, palettePicks: seq<nat>): (c: seq<string>)
    requires ValidPicks(palettePicks, |palette|)
    ensures |c| == NumChosen(|palette|)
    ensures multiset(c) <= multiset(palette)
  {
    var sh := Shuffled(palette, palettePicks);
    var k := NumChosen(|palette|);
    ShufflePermutes(palette, palettePicks);
    assert sh == sh[..k] + sh[k..];
    sh[..k]
  }

  /** memory.js:172-174: the chosen colours doubled, then shuffled again. */
  function DeckColours(palette: seq<string>, palettePicks: seq<nat>, deckPicks: seq<nat>): (d: seq<string>)
    requires DealPicks(|palette|, palettePicks, deckPicks)
    ensures |d| == 2 * NumChosen(|palette|)
    ensures forall x :: x in d ==> x in palette
  {
    var c := Chosen(palette, palettePicks);
    var d := Shuffled(c + c, deckPicks);
    ShufflePermutes(c + c, deckPicks);
    forall x | x in d ensures x in palette {
      assert x in multiset(d);
      assert x in multiset(c);
      assert x in multiset(palette);
    }
    d
  }

  /** The `data-color` attribute card i gets from `colors[i]`. */
  function CardColour(colors: seq<string>, i: nat): (colour: string)
    ensures colour in colors || colour == UNDEFINED
    ensures colour == UNDEFINED <==> i >= |colors| || colors[i] == UNDEFINED
  {
    if i < |colors| then colors[i] else UNDEFINED
  }

  /** The `data-color` values of the NUM_CARDS cards made by the loop of
      memory.js:175-183 from `colors`, in order. */
  function CardColours(colors: seq<string>): (d: seq<string>)
    ensures |d| == NUM_CARDS
  {
    seq(NUM_CARDS, i requires 0 <= i < NUM_CARDS => CardColour(colors, i))
  }

  /** The colours of the cards dealt from a palette with the given draws. */
  function DealtColours(palette: seq<string>, palettePicks: seq<nat>, deckPicks: seq<nat>): (d: seq<string>)
    requires DealPicks(|palette|, palettePicks, deckPicks)
    ensures |d| == NUM_CARDS
    ensures forall x :: x in d ==> x in palette || x == UNDEFINED
  {
    CardColours(DeckColours(palette, palettePicks, deckPicks))
  }

  /** In a list without duplicates every element occurs at most once. */
  lemma {:induction false} NoDuplicatesCount<T>(s: seq<T>, x: T)
    requires NoDuplicates(s)
    ensures multiset(s)[x] <= 1
  {
    if s != [] {
      assert s == [s[0]] + s[1..];
      assert NoDuplicates(s[1..]) by {
        forall i, j | 0 <= i < j < |s| - 1 ensures s[1..][i] != s[1..][j] {
          assert s[1..][i] == s[i + 1] && s[1..][j] == s[j + 1];
        }
      }
      NoDuplicatesCount(s[1..], x);
      if s[0] == x {
        assert x !in s[1..] by {
          forall k | 0 <= k < |s| - 1 ensures s[1..][k] != x {
            assert s[1..][k] == s[k + 1];
          }
        }
      }
    }
  }

  /** The converse: a list in which nothing occurs twice has no duplicates. */
  lemma {:induction false} CountNoDuplicates<T>(s: seq<T>)
    requires forall x :: multiset(s)[x] <= 1
    ensures NoDuplicates(s)
  {
    if s != [] {
      assert s == [s[0]] + s[1..];
      assert multiset(s) == multiset{s[0]} + multiset(s[1..]);
      forall x ensures multiset(s[1..])[x] <= 1 {
        assert multiset(s)[x] == (if x == s[0] then 1 else 0) + multiset(s[1..])[x];
      }
      CountNoDuplicates(s[1..]);
      assert multiset(s[1..])[s[0]] == 0;
      forall i, j | 0 <= i < j < |s| ensures s[i] != s[j] {
        if i == 0 {
          assert s[j] == s[1..][j - 1];
          assert s[j] in multiset(s[1..]);
        } else {
          assert s[i] == s[1..][i - 1] && s[j] == s[1..][j - 1];
        }
      }
    }
  }

  /** Whatever the draws, the deck holds each chosen colour twice as often as
      the chosen list does, and the chosen colours are palette colours. */
  lemma DeckMultiset(palette: seq<string>, palettePicks: seq<nat>, deckPicks: seq<nat>)
    requires DealPicks(|palette|, palettePicks, deckPicks)
    ensures |Chosen(palette, palettePicks)| == NumChosen(|palette|)
    ensures multiset(Chosen(palette, palettePicks)) <= multiset(palette)
    ensures multiset(DeckColours(palette, palettePicks, deckPicks))
         == multiset(Chosen(palette, palettePicks)) + multiset(Chosen(palette, palettePicks))
  {
    var sh := Shuffled(palette, palettePicks);
    ShufflePermutes(palette, palettePicks);
    var k := NumChosen(|palette|);
    assert sh == sh[..k] + sh[k..];
    assert multiset(sh) == multiset(sh[..k]) + multiset(sh[k..]);
    var c := Chosen(palette, palettePicks);
    ShufflePermutes(c + c, deckPicks);
  }

  /** With a palette of at least ALLOWED_NUM_PAIRS distinct colours the deal is
      ALLOWED_NUM_PAIRS distinct palette colours, each on exactly two cards,
      and no card is left without a colour. */
  lemma DealPairs(palette: seq<string>, palettePicks: seq<nat>, deckPicks: seq<nat>)
    requires DealPicks(|palette|, palettePicks, deckPicks)
    requires |palette| >= ALLOWED_NUM_PAIRS && NoDuplicates(palette)
    ensures |Chosen(palette, palettePicks)| == ALLOWED_NUM_PAIRS
    ensures NoDuplicates(Chosen(palette, palettePicks))
    ensures forall x :: x in Chosen(palette, palettePicks) ==> x in palette
    ensures DealtColours(palette, palettePicks, deckPicks) == DeckColours(palette, palettePicks, deckPicks)
    ensures forall x :: x in DealtColours(palette, palettePicks, deckPicks) ==> x in Chosen(palette, palettePicks)
    ensures forall x :: x in Chosen(palette, palettePicks) ==>
              multiset(DealtColours(palette, palettePicks, deckPicks))[x] == 2
  {
    var c := Chosen(palette, palettePicks);
    var d := DeckColours(palette, palettePicks, deckPicks);
    DeckMultiset(palette, palettePicks, deckPicks);
    ShufflePermutes(c + c, deckPicks);
    assert |d| == NUM_CARDS;
    assert DealtColours(palette, palettePicks, deckPicks) == d;
    forall x ensures multiset(c)[x] <= 1 {
      NoDuplicatesCount(palette, x);
    }
    CountNoDuplicates(c);
    forall x | x in c ensures x in palette {
      assert x in multiset(palette);
    }
    forall x | x in d ensures x in c {
      assert x in multiset(d);
    }
    forall x | x in c ensures multiset(d)[x] == 2 {
      assert x in multiset(c);
    }
  }

  /** With fewer than ALLOWED_NUM_PAIRS colours, every palette colour is dealt
      twice and the remaining cards carry the attribute value "undefined". */
  lemma DealShortPalette(palette: seq<string>, palettePicks: seq<nat>, deckPicks: seq<nat>)
    requires DealPicks(|palette|, palettePicks, deckPicks)
    requires |palette| < ALLOWED_NUM_PAIRS
    ensures forall i :: 2 * |palette| <= i < NUM_CARDS ==>
              DealtColours(palette, palettePicks, deckPicks)[i] == UNDEFINED
    ensures multiset(DealtColours(palette, palettePicks, deckPicks)[..2 * |palette|])
         == multiset(palette) + multiset(palette)
  {
    var n := |palette|;
    var d := DeckColours(palette, palettePicks, deckPicks);
    DeckMultiset(palette, palettePicks, deckPicks);
    ShufflePermutes(palette, palettePicks);
    var c := Chosen(palette, palettePicks);
    assert c == Shuffled(palette, palettePicks);
    assert multiset(d) == multiset(palette) + multiset(palette);
    var dealt := DealtColours(palette, palettePicks, deckPicks);
    assert |d| == 2 * n;
    forall i | 0 <= i < 2 * n ensures dealt[..2 * n][i] == d[i] {
      assert dealt[i] == CardColour(d, i);
    }
    assert dealt[..2 * n] == d;
  }

  /** memory.js:170-174, step by step: the palette array is shuffled in place
      (so the palette itself is left reordered), its first ALLOWED_NUM_PAIRS
      colours are copied out, the copy is concatenated with itself and the
      new array is shuffled in place. */
  method ChooseColours(palette: array<string>, palettePicks: seq<nat>, deckPicks: seq<nat>)
    returns (colors: array<string>)
    requires DealPicks(palette.Length, palettePicks, deckPicks)
    modifies palette
    ensures fresh(colors)
    ensures palette[..] == Shuffled(old(palette[..]), palettePicks)
    ensures colors[..] == DeckColours(old(palette[..]), palettePicks, deckPicks)
  {
    Shuffle(palette, palettePicks);
    var chosen := palette[..NumChosen(palette.Length)];
    var doubled := chosen + chosen;
    colors := new string[|doubled|](i requires 0 <= i < |doubled| => doubled[i]);
    assert colors[..] == doubled;
    Shuffle(colors, deckPicks);
  }
}
