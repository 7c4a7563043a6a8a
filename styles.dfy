/** The colour palettes of memory.js:22-39, keyed by the values of the
    hidden-style drop-down. */
module Styles {
  import opened Deal

  const COLORBLIND1: seq<string> := ["DeepPink", "Black", "GoldenRod", "Teal", "HotPink", "DeepSkyBlue", "Olive", "SpringGreen"]
  const COLORBLIND2: seq<string> := ["Black", "Orange", "DodgerBlue", "MediumSeaGreen", "SteelBlue", "Chocolate", "Orchid", "Yellow"]
  const GREENS: seq<string> := ["AntiqueWhite", "DarkSlateGray", "PowderBlue", "CadetBlue", "GreenYellow", "Chartreuse", "LawnGreen", "Aquamarine", "Lime", "LimeGreen", "PaleGreen", "DarkKhaki", "LightGreen", "MediumSpringGreen", "SpringGreen", "MediumSeaGreen", "SeaGreen", "ForestGreen", "Green", "DarkGreen", "Olive", "YellowGreen", "OliveDrab", "DarkOliveGreen", "MediumAquaMarine", "DarkSeaGreen"]
  const BLUES: seq<string> := ["LightSlateGray", "SlateGray", "LightSeaGreen", "DarkCyan", "Teal", "MediumAquaMarine", "Aqua", "Cyan", "PaleTurquoise", "Turquoise", "MediumTurquoise", "DarkTurquoise", "SteelBlue", "LightBlue", "LightSkyBlue", "SkyBlue", "CornflowerBlue", "DeepSkyBlue", "DodgerBlue", "RoyalBlue", "Blue", "MediumBlue", "DarkBlue", "Navy", "MidnightBlue"]
  const BROWNS: seq<string> := ["Cornsilk", "BlanchedAlmond", "Bisque", "NavajoWhite", "Wheat", "BurlyWood", "Tan", "DarkGoldenRod", "Peru", "SaddleBrown", "Sienna"]
  const WHITES: seq<string> := ["LightCyan", "Snow", "MintCream", "Azure", "AliceBlue", "GhostWhite", "WhiteSmoke", "SeaShell", "Beige", "OldLace", "FloralWhite", "Ivory", "Linen"]
  const GREYS: seq<string> := ["Gainsboro", "Silver", "DarkGray", "DimGray", "Gray", "Black", "#707070", "#999999"]
  const PINKS: seq<string> := ["LavenderBlush", "MistyRose", "Pink", "LightPink", "HotPink", "DeepPink", "PaleVioletRed", "MediumVioletRed"]
  const PURPLES: seq<string> := ["RosyBrown", "Lavender", "Thistle", "Plum", "Orchid", "Violet", "LightSteelBlue", "Fuchsia", "Magenta", "MediumOrchid", "DarkOrchid", "DarkViolet", "BlueViolet", "DarkMagenta", "Purple", "MediumPurple", "MediumSlateBlue", "SlateBlue", "DarkSlateBlue", "RebeccaPurple", "Indigo "]
  const REDS: seq<string> := ["Brown", "Maroon", "Salmon", "LightCoral", "IndianRed ", "Crimson", "Red", "FireBrick", "DarkRed"]
  const ORANGES: seq<string> := ["AntiqueWhite", "PeachPuff", "SandyBrown", "Chocolate", "Moccasin", "DarkSalmon", "LightSalmon", "Orange", "DarkOrange", "Coral", "Tomato", "OrangeRed"]
  const YELLOWS: seq<string> := ["Gold", "Yellow", "LightYellow", "LemonChiffon", "LightGoldenRodYellow", "PapayaWhip", "GoldenRod", "PaleGoldenRod", "Khaki", "DarkKhaki"]

  const STYLES: map<string, seq<string>> := map[
    "COLORBLIND1" := COLORBLIND1,
    "COLORBLIND2" := COLORBLIND2,
    "GREENS" := GREENS,
    "BLUES" := BLUES,
    "BROWNS" := BROWNS,
    "WHITES" := WHITES,
    "GREYS" := GREYS,
    "PINKS" := PINKS,
    "PURPLES" := PURPLES,
    "REDS" := REDS,
    "ORANGES" := ORANGES,
    "YELLOWS" := YELLOWS
  ]

  /** Two lists without duplicates and without a common entry make a list
      without duplicates. */
  lemma DistinctByHalves(front: seq<string>, back: seq<string>)
    requires NoDuplicates(front) && NoDuplicates(back)
    requires forall i, j :: 0 <= i < |front| && 0 <= j < |back| ==> front[i] != back[j]
    ensures NoDuplicates(front + back)
  {
    var s := front + back;
    forall i, j | 0 <= i < j < |s| ensures s[i] != s[j] {
      if j < |front| {
        assert s[i] == front[i] && s[j] == front[j];
      } else if i < |front| {
        assert s[i] == front[i] && s[j] == back[j - |front|];
      } else {
        assert s[i] == back[i - |front|] && s[j] == back[j - |front|];
      }
    }
  }

  /** No built-in palette lists a colour twice. The long palettes are checked
      half by half, so that each proof stays small. */
  lemma ColourblindPalettesDistinct()
    ensures NoDuplicates(COLORBLIND1)
    ensures NoDuplicates(COLORBLIND2)
  {
  }

  lemma GreenPaletteDistinct()
    ensures NoDuplicates(GREENS)
  {
    GreenFrontDistinct();
    GreenBackDistinct();
    GreenHalvesApart();
    DistinctByHalves(GREENS[..13], GREENS[13..]);
    assert GREENS[..13] + GREENS[13..] == GREENS;
  }

  lemma GreenFrontDistinct()
    ensures NoDuplicates(GREENS[..13])
  {
  }

  lemma GreenBackDistinct()
    ensures NoDuplicates(GREENS[13..])
  {
  }

  lemma GreenHalvesApart()
    ensures forall i, j :: 0 <= i < 13 && 0 <= j < |GREENS| - 13 ==> GREENS[..13][i] != GREENS[13..][j]
  {
  }

  lemma BluePaletteDistinct()
    ensures NoDuplicates(BLUES)
  {
    BlueFrontDistinct();
    BlueBackDistinct();
    BlueHalvesApart();
    DistinctByHalves(BLUES[..12], BLUES[12..]);
    assert BLUES[..12] + BLUES[12..] == BLUES;
  }

  lemma BlueFrontDistinct()
    ensures NoDuplicates(BLUES[..12])
  {
  }

  lemma BlueBackDistinct()
    ensures NoDuplicates(BLUES[12..])
  {
  }

  lemma BlueHalvesApart()
    ensures forall i, j :: 0 <= i < 12 && 0 <= j < |BLUES| - 12 ==> BLUES[..12][i] != BLUES[12..][j]
  {
  }

  lemma BrownWhitePalettesDistinct()
    ensures NoDuplicates(BROWNS)
    ensures NoDuplicates(WHITES)
  {
  }

  lemma GreyPinkPalettesDistinct()
    ensures NoDuplicates(GREYS)
    ensures NoDuplicates(PINKS)
  {
  }

  lemma PurplePaletteDistinct()
    ensures NoDuplicates(PURPLES)
  {
    PurpleFrontDistinct();
    PurpleBackDistinct();
    PurpleHalvesApart();
    DistinctByHalves(PURPLES[..10], PURPLES[10..]);
    assert PURPLES[..10] + PURPLES[10..] == PURPLES;
  }

  lemma PurpleFrontDistinct()
    ensures NoDuplicates(PURPLES[..10])
  {
  }

  lemma PurpleBackDistinct()
    ensures NoDuplicates(PURPLES[10..])
  {
  }

  lemma PurpleHalvesApart()
    ensures forall i, j :: 0 <= i < 10 && 0 <= j < |PURPLES| - 10 ==> PURPLES[..10][i] != PURPLES[10..][j]
  {
  }

  lemma RedOrangeYellowPalettesDistinct()
    ensures NoDuplicates(REDS)
    ensures NoDuplicates(ORANGES)
    ensures NoDuplicates(YELLOWS)
  {
  }

  /** Every built-in palette has enough colours for the deal, and no colour
      twice, so Deal.DealPairs applies to each: the deal is 8 distinct colours
      on two cards each, and no card is "undefined". */
  lemma PalettesFitTheDeal(name: string)
    requires name in STYLES
    ensures |STYLES[name]| >= ALLOWED_NUM_PAIRS
    ensures NoDuplicates(STYLES[name])
  {
    ColourblindPalettesDistinct();
    GreenPaletteDistinct();
    BluePaletteDistinct();
    BrownWhitePalettesDistinct();
    GreyPinkPalettesDistinct();
    PurplePaletteDistinct();
    RedOrangeYellowPalettesDistinct();
  }

  /** Whichever built-in palette is chosen, in whatever order earlier loads
      have left it (each load shuffles the palette array in place), and
      whatever the draws, the deal is ALLOWED_NUM_PAIRS distinct colours of that
      palette, each on exactly two cards, and every card shows one of them. */
  lemma BuiltInPaletteDeal(name: string, palette: seq<string>, palettePicks: seq<nat>, deckPicks: seq<nat>)
    requires name in STYLES && multiset(palette) == multiset(STYLES[name])
    requires DealPicks(|palette|, palettePicks, deckPicks)
    ensures |Chosen(palette, palettePicks)| == ALLOWED_NUM_PAIRS
    ensures NoDuplicates(Chosen(palette, palettePicks))
    ensures forall x :: x in DealtColours(palette, palettePicks, deckPicks) ==>
              x in Chosen(palette, palettePicks)
    ensures forall x :: x in Chosen(palette, palettePicks) ==>
              x in STYLES[name] && multiset(DealtColours(palette, palettePicks, deckPicks))[x] == 2
  {
    PalettesFitTheDeal(name);
    assert |palette| == |multiset(palette)| == |STYLES[name]|;
    forall x ensures multiset(palette)[x] <= 1 {
      NoDuplicatesCount(STYLES[name], x);
    }
    CountNoDuplicates(palette);
    DealPairs(palette, palettePicks, deckPicks);
    forall x | x in Chosen(palette, palettePicks) ensures x in STYLES[name] {
      assert x in multiset(palette);
    }
  }
}
