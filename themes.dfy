/** The theme colours: `Theme.update` / `Theme.initialize` (scripts.js:26-47) and the
    `theme-toggler` element's click handler (theme-Toggler.js:27-41), which write the same
    two style variables. */
module Themes {
  import opened Text

  /** The values of `--color-dark` and `--color-light`. */
  datatype Palette = Palette(dark: string, light: string)

  const White := "255, 255, 255"
  const Ink := "10, 10, 20"
  const NightPalette := Palette(White, Ink)
  const DayPalette := Palette(Ink, White)

  /** The two triples differ and are their own trims. */
  lemma TriplesTrimToThemselves()
    ensures White != Ink
    ensures Trim(White) == White && Trim(Ink) == Ink
  {
    assert |White| == 13 && |Ink| == 10;
    TrimUnpadded(White);
    TrimUnpadded(Ink);
  }

  /** The pair `Theme.update(theme)` writes: always one of the two consistent pairs, and one
      that the toggler reads back as night exactly when `theme` is "night". */
  function UpdatePalette(theme: string): (p: Palette)
    ensures p == DayPalette || p == NightPalette
    ensures IsNight(p.dark) <==> theme == "night"
  {
    TriplesTrimToThemselves();
    if theme == "night" then NightPalette else DayPalette
  }

  /** The toggler's reading of the mode: night exactly when the trimmed dark value is the white triple. */
  predicate IsNight(dark: string) {
    Trim(dark) == White
  }

  /** The pair a toggler click writes, whatever `--color-light` held. */
  function TogglePalette(dark: string): (p: Palette)
    ensures p == DayPalette || p == NightPalette
    ensures IsNight(p.dark) <==> !IsNight(dark)
  {
    TriplesTrimToThemselves();
    if IsNight(dark) then DayPalette else NightPalette
  }

  /** From either consistent pair, two clicks restore it. */
  lemma ToggleTwice(p: Palette)
    requires p == DayPalette || p == NightPalette
    ensures TogglePalette(TogglePalette(p.dark).dark) == p
  {
    TriplesTrimToThemselves();
  }

  /** Whitespace around the white triple is trimmed away before the comparison. */
  lemma PaddedWhiteIsNight(padded: string)
    requires padded == " 255, 255, 255\n"
    ensures IsNight(padded)
  {
    var t := padded[1..];
    assert IsWhitespace(padded[0]) && !IsWhitespace(t[0]);
    assert TrimStart(padded) == TrimStart(t) == t;
    var u := t[..|t| - 1];
    assert IsWhitespace(t[|t| - 1]) && !IsWhitespace(u[|u| - 1]);
    assert TrimEnd(t) == TrimEnd(u) == u;
    assert u == White;
    TriplesTrimToThemselves();
  }

  /** An unset variable, the day value and a differently spaced triple all read as day. */
  lemma OtherValuesAreDay(unspaced: string)
    requires unspaced == "255,255,255"
    ensures !IsNight("") && !IsNight(Ink) && !IsNight(unspaced)
  {
    TriplesTrimToThemselves();
    assert |unspaced| == 11;
    assert !IsWhitespace(unspaced[0]) && !IsWhitespace(unspaced[|unspaced| - 1]);
    TrimUnpadded(unspaced);
  }

  /** The page's style variables and the settings form's theme selector. */
  class ThemeStyle {
    var dark: string
    var light: string
    var selector: string

    /** Before start-up the variables are unset (read back as "") and the selector holds
        whatever the markup gave it. */
    constructor (selector: string)
      ensures dark == "" && light == "" && this.selector == selector
    {
      dark, light := "", "";
      this.selector := selector;
    }

    /** `Theme.update(theme)`: writes the pair for `theme` and stores `theme` in the selector. */
    method Update(theme: string)
      modifies this
      ensures Palette(dark, light) == UpdatePalette(theme) && selector == theme
    {
      var isNightMode := theme == "night";
      dark := if isNightMode then White else Ink;
      light := if isNightMode then Ink else White;
      selector := theme;
    }

    /** `Theme.initialize`, given the outcome of the `prefers-color-scheme: dark` query. */
    method Initialize(prefersDark: bool)
      modifies this
      ensures Palette(dark, light) == (if prefersDark then NightPalette else DayPalette)
      ensures selector == (if prefersDark then "night" else "day")
    {
      Update(if prefersDark then "night" else "day");
    }

    /** The toggler click: reads the dark value, flips both variables, leaves the selector alone. */
    method Toggle()
      modifies this`dark, this`light
      ensures Palette(dark, light) == TogglePalette(old(dark))
      ensures selector == old(selector)
    {
      var isNight := Trim(dark) == White;
      dark := if isNight then Ink else White;
      light := if isNight then White else Ink;
    }
  }

  /** Whatever state `style` was in, `update("night")` then `update("day")` leaves the day
      pair and "day" in the selector: an earlier night theme is not restored. */
  method NightThenDay(style: ThemeStyle)
    modifies style
    ensures Palette(style.dark, style.light) == DayPalette && style.selector == "day"
  {
    style.Update("night");
    style.Update("day");
  }

  /** Starting from a page whose visitor prefers dark, the night pair is shown first and the
      day pair, a different one, after `update("night")` then `update("day")`. */
  method DarkStartThenDay(style: ThemeStyle) returns (before: Palette)
    modifies style
    ensures before == NightPalette && Palette(style.dark, style.light) == DayPalette
    ensures before != Palette(style.dark, style.light)
  {
    style.Initialize(true);
    before := Palette(style.dark, style.light);
    NightThenDay(style);
    TriplesTrimToThemselves();
  }

  /** In any state, a toggler click after `update("night")` shows the day pair while the
      selector still says "night". */
  method ToggleAfterNight(style: ThemeStyle)
    modifies style
    ensures Palette(style.dark, style.light) == DayPalette && style.selector == "night"
  {
    style.Update("night");
    style.Toggle();
    TriplesTrimToThemselves();
  }
}
