/**
 * Colour maths for the contrast criteria: parsing a computed `rgb(r, g, b)`
 * string, relative luminance and the contrast ratio, as defined by WCAG 2.x
 * (which the RGAA glossary adopts). The power law `x^2.4` is a parameter
 * `gamma`; a JavaScript NaN is `None`.
 */
module Color {
  import opened Wrappers
  import opened Js

  /** Channel values as JavaScript numbers: `None` is NaN. */
  datatype RGB = RGB(red: Option<real>, green: Option<real>, blue: Option<real>)

  const RED: real := 0.2126
  const GREEN: real := 0.7152
  const BLUE: real := 0.0722

  /** `Number(colors[i])`, where reading past the end gives `undefined` and so NaN. */
  function NumberAt(colors: seq<string>, i: nat): Option<real> {
    if i < |colors| then ToNumber(colors[i]) else None
  }

  /** `getRGBFromCssProperties`: drop the first `rgb(` and the first `)`, split on commas, read the first three fields. */
  function GetRGBFromCssProperties(colorCss: string): RGB {
    var formatedColor := RemoveFirst(RemoveFirst(colorCss, "rgb("), ")");
    var colors := Split(formatedColor, ",");
    RGB(NumberAt(colors, 0), NumberAt(colors, 1), NumberAt(colors, 2))
  }

  /** One channel of the luminance: `v / 255` on a linear segment near black, the gamma curve above it; NaN stays NaN. */
  function Linearize(v: Option<real>, gamma: real -> real): Option<real> {
    match v
    case None => None
    case Some(x) =>
      var alpha := x / 255.0;
      Some(if alpha <= 0.03928 then alpha / 12.92 else gamma((alpha + 0.055) / 1.055))
  }

  /** Relative luminance: the weighted sum of the linearised channels. */
  function Luminance(c: RGB, gamma: real -> real): Option<real> {
    match (Linearize(c.red, gamma), Linearize(c.green, gamma), Linearize(c.blue, gamma))
    case (Some(r), Some(g), Some(b)) => Some(r * RED + g * GREEN + b * BLUE)
    case _ => None
  }

  function Max(a: real, b: real): real { if a >= b then a else b }
  function Min(a: real, b: real): real { if a <= b then a else b }

  /**
   * `contrast(rgb1, rgb2)`: (brightest + 0.05) / (darkest + 0.05). `None` is NaN,
   * or the infinity a zero denominator gives; neither passes any `<` threshold.
   */
  function Contrast(rgb1: RGB, rgb2: RGB, gamma: real -> real): Option<real> {
    match (Luminance(rgb1, gamma), Luminance(rgb2, gamma))
    case (Some(lum1), Some(lum2)) =>
      var brightest := Max(lum1, lum2);
      var darkest := Min(lum1, lum2);
      if darkest + 0.05 == 0.0 then None else Some((brightest + 0.05) / (darkest + 0.05))
    case _ => None
  }

  /** The ratio does not depend on which colour is the background. */
  lemma ContrastSymmetric(rgb1: RGB, rgb2: RGB, gamma: real -> real)
    ensures Contrast(rgb1, rgb2, gamma) == Contrast(rgb2, rgb1, gamma)
  {
  }

  /** With non-negative luminances the ratio exists and is at least 1, since the brighter one is on top. */
  lemma ContrastAtLeastOne(rgb1: RGB, rgb2: RGB, gamma: real -> real)
    requires Luminance(rgb1, gamma).Some? && Luminance(rgb1, gamma).value >= 0.0
    requires Luminance(rgb2, gamma).Some? && Luminance(rgb2, gamma).value >= 0.0
    ensures Contrast(rgb1, rgb2, gamma).Some? && Contrast(rgb1, rgb2, gamma).value >= 1.0
  {
    var l1, l2 := Luminance(rgb1, gamma).value, Luminance(rgb2, gamma).value;
    var b, d := Max(l1, l2), Min(l1, l2);
    assert b + 0.05 >= d + 0.05 > 0.0;
    DivAtLeastOne(b + 0.05, d + 0.05);
  }

  lemma DivAtLeastOne(x: real, y: real)
    requires x >= y > 0.0
    ensures x / y >= 1.0
  {
    assert x / y * y == x;
  }

  /** A colour against itself has ratio exactly 1 (when its luminance is a number other than -0.05). */
  lemma ContrastSelf(c: RGB, gamma: real -> real)
    requires Luminance(c, gamma).Some? && Luminance(c, gamma).value != -0.05
    ensures Contrast(c, c, gamma) == Some(1.0)
  {
    var d := Luminance(c, gamma).value + 0.05;
    assert d != 0.0;
    assert d / d == 1.0;
  }

  /** The two branches of a channel: linear up to alpha = 0.03928, the gamma curve strictly above. */
  lemma LinearizeBranches(x: real, gamma: real -> real)
    ensures x / 255.0 <= 0.03928 ==> Linearize(Some(x), gamma) == Some(x / 255.0 / 12.92)
    ensures x / 255.0 > 0.03928 ==> Linearize(Some(x), gamma) == Some(gamma((x / 255.0 + 0.055) / 1.055))
    ensures Linearize(None, gamma) == None
  {
  }

  /** Black has luminance exactly 0 whatever the gamma curve, since all its channels are on the linear segment. */
  lemma BlackLuminance(gamma: real -> real)
    ensures Luminance(RGB(Some(0.0), Some(0.0), Some(0.0)), gamma) == Some(0.0)
  {
  }

  /** The luminance is the channels' weighted sum with weights 0.2126, 0.7152 and 0.0722, which add up to 1. */
  lemma LuminanceWeights(c: RGB, gamma: real -> real)
    requires c.red.Some? && c.green.Some? && c.blue.Some?
    ensures Luminance(c, gamma) == Some(
      Linearize(c.red, gamma).value * 0.2126 + Linearize(c.green, gamma).value * 0.7152 + Linearize(c.blue, gamma).value * 0.0722)
    ensures RED + GREEN + BLUE == 1.0
  {
  }

  /** A NaN channel makes the luminance NaN, and then the contrast with any colour. */
  lemma NaNChannelPoisonsContrast(c: RGB, other: RGB, gamma: real -> real)
    requires c.red.None? || c.green.None? || c.blue.None?
    ensures Luminance(c, gamma).None?
    ensures Contrast(c, other, gamma).None? && Contrast(other, c, gamma).None?
  {
  }

  /**
   * Channels on [0, 255] with a gamma curve that is non-negative on positive
   * numbers give non-negative luminances, so every such pair of colours has a
   * ratio of at least 1.
   */
  lemma ChannelsInRangeGiveRatioAtLeastOne(rgb1: RGB, rgb2: RGB, gamma: real -> real)
    requires forall x :: x > 0.0 ==> gamma(x) >= 0.0
    requires InRange(rgb1) && InRange(rgb2)
    ensures Contrast(rgb1, rgb2, gamma).Some? && Contrast(rgb1, rgb2, gamma).value >= 1.0
  {
    LuminanceNonNegative(rgb1, gamma);
    LuminanceNonNegative(rgb2, gamma);
    ContrastAtLeastOne(rgb1, rgb2, gamma);
  }

  predicate InRange(c: RGB) {
    && c.red.Some? && 0.0 <= c.red.value <= 255.0
    && c.green.Some? && 0.0 <= c.green.value <= 255.0
    && c.blue.Some? && 0.0 <= c.blue.value <= 255.0
  }

  lemma LuminanceNonNegative(c: RGB, gamma: real -> real)
    requires forall x :: x > 0.0 ==> gamma(x) >= 0.0
    requires InRange(c)
    ensures Luminance(c, gamma).Some? && Luminance(c, gamma).value >= 0.0
  {
    ChannelNonNegative(c.red.value, gamma);
    ChannelNonNegative(c.green.value, gamma);
    ChannelNonNegative(c.blue.value, gamma);
  }

  lemma ChannelNonNegative(x: real, gamma: real -> real)
    requires forall y :: y > 0.0 ==> gamma(y) >= 0.0
    requires 0.0 <= x
    ensures Linearize(Some(x), gamma).Some? && Linearize(Some(x), gamma).value >= 0.0
  {
    var alpha := x / 255.0;
    assert alpha >= 0.0;
    assert alpha + 0.055 > 0.0;
    assert (alpha + 0.055) / 1.055 > 0.0;
  }

  /** Removing the wrapper of `rgb(` + `body` + `)` leaves `body` when `body` holds no `)`. */
  lemma StripRgb(body: string)
    requires Lacks(body, ')')
    ensures RemoveFirst(RemoveFirst("rgb(" + body + ")", "rgb("), ")") == body
  {
    var css := "rgb(" + body + ")";
    assert OccursAt(css, "rgb(", 0) by {
      assert css[0..4] == "rgb(";
    }
    assert IndexOf(css, "rgb(") == 0;
    assert css[4..] == body + ")";
    assert RemoveFirst(css, "rgb(") == body + ")";
    IndexOfAfter(body, ")", []);
    assert body + ")" + [] == body + ")";
    assert (body + ")")[..|body|] == body;
    assert (body + ")")[|body| + 1..] == [];
  }

  /** The three comma-separated fields of `R,<ws>G,<ws>B` when none of them holds a comma. */
  lemma SplitRgbBody(r: string, g: string, b: string)
    requires Lacks(r, ',') && Lacks(g, ',') && Lacks(b, ',')
    ensures Split(r + "," + g + "," + b, ",") == [r, g, b]
  {
    var parts := [r, g, b];
    assert Join(parts[2..], ",") == b;
    assert Join(parts[1..], ",") == g + "," + b;
    assert Join(parts, ",") == r + "," + g + "," + b;
    SplitJoin(parts, ',');
  }

  /**
   * A computed colour `rgb(R,<ws>G,<ws>B)` with decimal R, G and B and any
   * whitespace after each comma parses to the three values.
   */
  lemma GetRGBOfRgbString(r: string, w1: string, g: string, w2: string, b: string)
    requires r != [] && AllDigits(r) && g != [] && AllDigits(g) && b != [] && AllDigits(b)
    requires forall i :: 0 <= i < |w1| ==> IsWhitespace(w1[i])
    requires forall i :: 0 <= i < |w2| ==> IsWhitespace(w2[i])
    ensures GetRGBFromCssProperties("rgb(" + r + "," + w1 + g + "," + w2 + b + ")")
         == RGB(Some(DigitsValue(r) as real), Some(DigitsValue(g) as real), Some(DigitsValue(b) as real))
  {
    var f1, f2 := w1 + g, w2 + b;
    var body := r + "," + f1 + "," + f2;
    LacksConcat(w1, g, ','); LacksConcat(w1, g, ')');
    LacksConcat(w2, b, ','); LacksConcat(w2, b, ')');
    LacksConcat(r, ",", ')');
    LacksConcat(r + ",", f1, ')');
    LacksConcat(r + "," + f1, ",", ')');
    LacksConcat(r + "," + f1 + ",", f2, ')');
    assert "rgb(" + r + "," + w1 + g + "," + w2 + b + ")" == "rgb(" + body + ")";
    StripRgb(body);
    SplitRgbBody(r, f1, f2);
    DecimalFields(r, w1, g, w2, b);
  }

  lemma DecimalFields(r: string, w1: string, g: string, w2: string, b: string)
    requires r != [] && AllDigits(r) && g != [] && AllDigits(g) && b != [] && AllDigits(b)
    requires forall i :: 0 <= i < |w1| ==> IsWhitespace(w1[i])
    requires forall i :: 0 <= i < |w2| ==> IsWhitespace(w2[i])
    ensures var parts := [r, w1 + g, w2 + b];
      RGB(NumberAt(parts, 0), NumberAt(parts, 1), NumberAt(parts, 2))
      == RGB(Some(DigitsValue(r) as real), Some(DigitsValue(g) as real), Some(DigitsValue(b) as real))
  {
    ToNumberOfDigits([], r);
    assert [] + r == r;
    ToNumberOfDigits(w1, g);
    ToNumberOfDigits(w2, b);
  }
}
