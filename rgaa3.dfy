/** Criterion 3.2: text has enough contrast with its background, by size and weight. */
module Rgaa3 {
  import opened Wrappers
  import opened Js
  import opened Types
  import opened Seqs
  import opened Color

  /**
   * A text and its background. In DOM mode the record holds the computed
   * `backgroundColor` of the background element and the computed `color`,
   * `fontSize` and `fontWeight` of the foreground element, with the
   * foreground's markup; in virtual mode the caller's record gives the same
   * strings directly.
   */
  datatype ContrastPair =
    | DomPair(backgroundColor: string, color: string, fontSize: string, fontWeight: string, foregroundOuterHTML: string)
    | VirtualPair(backgroundColor: string, textColor: string, fontSize: string, fontWeight: string, outerHTML: string)

  const Message321 := "Color contrasts for non-bold element with fontSize inferior to 24px should have at minimal 4.5 in contrast"
  const Message322 := "Color contrasts for bold element with fontSize inferior to 18.5px should have at minimal 4.5 in contrast"
  const Message323 := "Color contrasts for non-bold element with fontSize superior or equal to 24px should have at minimal 3 in contrast"
  const Message324 := "Color contrasts for bold element with fontSize superior or equal to 24px should have at minimal 3 in contrast"

  /** The error a record of the other mode's shape raises (a property read on `undefined`). */
  const TypeError := "TypeError"
  const ModeError := "Mode not supported for RGAA3"

  /** `Number(fontSize.split('px')[0])` */
  function TextSize(fontSize: string): Option<real> {
    ToNumber(Split(fontSize, "px")[0])
  }

  /** `Number(fontWeight) >= 600`: only a numeric weight can be bold. */
  predicate IsBold(fontWeight: string) {
    AtLeast(ToNumber(fontWeight), 600.0)
  }

  /** The four 3.2 tests, by the size and weight of text each one applies to. */
  datatype Test = Test321 | Test322 | Test323 | Test324

  function ViolationOf(t: Test, element: string): Violation {
    match t
    case Test321 => Violation(element, "RGAA - 3.2.1", RuleLink("3.2.1"), Message321)
    case Test322 => Violation(element, "RGAA - 3.2.2", RuleLink("3.2.2"), Message322)
    case Test323 => Violation(element, "RGAA - 3.2.3", RuleLink("3.2.3"), Message323)
    case Test324 => Violation(element, "RGAA - 3.2.4", RuleLink("3.2.4"), Message324)
  }

  /** The ratio a text of this size and weight must reach: 4.5 for small text, 3 for large text. */
  function RequiredRatio(size: real, isBold: bool): real {
    if (if isBold then size < 18.5 else size < 24.0) then 4.5 else 3.0
  }

  /** The test that applies to a text of this size and weight. */
  function ApplicableTest(size: real, isBold: bool): Test {
    if isBold then (if size < 18.5 then Test322 else Test324)
    else (if size < 24.0 then Test321 else Test323)
  }

  /**
   * What the four threshold tests report for one text: the sizes and weights
   * split into four classes and exactly one test applies to each, so a text of
   * numeric size yields its class's violation when its ratio is a number below
   * the class's minimum, and nothing otherwise; a NaN size fails every test.
   */
  function Check(element: string, textSize: Option<real>, isBold: bool, ratio: Option<real>): (found: seq<Violation>)
    ensures |found| <= 1
    ensures AtLeast(ratio, 4.5) ==> found == []
  {
    if textSize.Some? && Below(ratio, RequiredRatio(textSize.value, isBold))
    then [ViolationOf(ApplicableTest(textSize.value, isBold), element)]
    else []
  }

  /** The markup reported for a pair: the foreground's in DOM mode, the record's own in virtual mode. */
  function ElementOf(p: ContrastPair): string {
    if p.DomPair? then p.foregroundOuterHTML else p.outerHTML
  }

  function TextColorOf(p: ContrastPair): string {
    if p.DomPair? then p.color else p.textColor
  }

  /** `Color.contrast(bgColor, fgColor)` for the pair. */
  function PairRatio(p: ContrastPair, gamma: real -> real): Option<real> {
    Contrast(GetRGBFromCssProperties(p.backgroundColor), GetRGBFromCssProperties(TextColorOf(p)), gamma)
  }

  /** What the loop reads off one pair before the threshold tests. */
  datatype Reading = Reading(element: string, textSize: Option<real>, isBold: bool, ratio: Option<real>)

  function ReadPair(p: ContrastPair, gamma: real -> real): Reading {
    Reading(ElementOf(p), TextSize(p.fontSize), IsBold(p.fontWeight), PairRatio(p, gamma))
  }

  function CheckReading(r: Reading): (found: seq<Violation>)
    ensures |found| <= 1
  {
    Check(r.element, r.textSize, r.isBold, r.ratio)
  }

  /** What the strategies' loop pushes for one pair. */
  function CheckPair(gamma: real -> real): ContrastPair -> seq<Violation> {
    (p: ContrastPair) => CheckReading(ReadPair(p, gamma))
  }

  /**
   * `check` is the per-pair check: it agrees with `CheckReading(ReadPair(p, gamma))`
   * on every pair (stated per pair read, so that it is only unfolded for the pair
   * in hand).
   */
  ghost predicate IsPairCheck(check: ContrastPair -> seq<Violation>, gamma: real -> real) {
    forall p {:trigger ReadPair(p, gamma)} :: check(p) == CheckReading(ReadPair(p, gamma))
  }

  lemma CheckPairIsPairCheck(gamma: real -> real)
    ensures IsPairCheck(CheckPair(gamma), gamma)
  {
  }

  /** Every pair has the shape of the mode: DOM pairs when `dom`, virtual records otherwise. */
  predicate AllOfShape(elements: seq<ContrastPair>, dom: bool) {
    elements == [] || (AllOfShape(elements[..|elements| - 1], dom) && elements[|elements| - 1].DomPair? == dom)
  }

  /** In a list of one shape, every pair has that shape. */
  lemma {:induction false} AllOfShapeAt(elements: seq<ContrastPair>, dom: bool, k: int)
    requires 0 <= k < |elements|
    ensures AllOfShape(elements, dom) ==> elements[k].DomPair? == dom
    decreases |elements|
  {
    if k < |elements| - 1 {
      AllOfShapeAt(elements[..|elements| - 1], dom, k);
    }
  }

  /** A concatenation has one shape exactly when both parts have it. */
  lemma {:induction false} AllOfShapeAppend(a: seq<ContrastPair>, b: seq<ContrastPair>, dom: bool)
    ensures AllOfShape(a + b, dom) <==> AllOfShape(a, dom) && AllOfShape(b, dom)
    decreases |b|
  {
    if b == [] {
      assert a + b == a;
    } else {
      var b' := b[..|b| - 1];
      assert (a + b)[..|a + b| - 1] == a + b';
      AllOfShapeAppend(a, b', dom);
    }
  }

  /** A strategy over pairs of its own shape: the violations in order; a pair of the other shape throws. */
  function StrategyReport(elements: seq<ContrastPair>, dom: bool, check: ContrastPair -> seq<Violation>): Result<seq<Violation>, string> {
    if AllOfShape(elements, dom) then Success(FlatMap(elements, check))
    else Failure(TypeError)
  }

  function Report(mode: Mode, elements: seq<ContrastPair>, gamma: real -> real): Result<seq<Violation>, string> {
    match mode
    case Dom => StrategyReport(elements, true, CheckPair(gamma))
    case Virtual => StrategyReport(elements, false, CheckPair(gamma))
    case Unknown(_) => Failure(ModeError)
  }

  /** The contrast check configured with a mode at construction. */
  class RGAA3 {
    const mode: Mode

    constructor (mode: Mode)
      ensures this.mode == mode
    {
      this.mode := mode;
    }

    /** `RGAA32`: dispatch on the mode; an unknown mode throws. */
    method RGAA32(elements: seq<ContrastPair>, gamma: real -> real) returns (r: Result<seq<Violation>, string>)
      ensures r == Report(mode, elements, gamma)
    {
      match mode {
        case Dom =>
          CheckPairIsPairCheck(gamma);
          r := RGAA32Strategy(elements, true, gamma, CheckPair(gamma));
        case Virtual =>
          CheckPairIsPairCheck(gamma);
          r := RGAA32Strategy(elements, false, gamma, CheckPair(gamma));
        case Unknown(_) => r := Failure(ModeError);
      }
    }
  }

  /** The four threshold tests on one text, each pushing its violation: together they report what `Check` states. */
  method ThresholdViolations(element: string, textSize: Option<real>, isBold: bool, ratio: Option<real>) returns (found: seq<Violation>)
    ensures found == Check(element, textSize, isBold, ratio)
  {
    found := [];
    if Below(textSize, 24.0) && !isBold && Below(ratio, 4.5) {
      found := found + [ViolationOf(Test321, element)];
    }
    if Below(textSize, 18.5) && isBold && Below(ratio, 4.5) {
      found := found + [ViolationOf(Test322, element)];
    }
    if AtLeast(textSize, 24.0) && !isBold && Below(ratio, 3.0) {
      found := found + [ViolationOf(Test323, element)];
    }
    if AtLeast(textSize, 18.5) && isBold && Below(ratio, 3.0) {
      found := found + [ViolationOf(Test324, element)];
    }
  }

  /** The body of the strategies' loop: read the pair's strings, compute the ratio, run the four tests. */
  method CheckOnePair(pair: ContrastPair, gamma: real -> real) returns (found: seq<Violation>)
    ensures found == CheckReading(ReadPair(pair, gamma))
  {
    var bgColor := GetRGBFromCssProperties(pair.backgroundColor);
    var fgColor := GetRGBFromCssProperties(TextColorOf(pair));
    var textSize := TextSize(pair.fontSize);
    var isBold := IsBold(pair.fontWeight);
    var ratio := Contrast(bgColor, fgColor, gamma);
    found := ThresholdViolations(ElementOf(pair), textSize, isBold, ratio);
  }

  /** `RGAA32_Dom` (`dom` true) and `RGAA32_Virtual` (`dom` false): the same four tests on each pair. */
  method RGAA32Strategy(elements: seq<ContrastPair>, dom: bool, gamma: real -> real, ghost check: ContrastPair -> seq<Violation>)
    returns (r: Result<seq<Violation>, string>)
    requires IsPairCheck(check, gamma)
    ensures r == StrategyReport(elements, dom, check)
  {
    var wrongContrasts := [];
    var i := 0;
    while i < |elements|
      invariant 0 <= i <= |elements|
      invariant AllOfShape(elements[..i], dom)
      invariant wrongContrasts == FlatMap(elements[..i], check)
    {
      var pair := elements[i];
      if pair.DomPair? != dom {
        AllOfShapeAt(elements, dom, i);
        return Failure(TypeError);
      }
      var found := CheckOnePair(pair, gamma);
      PrefixSnoc(elements, i);
      assert elements[..i + 1][..i] == elements[..i];
      FlatMapSnoc(elements[..i], pair, check);
      wrongContrasts := wrongContrasts + found;
      i := i + 1;
    }
    assert elements[..i] == elements;
    r := Success(wrongContrasts);
  }

  /** The DOM and virtual strategies read the same strings the same way. */
  lemma StrategiesAgree(bg: string, fg: string, size: string, weight: string, html: string, gamma: real -> real)
    ensures ReadPair(DomPair(bg, fg, size, weight, html), gamma) == ReadPair(VirtualPair(bg, fg, size, weight, html), gamma)
  {
  }

  /**
   * The report of a list: an unknown mode throws; otherwise each pair of the
   * mode's own shape contributes its violations in input order, at most one each,
   * and a pair of the other shape anywhere makes the whole call throw.
   */
  lemma ReportShape(mode: Mode, a: seq<ContrastPair>, b: seq<ContrastPair>, gamma: real -> real)
    ensures mode.Unknown? ==> Report(mode, a, gamma) == Failure(ModeError)
    ensures !mode.Unknown? ==>
      (Report(mode, a + b, gamma).Success? <==> Report(mode, a, gamma).Success? && Report(mode, b, gamma).Success?)
    ensures !mode.Unknown? && Report(mode, a + b, gamma).Success? ==>
      Report(mode, a + b, gamma).value == Report(mode, a, gamma).value + Report(mode, b, gamma).value
    ensures !mode.Unknown? && Report(mode, a, gamma).Success? ==> |Report(mode, a, gamma).value| <= |a|
  {
    var dom, check := mode.Dom?, CheckPair(gamma);
    AllOfShapeAppend(a, b, dom);
    FlatMapAppend(a, b, check);
    FlatMapAtMostOne(a, check);
  }

  /** A size written `<digits>px` reads as its decimal value. */
  lemma TextSizeOfPx(d: string)
    requires d != [] && AllDigits(d)
    ensures TextSize(d + "px") == Some(DigitsValue(d) as real)
  {
    assert d + "px" == d + "px" + [];
    SplitFirst(d, "px", []);
    ToNumberOfDigits([], d);
    assert [] + d == d;
  }

  /** A numeric weight is bold iff it is at least 600. */
  lemma BoldIffAtLeast600(d: string)
    requires d != [] && AllDigits(d)
    ensures IsBold(d) <==> DigitsValue(d) >= 600
  {
    ToNumberOfDigits([], d);
    assert [] + d == d;
  }

  /** The keyword `bold` is NaN to `Number`, so it is never bold. */
  lemma KeywordBoldIsNotBold()
    ensures !IsBold("bold")
  {
    assert Trim("bold") == "bold" by {
      TrimAround([], "bold");
      assert [] + "bold" == "bold";
    }
    assert DigitPrefix("bold") == [];
  }
}
