/** Criterion 1.1: every informative image has a text alternative (img, area, svg). */
module Rgaa1 {
  import opened Wrappers
  import opened Js
  import opened Types
  import opened Seqs

  /**
   * An element handed to the image check. `alt` and `title` are the reflected
   * properties (the empty string when the attribute is absent); `ariaLabel`,
   * `ariaLabelledby` and `role` are `null` when absent.
   */
  datatype ImageElement =
    | Img(alt: string, title: string, ariaLabel: Option<string>, ariaLabelledby: Option<string>, outerHTML: string)
    | Area(alt: string, ariaLabel: Option<string>, outerHTML: string)
    | Svg(role: Option<string>, ariaLabel: Option<string>, ariaLabelledby: Option<string>, outerHTML: string)
    | Other(outerHTML: string)

  const ImgMessage := "img elements should have alt, aria-label, title or aria-labelledby"
  const AreaMessage := "Area element should have alt or aria-label"
  const SvgMessage := "SVG element with role img should have aria-label or aria-labelledby"

  /** An img without any of its four possible text alternatives. */
  predicate ImgUnlabelled(e: ImageElement)
    requires e.Img?
  {
    e.alt == [] && e.title == [] && !Truthy(e.ariaLabel) && !Truthy(e.ariaLabelledby)
  }

  /** An area without alt or aria-label. */
  predicate AreaUnlabelled(e: ImageElement)
    requires e.Area?
  {
    e.alt == [] && !Truthy(e.ariaLabel)
  }

  /** An svg that declares itself an image but has no accessible name. */
  predicate SvgUnlabelled(e: ImageElement)
    requires e.Svg?
  {
    e.role == Some("img") && !Truthy(e.ariaLabel) && !Truthy(e.ariaLabelledby)
  }

  /** What the check pushes for one element. */
  function Check(e: ImageElement): seq<Violation> {
    match e
    case Img(_, _, _, _, html) =>
      if ImgUnlabelled(e) then [Violation(html, "RGAA - 1.1.1", RuleLink("1.1.1"), ImgMessage)] else []
    case Area(_, _, html) =>
      if AreaUnlabelled(e) then [Violation(html, "RGAA - 1.1.2", RuleLink("1.1.2"), AreaMessage)] else []
    case Svg(_, _, _, html) =>
      if SvgUnlabelled(e) then [Violation(html, "RGAA - 1.1.5", RuleLink("1.1.5"), SvgMessage)] else []
    case Other(_) => []
  }

  /** 1.1.1, 1.1.2 and 1.1.5 over the elements, in order. */
  method RGAA11(elements: seq<ImageElement>) returns (wrong: seq<Violation>)
    ensures wrong == FlatMap(elements, Check)
  {
    wrong := [];
    var i := 0;
    while i < |elements|
      invariant 0 <= i <= |elements|
      invariant wrong == FlatMap(elements[..i], Check)
    {
      var el := elements[i];
      FlatMapSnoc(elements[..i], el, Check);
      PrefixSnoc(elements, i);
      match el {
        case Img(_, _, _, _, html) =>
          if ImgUnlabelled(el) {
            wrong := wrong + [Violation(html, "RGAA - 1.1.1", RuleLink("1.1.1"), ImgMessage)];
          }
        case Area(_, _, html) =>
          if AreaUnlabelled(el) {
            wrong := wrong + [Violation(html, "RGAA - 1.1.2", RuleLink("1.1.2"), AreaMessage)];
          }
        case Svg(_, _, _, html) =>
          if SvgUnlabelled(el) {
            wrong := wrong + [Violation(html, "RGAA - 1.1.5", RuleLink("1.1.5"), SvgMessage)];
          }
        case Other(_) =>
      }
      i := i + 1;
    }
    assert elements[..i] == elements;
  }

  /**
   * Per element: at most one violation; an img is reported (1.1.1) iff alt, title,
   * aria-label and aria-labelledby are all empty or absent; an area (1.1.2) iff alt
   * and aria-label are; an svg (1.1.5) iff its role is `img` and both of its
   * aria attributes are empty or absent; any other element never.
   */
  lemma CheckCases(e: ImageElement)
    ensures |Check(e)| <= 1
    ensures Check(e) != [] ==> Check(e)[0].element == e.outerHTML
    ensures e.Img? ==> (Check(e) != [] <==> e.alt == [] && e.title == [] && !Truthy(e.ariaLabel) && !Truthy(e.ariaLabelledby))
    ensures e.Img? && Check(e) != [] ==> Check(e)[0].rule == "RGAA - 1.1.1"
    ensures e.Area? ==> (Check(e) != [] <==> e.alt == [] && !Truthy(e.ariaLabel))
    ensures e.Area? && Check(e) != [] ==> Check(e)[0].rule == "RGAA - 1.1.2"
    ensures e.Svg? ==> (Check(e) != [] <==> e.role == Some("img") && !Truthy(e.ariaLabel) && !Truthy(e.ariaLabelledby))
    ensures e.Svg? && Check(e) != [] ==> Check(e)[0].rule == "RGAA - 1.1.5"
    ensures e.Other? ==> Check(e) == []
  {
  }

  /** An svg whose role is anything but `img` is never reported, whatever its labels. */
  lemma SvgWithoutImgRoleNeverFlagged(e: ImageElement)
    requires e.Svg? && e.role != Some("img")
    ensures Check(e) == []
  {
  }

  /**
   * Over a list: the report is no longer than the input, keeps input order (the
   * report of a concatenation is the concatenation of the reports), and holds a
   * violation iff some element yields it.
   */
  lemma {:induction false} ReportShape(a: seq<ImageElement>, b: seq<ImageElement>, v: Violation)
    ensures |FlatMap(a, Check)| <= |a|
    ensures FlatMap(a + b, Check) == FlatMap(a, Check) + FlatMap(b, Check)
    ensures v in FlatMap(a, Check) <==> exists i :: 0 <= i < |a| && v in Check(a[i])
  {
    forall i | 0 <= i < |a| ensures |Check(a[i])| <= 1 {
      CheckCases(a[i]);
    }
    FlatMapAtMostOne(a, Check);
    FlatMapAppend(a, b, Check);
    FlatMapMember(a, Check, v);
  }
}
