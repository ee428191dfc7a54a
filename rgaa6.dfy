/** Criterion 6.2: every link has a label. */
module Rgaa6 {
  import opened Wrappers
  import opened Js
  import opened Types
  import opened Seqs

  /**
   * The label sources of a link, as the check reads them: `aria-label` and
   * `aria-labelledby` (attributes of a DOM element, properties of a virtual
   * one), then `title` and `textContent`.
   */
  datatype Labels = Labels(ariaLabel: Option<string>, ariaLabelledby: Option<string>, title: Option<string>, textContent: Option<string>)

  /** A DOM anchor (with its `href` attribute), any other DOM element, or a virtual link record. */
  datatype LinkElement =
    | HtmlAnchor(href: Option<string>, labels: Labels, outerHTML: string)
    | HtmlOther(labels: Labels, outerHTML: string)
    | VirtualLink(href: Option<string>, labels: Labels, outerHTML: string)

  const LinkMessage := "Each link must have a label (text or alternative)"

  /** `s?.trim()` taken as a boolean. */
  predicate TrimmedTruthy(o: Option<string>) {
    o.Some? && !IsBlank(o.value)
  }

  /** In-page anchors are not checked: a DOM anchor or a virtual link whose `href` contains `#`. */
  predicate Exempt(el: LinkElement) {
    match el
    case HtmlAnchor(href, _, _) => href.Some? && Includes(href.value, "#")
    case HtmlOther(_, _) => false
    case VirtualLink(href, _, _) => href.Some? && Includes(href.value, "#")
  }

  /** `hasLinkTitle`: the first label source that applies decides. */
  function HasLinkTitle(l: Labels): (b: bool)
    ensures b <==> TrimmedTruthy(l.ariaLabel) || Truthy(l.ariaLabelledby) || TrimmedTruthy(l.title) || TrimmedTruthy(l.textContent)
  {
    if TrimmedTruthy(l.ariaLabel) then true
    else if Truthy(l.ariaLabelledby) then true
    else if TrimmedTruthy(l.title) then true
    else TrimmedTruthy(l.textContent)
  }

  function ViolationFor(el: LinkElement): Violation {
    Violation(el.outerHTML, "RGAA - 6.2.1", RuleLink("6.2.1"), LinkMessage)
  }

  predicate Reported(el: LinkElement) {
    !Exempt(el) && !HasLinkTitle(el.labels)
  }

  function Check(el: LinkElement): seq<Violation> {
    if Reported(el) then [ViolationFor(el)] else []
  }

  /** The check keeps the list of the last call's violations. */
  class RGAA6 {
    var wrongElements: seq<Violation>

    constructor ()
      ensures wrongElements == []
    {
      wrongElements := [];
    }

    /** 6.2.1 over the links; the list starts afresh on every call. */
    method RGAA62(elements: seq<LinkElement>) returns (r: seq<Violation>)
      modifies this
      ensures wrongElements == FlatMap(elements, Check) && r == wrongElements
    {
      wrongElements := [];
      var i := 0;
      while i < |elements|
        invariant 0 <= i <= |elements|
        invariant wrongElements == FlatMap(elements[..i], Check)
      {
        var el := elements[i];
        FlatMapSnoc(elements[..i], el, Check);
        PrefixSnoc(elements, i);
        if !Exempt(el) {
          var titled := HasLinkTitle(el.labels);
          if !titled {
            wrongElements := wrongElements + [ViolationFor(el)];
          }
        }
        i := i + 1;
      }
      assert elements[..i] == elements;
      r := wrongElements;
    }
  }

  /**
   * The report is the non-exempt unlabelled links in input order, each with the
   * fixed 6.2.1 violation carrying its markup; it never depends on an earlier
   * call, and it is never longer than the input.
   */
  lemma ReportIsUnlabelledLinks(elements: seq<LinkElement>)
    ensures var r := FlatMap(elements, Check);
      && r == Map(Filter(elements, Reported), ViolationFor)
      && |r| <= |elements|
  {
    FlatMapSelect(elements, Check, Reported, ViolationFor);
  }

  /** A DOM element that is not an anchor is checked even when it has an in-page `href`. */
  lemma NonAnchorNeverExempt(labels: Labels, html: string)
    ensures Check(HtmlOther(labels, html)) != [] <==> !HasLinkTitle(labels)
  {
  }

  /** An `href` holding `#` exempts an anchor or a virtual link whatever its labels. */
  lemma InPageLinksExempt(a: string, b: string, labels: Labels, html: string)
    ensures Check(HtmlAnchor(Some(a + "#" + b), labels, html)) == []
    ensures Check(VirtualLink(Some(a + "#" + b), labels, html)) == []
  {
    var s := a + "#" + b;
    assert OccursAt(s, "#", |a|) by {
      assert s[|a|..|a| + 1] == "#";
    }
    IncludesIffOccurs(s, "#");
  }

  /**
   * aria-labelledby is taken as it is, while aria-label is trimmed: a blank
   * aria-labelledby labels a link, a blank aria-label does not.
   */
  lemma LabelledbyNotTrimmed(w: string)
    requires w != [] && forall i :: 0 <= i < |w| ==> IsWhitespace(w[i])
    ensures HasLinkTitle(Labels(None, Some(w), None, None))
    ensures !HasLinkTitle(Labels(Some(w), None, None, None))
  {
    BlankIffAllWhitespace(w);
  }
}
