/** Criterion 11.1: every form field has a label (11.1.1), correctly linked to it (11.1.2). */
module Rgaa11 {
  import opened Wrappers
  import opened Js
  import opened Types
  import opened Seqs

  /**
   * The properties of a `FormFieldElement` record. An absent boolean is `false`;
   * an absent string is `None`.
   */
  datatype FieldRecord = FieldRecord(
    id: Option<string>, ariaLabel: Option<string>, ariaLabelledby: Option<string>, title: Option<string>,
    outerHTML: string, hasLabelFor: bool, labelForId: Option<string>,
    hasAdjacentButton: bool, adjacentButtonHasValidLabel: bool, hasHiddenLabel: bool)

  /** The element next to or before a field in the DOM: its tag name and what can label it. */
  datatype Sibling = Sibling(tagName: string, ariaLabel: Option<string>, ariaLabelledby: Option<string>,
                             textContent: Option<string>, title: Option<string>)

  /** The computed style properties the hidden-label test reads. */
  datatype Style = Style(position: string, left: string, clip: string, clipPath: string,
                         width: string, height: string, display: string, visibility: string)

  /**
   * A `label` of the document that has a `for` attribute, as seen from one field:
   * its `for` value, its computed style, whether it lies in the field's form (the
   * whole document when the field has no form), whether that scope holds an element
   * with the id it names, and whether its own enclosing form contains the field.
   */
  datatype LabelFor = LabelFor(forValue: string, style: Style, inFieldScope: bool, targetInScope: bool, formContainsField: bool)

  /**
   * What the DOM strategies read about one input, select or textarea: the `id` and
   * `title` properties (empty when absent), the ARIA attributes, the element siblings,
   * and every `label[for]` of the document in document order.
   */
  datatype FieldSnapshot = FieldSnapshot(
    id: string, title: string, ariaLabel: Option<string>, ariaLabelledby: Option<string>, outerHTML: string,
    nextSibling: Option<Sibling>, previousSibling: Option<Sibling>, labels: seq<LabelFor>)

  /**
   * An element handed to the form rules. A DOM form control has a snapshot for the
   * DOM strategies; every element has the record view the virtual strategies
   * destructure. Any other object, DOM element or plain record, is a `Record`.
   */
  datatype FormElement =
    | Control(snapshot: FieldSnapshot, props: FieldRecord)
    | Record(props: FieldRecord)

  const LabelMessage := "Form field should have an accessible label (aria-labelledby, aria-label, label[for], title, or adjacent button with hidden label)"
  const MissingIdMessage := "Form field referenced by label[for] must have a matching id attribute"
  const MismatchMessage := "Label[for] attribute does not match the field id"

  function Violation111(html: string): Violation {
    Violation(html, "RGAA - 11.1.1", RuleLink("11.1.1"), LabelMessage)
  }

  function Violation112(html: string, message: string): Violation {
    Violation(html, "RGAA - 11.1.2", RuleLink("11.1.2"), message)
  }

  // ---------------------------------------------------------------- virtual

  /** `hasAccessibleLabeling` of a record, taken as a boolean. */
  predicate VirtualLabelled(r: FieldRecord) {
    var hasValidAdjacentButton := r.hasAdjacentButton && r.adjacentButtonHasValidLabel;
    || Truthy(r.ariaLabelledby) || Truthy(r.ariaLabel) || r.hasLabelFor || Truthy(r.title)
    || (hasValidAdjacentButton && (Truthy(r.ariaLabelledby) || Truthy(r.ariaLabel) || r.hasHiddenLabel))
  }

  function Check111Virtual(el: FormElement): seq<Violation> {
    if !VirtualLabelled(el.props) then [Violation111(el.props.outerHTML)] else []
  }

  /** The two virtual 11.1.2 checks, "does not match" first. */
  function Check112Virtual(el: FormElement): seq<Violation> {
    var r := el.props;
    (if r.hasLabelFor && Truthy(r.labelForId) && r.labelForId != r.id then [Violation112(r.outerHTML, MismatchMessage)] else [])
    + (if r.hasLabelFor && !Truthy(r.id) then [Violation112(r.outerHTML, MissingIdMessage)] else [])
  }

  /**
   * A record is labelled iff it has a non-empty aria-labelledby, aria-label or
   * title, a label[for], or a valid adjacent button together with a hidden label:
   * the button's own ARIA alternatives already count on their own.
   */
  lemma VirtualLabelledIff(r: FieldRecord)
    ensures VirtualLabelled(r) <==>
      || Truthy(r.ariaLabelledby) || Truthy(r.ariaLabel) || r.hasLabelFor || Truthy(r.title)
      || (r.hasAdjacentButton && r.adjacentButtonHasValidLabel && r.hasHiddenLabel)
  {
  }

  /** A validly labelled adjacent button alone never labels a field; with a hidden label it does, and not without one. */
  lemma AdjacentButtonNeedsHiddenLabel(html: string, hidden: bool)
    ensures var r := FieldRecord(None, None, None, None, html, false, None, true, true, hidden);
      VirtualLabelled(r) <==> hidden
  {
  }

  /** A field with `hasLabelFor`, a non-empty `labelForId` and no id gets both 11.1.2 violations, "does not match" first. */
  lemma BothLinkageChecksFire(r: FieldRecord)
    requires r.hasLabelFor && Truthy(r.labelForId) && r.id.None?
    ensures Check112Virtual(Record(r)) == [Violation112(r.outerHTML, MismatchMessage), Violation112(r.outerHTML, MissingIdMessage)]
  {
  }

  /** Without `hasLabelFor` there is no virtual 11.1.2 violation, whatever the ids. */
  lemma NoLabelForNoLinkage(el: FormElement)
    requires !el.props.hasLabelFor
    ensures Check112Virtual(el) == []
  {
  }

  method RGAA111Virtual(elements: seq<FormElement>) returns (wrongElements: seq<Violation>)
    ensures wrongElements == FlatMap(elements, Check111Virtual)
  {
    wrongElements := [];
    var i := 0;
    while i < |elements|
      invariant 0 <= i <= |elements|
      invariant wrongElements == FlatMap(elements[..i], Check111Virtual)
    {
      var element := elements[i].props;
      FlatMapSnoc(elements[..i], elements[i], Check111Virtual);
      PrefixSnoc(elements, i);
      var hasValidAdjacentButton := element.hasAdjacentButton && element.adjacentButtonHasValidLabel;
      var hasAccessibleLabeling :=
        || Truthy(element.ariaLabelledby) || Truthy(element.ariaLabel) || element.hasLabelFor || Truthy(element.title)
        || (hasValidAdjacentButton && (Truthy(element.ariaLabelledby) || Truthy(element.ariaLabel) || element.hasHiddenLabel));
      if !hasAccessibleLabeling {
        wrongElements := wrongElements + [Violation111(element.outerHTML)];
      }
      i := i + 1;
    }
    assert elements[..i] == elements;
  }

  method RGAA112Virtual(elements: seq<FormElement>) returns (wrongElements: seq<Violation>)
    ensures wrongElements == FlatMap(elements, Check112Virtual)
  {
    wrongElements := [];
    var i := 0;
    while i < |elements|
      invariant 0 <= i <= |elements|
      invariant wrongElements == FlatMap(elements[..i], Check112Virtual)
    {
      var element := elements[i].props;
      FlatMapSnoc(elements[..i], elements[i], Check112Virtual);
      PrefixSnoc(elements, i);
      var before := wrongElements;
      if element.hasLabelFor && Truthy(element.labelForId) && element.labelForId != element.id {
        wrongElements := wrongElements + [Violation112(element.outerHTML, MismatchMessage)];
      }
      if element.hasLabelFor && !Truthy(element.id) {
        wrongElements := wrongElements + [Violation112(element.outerHTML, MissingIdMessage)];
      }
      assert wrongElements == before + Check112Virtual(elements[i]);
      i := i + 1;
    }
    assert elements[..i] == elements;
  }

  // ---------------------------------------------------------------- DOM

  /** A sibling that is a `button` (in any case) with a label of its own: aria-label, aria-labelledby, non-blank text or title. */
  predicate QualifyingButton(s: Option<Sibling>) {
    && s.Some? && LowerEquals(s.value.tagName, "button")
    && (|| Truthy(s.value.ariaLabel) || Truthy(s.value.ariaLabelledby)
        || (s.value.textContent.Some? && Trim(s.value.textContent.value) != [])
        || Truthy(s.value.title))
  }

  /** A qualifying button right after the field, or else right before it. */
  predicate ValidAdjacentButton(f: FieldSnapshot) {
    QualifyingButton(f.nextSibling) || QualifyingButton(f.previousSibling)
  }

  /** Positioned off-screen, clipped, or shrunk to one pixel: hidden from sight, not from screen readers. */
  predicate IsVisuallyHidden(st: Style) {
    && st.position == "absolute"
    && (|| st.left == "-10000px" || st.left == "-9999px"
        || st.clip == "rect(0, 0, 0, 0)" || st.clip == "rect(0px, 0px, 0px, 0px)"
        || st.clipPath == "inset(50%)" || st.width == "1px" || st.height == "1px")
  }

  predicate IsHiddenStyle(st: Style) {
    IsVisuallyHidden(st) || st.display == "none" || st.visibility == "hidden"
  }

  /** `document.querySelector('label[for="id"]')` finds a label. */
  predicate LabelForExists(labels: seq<LabelFor>, id: string) {
    exists k :: 0 <= k < |labels| && labels[k].forValue == id
  }

  predicate VisibleLabelFor(labels: seq<LabelFor>, id: string) {
    exists k :: 0 <= k < |labels| && labels[k].forValue == id && !IsHiddenStyle(labels[k].style)
  }

  predicate HiddenLabelFor(labels: seq<LabelFor>, id: string) {
    exists k :: 0 <= k < |labels| && labels[k].forValue == id && IsVisuallyHidden(labels[k].style)
  }

  /**
   * `hasAccessibleLabeling` of a DOM field: the flags as the strategy sets them,
   * the label styles being looked at only when there is a valid adjacent button
   * and an id.
   */
  predicate DomLabelled(f: FieldSnapshot) {
    var adjacent := ValidAdjacentButton(f);
    var styled := adjacent && f.id != [];
    var hasLabel := (f.id != [] && LabelForExists(f.labels, f.id)) || (styled && VisibleLabelFor(f.labels, f.id));
    var hasHiddenLabel := styled && HiddenLabelFor(f.labels, f.id);
    || Truthy(f.ariaLabelledby) || Truthy(f.ariaLabel) || hasLabel || f.title != []
    || (adjacent && (Truthy(f.ariaLabelledby) || Truthy(f.ariaLabel) || hasHiddenLabel))
  }

  /**
   * A DOM field is labelled iff it has a non-empty aria-labelledby, aria-label or
   * title, or an id that some `label[for]` names, whatever that label's style:
   * `hasLabel` is set before the styles are read, and a hidden label is a label
   * for the id too, so the adjacent button never changes the verdict.
   */
  lemma DomLabelledIff(f: FieldSnapshot)
    ensures DomLabelled(f) <==>
      Truthy(f.ariaLabelledby) || Truthy(f.ariaLabel) || f.title != [] || (f.id != [] && LabelForExists(f.labels, f.id))
  {
    if HiddenLabelFor(f.labels, f.id) {
      var k :| 0 <= k < |f.labels| && f.labels[k].forValue == f.id && IsVisuallyHidden(f.labels[k].style);
      assert LabelForExists(f.labels, f.id);
    }
  }

  /** A field whose id a `display: none` label names still passes 11.1.1 in DOM mode. */
  lemma HiddenLabelStillLabels(f: FieldSnapshot, k: int)
    requires f.id != [] && 0 <= k < |f.labels| && f.labels[k].forValue == f.id && f.labels[k].style.display == "none"
    ensures DomLabelled(f)
  {
    assert LabelForExists(f.labels, f.id);
  }

  function Check111Dom(el: FormElement): seq<Violation> {
    match el
    case Control(f, _) => if !DomLabelled(f) then [Violation111(f.outerHTML)] else []
    case Record(_) => []
  }

  /** The flags of one DOM field, set step by step as the strategy does. */
  method DomLabelling(f: FieldSnapshot) returns (hasAccessibleLabeling: bool)
    ensures hasAccessibleLabeling == DomLabelled(f)
  {
    var hasLabel := false;
    if f.id != [] {
      hasLabel := LabelForExists(f.labels, f.id);
    }
    var hasValidAdjacentButton := false;
    if QualifyingButton(f.nextSibling) {
      hasValidAdjacentButton := true;
    }
    if !hasValidAdjacentButton && QualifyingButton(f.previousSibling) {
      hasValidAdjacentButton := true;
    }
    var hasHiddenLabel := false;
    if hasValidAdjacentButton && f.id != [] {
      ghost var hasLabel0 := hasLabel;
      var j := 0;
      while j < |f.labels|
        invariant 0 <= j <= |f.labels|
        invariant hasHiddenLabel <==> exists k :: 0 <= k < j && f.labels[k].forValue == f.id && IsVisuallyHidden(f.labels[k].style)
        invariant hasLabel <==> hasLabel0 || exists k :: 0 <= k < j && f.labels[k].forValue == f.id && !IsHiddenStyle(f.labels[k].style)
      {
        var labelElement := f.labels[j];
        if labelElement.forValue == f.id {
          var style := labelElement.style;
          var isVisuallyHidden := IsVisuallyHidden(style);
          if isVisuallyHidden || style.display == "none" || style.visibility == "hidden" {
            if isVisuallyHidden {
              hasHiddenLabel := true;
            }
          } else {
            hasLabel := true;
          }
        }
        j := j + 1;
      }
    }
    hasAccessibleLabeling :=
      || Truthy(f.ariaLabelledby) || Truthy(f.ariaLabel) || hasLabel || f.title != []
      || (hasValidAdjacentButton && (Truthy(f.ariaLabelledby) || Truthy(f.ariaLabel) || hasHiddenLabel));
  }

  method RGAA111Dom(elements: seq<FormElement>) returns (wrongElements: seq<Violation>)
    ensures wrongElements == FlatMap(elements, Check111Dom)
  {
    wrongElements := [];
    var i := 0;
    while i < |elements|
      invariant 0 <= i <= |elements|
      invariant wrongElements == FlatMap(elements[..i], Check111Dom)
    {
      FlatMapSnoc(elements[..i], elements[i], Check111Dom);
      PrefixSnoc(elements, i);
      match elements[i] {
        case Control(f, _) =>
          var labelled := DomLabelling(f);
          if !labelled {
            wrongElements := wrongElements + [Violation111(f.outerHTML)];
          }
        case Record(_) =>
      }
      i := i + 1;
    }
    assert elements[..i] == elements;
  }

  /** Without an id: every label with a non-empty `for` whose form contains the field asks for an id. */
  predicate AsksForId(l: LabelFor) {
    l.forValue != [] && l.formContainsField
  }

  /**
   * With an id: a label of the field's scope naming another id, which that scope
   * does not hold, in a form containing the field.
   */
  predicate Mismatches(id: string, l: LabelFor) {
    l.inFieldScope && l.forValue != [] && l.forValue != id && !l.targetInScope && l.formContainsField
  }

  /** What one `label[for]` contributes to a DOM field's 11.1.2 findings. */
  function LabelFinding(f: FieldSnapshot): LabelFor -> seq<Violation> {
    (l: LabelFor) =>
      if f.id == [] then (if AsksForId(l) then [Violation112(f.outerHTML, MissingIdMessage)] else [])
      else if Mismatches(f.id, l) then [Violation112(f.outerHTML, MismatchMessage)] else []
  }

  function Check112Dom(el: FormElement): seq<Violation> {
    match el
    case Control(f, _) => FlatMap(f.labels, LabelFinding(f))
    case Record(_) => []
  }

  /** The 11.1.2 findings of one DOM field: the loop over the document's labels, or over its form's. */
  method DomLinkage(f: FieldSnapshot) returns (found: seq<Violation>)
    ensures found == FlatMap(f.labels, LabelFinding(f))
  {
    if f.id == [] {
      found := LabelsAskingForId(f);
    } else {
      found := MismatchingLabels(f);
    }
  }

  /** The loop over `document.querySelectorAll('label[for]')` for a field without an id. */
  method LabelsAskingForId(f: FieldSnapshot) returns (found: seq<Violation>)
    requires f.id == []
    ensures found == FlatMap(f.labels, LabelFinding(f))
  {
    found := [];
    var check := LabelFinding(f);
    var j := 0;
    while j < |f.labels|
      invariant 0 <= j <= |f.labels|
      invariant found == FlatMap(f.labels[..j], check)
    {
      var labelElement := f.labels[j];
      FlatMapSnoc(f.labels[..j], labelElement, check);
      PrefixSnoc(f.labels, j);
      if labelElement.forValue != [] && labelElement.formContainsField {
        found := found + [Violation112(f.outerHTML, MissingIdMessage)];
      }
      assert found == FlatMap(f.labels[..j], check) + check(labelElement);
      j := j + 1;
    }
    assert f.labels[..j] == f.labels;
  }

  /** The loop over the form's `label[for]` for a field with an id. */
  method MismatchingLabels(f: FieldSnapshot) returns (found: seq<Violation>)
    requires f.id != []
    ensures found == FlatMap(f.labels, LabelFinding(f))
  {
    found := [];
    var check := LabelFinding(f);
    var j := 0;
    while j < |f.labels|
      invariant 0 <= j <= |f.labels|
      invariant found == FlatMap(f.labels[..j], check)
    {
      var labelElement := f.labels[j];
      FlatMapSnoc(f.labels[..j], labelElement, check);
      PrefixSnoc(f.labels, j);
      var before := found;
      if labelElement.inFieldScope {
        var labelFor := labelElement.forValue;
        if labelFor != [] && labelFor != f.id {
          if !labelElement.targetInScope && labelElement.formContainsField {
            found := found + [Violation112(f.outerHTML, MismatchMessage)];
          }
        }
      }
      assert found == before + check(labelElement);
      j := j + 1;
    }
    assert f.labels[..j] == f.labels;
  }

  method RGAA112Dom(elements: seq<FormElement>) returns (wrongElements: seq<Violation>)
    ensures wrongElements == FlatMap(elements, Check112Dom)
  {
    wrongElements := [];
    var i := 0;
    while i < |elements|
      invariant 0 <= i <= |elements|
      invariant wrongElements == FlatMap(elements[..i], Check112Dom)
    {
      FlatMapSnoc(elements[..i], elements[i], Check112Dom);
      PrefixSnoc(elements, i);
      match elements[i] {
        case Control(f, _) =>
          var found := DomLinkage(f);
          wrongElements := wrongElements + found;
        case Record(_) =>
      }
      i := i + 1;
    }
    assert elements[..i] == elements;
  }

  /**
   * A DOM field without an id gets one "must have a matching id" per label that
   * asks for one, and a field with an id one "does not match" per mismatching
   * label, in document order.
   */
  lemma DomLinkageCounts(f: FieldSnapshot, p: FieldRecord)
    ensures f.id == [] ==> Check112Dom(Control(f, p)) == Map(Filter(f.labels, AsksForId), _ => Violation112(f.outerHTML, MissingIdMessage))
    ensures f.id != [] ==> Check112Dom(Control(f, p)) == Map(Filter(f.labels, l => Mismatches(f.id, l)), _ => Violation112(f.outerHTML, MismatchMessage))
  {
    if f.id == [] {
      FlatMapSelect(f.labels, LabelFinding(f), AsksForId, _ => Violation112(f.outerHTML, MissingIdMessage));
    } else {
      FlatMapSelect(f.labels, LabelFinding(f), l => Mismatches(f.id, l), _ => Violation112(f.outerHTML, MismatchMessage));
    }
  }

  // ---------------------------------------------------------------- dispatch

  function UnknownMode(name: string): string {
    "Unknown mode: " + name
  }

  /** What `RGAA111` returns, or the error it throws. */
  function Report111(mode: Mode, elements: seq<FormElement>): Result<seq<Violation>, string> {
    match mode
    case Dom => Success(FlatMap(elements, Check111Dom))
    case Virtual => Success(FlatMap(elements, Check111Virtual))
    case Unknown(name) => Failure(UnknownMode(name))
  }

  /** What `RGAA112` returns, or the error it throws. */
  function Report112(mode: Mode, elements: seq<FormElement>): Result<seq<Violation>, string> {
    match mode
    case Dom => Success(FlatMap(elements, Check112Dom))
    case Virtual => Success(FlatMap(elements, Check112Virtual))
    case Unknown(name) => Failure(UnknownMode(name))
  }

  /** The form rules for one mode, fixed when the object is built. */
  class RGAA11 {
    const mode: Mode

    constructor (mode: Mode)
      ensures this.mode == mode
    {
      this.mode := mode;
    }

    method RGAA111(elements: seq<FormElement>) returns (r: Result<seq<Violation>, string>)
      ensures r == Report111(mode, elements)
    {
      match mode {
        case Dom =>
          var found := RGAA111Dom(elements);
          r := Success(found);
        case Virtual =>
          var found := RGAA111Virtual(elements);
          r := Success(found);
        case Unknown(name) =>
          r := Failure(UnknownMode(name));
      }
    }

    method RGAA112(elements: seq<FormElement>) returns (r: Result<seq<Violation>, string>)
      ensures r == Report112(mode, elements)
    {
      match mode {
        case Dom =>
          var found := RGAA112Dom(elements);
          r := Success(found);
        case Virtual =>
          var found := RGAA112Virtual(elements);
          r := Success(found);
        case Unknown(name) =>
          r := Failure(UnknownMode(name));
      }
    }
  }

  /**
   * Both rules fail exactly for a mode other than dom and virtual, with the mode's
   * name in the message; otherwise 11.1.1 gives at most one violation per element,
   * and every 11.1.1 violation is a fixed-message one.
   */
  lemma ReportShape(mode: Mode, elements: seq<FormElement>)
    ensures Report111(mode, elements).Failure? <==> mode.Unknown?
    ensures Report112(mode, elements).Failure? <==> mode.Unknown?
    ensures mode.Unknown? ==>
      Report111(mode, elements).error == "Unknown mode: " + ModeName(mode) && Report112(mode, elements).error == "Unknown mode: " + ModeName(mode)
    ensures Report111(mode, elements).Success? ==> |Report111(mode, elements).value| <= |elements|
  {
    if mode.Dom? {
      FlatMapAtMostOne(elements, Check111Dom);
    } else if mode.Virtual? {
      FlatMapAtMostOne(elements, Check111Virtual);
    }
  }
}
