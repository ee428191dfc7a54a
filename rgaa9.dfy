/** Criterion 9.1: headings are structured (9.1.3) and their hierarchy is relevant (9.1.1). */
module Rgaa9 {
  import opened Wrappers
  import opened Js
  import opened Types
  import opened Seqs

  /**
   * A heading candidate. A DOM element has a tag name and attribute reads that
   * are `None` when absent; a virtual record may lack its tag name, and may carry
   * a numeric `index` giving its place in the page.
   */
  datatype HeadingElement =
    | DomHeading(tag: string, roleAttribute: Option<string>, ariaLevelAttribute: Option<string>, outerHTML: string)
    | VirtualHeading(tagName: Option<string>, role: Option<string>, ariaLevel: Option<string>, outerHTML: string, index: Option<int>)

  /** `HeadingInfo`: an element with its heading level and its place. */
  datatype HeadingInfo = HeadingInfo(element: HeadingElement, level: int, index: int)

  const HierarchyMessage := "The hierarchy between headings must be relevant"
  const StructureMessage := "Each heading must be structured with a <hx> tag or with role=\"heading\" and aria-level attributes"

  /** `/^H[1-6]$/i.test(tag)`; a missing tag name is tested as the text "undefined" and never matches. */
  predicate IsHxTag(tag: Option<string>) {
    tag.Some? && |tag.value| == 2 && (tag.value[0] == 'H' || tag.value[0] == 'h') && '1' <= tag.value[1] <= '6'
  }

  function TagOf(el: HeadingElement): Option<string> {
    match el
    case DomHeading(tag, _, _, _) => Some(tag)
    case VirtualHeading(tagName, _, _, _, _) => tagName
  }

  /** The role, read as an attribute of a DOM element or as a property of a record. */
  function RoleOf(el: HeadingElement): Option<string> {
    match el
    case DomHeading(_, role, _, _) => role
    case VirtualHeading(_, role, _, _, _) => role
  }

  function AriaLevelOf(el: HeadingElement): Option<string> {
    match el
    case DomHeading(_, _, ariaLevel, _) => ariaLevel
    case VirtualHeading(_, _, ariaLevel, _, _) => ariaLevel
  }

  /** `role === 'heading'` with a truthy `aria-level`. */
  predicate IsAriaHeading(el: HeadingElement) {
    RoleOf(el) == Some("heading") && Truthy(AriaLevelOf(el))
  }

  /**
   * `getHeadingLevel`: the digit of an `Hx` tag; else, for `role="heading"` with a
   * non-empty `aria-level`, its `parseInt` with NaN read as 0; else 0.
   */
  function GetHeadingLevel(el: HeadingElement): (level: int)
    ensures IsHxTag(TagOf(el)) ==> 1 <= level <= 6 && level == TagOf(el).value[1] as int - '0' as int
    ensures !IsHxTag(TagOf(el)) && IsAriaHeading(el) ==>
      level == match ParseInt(AriaLevelOf(el).value) case Some(n) => n case None => 0
    ensures !IsHxTag(TagOf(el)) && !IsAriaHeading(el) ==> level == 0
  {
    if IsHxTag(TagOf(el)) then
      var digit := TagOf(el).value[1..2];
      assert AllDigits(digit);
      ParseIntOfDigits(digit);
      assert DigitsValue(digit) == DigitsValue(digit[..0]) * 10 + (digit[0] as int - '0' as int);
      ParseInt(digit).value
    else if IsAriaHeading(el) then
      match ParseInt(AriaLevelOf(el).value)
      case Some(n) => n
      case None => 0
    else 0
  }

  /** `isValidHeadingStructure`: an `Hx` tag, or `role="heading"` with an `aria-level` whose `parseInt` is a number of at least 1. */
  function IsValidHeadingStructure(el: HeadingElement): (valid: bool)
    ensures valid <==> IsHxTag(TagOf(el)) || (IsAriaHeading(el) && AtLeast(IntValue(ParseInt(AriaLevelOf(el).value)), 1.0))
  {
    if IsHxTag(TagOf(el)) then true
    else if IsAriaHeading(el) then
      var level := ParseInt(AriaLevelOf(el).value);
      level.Some? && level.value >= 1
    else false
  }

  /** An integer that may be NaN, as a real that may be NaN. */
  function IntValue(o: Option<int>): Option<real> {
    match o
    case Some(n) => Some(n as real)
    case None => None
  }

  /** The two rules agree: an element is a valid heading exactly when it has a positive level, so exactly the valid ones enter 9.1.1. */
  lemma ValidIffPositiveLevel(el: HeadingElement)
    ensures IsValidHeadingStructure(el) <==> GetHeadingLevel(el) > 0
  {
  }

  /** `getElementIndex`: a virtual element's own numeric `index`, else its position in the input. */
  function GetElementIndex(el: HeadingElement, fallbackIndex: int): (index: int)
    ensures el.VirtualHeading? && el.index.Some? ==> index == el.index.value
    ensures el.DomHeading? || el.index.None? ==> index == fallbackIndex
  {
    if el.VirtualHeading? && el.index.Some? then el.index.value else fallbackIndex
  }

  /** The `map` step of `extractHeadings`: each element with its level and its index, position `offset + i` as fallback. */
  function Infos(elements: seq<HeadingElement>, offset: int): (r: seq<HeadingInfo>)
    ensures |r| == |elements|
    decreases |elements|
  {
    if elements == [] then []
    else [HeadingInfo(elements[0], GetHeadingLevel(elements[0]), GetElementIndex(elements[0], offset))] + Infos(elements[1..], offset + 1)
  }

  lemma {:induction false} InfosAt(elements: seq<HeadingElement>, offset: int, i: int)
    requires 0 <= i < |elements|
    ensures Infos(elements, offset)[i] == HeadingInfo(elements[i], GetHeadingLevel(elements[i]), GetElementIndex(elements[i], offset + i))
    decreases |elements|
  {
    if i > 0 {
      InfosAt(elements[1..], offset + 1, i - 1);
    }
  }

  predicate IsHierarchyHeading(h: HeadingInfo) {
    h.level > 0
  }

  /** The comparator `a.index - b.index`, as "a may precede b". */
  predicate ByIndex(a: HeadingInfo, b: HeadingInfo) {
    a.index <= b.index
  }

  lemma ByIndexIsTotalPreorder()
    ensures TotalPreorder(ByIndex)
  {
  }

  /** `extractHeadings`: map, keep positive levels, then the stable sort by index. */
  function ExtractHeadings(elements: seq<HeadingElement>): seq<HeadingInfo> {
    Sort(Filter(Infos(elements, 0), IsHierarchyHeading), ByIndex)
  }

  /**
   * The headings that enter 9.1.1 are exactly the positive-level ones, each once,
   * in index order, and two with the same index keep their input order.
   */
  lemma ExtractHeadingsSpec(elements: seq<HeadingElement>, x: HeadingInfo)
    ensures var kept := Filter(Infos(elements, 0), IsHierarchyHeading);
      && multiset(ExtractHeadings(elements)) == multiset(kept)
      && Sorted(ExtractHeadings(elements), ByIndex)
      && Equivalents(ExtractHeadings(elements), x, ByIndex) == Equivalents(kept, x, ByIndex)
  {
    var kept := Filter(Infos(elements, 0), IsHierarchyHeading);
    ByIndexIsTotalPreorder();
    SortPermutes(kept, ByIndex);
    SortSorted(kept, ByIndex);
    SortStable(kept, x, ByIndex);
  }

  /** Every extracted heading carries its own element's positive level. */
  lemma ExtractedLevels(elements: seq<HeadingElement>, h: HeadingInfo)
    requires h in ExtractHeadings(elements)
    ensures h.level > 0 && h.level == GetHeadingLevel(h.element) && h.element in elements
  {
    var infos := Infos(elements, 0);
    var kept := Filter(infos, IsHierarchyHeading);
    SortPermutes(kept, ByIndex);
    assert h in multiset(ExtractHeadings(elements));
    FilterMember(infos, IsHierarchyHeading, h);
    var i :| 0 <= i < |infos| && infos[i] == h;
    InfosAt(elements, 0, i);
  }

  /**
   * The loop of `findInvalidHierarchyHeadings` from some heading on, given the
   * previous level (0 before the first): a heading is kept when its level is more
   * than one away from the previous one, and every heading becomes the previous one.
   */
  function Scan(hs: seq<HeadingInfo>, previousLevel: int): seq<HeadingInfo>
    decreases |hs|
  {
    if hs == [] then []
    else
      var currentLevel := hs[0].level;
      (if previousLevel != 0 && Abs(currentLevel - previousLevel) > 1 then [hs[0]] else []) + Scan(hs[1..], currentLevel)
  }

  function Abs(x: int): nat {
    if x < 0 then -x else x
  }

  /** What `findInvalidHierarchyHeadings` returns: nothing for at most one heading, else the scan. */
  function InvalidHierarchy(hs: seq<HeadingInfo>): seq<HeadingInfo> {
    if |hs| <= 1 then [] else Scan(hs, 0)
  }

  /** Reference definition of 9.1.1: heading k (k >= 1) is reported iff its level differs from heading k-1's by more than one. */
  function Jumps(hs: seq<HeadingInfo>): (r: seq<HeadingInfo>)
    ensures |hs| <= 1 ==> r == []
    ensures |hs| >= 1 ==> |r| <= |hs| - 1
    decreases |hs|
  {
    if |hs| <= 1 then []
    else (if Abs(hs[1].level - hs[0].level) > 1 then [hs[1]] else []) + Jumps(hs[1..])
  }

  predicate AllPositive(hs: seq<HeadingInfo>) {
    forall i :: 0 <= i < |hs| ==> hs[i].level > 0
  }

  lemma {:induction false} ScanIsJumps(hs: seq<HeadingInfo>)
    requires hs != [] && AllPositive(hs)
    ensures Scan(hs[1..], hs[0].level) == Jumps(hs)
    decreases |hs|
  {
    if |hs| > 1 {
      var t := hs[1..];
      assert AllPositive(t) by {
        forall i | 0 <= i < |t| ensures t[i].level > 0 {
          assert t[i] == hs[i + 1];
        }
      }
      ScanIsJumps(t);
    }
  }

  /**
   * On positive levels (all that the extraction lets through) the scan is the
   * reference definition: the previous level is always the previous heading's
   * actual level.
   */
  lemma InvalidHierarchyIsJumps(hs: seq<HeadingInfo>)
    requires AllPositive(hs)
    ensures InvalidHierarchy(hs) == Jumps(hs)
  {
    if |hs| > 1 {
      ScanIsJumps(hs);
    }
  }

  lemma ExtractedArePositive(elements: seq<HeadingElement>)
    ensures AllPositive(ExtractHeadings(elements))
  {
    var hs := ExtractHeadings(elements);
    forall i | 0 <= i < |hs| ensures hs[i].level > 0 {
      ExtractedLevels(elements, hs[i]);
    }
  }

  function ViolationFor911(h: HeadingInfo): Violation {
    Violation(h.element.outerHTML, "RGAA - 9.1.1", RuleLink("9.1.1"), HierarchyMessage)
  }

  function Check913(el: HeadingElement): seq<Violation> {
    if !IsValidHeadingStructure(el) then [Violation(el.outerHTML, "RGAA - 9.1.3", RuleLink("9.1.3"), StructureMessage)] else []
  }

  /** The 9.1.1 report of a page: one violation per hierarchy jump, in hierarchy order. */
  function Report911(elements: seq<HeadingElement>): seq<Violation> {
    Map(InvalidHierarchy(ExtractHeadings(elements)), ViolationFor911)
  }

  /** `findInvalidHierarchyHeadings`: the scan with a mutable `previousLevel`. */
  method FindInvalidHierarchyHeadings(headings: seq<HeadingInfo>) returns (invalidHeadings: seq<HeadingInfo>)
    ensures invalidHeadings == InvalidHierarchy(headings)
  {
    invalidHeadings := [];
    if |headings| <= 1 {
      return;
    }
    var previousLevel := 0;
    var i := 0;
    while i < |headings|
      invariant 0 <= i <= |headings|
      invariant invalidHeadings + Scan(headings[i..], previousLevel) == Scan(headings, 0)
    {
      var heading := headings[i];
      var currentLevel := heading.level;
      assert headings[i..][1..] == headings[i + 1..];
      if previousLevel == 0 {
        previousLevel := currentLevel;
      } else {
        if Abs(currentLevel - previousLevel) > 1 {
          invalidHeadings := invalidHeadings + [heading];
        }
        previousLevel := currentLevel;
      }
      i := i + 1;
    }
  }

  /** The heading rules keep the list of the last call's violations. */
  class RGAA9 {
    var wrongElements: seq<Violation>

    constructor ()
      ensures wrongElements == []
    {
      wrongElements := [];
    }

    /** 9.1.1: reset, extract, scan, then one violation per invalid heading. */
    method RGAA911(elements: seq<HeadingElement>) returns (r: seq<Violation>)
      modifies this
      ensures wrongElements == Report911(elements) && r == wrongElements
    {
      wrongElements := [];
      var headings := ExtractHeadings(elements);
      var invalidHeadings := FindInvalidHierarchyHeadings(headings);
      var i := 0;
      while i < |invalidHeadings|
        invariant 0 <= i <= |invalidHeadings|
        invariant wrongElements == Map(invalidHeadings[..i], ViolationFor911)
      {
        MapSnoc(invalidHeadings[..i], invalidHeadings[i], ViolationFor911);
        PrefixSnoc(invalidHeadings, i);
        wrongElements := wrongElements + [ViolationFor911(invalidHeadings[i])];
        i := i + 1;
      }
      assert invalidHeadings[..i] == invalidHeadings;
      r := wrongElements;
    }

    /** 9.1.3: reset, then one violation per element that is not a structured heading, in input order. */
    method RGAA913(elements: seq<HeadingElement>) returns (r: seq<Violation>)
      modifies this
      ensures wrongElements == FlatMap(elements, Check913) && r == wrongElements
    {
      wrongElements := [];
      var i := 0;
      while i < |elements|
        invariant 0 <= i <= |elements|
        invariant wrongElements == FlatMap(elements[..i], Check913)
      {
        var el := elements[i];
        FlatMapSnoc(elements[..i], el, Check913);
        PrefixSnoc(elements, i);
        if !IsValidHeadingStructure(el) {
          wrongElements := wrongElements + Check913(el);
        }
        i := i + 1;
      }
      assert elements[..i] == elements;
      r := wrongElements;
    }
  }

  /** The page's 9.1.1 report is one violation per reference jump among the extracted headings. */
  lemma Report911IsJumps(elements: seq<HeadingElement>)
    ensures Report911(elements) == Map(Jumps(ExtractHeadings(elements)), ViolationFor911)
    ensures |Report911(elements)| < |elements| || elements == []
  {
    var hs := ExtractHeadings(elements);
    ExtractedArePositive(elements);
    InvalidHierarchyIsJumps(hs);
    var kept := Filter(Infos(elements, 0), IsHierarchyHeading);
    SortPermutes(kept, ByIndex);
    assert |hs| == |multiset(hs)| == |multiset(kept)| == |kept|;
  }

  /** Zero or one hierarchy heading never gives a 9.1.1 violation. */
  lemma AtMostOneHeadingIsFine(hs: seq<HeadingInfo>)
    requires |hs| <= 1
    ensures InvalidHierarchy(hs) == []
  {
  }

  /** The reported headings of a list whose first heading is `h`, from those of the rest. */
  lemma JumpsStep(h: HeadingInfo, t: seq<HeadingInfo>)
    requires t != []
    ensures Jumps([h] + t) == (if Abs(t[0].level - h.level) > 1 then [t[0]] else []) + Jumps(t)
  {
    assert ([h] + t)[1..] == t;
  }

  function H(e: HeadingElement, level: int): HeadingInfo {
    HeadingInfo(e, level, 0)
  }

  /** Worked case: levels 1, 3 report the second heading. */
  lemma WorkedCase13(e: HeadingElement)
    ensures InvalidHierarchy([H(e, 1), H(e, 3)]) == [H(e, 3)]
  {
    JumpsStep(H(e, 1), [H(e, 3)]);
    assert [H(e, 1)] + [H(e, 3)] == [H(e, 1), H(e, 3)];
    InvalidHierarchyIsJumps([H(e, 1), H(e, 3)]);
  }

  /** Worked case: levels 1, 3, 5 report two headings. */
  lemma WorkedCase135(e: HeadingElement)
    ensures |InvalidHierarchy([H(e, 1), H(e, 3), H(e, 5)])| == 2
  {
    var t := [H(e, 3), H(e, 5)];
    JumpsStep(H(e, 3), [H(e, 5)]);
    assert [H(e, 3)] + [H(e, 5)] == t;
    JumpsStep(H(e, 1), t);
    assert [H(e, 1)] + t == [H(e, 1), H(e, 3), H(e, 5)];
    InvalidHierarchyIsJumps([H(e, 1), H(e, 3), H(e, 5)]);
  }

  /** Worked case: levels 1, 2, 1 report nothing. */
  lemma WorkedCase121(e: HeadingElement)
    ensures InvalidHierarchy([H(e, 1), H(e, 2), H(e, 1)]) == []
  {
    var t := [H(e, 2), H(e, 1)];
    JumpsStep(H(e, 2), [H(e, 1)]);
    assert [H(e, 2)] + [H(e, 1)] == t;
    JumpsStep(H(e, 1), t);
    assert [H(e, 1)] + t == [H(e, 1), H(e, 2), H(e, 1)];
    InvalidHierarchyIsJumps([H(e, 1), H(e, 2), H(e, 1)]);
  }

  /** Worked case: levels 1, 2, 3, 2 report nothing. */
  lemma WorkedCase1232(e: HeadingElement)
    ensures InvalidHierarchy([H(e, 1), H(e, 2), H(e, 3), H(e, 2)]) == []
  {
    var u := [H(e, 3), H(e, 2)];
    var t := [H(e, 2)] + u;
    JumpsStep(H(e, 3), [H(e, 2)]);
    assert [H(e, 3)] + [H(e, 2)] == u;
    JumpsStep(H(e, 2), u);
    JumpsStep(H(e, 1), t);
    assert [H(e, 1)] + t == [H(e, 1), H(e, 2), H(e, 3), H(e, 2)];
    InvalidHierarchyIsJumps([H(e, 1), H(e, 2), H(e, 3), H(e, 2)]);
  }

  /** Worked case: levels 1, 2, 3, 4, 2 report the last heading, whose level goes back up by two. */
  lemma WorkedCase12342(e: HeadingElement)
    ensures InvalidHierarchy([H(e, 1), H(e, 2), H(e, 3), H(e, 4), H(e, 2)]) == [H(e, 2)]
  {
    var v := [H(e, 4), H(e, 2)];
    var u := [H(e, 3)] + v;
    var t := [H(e, 2)] + u;
    JumpsStep(H(e, 4), [H(e, 2)]);
    assert [H(e, 4)] + [H(e, 2)] == v;
    JumpsStep(H(e, 3), v);
    JumpsStep(H(e, 2), u);
    JumpsStep(H(e, 1), t);
    assert [H(e, 1)] + t == [H(e, 1), H(e, 2), H(e, 3), H(e, 4), H(e, 2)];
    InvalidHierarchyIsJumps([H(e, 1), H(e, 2), H(e, 3), H(e, 4), H(e, 2)]);
  }

  /** An `H1`..`H6` tag alone, in either case, makes a valid heading of that level. */
  lemma HxTagLevel(d: char, upper: bool, html: string)
    requires '1' <= d <= '6'
    ensures var el := DomHeading([if upper then 'H' else 'h', d], None, None, html);
      GetHeadingLevel(el) == d as int - '0' as int && IsValidHeadingStructure(el)
  {
  }

  /** `aria-level="0"` on a `role="heading"` element gives level 0, so neither rule counts it as a heading. */
  lemma AriaLevelZero(html: string)
    ensures var el := VirtualHeading(Some("div"), Some("heading"), Some("0"), html, None);
      GetHeadingLevel(el) == 0 && !IsValidHeadingStructure(el)
  {
    ParseIntOfDigits("0");
    assert DigitsValue("0") == DigitsValue("0"[..0]) * 10 + ('0' as int - '0' as int);
  }
}
