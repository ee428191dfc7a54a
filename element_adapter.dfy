/** Normalising a heading candidate, DOM node or plain record, to one record shape. */
module ElementAdapter {
  import opened Wrappers
  import Rgaa9

  /**
   * What the adapter can read from its input. A DOM element has a tag name,
   * attribute reads that are `null` when absent, and possibly a numeric `index`
   * expando; a virtual record may lack any field. `asString` is `String(el)`,
   * the fallback markup.
   */
  datatype Element =
    | DomElement(tag: string, roleAttribute: Option<string>, ariaLevelAttribute: Option<string>,
                 textContent: Option<string>, outerHTML: Option<string>, index: Option<int>, asString: string)
    | VirtualElement(tagName: Option<string>, role: Option<string>, ariaLevel: Option<string>,
                     textContent: Option<string>, outerHTML: Option<string>, index: Option<int>, asString: string)

  /** `NormalizedHeading`: an absent or `null` field is `None`; `original` is the input itself. */
  datatype NormalizedHeading = NormalizedHeading(
    tagName: Option<string>, role: Option<string>, ariaLevel: Option<string>,
    textContent: Option<string>, outerHTML: string, index: int, original: Element)

  /** `a ?? b` for a string that may be absent. */
  function OrElse(a: Option<string>, b: string): (r: string)
    ensures a.Some? ==> r == a.value
    ensures a.None? ==> r == b
  {
    match a
    case Some(s) => s
    case None => b
  }

  /** `typeof x.index === 'number' ? x.index : fallbackIndex` */
  function IndexOr(index: Option<int>, fallbackIndex: int): (r: int)
    ensures index.Some? ==> r == index.value
    ensures index.None? ==> r == fallbackIndex
  {
    match index
    case Some(n) => n
    case None => fallbackIndex
  }

  /** `toNormalizedHeading(el, fallbackIndex = 0)`: a field projection, one branch per kind of input. */
  function ToNormalizedHeading(el: Element, fallbackIndex: int := 0): (h: NormalizedHeading)
    ensures h.original == el
    ensures h.index == IndexOr(el.index, fallbackIndex)
    ensures h.outerHTML == OrElse(el.outerHTML, el.asString)
    ensures h.textContent == el.textContent
    ensures el.DomElement? ==> h.tagName == Some(el.tag) && h.role == el.roleAttribute && h.ariaLevel == el.ariaLevelAttribute
    ensures el.VirtualElement? ==> h.tagName == el.tagName && h.role == el.role && h.ariaLevel == el.ariaLevel
  {
    match el
    case DomElement(tagName, role, ariaLevel, textContent, outerHTML, index, asString) =>
      NormalizedHeading(Some(tagName), role, ariaLevel, textContent, OrElse(outerHTML, asString), IndexOr(index, fallbackIndex), el)
    case VirtualElement(tagName, role, ariaLevel, textContent, outerHTML, index, asString) =>
      NormalizedHeading(tagName, role, ariaLevel, textContent, OrElse(outerHTML, asString), IndexOr(index, fallbackIndex), el)
  }

  /** Without a numeric `index` the position defaults to 0, and one passed explicitly is used as it is. */
  lemma FallbackIndexDefault(el: Element, n: int)
    requires el.index.None?
    ensures ToNormalizedHeading(el).index == 0
    ensures ToNormalizedHeading(el, n).index == n
  {
  }

  /** A numeric `index` of the element itself wins over any fallback. */
  lemma OwnIndexWins(el: Element, n: int, m: int)
    requires el.index == Some(n)
    ensures ToNormalizedHeading(el, m).index == n
    ensures ToNormalizedHeading(el, m) == ToNormalizedHeading(el)
  {
  }

  /**
   * The two branches project alike: a DOM element and a virtual record holding
   * the same values normalise to the same record apart from `original`.
   */
  lemma BranchesAgree(tagName: string, role: Option<string>, ariaLevel: Option<string>, text: Option<string>,
                      html: Option<string>, index: Option<int>, asString: string, fallbackIndex: int)
    ensures var d := ToNormalizedHeading(DomElement(tagName, role, ariaLevel, text, html, index, asString), fallbackIndex);
            var v := ToNormalizedHeading(VirtualElement(Some(tagName), role, ariaLevel, text, html, index, asString), fallbackIndex);
            d.(original := v.original) == v
  {
  }

  /** The heading 9.1 reads from the same input, with `html` as its markup. */
  function AsHeading(el: Element, html: string): Rgaa9.HeadingElement {
    match el
    case DomElement(tag, role, ariaLevel, _, _, _, _) => Rgaa9.DomHeading(tag, role, ariaLevel, html)
    case VirtualElement(tagName, role, ariaLevel, _, _, index, _) => Rgaa9.VirtualHeading(tagName, role, ariaLevel, html, index)
  }

  /**
   * The adapter reads what 9.1 reads: the tag, role and aria-level that
   * `getHeadingLevel` tests, so both give the same level. The index agrees
   * with `getElementIndex` except on a DOM node with its own numeric `index`
   * other than the fallback, which 9.1 ignores and the adapter keeps.
   */
  lemma AgreesWithHeadingReads(el: Element, html: string, fallbackIndex: int)
    ensures var h := ToNormalizedHeading(el, fallbackIndex);
      var e := AsHeading(el, html);
      && h.tagName == Rgaa9.TagOf(e) && h.role == Rgaa9.RoleOf(e) && h.ariaLevel == Rgaa9.AriaLevelOf(e)
      && (h.index == Rgaa9.GetElementIndex(e, fallbackIndex) <==> (el.VirtualElement? || el.index.None? || el.index == Some(fallbackIndex)))
  {
  }
}
