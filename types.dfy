/** The shapes shared by every rule module: a reported violation and the analysis mode. */
module Types {

  /** One reported violation (`LogMessageParams`). */
  datatype Violation = Violation(element: string, rule: string, ruleLink: string, message: string)

  /** The analysis mode: `'dom'`, `'virtual'`, or any other string a caller passes. */
  datatype Mode = Dom | Virtual | Unknown(name: string)

  /** The mode named by a string. */
  function ModeOf(s: string): (m: Mode)
    ensures m.Unknown? <==> s != "dom" && s != "virtual"
    ensures m.Unknown? ==> m.name == s
  {
    if s == "dom" then Dom else if s == "virtual" then Virtual else Unknown(s)
  }

  /** The mode's own string. */
  function ModeName(m: Mode): string {
    match m
    case Dom => "dom"
    case Virtual => "virtual"
    case Unknown(name) => name
  }

  /** Reading a mode back from its string gives the same mode, for every string a caller can pass. */
  lemma ModeRoundTrip(s: string)
    ensures ModeName(ModeOf(s)) == s
  {
  }

  /** Every criterion link points into the RGAA method's list of criteria and tests. */
  const CriteriaUrl := "https://accessibilite.numerique.gouv.fr/methode/criteres-et-tests/#"

  function RuleLink(anchor: string): (link: string)
    ensures |link| == |CriteriaUrl| + |anchor| && link[|CriteriaUrl|..] == anchor
  {
    CriteriaUrl + anchor
  }
}
