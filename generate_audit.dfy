/**
 * The data behind the audit reports: the per-page summary of each rule's
 * violations, and the per-topic compliance table computed from it against the
 * RGAA dictionary.
 */
module Audit {
  import opened Wrappers
  import opened Js
  import opened Types
  import opened Seqs
  import opened Assoc
  import opened Dictionary

  // ---------------------------------------------------------------- mapTemplateObject

  /** One audited page: its url and the rule id to violations map of its run. */
  datatype Page = Page(url: string, result: Entries<string, seq<Violation>>)

  /** `{ element }`: what the report keeps of a violation. */
  datatype Issue = Issue(element: string)

  /** The report entry of one rule. */
  datatype MappedRule = MappedRule(message: string, ruleLink: string, issues: seq<Issue>, hasDomElement: bool)

  type MappedPage = Entries<string, MappedRule>

  /** Page url to its report entries. */
  type Mapped = Entries<string, MappedPage>

  /** `issue.element && issue.element.trim() !== ''` */
  predicate IsDomIssue(issue: Violation) {
    !IsBlank(issue.element)
  }

  /** `value.map(issue => ({ element: issue.element }))` */
  function Issues(value: seq<Violation>): (r: seq<Issue>)
    ensures |r| == |value| && forall i :: 0 <= i < |value| ==> r[i] == Issue(value[i].element)
  {
    if value == [] then [] else Issues(value[..|value| - 1]) + [Issue(value[|value| - 1].element)]
  }

  /** `value[0]?.message || ''` */
  function FirstMessage(value: seq<Violation>): string {
    if value == [] then "" else value[0].message
  }

  /** `value[0]?.ruleLink || ''` */
  function FirstRuleLink(value: seq<Violation>): string {
    if value == [] then "" else value[0].ruleLink
  }

  /** The entry built for one rule key. */
  function MapRule(value: seq<Violation>): MappedRule {
    MappedRule(FirstMessage(value), FirstRuleLink(value), Issues(value), Any(value, IsDomIssue))
  }

  /** The `reduce` over `Object.entries(result.result)`, assigning each key its entry. */
  function MapPage(result: Entries<string, seq<Violation>>): MappedPage {
    MapValues(result, MapRule)
  }

  /** The fold of the page loop: `{ ...mappedResultsObject, [url]: mappedResult }` for each page in turn. */
  function Template(pages: seq<Page>): Mapped {
    if pages == [] then []
    else
      var n := |pages| - 1;
      Put(Template(pages[..n]), pages[n].url, MapPage(pages[n].result))
  }

  /** `mapTemplateObject`: the page loop, reassigning the accumulated object. */
  method MapTemplateObject(results: seq<Page>) returns (mappedResultsObject: Mapped)
    ensures mappedResultsObject == Template(results)
  {
    mappedResultsObject := [];
    for i := 0 to |results|
      invariant mappedResultsObject == Template(results[..i])
    {
      var result := results[i];
      var mappedResult := MapPage(result.result);
      PrefixSnoc(results, i);
      assert results[..i + 1][..i] == results[..i];
      mappedResultsObject := Put(mappedResultsObject, result.url, mappedResult);
    }
    assert results[..|results|] == results;
  }

  /** The entry of a rule: its issues are its violations' elements in order, its message and link those of the first violation. */
  lemma MapRuleSpec(value: seq<Violation>)
    ensures var m := MapRule(value);
      && |m.issues| == |value|
      && (forall i :: 0 <= i < |value| ==> m.issues[i].element == value[i].element)
      && (value == [] ==> m.message == "" && m.ruleLink == "" && !m.hasDomElement)
      && (value != [] ==> m.message == value[0].message && m.ruleLink == value[0].ruleLink)
      && (m.hasDomElement <==> exists i :: 0 <= i < |value| && !IsBlank(value[i].element))
  {
  }

  /** A blank or empty element never counts as a DOM element; any other one does. */
  lemma HasDomElementExamples(v: Violation)
    ensures MapRule([v.(element := "")]).hasDomElement == false
    ensures MapRule([v.(element := "<div></div>")]).hasDomElement
  {
    var e := "<div></div>";
    assert Trim(e) == e by {
      assert TrimStart(e) == e;
      assert TrimEnd(e) == e;
    }
  }

  /** The keys of a page's entries are the rule keys of its results, and each key maps to its own rule's entry. */
  lemma MapPageSpec(result: Entries<string, seq<Violation>>, k: string)
    requires DistinctKeys(result)
    ensures Keys(MapPage(result)) == Keys(result)
    ensures Lookup(MapPage(result), k) == match Lookup(result, k) case Some(v) => Some(MapRule(v)) case None => None
  {
    MapValuesKeys(result, MapRule);
    MapValuesLookup(result, MapRule, k);
  }

  /** The urls of the pages, in order, repeats included. */
  function Urls(pages: seq<Page>): (us: seq<string>)
    ensures |us| == |pages| && forall i :: 0 <= i < |pages| ==> us[i] == pages[i].url
  {
    if pages == [] then [] else Urls(pages[..|pages| - 1]) + [pages[|pages| - 1].url]
  }

  /** The last page with url `u`, if any. */
  function LastWithUrl(pages: seq<Page>, u: string): (p: Option<Page>)
    ensures p.Some? ==> p.value in pages && p.value.url == u
    ensures p.None? <==> u !in Urls(pages)
  {
    if pages == [] then None
    else if pages[|pages| - 1].url == u then Some(pages[|pages| - 1])
    else
      var n := |pages| - 1;
      assert Urls(pages) == Urls(pages[..n]) + [pages[n].url];
      LastWithUrl(pages[..n], u)
  }

  /** One entry per distinct url, in the order the urls first appear. */
  lemma {:induction false} TemplateKeys(pages: seq<Page>)
    ensures Keys(Template(pages)) == Dedup(Urls(pages))
  {
    if pages != [] {
      var n := |pages| - 1;
      var acc := Template(pages[..n]);
      TemplateKeys(pages[..n]);
      assert Template(pages) == Put(acc, pages[n].url, MapPage(pages[n].result));
      KeysPutDedup(acc, Urls(pages[..n]), pages[n].url, MapPage(pages[n].result));
      assert Urls(pages) == Urls(pages[..n]) + [pages[n].url];
    }
  }

  /** Each url holds the entries of the last page with that url: a later page replaces an earlier one. */
  lemma {:induction false} TemplateLookup(pages: seq<Page>, u: string)
    ensures Lookup(Template(pages), u) == match LastWithUrl(pages, u) case Some(p) => Some(MapPage(p.result)) case None => None
  {
    if pages != [] {
      var n := |pages| - 1;
      TemplateLookup(pages[..n], u);
      LookupPut(Template(pages[..n]), pages[n].url, MapPage(pages[n].result), u);
    }
  }

  /** The page appended last wins its url, whatever came before. */
  lemma LaterPageReplaces(pages: seq<Page>, p: Page)
    ensures Lookup(Template(pages + [p]), p.url) == Some(MapPage(p.result))
  {
    TemplateLookup(pages + [p], p.url);
  }

  /** A page whose results are empty gets an empty entry. */
  lemma EmptyPageEntry(pages: seq<Page>, url: string)
    ensures Lookup(Template(pages + [Page(url, [])]), url) == Some([])
  {
    LaterPageReplaces(pages, Page(url, []));
  }

  // ---------------------------------------------------------------- mapAuditDataCompliance

  /** One topic of the compliance table. */
  datatype TopicCompliance = TopicCompliance(compliance: bool, criteriaCount: nat, percentage: int, ruleInError: seq<string>)

  /** Topic number to its compliance. */
  type Table = Entries<string, TopicCompliance>

  /** Topic name to its rule ids, in dictionary order. */
  type Dict = seq<(string, seq<string>)>

  /** `category.split(' - ')[1]`: the number of a topic; a name without the separator gives the key `"undefined"`. */
  function TopicNumber(category: string): string {
    var parts := Split(category, " - ");
    if |parts| > 1 then parts[1] else "undefined"
  }

  /** `Math.round(((n - k) / n) * 100)`, round half up, on exact rationals. */
  function Percentage(n: int, k: int): (p: int)
    requires n > 0
    ensures 2 * n * p - n <= 200 * (n - k) < 2 * n * p + n
  {
    (200 * (n - k) + n) / (2 * n)
  }

  /** A rule in error can only lower the score; none in error scores 100, all in error scores 0. */
  lemma PercentageBounds(n: int, k: int)
    requires 0 <= k <= n && n > 0
    ensures 0 <= Percentage(n, k) <= 100
    ensures k == 0 ==> Percentage(n, k) == 100
    ensures k == n ==> Percentage(n, k) == 0
  {
    var p := Percentage(n, k);
    if p > 100 {
      MulMonotone(2 * n, 101, p);
      assert false;
    }
    if p < 0 {
      MulMonotone(2 * n, p, -1);
      assert false;
    }
    if k == 0 && p < 100 {
      MulMonotone(2 * n, p, 99);
      assert false;
    }
    if k == n && p > 0 {
      MulMonotone(2 * n, 1, p);
      assert false;
    }
  }

  lemma MulMonotone(a: int, b: int, c: int)
    requires a >= 0 && b <= c
    ensures a * b <= a * c
  {
    assert a * c - a * b == a * (c - b);
  }

  /** The scores for one rule in error out of three, two and four rules. */
  lemma PercentageExamples()
    ensures Percentage(3, 1) == 67 && Percentage(2, 1) == 50 && Percentage(4, 1) == 75
  {
  }

  /** `rules[rule]?.issues.length > 0` */
  predicate Offends(rules: MappedPage, rule: string) {
    match Lookup(rules, rule)
    case Some(m) => |m.issues| > 0
    case None => false
  }

  /** `compliance[ruleNumber]?.ruleInError || []` */
  function InErrorSoFar(c: Table, t: string): seq<string> {
    match Lookup(c, t)
    case Some(e) => e.ruleInError
    case None => []
  }

  /** The callback for one dictionary topic, for one rule of one page. */
  function Visit(c: Table, rules: MappedPage, rule: string, topic: (string, seq<string>)): Table {
    var ruleNumber := TopicNumber(topic.0);
    var subRules := topic.1;
    if rule in subRules && Offends(rules, rule) then
      var ruleInError := AddToSet(InErrorSoFar(c, ruleNumber), rule);
      Put(c, ruleNumber, TopicCompliance(false, |subRules|, Percentage(|subRules|, |ruleInError|), ruleInError))
    else if !HasKey(c, ruleNumber) then
      Put(c, ruleNumber, TopicCompliance(true, |subRules|, 100, []))
    else c
  }

  /** The dictionary loop for one rule. */
  function VisitTopics(c: Table, rules: MappedPage, rule: string, topics: Dict): Table {
    if topics == [] then c
    else
      var n := |topics| - 1;
      Visit(VisitTopics(c, rules, rule, topics[..n]), rules, rule, topics[n])
  }

  /** The rule loop of one page, over the keys `ks`. */
  function VisitRules(c: Table, rules: MappedPage, ks: seq<string>, dict: Dict): Table {
    if ks == [] then c
    else
      var n := |ks| - 1;
      VisitTopics(VisitRules(c, rules, ks[..n], dict), rules, ks[n], dict)
  }

  /** The page loop. */
  function VisitPages(c: Table, pages: Mapped, dict: Dict): Table {
    if pages == [] then c
    else
      var n := |pages| - 1;
      var rules := pages[n].1;
      VisitRules(VisitPages(c, pages[..n], dict), rules, Keys(rules), dict)
  }

  /** What `mapAuditDataCompliance` returns for a dictionary. */
  function ComplianceOf(mapped: Mapped, dict: Dict): Table {
    VisitPages([], mapped, dict)
  }

  /** `mapAuditDataCompliance`: three nested loops updating the table in place. */
  method MapAuditDataCompliance(mappedResultsObject: Mapped) returns (compliance: Table)
    ensures compliance == ComplianceOf(mappedResultsObject, DICTIONARY)
  {
    compliance := [];
    ghost var pages := mappedResultsObject;
    for i := 0 to |mappedResultsObject|
      invariant compliance == VisitPages([], pages[..i], DICTIONARY)
    {
      var rules := mappedResultsObject[i].1;
      PrefixSnoc(pages, i);
      assert pages[..i + 1][..i] == pages[..i];
      compliance := ScanPage(compliance, rules, DICTIONARY);
    }
    assert pages[..|pages|] == pages;
  }

  /** `Object.keys(rules).forEach(...)` for one page. */
  method ScanPage(compliance: Table, rules: MappedPage, dict: Dict) returns (r: Table)
    ensures r == VisitRules(compliance, rules, Keys(rules), dict)
  {
    var keys := Keys(rules);
    r := compliance;
    for j := 0 to |keys|
      invariant r == VisitRules(compliance, rules, keys[..j], dict)
    {
      PrefixSnoc(keys, j);
      assert keys[..j + 1][..j] == keys[..j];
      r := ScanRule(r, rules, keys[j], dict);
    }
    assert keys[..|keys|] == keys;
  }

  /** `Object.entries(DICTIONARY).forEach(...)` for one rule: mark its topic in error, or initialise an undefined topic. */
  method ScanRule(compliance: Table, rules: MappedPage, rule: string, dict: Dict) returns (r: Table)
    ensures r == VisitTopics(compliance, rules, rule, dict)
  {
    r := compliance;
    for k := 0 to |dict|
      invariant r == VisitTopics(compliance, rules, rule, dict[..k])
    {
      var (category, subRules) := dict[k];
      var ruleNumber := TopicNumber(category);
      PrefixSnoc(dict, k);
      assert dict[..k + 1][..k] == dict[..k];
      if rule in subRules && Offends(rules, rule) {
        var ruleInError := AddToSet(InErrorSoFar(r, ruleNumber), rule);
        r := Put(r, ruleNumber, TopicCompliance(false, |subRules|, Percentage(|subRules|, |ruleInError|), ruleInError));
      } else if Lookup(r, ruleNumber).None? {
        r := Put(r, ruleNumber, TopicCompliance(true, |subRules|, 100, []));
      }
    }
    assert dict[..|dict|] == dict;
  }

  // ---------------------------------------------------------------- what the table holds

  /** The topic numbers of a dictionary, in its order. */
  function TopicNumbers(dict: Dict): (ts: seq<string>)
    ensures |ts| == |dict| && forall j :: 0 <= j < |dict| ==> ts[j] == TopicNumber(dict[j].0)
  {
    if dict == [] then [] else TopicNumbers(dict[..|dict| - 1]) + [TopicNumber(dict[|dict| - 1].0)]
  }

  /** Distinct topic numbers, and no topic without rules. */
  predicate WellFormedDictionary(dict: Dict) {
    && NoDuplicates(TopicNumbers(dict))
    && forall j :: 0 <= j < |dict| ==> |dict[j].1| > 0
  }

  /** The callback's effect on one topic's entry: `offends` says whether `rule` has issues on the page. */
  function Step(x: Option<TopicCompliance>, rule: string, offends: bool, subRules: seq<string>): TopicCompliance {
    if rule in subRules && offends then
      var ruleInError := AddToSet(if x.Some? then x.value.ruleInError else [], rule);
      TopicCompliance(false, |subRules|, Percentage(|subRules|, |ruleInError|), ruleInError)
    else if x.None? then TopicCompliance(true, |subRules|, 100, [])
    else x.value
  }

  /** The callback writes only its own topic's entry, and writes it as `Step` says. */
  lemma VisitAt(c: Table, rules: MappedPage, rule: string, topic: (string, seq<string>), t: string)
    ensures Lookup(Visit(c, rules, rule, topic), t) ==
      if t == TopicNumber(topic.0) then Some(Step(Lookup(c, t), rule, Offends(rules, rule), topic.1)) else Lookup(c, t)
  {
    var ruleNumber := TopicNumber(topic.0);
    var subRules := topic.1;
    if rule in subRules && Offends(rules, rule) {
      var ruleInError := AddToSet(InErrorSoFar(c, ruleNumber), rule);
      LookupPut(c, ruleNumber, TopicCompliance(false, |subRules|, Percentage(|subRules|, |ruleInError|), ruleInError), t);
    } else if !HasKey(c, ruleNumber) {
      LookupPut(c, ruleNumber, TopicCompliance(true, |subRules|, 100, []), t);
    }
  }

  /** Once a topic is marked non-compliant, no later callback marks it compliant again. */
  lemma NonCompliantStays(c: Table, rules: MappedPage, rule: string, topic: (string, seq<string>), t: string)
    requires Lookup(c, t).Some? && !Lookup(c, t).value.compliance
    ensures Lookup(Visit(c, rules, rule, topic), t).Some? && !Lookup(Visit(c, rules, rule, topic), t).value.compliance
  {
    VisitAt(c, rules, rule, topic, t);
  }

  /** The initialiser only fires for an undefined topic: a defined one is left alone unless the rule is in error. */
  lemma InitialiserOnlyWhenUndefined(c: Table, rules: MappedPage, rule: string, topic: (string, seq<string>))
    requires HasKey(c, TopicNumber(topic.0))
    requires !(rule in topic.1 && Offends(rules, rule))
    ensures Visit(c, rules, rule, topic) == c
  {
  }

  /** The dictionary loop leaves the entries of other keys alone. */
  lemma {:induction false} VisitTopicsElsewhere(c: Table, rules: MappedPage, rule: string, topics: Dict, t: string)
    requires t !in TopicNumbers(topics)
    ensures Lookup(VisitTopics(c, rules, rule, topics), t) == Lookup(c, t)
  {
    if topics != [] {
      var n := |topics| - 1;
      assert TopicNumbers(topics) == TopicNumbers(topics[..n]) + [TopicNumber(topics[n].0)];
      VisitTopicsElsewhere(c, rules, rule, topics[..n], t);
      VisitAt(VisitTopics(c, rules, rule, topics[..n]), rules, rule, topics[n], t);
    }
  }

  /** With distinct topic numbers, the dictionary loop applies `Step` once to each topic's entry. */
  lemma {:induction false} VisitTopicsAt(c: Table, rules: MappedPage, rule: string, topics: Dict, j: int)
    requires NoDuplicates(TopicNumbers(topics)) && 0 <= j < |topics|
    ensures var t := TopicNumber(topics[j].0);
      Lookup(VisitTopics(c, rules, rule, topics), t) == Some(Step(Lookup(c, t), rule, Offends(rules, rule), topics[j].1))
  {
    var n := |topics| - 1;
    var t := TopicNumber(topics[j].0);
    var prefix := topics[..n];
    assert TopicNumbers(topics) == TopicNumbers(prefix) + [TopicNumber(topics[n].0)];
    VisitAt(VisitTopics(c, rules, rule, prefix), rules, rule, topics[n], t);
    if j == n {
      assert TopicNumbers(topics)[n] == t;
      assert t !in TopicNumbers(prefix) by {
        forall i | 0 <= i < n ensures TopicNumbers(prefix)[i] != t {
          assert TopicNumbers(prefix)[i] == TopicNumbers(topics)[i];
        }
      }
      VisitTopicsElsewhere(c, rules, rule, prefix, t);
    } else {
      assert TopicNumbers(topics)[j] == t && TopicNumbers(topics)[n] == TopicNumber(topics[n].0);
      assert NoDuplicates(TopicNumbers(prefix)) by {
        forall a, b | 0 <= a < b < n ensures TopicNumbers(prefix)[a] != TopicNumbers(prefix)[b] {
          assert TopicNumbers(prefix)[a] == TopicNumbers(topics)[a] && TopicNumbers(prefix)[b] == TopicNumbers(topics)[b];
        }
      }
      assert prefix[j] == topics[j];
      VisitTopicsAt(c, rules, rule, prefix, j);
    }
  }

  /** What one page's rule loop reports to a topic: each key with whether it has issues. */
  function RuleEvents(rules: MappedPage, ks: seq<string>): (es: seq<(string, bool)>)
    ensures |es| == |ks|
  {
    if ks == [] then [] else RuleEvents(rules, ks[..|ks| - 1]) + [(ks[|ks| - 1], Offends(rules, ks[|ks| - 1]))]
  }

  /** What the whole run reports to a topic, page by page. */
  function Events(pages: Mapped): seq<(string, bool)> {
    if pages == [] then [] else Events(pages[..|pages| - 1]) + RuleEvents(pages[|pages| - 1].1, Keys(pages[|pages| - 1].1))
  }

  /** One topic's entry after a sequence of reports. */
  function TopicFold(x: Option<TopicCompliance>, events: seq<(string, bool)>, subRules: seq<string>): Option<TopicCompliance> {
    if events == [] then x
    else
      var n := |events| - 1;
      Some(Step(TopicFold(x, events[..n], subRules), events[n].0, events[n].1, subRules))
  }

  lemma {:induction false} TopicFoldAppend(x: Option<TopicCompliance>, a: seq<(string, bool)>, b: seq<(string, bool)>, subRules: seq<string>)
    ensures TopicFold(x, a + b, subRules) == TopicFold(TopicFold(x, a, subRules), b, subRules)
  {
    if b == [] {
      assert a + b == a;
    } else {
      var n := |b| - 1;
      assert (a + b)[..|a| + n] == a + b[..n];
      assert (a + b)[|a| + n] == b[n];
      TopicFoldAppend(x, a, b[..n], subRules);
    }
  }

  lemma {:induction false} VisitRulesAt(c: Table, rules: MappedPage, ks: seq<string>, dict: Dict, j: int)
    requires NoDuplicates(TopicNumbers(dict)) && 0 <= j < |dict|
    ensures var t := TopicNumber(dict[j].0);
      Lookup(VisitRules(c, rules, ks, dict), t) == TopicFold(Lookup(c, t), RuleEvents(rules, ks), dict[j].1)
  {
    if ks != [] {
      var n := |ks| - 1;
      var t := TopicNumber(dict[j].0);
      VisitRulesAt(c, rules, ks[..n], dict, j);
      VisitTopicsAt(VisitRules(c, rules, ks[..n], dict), rules, ks[n], dict, j);
      var es := RuleEvents(rules, ks);
      assert es[..n] == RuleEvents(rules, ks[..n]);
    }
  }

  lemma {:induction false} VisitPagesAt(c: Table, pages: Mapped, dict: Dict, j: int)
    requires NoDuplicates(TopicNumbers(dict)) && 0 <= j < |dict|
    ensures var t := TopicNumber(dict[j].0);
      Lookup(VisitPages(c, pages, dict), t) == TopicFold(Lookup(c, t), Events(pages), dict[j].1)
  {
    if pages != [] {
      var n := |pages| - 1;
      var t := TopicNumber(dict[j].0);
      var rules := pages[n].1;
      VisitPagesAt(c, pages[..n], dict, j);
      VisitRulesAt(VisitPages(c, pages[..n], dict), rules, Keys(rules), dict, j);
      TopicFoldAppend(Lookup(c, t), Events(pages[..n]), RuleEvents(rules, Keys(rules)), dict[j].1);
    }
  }

  /** The rules of a topic reported with issues, in report order, repeats included. */
  function Offending(events: seq<(string, bool)>, subRules: seq<string>): seq<string> {
    if events == [] then []
    else
      var n := |events| - 1;
      Offending(events[..n], subRules) + (if events[n].1 && events[n].0 in subRules then [events[n].0] else [])
  }

  /** The entry of a topic with `ruleInError` as its rules in error, out of `n`. */
  function Entry(ruleInError: seq<string>, n: int): TopicCompliance
    requires n > 0
  {
    TopicCompliance(ruleInError == [], n, Percentage(n, |ruleInError|), ruleInError)
  }

  /**
   * A topic that has seen at least one report holds its offending rules in
   * first-seen order, the rule count of its dictionary entry, the rounded share
   * of rules not in error, and is compliant exactly when no rule is in error.
   */
  lemma {:induction false} TopicFoldSpec(events: seq<(string, bool)>, subRules: seq<string>)
    requires |subRules| > 0
    ensures TopicFold(None, events, subRules) ==
      if events == [] then None else Some(Entry(Dedup(Offending(events, subRules)), |subRules|))
  {
    if events != [] {
      var n := |events| - 1;
      var prefix := events[..n];
      var (rule, offends) := events[n];
      TopicFoldSpec(prefix, subRules);
      var off := Offending(prefix, subRules);
      var added := if offends && rule in subRules then [rule] else [];
      assert Offending(events, subRules) == off + added;
      assert TopicFold(None, events, subRules) == Some(Step(TopicFold(None, prefix, subRules), rule, offends, subRules));
      if prefix == [] {
        StepFromNone(rule, offends, subRules);
        assert off + added == added;
      } else {
        StepFromEntry(off, rule, offends, subRules);
      }
    }
  }

  /** The first report to a topic creates its entry. */
  lemma StepFromNone(rule: string, offends: bool, subRules: seq<string>)
    requires |subRules| > 0
    ensures Step(None, rule, offends, subRules) == Entry(Dedup(if offends && rule in subRules then [rule] else []), |subRules|)
  {
    if offends && rule in subRules {
      assert [] + [rule] == [rule];
      DedupSnoc([], rule);
    } else {
      PercentageBounds(|subRules|, 0);
    }
  }

  /** A later report either adds its rule to the rules in error or leaves the entry as it was. */
  lemma StepFromEntry(off: seq<string>, rule: string, offends: bool, subRules: seq<string>)
    requires |subRules| > 0
    ensures Step(Some(Entry(Dedup(off), |subRules|)), rule, offends, subRules) ==
      Entry(Dedup(off + (if offends && rule in subRules then [rule] else [])), |subRules|)
  {
    if offends && rule in subRules {
      AddToSetOfDedup(off, rule);
      DedupSnoc(off, rule);
    } else {
      assert off + [] == off;
    }
  }

  /** The compliance of every dictionary topic after the whole run: absent when no page has a rule, else as `TopicFoldSpec` says. */
  lemma ComplianceAt(mapped: Mapped, dict: Dict, j: int)
    requires WellFormedDictionary(dict) && 0 <= j < |dict|
    ensures Lookup(ComplianceOf(mapped, dict), TopicNumber(dict[j].0)) ==
      if Events(mapped) == [] then None else Some(Entry(Dedup(Offending(Events(mapped), dict[j].1)), |dict[j].1|))
  {
    VisitPagesAt([], mapped, dict, j);
    TopicFoldSpec(Events(mapped), dict[j].1);
  }

  // ---------------------------------------------------------------- key order of the table

  lemma VisitKeys(c: Table, rules: MappedPage, rule: string, topic: (string, seq<string>))
    ensures Keys(Visit(c, rules, rule, topic)) ==
      if TopicNumber(topic.0) in Keys(c) then Keys(c) else Keys(c) + [TopicNumber(topic.0)]
  {
    var t := TopicNumber(topic.0);
    HasKeyIffInKeys(c, t);
    var subRules := topic.1;
    if rule in subRules && Offends(rules, rule) {
      var ruleInError := AddToSet(InErrorSoFar(c, t), rule);
      KeysPut(c, t, TopicCompliance(false, |subRules|, Percentage(|subRules|, |ruleInError|), ruleInError));
    } else if !HasKey(c, t) {
      KeysPut(c, t, TopicCompliance(true, |subRules|, 100, []));
    }
  }

  /** A dictionary loop over topics already in the table keeps its keys. */
  lemma {:induction false} VisitTopicsKeysKept(c: Table, rules: MappedPage, rule: string, topics: Dict)
    requires forall j :: 0 <= j < |topics| ==> TopicNumber(topics[j].0) in Keys(c)
    ensures Keys(VisitTopics(c, rules, rule, topics)) == Keys(c)
  {
    if topics != [] {
      var n := |topics| - 1;
      var before := VisitTopics(c, rules, rule, topics[..n]);
      assert forall j :: 0 <= j < n ==> topics[..n][j] == topics[j];
      VisitTopicsKeysKept(c, rules, rule, topics[..n]);
      assert TopicNumber(topics[n].0) in Keys(before);
      VisitKeys(before, rules, rule, topics[n]);
      assert VisitTopics(c, rules, rule, topics) == Visit(before, rules, rule, topics[n]);
    }
  }

  /** A dictionary loop on an empty table inserts every topic, in dictionary order. */
  lemma {:induction false} VisitTopicsKeysFresh(c: Table, rules: MappedPage, rule: string, topics: Dict)
    requires Keys(c) == [] && NoDuplicates(TopicNumbers(topics))
    ensures Keys(VisitTopics(c, rules, rule, topics)) == TopicNumbers(topics)
  {
    if topics != [] {
      var n := |topics| - 1;
      var prefix := topics[..n];
      var t := TopicNumber(topics[n].0);
      assert TopicNumbers(topics) == TopicNumbers(prefix) + [t];
      assert NoDuplicates(TopicNumbers(prefix)) && t !in TopicNumbers(prefix) by {
        NoDuplicatesSnoc(TopicNumbers(prefix), t);
      }
      VisitTopicsKeysFresh(c, rules, rule, prefix);
      VisitKeys(VisitTopics(c, rules, rule, prefix), rules, rule, topics[n]);
    }
  }

  lemma NoDuplicatesSnoc<T>(s: seq<T>, x: T)
    requires NoDuplicates(s + [x])
    ensures NoDuplicates(s) && x !in s
  {
    var t := s + [x];
    forall i, j | 0 <= i < j < |s| ensures s[i] != s[j] {
      assert s[i] == t[i] && s[j] == t[j];
    }
    forall i | 0 <= i < |s| ensures s[i] != x {
      assert s[i] == t[i] && x == t[|s|];
    }
  }

  lemma {:induction false} VisitRulesKeys(c: Table, rules: MappedPage, ks: seq<string>, dict: Dict)
    requires NoDuplicates(TopicNumbers(dict)) && (Keys(c) == [] || Keys(c) == TopicNumbers(dict))
    ensures Keys(VisitRules(c, rules, ks, dict)) == if ks == [] then Keys(c) else TopicNumbers(dict)
  {
    if ks != [] {
      var n := |ks| - 1;
      VisitRulesKeys(c, rules, ks[..n], dict);
      var before := VisitRules(c, rules, ks[..n], dict);
      if Keys(before) == [] {
        VisitTopicsKeysFresh(before, rules, ks[n], dict);
      } else {
        VisitTopicsKeysKept(before, rules, ks[n], dict);
      }
    }
  }

  lemma {:induction false} VisitPagesKeys(c: Table, pages: Mapped, dict: Dict)
    requires NoDuplicates(TopicNumbers(dict)) && (Keys(c) == [] || Keys(c) == TopicNumbers(dict))
    ensures Keys(VisitPages(c, pages, dict)) == if Events(pages) == [] then Keys(c) else TopicNumbers(dict)
  {
    if pages != [] {
      var n := |pages| - 1;
      var rules := pages[n].1;
      VisitPagesKeys(c, pages[..n], dict);
      VisitRulesKeys(VisitPages(c, pages[..n], dict), rules, Keys(rules), dict);
      assert |RuleEvents(rules, Keys(rules))| == |Keys(rules)|;
    }
  }

  /**
   * The table lists every dictionary topic, in dictionary order, as soon as some
   * page has a rule key, and no other key; with no rule key at all it is empty.
   */
  lemma ComplianceKeys(mapped: Mapped, dict: Dict)
    requires NoDuplicates(TopicNumbers(dict))
    ensures Keys(ComplianceOf(mapped, dict)) == if Events(mapped) == [] then [] else TopicNumbers(dict)
  {
    VisitPagesKeys([], mapped, dict);
  }

  // ---------------------------------------------------------------- the rules in error

  lemma {:induction false} OffendingMember(events: seq<(string, bool)>, subRules: seq<string>, r: string)
    ensures r in Offending(events, subRules) <==> r in subRules && (r, true) in events
  {
    if events != [] {
      var n := |events| - 1;
      OffendingMember(events[..n], subRules, r);
      assert events == events[..n] + [events[n]];
    }
  }

  lemma {:induction false} RuleEventsMember(rules: MappedPage, ks: seq<string>, r: string)
    ensures (r, true) in RuleEvents(rules, ks) <==> r in ks && Offends(rules, r)
  {
    if ks != [] {
      var n := |ks| - 1;
      RuleEventsMember(rules, ks[..n], r);
      assert ks == ks[..n] + [ks[n]];
    }
  }

  /** A rule with issues is one of the page's keys. */
  lemma OffendsIsKey(rules: MappedPage, r: string)
    requires Offends(rules, r)
    ensures r in Keys(rules)
  {
    HasKeyIffInKeys(rules, r);
  }

  lemma {:induction false} EventsMember(pages: Mapped, r: string)
    ensures (r, true) in Events(pages) <==> exists i :: 0 <= i < |pages| && Offends(pages[i].1, r)
  {
    if pages != [] {
      var n := |pages| - 1;
      var rules := pages[n].1;
      EventsMember(pages[..n], r);
      RuleEventsMember(rules, Keys(rules), r);
      if Offends(rules, r) {
        OffendsIsKey(rules, r);
      }
      if exists i :: 0 <= i < |pages| && Offends(pages[i].1, r) {
        var i :| 0 <= i < |pages| && Offends(pages[i].1, r);
        if i < n {
          assert pages[..n][i] == pages[i];
        }
      }
      if exists i :: 0 <= i < n && Offends(pages[..n][i].1, r) {
        var i :| 0 <= i < n && Offends(pages[..n][i].1, r);
        assert pages[..n][i] == pages[i];
      }
    }
  }

  /**
   * A rule is in error for a topic exactly when it belongs to the topic and has
   * at least one issue on some page.
   */
  lemma RuleInErrorMembers(mapped: Mapped, subRules: seq<string>, r: string)
    ensures r in Dedup(Offending(Events(mapped), subRules)) <==>
      r in subRules && exists i :: 0 <= i < |mapped| && Offends(mapped[i].1, r)
  {
    var off := Offending(Events(mapped), subRules);
    OffendingMember(Events(mapped), subRules, r);
    EventsMember(mapped, r);
    if r in off {
      var i :| 0 <= i < |off| && off[i] == r;
      assert off[i] in Dedup(off);
    }
    if r in Dedup(off) {
      var i :| 0 <= i < |Dedup(off)| && Dedup(off)[i] == r;
      assert Dedup(off)[i] in off;
    }
  }

  /** The table stays empty exactly when every page has an empty rule map. */
  lemma {:induction false} NoEventsIff(pages: Mapped)
    ensures Events(pages) == [] <==> forall i :: 0 <= i < |pages| ==> pages[i].1 == []
  {
    if pages != [] {
      var n := |pages| - 1;
      NoEventsIff(pages[..n]);
      var rules := pages[n].1;
      assert |RuleEvents(rules, Keys(rules))| == |rules|;
      assert forall i :: 0 <= i < n ==> pages[..n][i] == pages[i];
    }
  }

  // ---------------------------------------------------------------- the RGAA dictionary

  /** `'RGAA - d'.split(' - ')[1]` is `d` when `d` has no space. */
  lemma TopicNumberOf(d: string)
    requires Lacks(d, ' ')
    ensures TopicNumber("RGAA" + " - " + d) == d
  {
    var a, pat := "RGAA", " - ";
    var s := a + pat + d;
    IndexOfAfter(a, pat, d);
    assert s[..|a|] == a;
    assert s[|a| + |pat|..] == d;
    IndexOfAbsent(d, pat);
    assert Split(d, pat) == [d];
    assert Split(s, pat) == [a] + Split(d, pat);
  }

  /** The numbers of the RGAA topics, in dictionary order. */
  const RgaaTopics: seq<string> := ["1", "2", "3", "6", "8", "9", "11"]

  /** Each dictionary name is `RGAA - ` followed by its topic number. */
  lemma DictionaryNames(dict: Dict, j: int)
    requires dict == DICTIONARY && 0 <= j < |dict|
    ensures |dict| == |RgaaTopics| && dict[j].0 == "RGAA" + " - " + RgaaTopics[j] && Lacks(RgaaTopics[j], ' ')
    ensures |dict[j].1| > 0
  {
  }

  lemma {:induction false} TopicNumbersOf(dict: Dict, numbers: seq<string>)
    requires |dict| == |numbers| && forall j :: 0 <= j < |dict| ==> TopicNumber(dict[j].0) == numbers[j]
    ensures TopicNumbers(dict) == numbers
  {
  }

  /** The dictionary's topic numbers are 1, 2, 3, 6, 8, 9 and 11. */
  lemma DictionaryTopicNumbers(dict: Dict)
    requires dict == DICTIONARY
    ensures TopicNumbers(dict) == RgaaTopics
  {
    forall j | 0 <= j < |dict| ensures TopicNumber(dict[j].0) == RgaaTopics[j] {
      DictionaryNames(dict, j);
      TopicNumberOf(RgaaTopics[j]);
    }
    DictionaryNames(dict, 0);
    TopicNumbersOf(dict, RgaaTopics);
  }

  /** The RGAA dictionary is well formed: distinct topic numbers, and rules under every topic. */
  lemma DictionaryWellFormed(dict: Dict)
    requires dict == DICTIONARY
    ensures WellFormedDictionary(dict)
  {
    DictionaryTopicNumbers(dict);
    RgaaTopicsDistinct();
    forall j | 0 <= j < |dict| ensures |dict[j].1| > 0 {
      DictionaryNames(dict, j);
    }
  }

  lemma RgaaTopicsDistinct()
    ensures NoDuplicates(RgaaTopics)
  {
    var t := RgaaTopics;
    forall i, j | 0 <= i < j < |t| ensures t[i] != t[j] {
      assert |t[i]| != |t[j]| || t[i][0] != t[j][0];
    }
  }

  /** Every percentage in the table lies between 0 and 100. */
  lemma EntryPercentageBounds(events: seq<(string, bool)>, subRules: seq<string>)
    requires |subRules| > 0
    ensures 0 <= Entry(Dedup(Offending(events, subRules)), |subRules|).percentage <= 100
  {
    var off := Offending(events, subRules);
    forall i | 0 <= i < |Dedup(off)| ensures Dedup(off)[i] in subRules {
      OffendingMember(events, subRules, Dedup(off)[i]);
    }
    DistinctSubsetLength(Dedup(off), subRules);
    PercentageBounds(|subRules|, |Dedup(off)|);
  }

  /**
   * What `mapAuditDataCompliance` computes for each topic of a well-formed
   * dictionary such as the RGAA one: once some page has a rule key, the topic
   * has its rule count, a duplicate-free list of exactly its rules with an issue
   * on some page, a score between 0 and 100, and is compliant exactly when that
   * list is empty; before that, the topic is absent.
   */
  lemma ComplianceSpec(mapped: Mapped, dict: Dict, j: int)
    requires WellFormedDictionary(dict) && 0 <= j < |dict|
    ensures var e := Lookup(ComplianceOf(mapped, dict), TopicNumber(dict[j].0));
      && (e.None? <==> forall i :: 0 <= i < |mapped| ==> mapped[i].1 == [])
      && (e.Some? ==>
        && e.value.criteriaCount == |dict[j].1|
        && (e.value.compliance <==> e.value.ruleInError == [])
        && NoDuplicates(e.value.ruleInError)
        && 0 <= e.value.percentage <= 100
        && e.value.percentage == Percentage(|dict[j].1|, |e.value.ruleInError|)
        && forall r :: r in e.value.ruleInError <==>
          r in dict[j].1 && exists i :: 0 <= i < |mapped| && Offends(mapped[i].1, r))
  {
    ComplianceAt(mapped, dict, j);
    NoEventsIff(mapped);
    EntryPercentageBounds(Events(mapped), dict[j].1);
    forall r {
      RuleInErrorMembers(mapped, dict[j].1, r);
    }
  }

  /**
   * Against the RGAA dictionary the table's keys are 1, 2, 3, 6, 8, 9 and 11 in
   * that order, which is also the order JavaScript lists integer-like keys in.
   */
  lemma RgaaComplianceKeys(mapped: Mapped, dict: Dict)
    requires dict == DICTIONARY
    ensures Keys(ComplianceOf(mapped, dict)) ==
      if forall i :: 0 <= i < |mapped| ==> mapped[i].1 == [] then [] else RgaaTopics
  {
    DictionaryWellFormed(dict);
    DictionaryTopicNumbers(dict);
    ComplianceKeys(mapped, dict);
    NoEventsIff(mapped);
  }

  lemma SingletonOfDistinct(s: seq<string>, x: string)
    requires NoDuplicates(s) && x in s && forall i :: 0 <= i < |s| ==> s[i] == x
    ensures s == [x]
  {
    DistinctSubsetLength(s, [x]);
  }

  /** A topic with exactly one rule with issues, out of `n` rules, reports that rule and the score for one rule in error out of `n`. */
  lemma OneRuleInError(mapped: Mapped, dict: Dict, j: int, r: string)
    requires WellFormedDictionary(dict) && 0 <= j < |dict|
    requires r in dict[j].1 && exists i :: 0 <= i < |mapped| && Offends(mapped[i].1, r)
    requires forall i, q :: 0 <= i < |mapped| && q in dict[j].1 && Offends(mapped[i].1, q) ==> q == r
    ensures Lookup(ComplianceOf(mapped, dict), TopicNumber(dict[j].0)) ==
      Some(TopicCompliance(false, |dict[j].1|, Percentage(|dict[j].1|, 1), [r]))
  {
    ComplianceSpec(mapped, dict, j);
    var i :| 0 <= i < |mapped| && Offends(mapped[i].1, r);
    assert mapped[i].1 != [];
    var e := Lookup(ComplianceOf(mapped, dict), TopicNumber(dict[j].0)).value;
    assert r in e.ruleInError;
    forall k | 0 <= k < |e.ruleInError| ensures e.ruleInError[k] == r {
      assert e.ruleInError[k] in e.ruleInError;
    }
    SingletonOfDistinct(e.ruleInError, r);
  }

  /**
   * One rule in error in topics 1, 2 and 8 of the RGAA dictionary, which hold
   * three, two and four rules, scores 67, 50 and 75.
   */
  lemma RgaaPartialScores(dict: Dict)
    requires dict == DICTIONARY
    ensures |dict[0].1| == 3 && |dict[1].1| == 2 && |dict[4].1| == 4
    ensures Percentage(|dict[0].1|, 1) == 67 && Percentage(|dict[1].1|, 1) == 50 && Percentage(|dict[4].1|, 1) == 75
  {
    PercentageExamples();
  }
}
