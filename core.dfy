/**
 * The aggregation engine: every rule module's violations in a fixed order,
 * grouped by rule id, the groups ordered by the dotted rule number; and the
 * output-format guard of the audit generator.
 */
module Core {
  import opened Wrappers
  import opened Js
  import opened Types
  import opened Seqs
  import opened Assoc

  /** What each rule call of a run returned, in the order the results are spread into one list. */
  datatype RuleOutputs = RuleOutputs(
    images: seq<Violation>, frames: seq<Violation>, framesBannedWords: seq<Violation>,
    doctype: seq<Violation>, lang: seq<Violation>, title: seq<Violation>, contrasts: seq<Violation>,
    links: seq<Violation>, formFieldsLabels: seq<Violation>, formFieldsLabelStructure: seq<Violation>)

  /** `allResults` */
  function Flatten(o: RuleOutputs): seq<Violation> {
    o.images + o.frames + o.framesBannedWords + o.doctype + o.lang + o.title + o.contrasts
      + o.links + o.formFieldsLabels + o.formFieldsLabelStructure
  }

  /** The result of a run: rule id to its violations, in key order. */
  type Grouped = Entries<string, seq<Violation>>

  // ---------------------------------------------------------------- grouping

  /** `acc[rule]` read back as a list: the violations already grouped under `rule`, none if it is new. */
  function Group(acc: Grouped, rule: string): seq<Violation> {
    match Lookup(acc, rule)
    case Some(l) => l
    case None => []
  }

  /** The `reduce` that groups: a violation with a non-empty rule is appended to its rule's list; one without a rule is dropped. */
  function GroupResults(vs: seq<Violation>): Grouped {
    if vs == [] then []
    else
      var acc := GroupResults(vs[..|vs| - 1]);
      var res := vs[|vs| - 1];
      if res.rule != [] then Put(acc, res.rule, Group(acc, res.rule) + [res]) else acc
  }

  function HasRule(k: string): Violation -> bool {
    (v: Violation) => v.rule == k
  }

  /** Some violation of `vs` has rule `k`. */
  predicate Mentions(vs: seq<Violation>, k: string) {
    exists i :: 0 <= i < |vs| && vs[i].rule == k
  }

  lemma FilterNone<T>(s: seq<T>, p: T -> bool)
    requires forall i :: 0 <= i < |s| ==> !p(s[i])
    ensures Filter(s, p) == []
  {
    if Filter(s, p) != [] {
      var y := Filter(s, p)[0];
      FilterMember(s, p, y);
    }
  }

  lemma MentionsSnoc(vs: seq<Violation>, res: Violation, k: string)
    ensures Mentions(vs + [res], k) <==> Mentions(vs, k) || res.rule == k
  {
    var t := vs + [res];
    if Mentions(vs, k) {
      var i :| 0 <= i < |vs| && vs[i].rule == k;
      assert t[i] == vs[i];
    }
    if Mentions(t, k) && !Mentions(vs, k) {
      var i :| 0 <= i < |t| && t[i].rule == k;
      if i < |vs| {
        assert vs[i] == t[i];
      }
    }
    assert t[|vs|] == res;
  }

  /**
   * Each non-empty rule id in the input has exactly one group, holding the input's
   * violations with that rule in their input order; no other key has a group.
   */
  lemma {:induction false} GroupResultsLookup(vs: seq<Violation>, k: string)
    ensures Lookup(GroupResults(vs), k) == if k != [] && Mentions(vs, k) then Some(Filter(vs, HasRule(k))) else None
  {
    if vs != [] {
      var n := |vs| - 1;
      var prefix, res := vs[..n], vs[n];
      var acc := GroupResults(prefix);
      assert vs == prefix + [res];
      GroupResultsLookup(prefix, k);
      MentionsSnoc(prefix, res, k);
      FilterSnoc(prefix, res, HasRule(k));
      assert HasRule(k)(res) <==> res.rule == k;
      if res.rule != [] {
        assert GroupResults(vs) == Put(acc, res.rule, Group(acc, res.rule) + [res]);
        LookupPut(acc, res.rule, Group(acc, res.rule) + [res], k);
        if k == res.rule && !Mentions(prefix, k) {
          FilterNone(prefix, HasRule(k));
        }
      } else {
        assert GroupResults(vs) == acc;
        assert Filter(vs, HasRule(k)) == Filter(prefix, HasRule(k)) + (if HasRule(k)(res) then [res] else []);
        if k != [] {
          assert Mentions(vs, k) == Mentions(prefix, k);
          assert Filter(vs, HasRule(k)) == Filter(prefix, HasRule(k));
        }
      }
    }
  }

  /** No key has an empty list. */
  lemma GroupsNonEmpty(vs: seq<Violation>, k: string)
    requires Lookup(GroupResults(vs), k).Some?
    ensures Lookup(GroupResults(vs), k).value != []
  {
    GroupResultsLookup(vs, k);
    var i :| 0 <= i < |vs| && vs[i].rule == k;
    FilterMember(vs, HasRule(k), vs[i]);
  }

  /** The non-empty rule ids of the input, in order, repeats included. */
  function RuleIds(vs: seq<Violation>): seq<string> {
    if vs == [] then []
    else RuleIds(vs[..|vs| - 1]) + (if vs[|vs| - 1].rule != [] then [vs[|vs| - 1].rule] else [])
  }

  /** The keys are the distinct non-empty rule ids in their first-seen order. */
  lemma {:induction false} GroupResultsKeys(vs: seq<Violation>)
    ensures Keys(GroupResults(vs)) == Dedup(RuleIds(vs))
  {
    if vs != [] {
      var n := |vs| - 1;
      var prefix, res := vs[..n], vs[n];
      var acc := GroupResults(prefix);
      GroupResultsKeys(prefix);
      assert RuleIds(vs) == RuleIds(prefix) + (if res.rule != [] then [res.rule] else []);
      if res.rule != [] {
        assert GroupResults(vs) == Put(acc, res.rule, Group(acc, res.rule) + [res]);
        KeysPutDedup(acc, RuleIds(prefix), res.rule, Group(acc, res.rule) + [res]);
      } else {
        assert GroupResults(vs) == acc;
        assert RuleIds(vs) == RuleIds(prefix);
      }
    }
  }

  lemma GroupResultsDistinct(vs: seq<Violation>)
    ensures DistinctKeys(GroupResults(vs))
  {
    var g := GroupResults(vs);
    GroupResultsKeys(vs);
    forall i, j | 0 <= i < j < |g| ensures g[i].0 != g[j].0 {
      assert Keys(g)[i] == g[i].0 && Keys(g)[j] == g[j].0;
    }
  }

  // ---------------------------------------------------------------- parseRule

  predicate IsRuleChar(c: char) {
    ('0' <= c <= '9') || c == '.'
  }

  /** The longest prefix made of digits and dots. */
  function RuleNumber(s: string): (d: string)
    ensures |d| <= |s| && d == s[..|d|]
    ensures forall i :: 0 <= i < |d| ==> IsRuleChar(d[i])
    ensures |d| < |s| ==> !IsRuleChar(s[|d|])
  {
    if s != [] && IsRuleChar(s[0]) then [s[0]] + RuleNumber(s[1..]) else []
  }

  /** A prefix of rule characters stopped by the end or by another character is the longest one. */
  lemma RuleNumberUnique(s: string, d: string)
    requires |d| <= |s| && d == s[..|d|]
    requires forall i :: 0 <= i < |d| ==> IsRuleChar(d[i])
    requires |d| == |s| || !IsRuleChar(s[|d|])
    ensures d == RuleNumber(s)
  {
  }

  /** `parseInt(part, 10)` with NaN read as 0. */
  function PartValue(part: string): int {
    match ParseInt(part)
    case Some(n) => n
    case None => 0
  }

  /**
   * `parseRule`: after the first `- `, the longest run of digits and dots, split on
   * the dots, each part a number; no `- ` or an empty run gives no parts.
   */
  function ParsedRule(rule: string): seq<int> {
    var dashIndex := IndexOf(rule, "- ");
    if dashIndex == -1 then []
    else
      var ruleNumber := RuleNumber(rule[dashIndex + 2..]);
      if ruleNumber == [] then [] else Map(Split(ruleNumber, "."), PartValue)
  }

  /** `parseRule`, building the run of digits and dots character by character. */
  method ParseRule(rule: string) returns (parts: seq<int>)
    ensures parts == ParsedRule(rule)
  {
    var dashIndex := IndexOf(rule, "- ");
    if dashIndex == -1 {
      return [];
    }
    var afterDash := rule[dashIndex + 2..];
    var ruleNumber := "";
    var j := 0;
    while j < |afterDash|
      invariant 0 <= j <= |afterDash| && ruleNumber == afterDash[..j]
      invariant forall i :: 0 <= i < j ==> IsRuleChar(ruleNumber[i])
    {
      var c := afterDash[j];
      if IsRuleChar(c) {
        assert afterDash[..j + 1] == afterDash[..j] + [c];
        ruleNumber := ruleNumber + [c];
      } else {
        break;
      }
      j := j + 1;
    }
    RuleNumberUnique(afterDash, ruleNumber);
    ParsedRuleAfterDash(rule, dashIndex, ruleNumber);
    if ruleNumber == [] {
      return [];
    }
    parts := Map(Split(ruleNumber, "."), PartValue);
  }

  lemma ParsedRuleAfterDash(rule: string, dashIndex: int, ruleNumber: string)
    requires dashIndex == IndexOf(rule, "- ") && dashIndex != -1
    requires ruleNumber == RuleNumber(rule[dashIndex + 2..])
    ensures ParsedRule(rule) == if ruleNumber == [] then [] else Map(Split(ruleNumber, "."), PartValue)
  {
  }

  lemma {:induction false} JoinRuleChars(parts: seq<string>)
    requires parts != [] && forall k :: 0 <= k < |parts| ==> AllDigits(parts[k])
    ensures |Join(parts, ".")| >= |parts[0]|
    ensures forall i :: 0 <= i < |Join(parts, ".")| ==> IsRuleChar(Join(parts, ".")[i])
  {
    if |parts| > 1 {
      var rest := Join(parts[1..], ".");
      JoinRuleChars(parts[1..]);
      var s := parts[0] + "." + rest;
      forall i | 0 <= i < |s| ensures IsRuleChar(s[i]) {
        if i < |parts[0]| {
          assert s[i] == parts[0][i];
        } else if i > |parts[0]| {
          assert s[i] == rest[i - |parts[0]| - 1];
        }
      }
    }
  }

  /**
   * Round trip: a rule id made of a prefix without `-`, then `- `, then dotted
   * digit groups and anything that does not start with a digit or a dot, parses to
   * the groups' values.
   */
  lemma ParseDottedRule(prefix: string, groups: seq<string>, rest: string)
    requires Lacks(prefix, '-')
    requires groups != [] && groups[0] != [] && forall k :: 0 <= k < |groups| ==> AllDigits(groups[k])
    requires rest == [] || !IsRuleChar(rest[0])
    ensures var r := ParsedRule(prefix + "- " + Join(groups, ".") + rest);
      |r| == |groups| && forall k :: 0 <= k < |groups| ==> r[k] == DigitsValue(groups[k])
  {
    var num := Join(groups, ".");
    var rule := prefix + "- " + num + rest;
    assert rule == prefix + "- " + (num + rest);
    IndexOfAfter(prefix, "- ", num + rest);
    assert rule[|prefix| + 2..] == num + rest;
    JoinRuleChars(groups);
    assert (num + rest)[..|num|] == num;
    RuleNumberUnique(num + rest, num);
    SplitJoin(groups, '.');
    forall k | 0 <= k < |groups| ensures Map(groups, PartValue)[k] == DigitsValue(groups[k]) {
      MapIndex(groups, PartValue, k);
      ParseIntOfDigits(groups[k]);
    }
  }

  /** No `- `, or nothing numeric right after it, gives no parts. */
  lemma UnparsableRules(rule: string)
    ensures IndexOf(rule, "- ") == -1 ==> ParsedRule(rule) == []
    ensures var d := IndexOf(rule, "- ");
      d != -1 && d + 2 < |rule| && !IsRuleChar(rule[d + 2]) ==> ParsedRule(rule) == []
  {
  }

  lemma DigitValue(c: char)
    requires '0' <= c <= '9'
    ensures DigitsValue([c]) == c as int - '0' as int
  {
    assert [c][..0] == [];
  }

  lemma TwoDigitValue(c: char, d: char)
    requires '0' <= c <= '9' && '0' <= d <= '9'
    ensures DigitsValue([c, d]) == 10 * (c as int - '0' as int) + (d as int - '0' as int)
  {
    assert [c, d][..1] == [c];
    DigitValue(c);
  }

  lemma JoinThree(x: string, y: string, z: string)
    ensures Join([x, y, z], ".") == x + "." + (y + "." + z)
  {
    assert [x, y, z][1..] == [y, z] && [y, z][1..] == [z];
    JoinTwo(y, z);
  }

  lemma JoinTwo(x: string, y: string)
    ensures Join([x, y], ".") == x + "." + y
  {
    assert [x, y][1..] == [y];
  }

  /** `ParseDottedRule` with nothing after the groups, on a rule id given whole. */
  lemma ParseGroups(rule: string, prefix: string, groups: seq<string>)
    requires Lacks(prefix, '-')
    requires groups != [] && groups[0] != [] && forall k :: 0 <= k < |groups| ==> AllDigits(groups[k])
    requires rule == prefix + "- " + Join(groups, ".")
    ensures |ParsedRule(rule)| == |groups|
    ensures forall k :: 0 <= k < |groups| ==> ParsedRule(rule)[k] == DigitsValue(groups[k])
  {
    assert rule == prefix + "- " + Join(groups, ".") + "";
    ParseDottedRule(prefix, groups, "");
  }

  /** A rule id with three digit groups after `- ` parses to their three values. */
  lemma ParseThreeGroups(rule: string, prefix: string, x: string, y: string, z: string)
    requires rule == prefix + "- " + (x + "." + (y + "." + z))
    requires Lacks(prefix, '-') && x != [] && AllDigits(x) && AllDigits(y) && AllDigits(z)
    ensures ParsedRule(rule) == [DigitsValue(x), DigitsValue(y), DigitsValue(z)]
  {
    var groups := [x, y, z];
    JoinThree(x, y, z);
    ParseGroups(rule, prefix, groups);
    assert groups[0] == x && groups[1] == y && groups[2] == z;
    SeqOfThree(ParsedRule(rule), DigitsValue(x), DigitsValue(y), DigitsValue(z));
  }

  /** A rule id with two digit groups after `- ` parses to their two values. */
  lemma ParseTwoGroups(rule: string, prefix: string, x: string, y: string)
    requires rule == prefix + "- " + (x + "." + y)
    requires Lacks(prefix, '-') && x != [] && AllDigits(x) && AllDigits(y)
    ensures ParsedRule(rule) == [DigitsValue(x), DigitsValue(y)]
  {
    var groups := [x, y];
    JoinTwo(x, y);
    ParseGroups(rule, prefix, groups);
    assert groups[0] == x && groups[1] == y;
    SeqOfTwo(ParsedRule(rule), DigitsValue(x), DigitsValue(y));
  }

  lemma SeqOfThree(r: seq<int>, a: int, b: int, c: int)
    requires |r| == 3 && r[0] == a && r[1] == b && r[2] == c
    ensures r == [a, b, c]
  {
  }

  lemma SeqOfTwo(r: seq<int>, a: int, b: int)
    requires |r| == 2 && r[0] == a && r[1] == b
    ensures r == [a, b]
  {
  }

  /** `"RGAA - 11.1.2"` parses to [11, 1, 2]. */
  lemma ParsedExample1112(rule: string)
    requires rule == "RGAA - 11.1.2"
    ensures ParsedRule(rule) == [11, 1, 2]
  {
    assert rule == "RGAA " + "- " + ("11" + "." + ("1" + "." + "2"));
    DigitValue('1');
    DigitValue('2');
    TwoDigitValue('1', '1');
    ParseThreeGroups(rule, "RGAA ", "11", "1", "2");
  }

  /** `"RGAA - 8.3"` parses to [8, 3]. */
  lemma ParsedExample83(rule: string)
    requires rule == "RGAA - 8.3"
    ensures ParsedRule(rule) == [8, 3]
  {
    assert rule == "RGAA " + "- " + ("8" + "." + "3");
    DigitValue('8');
    DigitValue('3');
    ParseTwoGroups(rule, "RGAA ", "8", "3");
  }

  /** `"RGAA - 2.1.1"` parses to [2, 1, 1]. */
  lemma ParsedExample211(rule: string)
    requires rule == "RGAA - 2.1.1"
    ensures ParsedRule(rule) == [2, 1, 1]
  {
    assert rule == "RGAA " + "- " + ("2" + "." + ("1" + "." + "1"));
    DigitValue('2');
    DigitValue('1');
    ParseThreeGroups(rule, "RGAA ", "2", "1", "1");
  }

  // ---------------------------------------------------------------- comparator

  /** `parts[i] ?? 0` */
  function At(parts: seq<int>, i: nat): int {
    if i < |parts| then parts[i] else 0
  }

  function Max(a: nat, b: nat): nat {
    if a >= b then a else b
  }

  /** The comparator's value from position `i` on: the first difference, missing positions read as 0. */
  function CompareFrom(a: seq<int>, b: seq<int>, i: nat): int
    decreases Max(|a|, |b|) - i
  {
    if i >= Max(|a|, |b|) then 0
    else if At(a, i) != At(b, i) then At(a, i) - At(b, i)
    else CompareFrom(a, b, i + 1)
  }

  /** The comparator of the key sort on two rule ids. */
  function CompareRules(a: string, b: string): int {
    CompareFrom(ParsedRule(a), ParsedRule(b), 0)
  }

  /** The comparator, parsing both ids, then comparing their parts. */
  method Compare(a: string, b: string) returns (r: int)
    ensures r == CompareRules(a, b)
  {
    var aParts := ParseRule(a);
    var bParts := ParseRule(b);
    r := CompareParts(aParts, bParts);
  }

  /** The loop over the positions, with an early return at the first difference. */
  method CompareParts(aParts: seq<int>, bParts: seq<int>) returns (r: int)
    ensures r == CompareFrom(aParts, bParts, 0)
  {
    var i := 0;
    while i < Max(|aParts|, |bParts|)
      invariant 0 <= i <= Max(|aParts|, |bParts|)
      invariant CompareFrom(aParts, bParts, i) == CompareFrom(aParts, bParts, 0)
    {
      var aVal := if i < |aParts| then aParts[i] else 0;
      var bVal := if i < |bParts| then bParts[i] else 0;
      if aVal != bVal {
        return aVal - bVal;
      }
      i := i + 1;
    }
    return 0;
  }

  /** One step of the comparison holds at every position, also past both ends. */
  lemma CompareStep(a: seq<int>, b: seq<int>, i: nat)
    ensures CompareFrom(a, b, i) == if At(a, i) != At(b, i) then At(a, i) - At(b, i) else CompareFrom(a, b, i + 1)
  {
  }

  lemma {:induction false} CompareAntisymmetric(a: seq<int>, b: seq<int>, i: nat)
    ensures CompareFrom(a, b, i) == -CompareFrom(b, a, i)
    decreases Max(|a|, |b|) - i
  {
    if i < Max(|a|, |b|) && At(a, i) == At(b, i) {
      CompareAntisymmetric(a, b, i + 1);
    }
  }

  lemma {:induction false} CompareTransitive(a: seq<int>, b: seq<int>, c: seq<int>, i: nat)
    requires CompareFrom(a, b, i) <= 0 && CompareFrom(b, c, i) <= 0
    ensures CompareFrom(a, c, i) <= 0
    decreases Max(Max(|a|, |b|), |c|) - i
  {
    if i < Max(Max(|a|, |b|), |c|) {
      CompareStep(a, b, i);
      CompareStep(b, c, i);
      CompareStep(a, c, i);
      if At(a, i) == At(b, i) && At(b, i) == At(c, i) {
        CompareTransitive(a, b, c, i + 1);
      }
    }
  }

  /** Trailing zeros do not matter: 8.3 and 8.3.0 compare equal. */
  lemma TrailingZeros(a: seq<int>)
    ensures CompareFrom(a, a + [0], 0) == 0
  {
    var b := a + [0];
    var i := |b|;
    while i > 0
      invariant 0 <= i <= |b|
      invariant CompareFrom(a, b, i) == 0
      decreases i
    {
      i := i - 1;
      assert At(a, i) == At(b, i);
    }
  }

  /** `a` may precede `b` in the key order. */
  predicate RuleLe(a: string, b: string) {
    CompareRules(a, b) <= 0
  }

  /** A comparator the sort can use consistently: total and transitive. */
  lemma RuleLeTotalPreorder()
    ensures TotalPreorder(RuleLe)
  {
    forall x: string, y: string ensures RuleLe(x, y) || RuleLe(y, x) {
      CompareAntisymmetric(ParsedRule(x), ParsedRule(y), 0);
    }
    forall x: string, y: string, z: string | RuleLe(x, y) && RuleLe(y, z) ensures RuleLe(x, z) {
      CompareTransitive(ParsedRule(x), ParsedRule(y), ParsedRule(z), 0);
    }
  }

  /** 2.1.1 comes before 8.3, which comes before 11.1.2: numbers are compared as numbers, not as text. */
  lemma KeyOrderExample(a: string, b: string, c: string)
    requires a == "RGAA - 2.1.1" && b == "RGAA - 8.3" && c == "RGAA - 11.1.2"
    ensures CompareRules(a, b) < 0 && CompareRules(b, c) < 0
  {
    ParsedExample211(a);
    ParsedExample83(b);
    ParsedExample1112(c);
  }

  // ---------------------------------------------------------------- run

  /** The `reduce` that re-keys: each key in turn gets its group. */
  function Rekey(keys: seq<string>, grouped: Grouped): Grouped {
    if keys == [] then []
    else
      var key := keys[|keys| - 1];
      Put(Rekey(keys[..|keys| - 1], grouped), key, Group(grouped, key))
  }

  /** Re-keying distinct keys gives exactly those keys, in that order. */
  lemma {:induction false} RekeyKeys(keys: seq<string>, grouped: Grouped)
    requires NoDuplicates(keys)
    ensures Keys(Rekey(keys, grouped)) == keys
  {
    if keys != [] {
      var n := |keys| - 1;
      var prefix, key := keys[..n], keys[n];
      assert keys == prefix + [key];
      NoDuplicatesPrefix(prefix, key);
      RekeyKeys(prefix, grouped);
      var acc := Rekey(prefix, grouped);
      KeysPut(acc, key, Group(grouped, key));
      HasKeyIffInKeys(acc, key);
    }
  }

  lemma NoDuplicatesPrefix(prefix: seq<string>, x: string)
    requires NoDuplicates(prefix + [x])
    ensures NoDuplicates(prefix) && x !in prefix
  {
    var s := prefix + [x];
    forall i, j | 0 <= i < j < |prefix| ensures prefix[i] != prefix[j] {
      assert prefix[i] == s[i] && prefix[j] == s[j];
    }
    forall i | 0 <= i < |prefix| ensures prefix[i] != x {
      assert prefix[i] == s[i] && x == s[|prefix|];
    }
  }

  /** After re-keying, each listed key holds its own group and no other key is present. */
  lemma {:induction false} RekeyLookup(keys: seq<string>, grouped: Grouped, k: string)
    ensures Lookup(Rekey(keys, grouped), k) == if k in keys then Some(Group(grouped, k)) else None
  {
    if keys != [] {
      var n := |keys| - 1;
      var prefix, key := keys[..n], keys[n];
      assert keys == prefix + [key];
      RekeyLookup(prefix, grouped, k);
      LookupPut(Rekey(prefix, grouped), key, Group(grouped, key), k);
    }
  }

  /** `Object.keys(groupedResults).sort(comparator)` */
  function SortedKeys(grouped: Grouped): seq<string> {
    Sort(Keys(grouped), RuleLe)
  }

  /** `Core.run` from the rule results on. */
  function Run(o: RuleOutputs): Grouped {
    var grouped := GroupResults(Flatten(o));
    Rekey(SortedKeys(grouped), grouped)
  }

  /**
   * The keys of a run are the distinct non-empty rule ids of the results,
   * ordered by rule number, ids with equal numbers in first-seen order.
   */
  lemma RunKeys(o: RuleOutputs, k: string)
    ensures var keys := Keys(Run(o));
      && multiset(keys) == multiset(Dedup(RuleIds(Flatten(o))))
      && Sorted(keys, RuleLe)
      && Equivalents(keys, k, RuleLe) == Equivalents(Dedup(RuleIds(Flatten(o))), k, RuleLe)
  {
    var vs := Flatten(o);
    var grouped := GroupResults(vs);
    var keys := Keys(grouped);
    GroupResultsKeys(vs);
    SortDistinct(keys, RuleLe);
    RekeyKeys(SortedKeys(grouped), grouped);
    RuleLeTotalPreorder();
    SortPermutes(keys, RuleLe);
    SortSorted(keys, RuleLe);
    SortStable(keys, k, RuleLe);
  }

  /** Under each key of a run, the violations with that rule in result order, never an empty list; no other key. */
  lemma RunLookup(o: RuleOutputs, k: string)
    ensures Lookup(Run(o), k) == if k != [] && Mentions(Flatten(o), k) then Some(Filter(Flatten(o), HasRule(k))) else None
    ensures Lookup(Run(o), k).Some? ==> Lookup(Run(o), k).value != []
  {
    var vs := Flatten(o);
    var grouped := GroupResults(vs);
    var keys := Keys(grouped);
    GroupResultsKeys(vs);
    GroupResultsLookup(vs, k);
    RekeyLookup(SortedKeys(grouped), grouped, k);
    SortPermutes(keys, RuleLe);
    assert k in SortedKeys(grouped) <==> k in keys by {
      assert k in SortedKeys(grouped) <==> k in multiset(SortedKeys(grouped));
    }
    HasKeyIffInKeys(grouped, k);
    if Lookup(Run(o), k).Some? {
      GroupsNonEmpty(vs, k);
    }
  }

  /** Within a group, the violations follow the order of the rule calls, then each call's own order. */
  lemma GroupFollowsCallOrder(o: RuleOutputs, k: string)
    ensures Filter(Flatten(o), HasRule(k)) ==
      Filter(o.images, HasRule(k)) + Filter(o.frames, HasRule(k)) + Filter(o.framesBannedWords, HasRule(k))
      + Filter(o.doctype, HasRule(k)) + Filter(o.lang, HasRule(k)) + Filter(o.title, HasRule(k))
      + Filter(o.contrasts, HasRule(k)) + Filter(o.links, HasRule(k)) + Filter(o.formFieldsLabels, HasRule(k))
      + Filter(o.formFieldsLabelStructure, HasRule(k))
  {
    var p := HasRule(k);
    var s1 := o.images + o.frames;
    var s2 := s1 + o.framesBannedWords;
    var s3 := s2 + o.doctype;
    var s4 := s3 + o.lang;
    var s5 := s4 + o.title;
    var s6 := s5 + o.contrasts;
    var s7 := s6 + o.links;
    var s8 := s7 + o.formFieldsLabels;
    FilterAppend(o.images, o.frames, p);
    FilterAppend(s1, o.framesBannedWords, p);
    FilterAppend(s2, o.doctype, p);
    FilterAppend(s3, o.lang, p);
    FilterAppend(s4, o.title, p);
    FilterAppend(s5, o.contrasts, p);
    FilterAppend(s6, o.links, p);
    FilterAppend(s7, o.formFieldsLabels, p);
    FilterAppend(s8, o.formFieldsLabelStructure, p);
  }

  /** A run without violations returns an empty result. */
  lemma EmptyRun()
    ensures Run(RuleOutputs([], [], [], [], [], [], [], [], [], [])) == []
  {
    var o := RuleOutputs([], [], [], [], [], [], [], [], [], []);
    assert Flatten(o) == [];
  }

  // ---------------------------------------------------------------- generateAudit

  /** The requested formats; an absent flag is `false`. */
  datatype AuditOptions = AuditOptions(html: bool, json: bool, cli: bool, baseUrl: Option<string>)

  /** A renderer call of the audit generator. */
  datatype AuditCall = HtmlAudit(baseUrl: Option<string>) | JsonAudit(baseUrl: Option<string>) | CliAudit

  const NoFormatMessage := "No audit format specified. Please set html, json, or cli to true in options."

  /**
   * `generateAudit`: the renderer calls it makes, html then json then cli, or its
   * error when no format is requested.
   */
  method GenerateAudit(options: AuditOptions) returns (r: Result<seq<AuditCall>, string>)
    ensures r.Failure? <==> !options.html && !options.json && !options.cli
    ensures r.Failure? ==> r.error == NoFormatMessage
    ensures r.Success? ==>
      && (HtmlAudit(options.baseUrl) in r.value <==> options.html)
      && (JsonAudit(options.baseUrl) in r.value <==> options.json)
      && (CliAudit in r.value <==> options.cli)
      && |r.value| == (if options.html then 1 else 0) + (if options.json then 1 else 0) + (if options.cli then 1 else 0)
      && (options.html ==> r.value[0] == HtmlAudit(options.baseUrl))
      && (options.cli ==> r.value[|r.value| - 1] == CliAudit)
  {
    var calls: seq<AuditCall> := [];
    if options.html {
      calls := calls + [HtmlAudit(options.baseUrl)];
    }
    if options.json {
      calls := calls + [JsonAudit(options.baseUrl)];
    }
    if options.cli {
      calls := calls + [CliAudit];
    }
    if !options.html && !options.json && !options.cli {
      return Failure(NoFormatMessage);
    }
    return Success(calls);
  }
}
