# a11ylint core, modelled in Dafny

a11ylint checks web pages against the French accessibility standard RGAA
(Référentiel Général d'Amélioration de l'Accessibilité). Each rule module looks
at the elements it is given and returns one violation record per failure:
`element` (the markup or the page URL), `rule` (`"RGAA - 1.1.1"`), `ruleLink`
and `message`. The modules are:

- 1.1, text alternatives of `img`, `area` and `svg`;
- 2.1, frame titles;
- 3.2, colour contrast by text size and weight;
- 6.2, link labels;
- 8.1, 8.3 and 8.5, doctype, language and title;
- 9.1, heading structure and hierarchy;
- 11.1, form field labels and how they are linked.

A rule module runs in `dom` mode, on live DOM nodes, or in `virtual` mode, on
plain records with the same information.

`Core.run` calls the rule modules for 1.1, 2.1, 6.2, 8.1, 8.3, 8.5, 3.2 and 11.1 in a fixed order and concatenates the results. 9.1 is not part of `Core.run`.
It groups the violations by rule id and orders the groups numerically by the
dotted rule number. The audit generator takes the per-page results. It builds the
per-page report object (`mapTemplateObject`) and the per-topic compliance table
(`mapAuditDataCompliance`). The table is computed against the RGAA dictionary of
topics and rules.

The model has one Dafny module per source file:

- `Rgaa1`, `Rgaa2`, `Rgaa3`, `Rgaa6`, `Rgaa8`, `Rgaa9` and `Rgaa11` for the rule modules;
- `Color` and `ElementAdapter` for the utilities;
- `Core`, and `Audit` (file `generate_audit.dfy`).

Shared modules:

- `Types`: the violation record and the mode.
- `Dictionary`: the RGAA dictionary.
- `Wrappers`: Option and Result.
- `Js`: the JavaScript string and number built-ins the core relies on. This covers truthiness, `trim`, `indexOf`, `includes`, `replace` of the first occurrence, `split`, `parseInt` and `Number`, with NaN as `None`.
- `Seqs`: flat-map, filter, map, a stable insertion sort, and the `[...new Set(..)]` de-duplication.
- `Assoc`: a JavaScript object as an ordered list of entries. Assigning to an existing key keeps the key's first position; assigning a new key appends it.

Form of the model:

- Classes for the source classes with state:
  - `Rgaa6.RGAA6` and `Rgaa9.RGAA9` hold the `wrongElements` list that each call resets and fills;
  - `Rgaa3.RGAA3` and `Rgaa11.RGAA11` hold the mode fixed at construction.
- The source's `forEach` loops are methods with `while`/`for` loops. Each is proved equal to a specification function on its inputs, usually `FlatMap(elements, Check)`. The lemmas then state what that function reports.
- Elements are snapshots of what the code reads from them: attributes, properties, computed style, siblings, and the labels a query finds.

Where the code does something other than what a reader might expect, the model follows the code:

- `parseRule` reads the number after the FIRST `"- "` of a rule id. A run of digits and dots that starts with `.` still counts, and an empty group reads as 0.
- `isBold` is `Number(fontWeight) >= 600`. The keyword `bold` is NaN to `Number`, so it is never bold (`Rgaa3.KeywordBoldIsNotBold`).
- 8.1.3 ("doctype should be first") is pushed when the first child's node type EQUALS `DOCUMENT_TYPE_NODE`, that is, when the doctype is first. Two absent values also compare equal (`Rgaa8.DoctypeReport`, `Rgaa8.CopiedDocumentReportsDoctypeFirst`).
- 8.3 and 8.5 throw a TypeError on a document that has no `documentElement` or no `title`, such as a spread copy of a document object where these were not set by hand. The throw aborts the whole call, and the violations already pushed are lost (`Rgaa8.Throwing83`, `Rgaa8.Throwing85`, `Rgaa8.CopiedDocumentThrows`). `Core.run` would throw with it.
- In DOM mode the adjacent-button branch of 11.1.1 never changes the verdict. `hasLabel` is already set for any `label[for]` that names the id, hidden or not (`Rgaa11.DomLabelledIff`).

## Model

| member | source | states |
|---|---|---|
| Types.ModeOf | src/types.ts:8 | a string names `dom`, `virtual`, or an unknown mode that keeps the string |
| Types.ModeRoundTrip | src/types.ts:8 | reading a mode back from its string gives the string again, for every string |
| Types.RuleLink | src/rules/RGAA1.ts:15 | every criterion link is the RGAA criteria page URL followed by the criterion's anchor |
| Rgaa1.RGAA11 | src/rules/RGAA1.ts:5-48 | the violations are exactly the per-element check's, in element order |
| Rgaa1.CheckCases | src/rules/RGAA1.ts:8-44 | an img is reported with 1.1.1 iff alt, title, aria-label and aria-labelledby are all falsy. An area is reported with 1.1.2 iff alt and aria-label are falsy. An svg is reported with 1.1.5 iff its role is `img` and both ARIA labels are falsy. Other elements are never reported, at most one violation per element, carrying its markup |
| Rgaa1.SvgWithoutImgRoleNeverFlagged | src/rules/RGAA1.ts:36 | an svg whose role is not `img` is never reported |
| Rgaa1.ReportShape | src/rules/RGAA1.ts:7-47 | at most one violation per element; a concatenated input gives the concatenated report; a violation is reported iff some element produces it |
| Rgaa2.RGAA211 | src/rules/RGAA2.ts:7-21 | the violations are exactly the per-frame check's, in frame order |
| Rgaa2.ReportIsUntitledFrames | src/rules/RGAA2.ts:10-17 | the report is one 2.1.1 violation for each frame without a title attribute, in order |
| Rgaa2.TitledFrameNeverFlagged | src/rules/RGAA2.ts:10 | a frame with a title attribute, even an empty one, is never reported |
| Rgaa6.RGAA6.constructor | src/rules/RGAA6.ts:15 | the list of violations starts empty |
| Rgaa6.RGAA6.RGAA62 | src/rules/RGAA6.ts:21-39 | the list is reset, then holds exactly the per-link check's violations in order, and is returned |
| Rgaa6.HasLinkTitle | src/rules/RGAA6.ts:41-58 | a link is labelled iff its trimmed aria-label, its aria-labelledby (untrimmed), its trimmed title or its trimmed text is non-empty |
| Rgaa6.ReportIsUnlabelledLinks | src/rules/RGAA6.ts:24-36 | the report is one 6.2.1 violation per non-exempt unlabelled link, in order |
| Rgaa6.NonAnchorNeverExempt | src/rules/RGAA6.ts:25-35 | a DOM element that is not an anchor is reported iff it is unlabelled, whatever its href |
| Rgaa6.InPageLinksExempt | src/rules/RGAA6.ts:25-31 | an anchor or a virtual link whose href contains `#` is never reported |
| Rgaa6.LabelledbyNotTrimmed | src/rules/RGAA6.ts:43-51 | a whitespace-only aria-labelledby labels a link; a whitespace-only aria-label does not |
| Rgaa8.RGAA81 | src/rules/RGAA8.ts:4-30 | the violations are exactly the per-document doctype checks, in document order |
| Rgaa8.RGAA83 | src/rules/RGAA8.ts:32-47 | the result is the per-document language checks collected in document order, or the TypeError of the first document without `documentElement`, which discards what was pushed before it |
| Rgaa8.RGAA85 | src/rules/RGAA8.ts:49-63 | the result is the per-document title checks collected in document order, or the TypeError of the first document without a title |
| Rgaa8.DoctypeReport | src/rules/RGAA8.ts:8-27 | 8.1.1 is reported iff there is no doctype; 8.1.3 iff the first child's node type equals the doctype node constant; 8.1.1 comes first; both carry the page URL |
| Rgaa8.CopiedDocumentReportsDoctypeFirst | src/rules/RGAA8.ts:19-27 | a document with no doctype, no first child and no node-type constant gets both 8.1.1 and 8.1.3 |
| Rgaa8.LangAndTitleReports | src/rules/RGAA8.ts:36-59 | on one document, 8.3 throws iff `documentElement` is absent and otherwise reports iff `lang` is absent or empty; 8.5 throws iff the title is absent and otherwise reports iff it is empty; at most once each |
| Rgaa8.CollectAppend | src/rules/RGAA8.ts:35-51 | a throwing `forEach` over a concatenation is the loop over the first part, then over the second, the first throw winning |
| Rgaa8.CollectPrefixFailure | src/rules/RGAA8.ts:35-51 | once a document throws, the whole call throws that error whatever follows |
| Rgaa8.CollectFailsIffSomeThrows | src/rules/RGAA8.ts:35-51 | the call throws iff the check of some document throws |
| Rgaa8.CollectWithoutThrow | src/rules/RGAA8.ts:35-51 | when no document throws, the result is every document's violations in document order |
| Rgaa8.Throwing83 | src/rules/RGAA8.ts:35-46 | 8.3 throws iff some document has no `documentElement`, and otherwise reports document by document |
| Rgaa8.Throwing85 | src/rules/RGAA8.ts:51-60 | 8.5 throws iff some document has no title, and otherwise reports document by document |
| Rgaa8.CopiedDocumentThrows | src/rules/RGAA8.ts:36-52 | a spread copy of a document with neither `documentElement` nor `title` set makes 8.3 and 8.5 throw a TypeError |
| Rgaa8.ReportsInDocumentOrder | src/rules/RGAA8.ts:7-52 | each of the three checks reports document by document: a concatenated input gives the concatenated report, or for 8.3 and 8.5 the first throw |
| Color.ContrastSymmetric | src/utils/color.ts:26-33 | the ratio does not depend on which colour is the background |
| Color.ContrastAtLeastOne | src/utils/color.ts:29-32 | with non-negative luminances the ratio is a number of at least 1 |
| Color.ContrastSelf | src/utils/color.ts:26-33 | a colour against itself has ratio exactly 1 |
| Color.LinearizeBranches | src/utils/color.ts:52-55 | a channel is `v/255/12.92` up to alpha 0.03928 and the gamma curve of `(alpha+0.055)/1.055` above it; NaN stays NaN |
| Color.BlackLuminance | src/utils/color.ts:51-58 | black has luminance 0 |
| Color.LuminanceWeights | src/utils/color.ts:18-22 | the luminance is the weighted sum with weights 0.2126, 0.7152 and 0.0722, which add up to 1 |
| Color.NaNChannelPoisonsContrast | src/utils/color.ts:26-58 | a NaN channel makes the luminance NaN and the contrast with any colour NaN |
| Color.ChannelsInRangeGiveRatioAtLeastOne | src/utils/color.ts:26-58 | non-negative channels and a non-negative gamma curve give a ratio of at least 1 |
| Color.StripRgb | src/utils/color.ts:36 | removing the first `rgb(` and the first `)` of `rgb(body)` leaves `body` |
| Color.SplitRgbBody | src/utils/color.ts:37 | splitting `R,G,B` on commas gives the three fields |
| Color.GetRGBOfRgbString | src/utils/color.ts:35-49 | `rgb(R, G, B)` with decimal fields and any whitespace after the commas parses to the three values |
| Color.DecimalFields | src/utils/color.ts:39-48 | `Number` of each field, leading whitespace included, is its decimal value |
| ElementAdapter.ToNormalizedHeading | src/utils/elementAdapter.ts:19-44 | the record keeps the input as `original`; it takes the element's own numeric index, else the fallback; it takes the markup, else the string form; a DOM node gives its tag and the role and aria-level attributes, a record its own fields |
| ElementAdapter.FallbackIndexDefault | src/utils/elementAdapter.ts:19-44 | without an own index, the position defaults to 0, and an explicit fallback is used as given |
| ElementAdapter.OwnIndexWins | src/utils/elementAdapter.ts:28-41 | an element's own numeric index wins over any fallback |
| ElementAdapter.BranchesAgree | src/utils/elementAdapter.ts:20-43 | a DOM node and a record holding the same values normalise to the same record |
| ElementAdapter.AgreesWithHeadingReads | src/utils/elementAdapter.ts:19-44 | the record carries the tag, role and aria-level that the 9.1 level reads, and its index is 9.1's `getElementIndex` except for a DOM node's own numeric `index` other than the fallback |
| Rgaa3.RGAA3.constructor | src/rules/RGAA3.ts:20-22 | the mode is the one given |
| Rgaa3.RGAA3.RGAA32 | src/rules/RGAA3.ts:24-33 | the result is the mode's report, or the "Mode not supported" error for an unknown mode |
| Rgaa3.Check | src/rules/RGAA3.ts:48-86 | the four threshold tests yield at most one violation, and none once the ratio is at least 4.5 |
| Rgaa3.CheckReading | src/rules/RGAA3.ts:105-143 | what one pair's readings yield: at most one violation |
| Rgaa3.ThresholdViolations | src/rules/RGAA3.ts:48-86 | the four `if … push` tests report exactly what `Check` states: the one applicable test fires when the ratio is below its minimum |
| Rgaa3.CheckOnePair | src/rules/RGAA3.ts:96-143 | the loop body reads both colours, the size and the weight, then reports what the readings yield |
| Rgaa3.RGAA32Strategy | src/rules/RGAA3.ts:35-146 | both strategies report each pair's violations in order; a pair of the other mode's shape throws |
| Rgaa3.StrategiesAgree | src/rules/RGAA3.ts:41-46 | the DOM and virtual strategies read the same strings in the same way |
| Rgaa3.ReportShape | src/rules/RGAA3.ts:24-146 | an unknown mode fails; a concatenated input succeeds iff both parts do, and then reports the concatenation; at most one violation per pair |
| Rgaa3.TextSizeOfPx | src/rules/RGAA3.ts:43 | a size written `<digits>px` reads as its decimal value |
| Rgaa3.BoldIffAtLeast600 | src/rules/RGAA3.ts:44 | a numeric weight is bold iff it is at least 600 |
| Rgaa3.KeywordBoldIsNotBold | src/rules/RGAA3.ts:44 | the keyword `bold` is not bold |
| Rgaa3.CheckPairIsPairCheck | src/rules/RGAA3.ts:38-87 | the per-pair check function agrees with the readings on every pair |
| Rgaa9.RGAA9.constructor | src/rules/RGAA9.ts:23 | the list of violations starts empty |
| Rgaa9.RGAA9.RGAA911 | src/rules/RGAA9.ts:25-36 | the list is reset, then holds the 9.1.1 report of the elements, and is returned |
| Rgaa9.RGAA9.RGAA913 | src/rules/RGAA9.ts:38-48 | the list is reset, then holds one 9.1.3 violation per element that is not a structured heading, in order |
| Rgaa9.GetHeadingLevel | src/rules/RGAA9.ts:96-115 | an `Hx` tag gives level x from 1 to 6; otherwise `role="heading"` with an aria-level gives its `parseInt` value (0 for NaN); anything else gives 0 |
| Rgaa9.IsValidHeadingStructure | src/rules/RGAA9.ts:117-133 | valid iff an `Hx` tag, or `role="heading"` with an aria-level whose `parseInt` is at least 1 |
| Rgaa9.ValidIffPositiveLevel | src/rules/RGAA9.ts:96-133 | an element is a valid heading iff its level is positive |
| Rgaa9.GetElementIndex | src/rules/RGAA9.ts:61-67 | a virtual element's own numeric index, else its position |
| Rgaa9.Infos | src/rules/RGAA9.ts:51-55 | one heading record per element |
| Rgaa9.InfosAt | src/rules/RGAA9.ts:51-55 | record i holds element i, its level and its index with position i as fallback |
| Rgaa9.ExtractHeadingsSpec | src/rules/RGAA9.ts:50-59 | the extracted headings are a sorted-by-index permutation of the records with a positive level, ties kept in input order |
| Rgaa9.ExtractedLevels | src/rules/RGAA9.ts:53-56 | every extracted heading carries its own input element's positive level |
| Rgaa9.Jumps | src/rules/RGAA9.ts:69-94 | the reference 9.1.1 definition reports nothing for at most one heading, and fewer headings than given otherwise |
| Rgaa9.ScanIsJumps | src/rules/RGAA9.ts:78-91 | the scan with a previous level reports exactly the headings whose level differs from the previous one's by more than one |
| Rgaa9.InvalidHierarchyIsJumps | src/rules/RGAA9.ts:69-94 | what `findInvalidHierarchyHeadings` returns is the reference definition, for positive-level headings |
| Rgaa9.ExtractedArePositive | src/rules/RGAA9.ts:50-59 | all extracted headings have a positive level |
| Rgaa9.FindInvalidHierarchyHeadings | src/rules/RGAA9.ts:69-94 | the loop with a mutable previous level returns exactly the specified invalid headings |
| Rgaa9.Report911IsJumps | src/rules/RGAA9.ts:25-36 | the 9.1.1 report of a page is one violation per hierarchy jump among its extracted headings, and is shorter than a non-empty input |
| Rgaa9.AtMostOneHeadingIsFine | src/rules/RGAA9.ts:70-72 | zero or one heading gives no violation |
| Rgaa9.JumpsStep | src/rules/RGAA9.ts:78-91 | the reported headings of a list are its second heading if it jumps from the first, then those of the rest |
| Rgaa9.WorkedCase13 | src/rules/RGAA9.ts:69-94 | levels 1, 3 report the second heading |
| Rgaa9.WorkedCase135 | src/rules/RGAA9.ts:69-94 | levels 1, 3, 5 report two headings |
| Rgaa9.WorkedCase121 | src/rules/RGAA9.ts:69-94 | levels 1, 2, 1 report nothing |
| Rgaa9.WorkedCase1232 | src/rules/RGAA9.ts:69-94 | levels 1, 2, 3, 2 report nothing: going down by any amount is fine |
| Rgaa9.WorkedCase12342 | src/rules/RGAA9.ts:69-94 | levels 1, 2, 3, 4, 2 report the last heading, since the check is on the absolute difference |
| Rgaa9.HxTagLevel | src/rules/RGAA9.ts:96-133 | an `H1`..`H6` tag in either case alone makes a valid heading of that level |
| Rgaa9.AriaLevelZero | src/rules/RGAA9.ts:96-133 | `aria-level="0"` gives level 0, which is neither valid nor part of the hierarchy |
| Rgaa11.VirtualLabelledIff | src/rules/RGAA11.ts:165-171 | a record is labelled iff it has aria-labelledby, aria-label, a label[for] or a title, or an adjacent validly labelled button together with a hidden label |
| Rgaa11.AdjacentButtonNeedsHiddenLabel | src/rules/RGAA11.ts:165-171 | an adjacent labelled button alone labels a record exactly when there is also a hidden label |
| Rgaa11.BothLinkageChecksFire | src/rules/RGAA11.ts:243-260 | label[for] with a non-empty target and no id gives both 11.1.2 violations, "does not match" first |
| Rgaa11.NoLabelForNoLinkage | src/rules/RGAA11.ts:243-260 | without `hasLabelFor` there is no virtual 11.1.2 violation |
| Rgaa11.RGAA111Virtual | src/rules/RGAA11.ts:147-185 | the violations are exactly the per-record 11.1.1 checks, in order |
| Rgaa11.RGAA112Virtual | src/rules/RGAA11.ts:235-264 | the violations are exactly the per-record 11.1.2 checks, in order |
| Rgaa11.DomLabelledIff | src/rules/RGAA11.ts:59-130 | a DOM field is labelled iff it has aria-labelledby, aria-label or a title, or an id that some label[for] names, whatever the label's style |
| Rgaa11.HiddenLabelStillLabels | src/rules/RGAA11.ts:59-63 | a `display: none` label naming the field's id still labels it |
| Rgaa11.DomLabelling | src/rules/RGAA11.ts:55-130 | the flags set step by step give exactly the specified labelling |
| Rgaa11.RGAA111Dom | src/rules/RGAA11.ts:49-145 | the violations are exactly the per-field 11.1.1 checks, in order, non-form-controls skipped |
| Rgaa11.DomLinkage | src/rules/RGAA11.ts:195-228 | one field's 11.1.2 findings are its labels' findings, in document order |
| Rgaa11.LabelsAskingForId | src/rules/RGAA11.ts:195-207 | for a field without an id, one "must have a matching id" violation per document `label[for]` with a non-empty `for` whose form contains the field |
| Rgaa11.MismatchingLabels | src/rules/RGAA11.ts:208-228 | for a field with an id, one "does not match" violation per `label[for]` of the field's form (or the document) whose `for` names another id that this scope does not hold, and whose own form contains the field |
| Rgaa11.RGAA112Dom | src/rules/RGAA11.ts:187-233 | the violations are exactly the per-field 11.1.2 findings, in order |
| Rgaa11.DomLinkageCounts | src/rules/RGAA11.ts:187-233 | a field's DOM 11.1.2 report is one violation per label asking for an id, or per mismatching label |
| Rgaa11.RGAA11.constructor | src/rules/RGAA11.ts:21-23 | the mode is the one given |
| Rgaa11.RGAA11.RGAA111 | src/rules/RGAA11.ts:25-34 | dispatch on the mode; an unknown mode throws |
| Rgaa11.RGAA11.RGAA112 | src/rules/RGAA11.ts:36-47 | dispatch on the mode; an unknown mode throws |
| Rgaa11.ReportShape | src/rules/RGAA11.ts:25-47 | both rules fail exactly for an unknown mode, with `Unknown mode: <name>`; otherwise 11.1.1 gives at most one violation per element |
| Core.MentionsSnoc | src/core.ts:83-88 | a rule is mentioned by a list with one more violation iff it was mentioned before or is that violation's rule |
| Core.GroupResultsLookup | src/core.ts:83-88 | a non-empty rule id that some violation carries maps to exactly those violations, in order; any other key is absent |
| Core.GroupsNonEmpty | src/core.ts:85 | no group is empty |
| Core.GroupResultsKeys | src/core.ts:83-88 | the keys are the distinct non-empty rule ids in first-seen order |
| Core.GroupResultsDistinct | src/core.ts:83-88 | no key is repeated |
| Core.RuleNumber | src/core.ts:96-105 | the longest prefix made of digits and dots |
| Core.RuleNumberUnique | src/core.ts:99-105 | a prefix of digits and dots stopped by the end or another character is that longest prefix |
| Core.ParseRule | src/core.ts:91-113 | the loop that builds the digit run returns exactly the specified parts |
| Core.ParsedRuleAfterDash | src/core.ts:92-112 | after the first `"- "`, no digit run gives no parts, and otherwise its dot-separated groups' values |
| Core.ParseDottedRule | src/core.ts:91-113 | a rule id `prefix- g1.g2…` of digit groups followed by a non-rule character parses to the groups' decimal values |
| Core.UnparsableRules | src/core.ts:93-107 | no `"- "`, or nothing numeric right after it, gives no parts |
| Core.ParseGroups | src/core.ts:91-113 | a rule id given whole, `prefix- g1.g2…`, parses to one value per group |
| Core.ParseThreeGroups | src/core.ts:91-113 | three digit groups parse to their three values |
| Core.ParseTwoGroups | src/core.ts:91-113 | two digit groups parse to their two values |
| Core.ParsedExample1112 | src/core.ts:91-113 | `RGAA - 11.1.2` parses to 11, 1, 2 |
| Core.ParsedExample83 | src/core.ts:91-113 | `RGAA - 8.3` parses to 8, 3 |
| Core.ParsedExample211 | src/core.ts:91-113 | `RGAA - 2.1.1` parses to 2, 1, 1 |
| Core.Compare | src/core.ts:90-122 | the comparator parses both ids and returns the comparison of their parts |
| Core.CompareParts | src/core.ts:116-121 | the loop with an early return gives the first difference of the parts, missing positions read as 0, else 0 |
| Core.CompareStep | src/core.ts:116-121 | at every position the comparison is the difference there, or the comparison of the rest |
| Core.CompareAntisymmetric | src/core.ts:114-121 | swapping the ids negates the result |
| Core.CompareTransitive | src/core.ts:114-121 | the order is transitive |
| Core.TrailingZeros | src/core.ts:116-119 | trailing zeros do not matter: 8.3 and 8.3.0 compare equal |
| Core.RuleLeTotalPreorder | src/core.ts:90-122 | the comparator is total and transitive, so the sort is consistent |
| Core.KeyOrderExample | src/core.ts:90-122 | 2.1.1 sorts before 8.3, which sorts before 11.1.2: numbers compare as numbers |
| Core.RekeyKeys | src/core.ts:124-127 | re-keying distinct keys gives exactly those keys in that order |
| Core.RekeyLookup | src/core.ts:124-127 | after re-keying, each listed key holds its own group and no other key is present |
| Core.RunKeys | src/core.ts:70-129 | the keys of a run are a permutation of the distinct non-empty rule ids, sorted by rule number, with equal numbers in first-seen order |
| Core.RunLookup | src/core.ts:70-129 | under each key, the violations with that rule in result order, never an empty list; no other key |
| Core.GroupFollowsCallOrder | src/core.ts:56-81 | within a group the violations follow the order of the rule calls, then each call's own order |
| Core.EmptyRun | src/core.ts:70-129 | a run without violations returns an empty result |
| Core.GenerateAudit | src/core.ts:142-162 | the renderers requested run, html then json then cli, each once; with none requested it throws the "No audit format specified" error |
| Audit.Issues | src/audit/generateAudit.ts:80-82 | one issue per violation, holding its element, in order |
| Audit.MapTemplateObject | src/audit/generateAudit.ts:71-99 | the page loop returns the fold of the per-page entries |
| Audit.MapRuleSpec | src/audit/generateAudit.ts:77-84 | a rule's entry has one issue per violation, the first violation's message and link (empty strings when none), and `hasDomElement` iff some element is not blank |
| Audit.HasDomElementExamples | src/audit/generateAudit.ts:83 | an empty element is not a DOM element; a markup string is |
| Audit.MapPageSpec | src/audit/generateAudit.ts:75-95 | a page's entries have its rule keys, each mapped to its own rule's entry |
| Audit.Urls | src/audit/generateAudit.ts:74 | the urls of the pages in order |
| Audit.LastWithUrl | src/audit/generateAudit.ts:96 | the last page with a url is a page with that url, and is absent iff no page has it |
| Audit.TemplateKeys | src/audit/generateAudit.ts:71-99 | one entry per distinct url, in order of first appearance |
| Audit.TemplateLookup | src/audit/generateAudit.ts:96 | each url holds the entries of the last page with that url |
| Audit.LaterPageReplaces | src/audit/generateAudit.ts:96 | the page appended last wins its url |
| Audit.EmptyPageEntry | src/audit/generateAudit.ts:75-96 | a page with no results gets an empty entry |
| Audit.Percentage | src/audit/generateAudit.ts:131-133 | `Math.round` of the share of rules not in error times 100, to within half a unit |
| Audit.PercentageBounds | src/audit/generateAudit.ts:131-133 | the score lies between 0 and 100; no rule in error scores 100; all rules in error score 0 |
| Audit.PercentageExamples | src/audit/generateAudit.ts:131-133 | one rule in error out of 3, 2 and 4 scores 67, 50 and 75 |
| Audit.MapAuditDataCompliance | src/audit/generateAudit.ts:101-146 | the three nested loops compute the specified compliance table for the RGAA dictionary |
| Audit.ScanPage | src/audit/generateAudit.ts:121-143 | the rule loop of one page over its keys |
| Audit.ScanRule | src/audit/generateAudit.ts:122-142 | the dictionary loop for one rule: it marks the rule's topic in error, or initialises an undefined topic |
| Audit.TopicNumbers | src/audit/generateAudit.ts:123 | the topic numbers of the dictionary, one per topic, in order |
| Audit.VisitAt | src/audit/generateAudit.ts:122-142 | the callback writes only its own topic's entry |
| Audit.NonCompliantStays | src/audit/generateAudit.ts:124-141 | once a topic is marked non-compliant, no later callback marks it compliant again |
| Audit.InitialiserOnlyWhenUndefined | src/audit/generateAudit.ts:134-141 | an already defined topic is left alone unless the rule is in error |
| Audit.VisitTopicsElsewhere | src/audit/generateAudit.ts:122-142 | the dictionary loop leaves other keys alone |
| Audit.VisitTopicsAt | src/audit/generateAudit.ts:122-142 | with distinct topic numbers, each topic's entry is updated exactly once per rule |
| Audit.RuleEvents | src/audit/generateAudit.ts:121 | one report per key of a page |
| Audit.TopicFoldAppend | src/audit/generateAudit.ts:120-144 | folding a topic's reports in two parts is folding them all |
| Audit.VisitRulesAt | src/audit/generateAudit.ts:121-143 | one page's rule loop folds its reports into each topic |
| Audit.VisitPagesAt | src/audit/generateAudit.ts:120-144 | the whole run folds all reports into each topic |
| Audit.TopicFoldSpec | src/audit/generateAudit.ts:124-140 | after at least one report, a topic holds its offending rules without repeats in first-seen order, its rule count, the rounded score, and is compliant iff no rule is in error |
| Audit.StepFromNone | src/audit/generateAudit.ts:124-140 | the first report to a topic creates its entry |
| Audit.StepFromEntry | src/audit/generateAudit.ts:124-140 | a later report adds its rule to the rules in error, or leaves the entry as it was |
| Audit.ComplianceAt | src/audit/generateAudit.ts:101-146 | each dictionary topic is absent when no page has a rule key, and otherwise holds its folded entry |
| Audit.VisitKeys | src/audit/generateAudit.ts:125-140 | the callback adds its topic's key at the end if new, and otherwise keeps the keys |
| Audit.VisitTopicsKeysKept | src/audit/generateAudit.ts:122-142 | a dictionary loop over topics already present keeps the keys |
| Audit.VisitTopicsKeysFresh | src/audit/generateAudit.ts:122-142 | a dictionary loop on an empty table lists the topic numbers in dictionary order |
| Audit.VisitRulesKeys | src/audit/generateAudit.ts:121-143 | the rule loop of a page creates the topic keys at the first key and keeps them after |
| Audit.VisitPagesKeys | src/audit/generateAudit.ts:120-144 | the page loop creates the topic keys once some page has a key |
| Audit.ComplianceKeys | src/audit/generateAudit.ts:101-146 | the table lists every dictionary topic in dictionary order once some page has a rule key, else it is empty |
| Audit.OffendingMember | src/audit/generateAudit.ts:124 | a rule is offending for a topic iff it belongs to the topic and was reported with issues |
| Audit.RuleEventsMember | src/audit/generateAudit.ts:121-124 | a page reports a rule with issues iff the rule is one of its keys and has issues |
| Audit.OffendsIsKey | src/audit/generateAudit.ts:124 | a rule with issues is a key of its page |
| Audit.EventsMember | src/audit/generateAudit.ts:120-124 | the run reports a rule with issues iff some page has issues for it |
| Audit.RuleInErrorMembers | src/audit/generateAudit.ts:124-130 | a rule is in error for a topic iff it belongs to the topic and has an issue on some page |
| Audit.NoEventsIff | src/audit/generateAudit.ts:120-121 | nothing is reported iff every page has no rule key |
| Audit.TopicNumberOf | src/audit/generateAudit.ts:123 | `"RGAA - d".split(' - ')[1]` is `d` |
| Audit.DictionaryNames | src/utils/dictionary.ts:5-13 | each dictionary name is `RGAA - ` followed by its topic number, and each topic has rules |
| Audit.TopicNumbersOf | src/audit/generateAudit.ts:123 | topic numbers given position by position form the list of topic numbers |
| Audit.DictionaryTopicNumbers | src/utils/dictionary.ts:5-13 | the dictionary's topic numbers are 1, 2, 3, 6, 8, 9, 11 |
| Audit.DictionaryWellFormed | src/utils/dictionary.ts:5-13 | the dictionary has distinct topic numbers and rules under every topic |
| Audit.RgaaTopicsDistinct | src/utils/dictionary.ts:5-13 | the RGAA topic numbers are distinct |
| Audit.EntryPercentageBounds | src/audit/generateAudit.ts:131-133 | every score in the table lies between 0 and 100 |
| Audit.ComplianceSpec | src/audit/generateAudit.ts:101-146 | once some page has a rule key, each topic has its rule count, a repeat-free list of exactly its rules with an issue on some page, a score from 0 to 100, and is compliant iff that list is empty; before that the topic is absent |
| Audit.RgaaComplianceKeys | src/audit/generateAudit.ts:101-146 | against the RGAA dictionary the keys are 1, 2, 3, 6, 8, 9, 11 in that order, or none |
| Audit.OneRuleInError | src/audit/generateAudit.ts:124-133 | a topic with exactly one rule with issues out of n reports that rule and the score for one rule in error out of n |
| Audit.RgaaPartialScores | src/audit/generateAudit.ts:131-133 | one rule in error in topics 1, 2 and 8 scores 67, 50 and 75 |

## Left out

- I/O: the HTML, JSON and CLI renderers (`generateHtmlAudit`, `generateJsonAudit`, the CLI `generateAudit`) read templates, write files and log. They are not modelled. `Core.GenerateAudit` returns the list of renderer calls it would make.
- `src/core.ts:58` calls `rgaa2.RGAA221` (banned words in frame titles), but `src/rules/RGAA2.ts` defines only `RGAA211`. No source file defines `RGAA221`, so as written `Core.run` throws a TypeError on every call, after 1.1 and 2.1.1 have run. `Core.Run` models the run as if that call had returned a list, given as `framesBannedWords`.
- `src/index.ts` (the package entry) is not part of this model.
- `Core.run` is modelled from the rule results on (`Core.Run` takes them as `RuleOutputs`). Building the rule objects and calling them is left to the caller. The rule methods themselves are modelled in their own modules.
- The DOM is a snapshot of what the code reads:
  - `instanceof` tests, attributes and properties;
  - `getComputedStyle`;
  - `querySelector`/`querySelectorAll` results, given as lists;
  - `closest('form')`, given as a flag per label;
  - siblings, given as options.
- DOM queries by CSS selector are taken as given, including the quoting of ids in `label[for="…"]`.
- `Rgaa11.RGAA111Virtual`, `Rgaa11.RGAA112Virtual`: a DOM control handed to a virtual strategy is read through a record view given with it. The model does not derive that view from the node's own properties.
- `Rgaa3.RGAA32Strategy`: a pair of the other mode's shape is modelled as a thrown error, as a property read on `undefined` would throw. The exact error text is not modelled.
- `Rgaa8.RGAA83`, `Rgaa8.RGAA85`: the exact text of the TypeError is not modelled. `baseURI` and a present `title` or `lang` are taken to be strings.
- Floating point is modelled as exact reals:
  - `Math.round` is round-half-up on an exact rational;
  - the gamma power `x ** 2.4` is a function parameter, and lemmas that need it say what they assume of it;
  - NaN and the infinity of a division by zero are `None`, which fails every `<` and `>=` test.
- `Number` is modelled on trimmed signed decimals with an optional fraction, the empty string being 0. Exponents, hexadecimal and `Infinity` give NaN in the model. `parseInt` is modelled as leading whitespace, an optional sign and the longest run of decimal digits.
- Strings are sequences of code points, not UTF-16 code units. Lower-casing is modelled for ASCII letters only, which is all a tag name compared with `button` needs.
- JavaScript lists integer-like object keys in numeric order before the others. `Assoc` keeps insertion order for every key. `Audit.RgaaComplianceKeys` shows the two orders agree for the compliance table of the RGAA dictionary. Page urls and rule ids are not integer-like in practice.
- The special object keys (`__proto__`, and names inherited from `Object.prototype` such as `constructor`) are modelled as ordinary keys.
- `Array.prototype.sort` with the rule comparator is modelled as a stable insertion sort. The engine's algorithm is not modelled, only the stable result the language guarantees.
- `Audit.MapAuditDataCompliance` receives the mapped page entries. Only their `issues` field is read, as in the source.
- `Rgaa9.GetElementIndex`, `ElementAdapter.ToNormalizedHeading`: a non-integer or NaN `index` on a heading is not modelled; `src/utils/elementAdapter.ts:28` and `:41` pass any number through. Indices are integers.
- `src/audit/generateAudit.ts:6` imports `src/utils/dictonnary.js`, which names no file in the source. The model takes the dictionary from `src/utils/dictionary.ts`.
- `ElementAdapter`: the model only normalises the fields listed. No source module calls it, and `Rgaa9` reads the same fields directly.
