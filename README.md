# A Dafny model of the core of eslint-plugin-tailwindcss

The plugin is a set of ESLint rules for Tailwind CSS v4 stylesheets. Each rule
receives a parsed stylesheet tree and the source text. It reports diagnostics,
some of them with a fix that rewrites one range of the text. This project
models the plugin's analysers and the rules built on them:

- **Utility classes** (`Tailwind`): parsing `hover:[&:x]:text-[14px]` into
  modifiers, base and arbitrary value; unescaping the `@apply` list; counting
  arbitrary values; and the conflict test between two utilities.
- **Rules over `@apply`**:
  - `NoConflictingUtilities`, with `ConflictPairs` for the pair enumeration;
  - `ValidModifierSyntax`;
  - `ValidApplyDirective`, whose nesting flags are set on entering an at-rule
    and cleared on leaving it;
  - `NoArbitraryValueOveruse`, with per-at-rule and per-file counters.
- **Name validation with suggestions**:
  - the at-rule vocabulary and block-expectation tables (`AtRules`);
  - the property vocabulary (`CssPropertyTable`, `CssProperties`);
  - their shared pipeline: typo map, prefix match, edit distance, deduplicated
    and capped (`Suggestions`, `Levenshtein`, `Records`);
  - their rules, `NoInvalidAtRules` and `NoInvalidProperties`.
- **Theme tokens**:
  - `Theme`: collecting `--name: value` from `@theme` blocks, categories,
    theme-path validation and ranked token suggestions;
  - the rules `ValidThemeFunction` and `PreferThemeTokens`.
- **Baseline availability**:
  - `BrowserCompat`: four feature tables, vendor prefixes and the status
    lookup;
  - `UseBaseline`: the strictness filter, message choice and the pseudo-class
    scanner.
- **Grid areas and spacing**: `NoInvalidNamedGridAreas` (blank rows, uneven
  rows, non-rectangular names) and `ConsistentSpacing`.
- **The tree and the small rules**:
  - `Ast`: the pre-order walk and the helpers over it, and `Traversal`: the
    order of enter and exit visits;
  - `NoDuplicateImports` and `NoDuplicateReference`, which share the
    first-seen map of `FirstSeen`;
  - `NoEmptyBlocks`, `NoImportant` and `RequireReferenceInVue`.

Code that updates state step by step is modelled as classes or as methods
with loops. Each such method is proved against a recursive specification
function, and the properties are proved about those functions as lemmas.
Examples:

- the `parseUtilityClass` loop;
- the visitors of `valid-apply-directive` and the duplicate rules;
- the counters of `no-arbitrary-value-overuse`;
- the grid loops;
- the Levenshtein matrix.

Reports are values of `Lint.Report`: a message id, the message data, a
location and an optional edit. Regular expressions are written out as
predicates or scanners. Strings are `seq<char>`.

## Model

| member | source | states |
|---|---|---|
| Records.Lookup | src/utils/at-rules.ts:234 | an own-key lookup: nothing exactly when no entry has the key, otherwise the value of the first entry with it |
| Records.InheritedProperty | src/utils/css-properties.ts:378 | a key inherited from `Object.prototype` renders as a non-empty text |
| Records.LookupAsWritten | src/utils/at-rules.ts:234 | `typoMap[key]` gives an own entry first, otherwise the inherited property of that name |
| Records.ConstructorLowerCase | src/utils/at-rules.ts:233-234 | lower-casing `constructor` leaves it unchanged, so the lookup reaches the inherited property |
| Traversal.Events | src/rules/valid-apply-directive.ts:143-222 | the visits of a node start by entering it and end by leaving it |
| Traversal.EnteredInWalkOrder | src/rules/valid-apply-directive.ts:143-222 | the nodes entered are the pre-order nodes of the tree, each once, in walk order |
| Ast.Walk | src/utils/ast.ts:123-148 | the visitor's first call is on the node itself with the given parent |
| Ast.WalkParents | src/utils/ast.ts:123-148 | every later visit receives as parent a node that links to the visited node (child, prelude, block or value) |
| Ast.WalkNodes | src/utils/ast.ts:123-148 | the nodes the visitor receives are exactly the pre-order nodes of the tree (children, then prelude, block, value), whatever the parent |
| Ast.Nodes | src/utils/ast.ts:123-148 | the walk order starts with the node itself |
| Ast.OfTypeMembers | src/utils/ast.ts:24-26 | the type filter keeps exactly the nodes of that type |
| Ast.ChildrenOfType | src/utils/ast.ts:17-50 | a node of the requested type comes first in its own result; the result holds exactly the nodes of that type reachable from the node |
| Ast.GetChildrenOfType | src/utils/ast.ts:17-50 | the imperative traversal, pushing into one shared result list, returns the type filter of the walk order |
| Ast.Traverse | src/utils/ast.ts:23-46 | one recursive `traverse` call appends to the list it was given the type-`t` nodes under its node, in walk order |
| Ast.GetNodeText | src/utils/ast.ts:55-58 | no location gives the empty string; otherwise the text between the start and end offsets |
| Ast.IsAtRule | src/utils/ast.ts:63-71 | true iff the node exists, is an at-rule, and the name is empty or missing or equal to the node's name |
| Ast.GetDeclarations | src/utils/ast.ts:76-82 | no block gives nothing; otherwise exactly the declarations at any depth under the block |
| Ast.GetFunctions | src/utils/ast.ts:100-105 | a missing value gives nothing; otherwise exactly the function nodes at or under the value |
| Ast.HasFunction | src/utils/ast.ts:87-95 | true iff the value exists and some function node at or under it has the name |
| Ast.HasPseudoClass | src/utils/ast.ts:110-118 | true iff the selector exists and some pseudo-class node at or under it has the name |
| Tailwind.Unescape | src/utils/tailwind.ts:45 | never lengthens the text, and text without a backslash is unchanged |
| Tailwind.UnescapeEscape | src/utils/tailwind.ts:45 | unescaping undoes backslash-escaping of every character, for text without line terminators |
| Tailwind.ExtractUtilitiesFromApply | src/utils/tailwind.ts:33-49 | no prelude or no location gives no utilities; every utility returned is non-empty and holds no whitespace |
| Tailwind.ApplyListRoundTrip | src/utils/tailwind.ts:33-49 | a prelude whose text is backslash-free utilities separated by single spaces gives back exactly those utilities |
| Tailwind.HasIffCount | src/utils/tailwind.ts:54-64 | a value has an arbitrary part (`[` then at least one non-`]` then `]`) exactly when the global match count is positive |
| Tailwind.CountFromBound | src/utils/tailwind.ts:61-64 | every match consumes at least three characters, so the count is at most a third of the length |
| Tailwind.TopColonSpec | src/utils/tailwind.ts:81-94 | the inner scan finds the first colon at bracket depth 0 (each `[` adds one, each `]` takes one away), or -1 when there is none |
| Tailwind.FindTopColon | src/utils/tailwind.ts:81-94 | the imperative scan with its `break` returns that first depth-0 colon |
| Tailwind.SplitStep | src/utils/tailwind.ts:96-104 | one round of the outer loop strips a modifier and a colon, and keeps the split consistent with the input |
| Tailwind.StripModifiers | src/utils/tailwind.ts:76-107 | the outer `while (true)` loop produces the reference split into modifiers and remainder |
| Tailwind.ParseUtilityClass | src/utils/tailwind.ts:75-124 | the method returns the reference parse: modifiers, then the base and the arbitrary value when the pattern matches |
| Tailwind.ArbitrarySplit | src/utils/tailwind.ts:110 | a match splits the remainder into its two groups, which concatenate back to it |
| Tailwind.ArbitrarySplitSound | src/utils/tailwind.ts:110 | a split is a match of `^([^[]+)(\[[^\]]+\])$`, with the value starting at the split point |
| Tailwind.ArbitrarySplitComplete | src/utils/tailwind.ts:110 | every match of the pattern is the split found (the match is unique) |
| Tailwind.ParseRoundTrip | src/utils/tailwind.ts:75-124 | the modifiers, each followed by `:`, then the base and the arbitrary value rebuild the class exactly |
| Tailwind.RebuildModifiers | src/utils/tailwind.ts:76-107 | the modifiers joined with `:`, a `:` when there are modifiers, and the remainder give back the class |
| Tailwind.RemainderHasNoTopColon | src/utils/tailwind.ts:85-99 | the remainder after the modifiers has no colon at bracket depth 0 |
| Tailwind.ModifiersHaveNoTopColon | src/utils/tailwind.ts:85-104 | no modifier has a colon at bracket depth 0 |
| Tailwind.ArbitraryValueShape | src/utils/tailwind.ts:110-118 | an arbitrary value makes a non-empty base without `[` (keeping a trailing hyphen) and a value that starts with `[`, ends with `]` and holds no other `]` |
| Tailwind.PlainUtility | src/utils/tailwind.ts:75-124 | a class without colons and brackets parses as a bare base |
| Tailwind.BracketUtility | src/utils/tailwind.ts:110-118 | a colon-free class whose only `[` opens a final bracketed value splits into base and value, as `text-[14px]` gives `text-` and `[14px]` |
| Tailwind.ValueAcceptingExtends | src/utils/tailwind.ts:170-174 | being value-accepting (starting with an entry of the list) carries over to every extension of the string |
| Tailwind.DoUtilitiesConflict | src/utils/tailwind.ts:179-215 | a conflict needs equal colon-joined modifier chains and both bases in some property bucket |
| Tailwind.ConflictSymmetric | src/utils/tailwind.ts:179-215 | the conflict test is symmetric in its two arguments |
| Tailwind.ConflictReflexive | src/utils/tailwind.ts:179-215 | a class whose base is in a bucket conflicts with itself |
| NoConflictingUtilities.FirstMappingSpec | src/rules/no-conflicting-utilities.ts:78-90 | the mapping search finds nothing exactly when no entry matches the base, and otherwise the first entry in table order that does |
| NoConflictingUtilities.GroupIndex | src/rules/no-conflicting-utilities.ts:84-87 | the lookup of a property's group gives -1 exactly when no group has that property, and otherwise a group that has it |
| NoConflictingUtilities.GroupUtilitiesByProperty | src/rules/no-conflicting-utilities.ts:12-94 | the two loops, with the `break` at the first matching entry, build the reference grouping |
| NoConflictingUtilities.GroupsOrder | src/rules/no-conflicting-utilities.ts:73-91 | groups are created in first-appearance order of the properties, one per property |
| NoConflictingUtilities.GroupsMembers | src/rules/no-conflicting-utilities.ts:73-91 | each group holds exactly the utilities whose first matching entry gives its property, in list order |
| NoConflictingUtilities.GroupsDistinct | src/rules/no-conflicting-utilities.ts:84-87 | no two groups share a property |
| NoConflictingUtilities.FindConflictingUtilities | src/rules/no-conflicting-utilities.ts:96-132 | the loops return the reference conflict list: per group in creation order, each pair i < j that conflicts |
| NoConflictingUtilities.ConflictsWithinGroup | src/rules/no-conflicting-utilities.ts:110-128 | every reported pair is two entries of one group that conflict, and both utilities map to that pair's property |
| NoConflictingUtilities.ConflictsComplete | src/rules/no-conflicting-utilities.ts:110-128 | conversely, every conflicting pair i < j inside a group is reported |
| NoConflictingUtilities.KeepFirstSpec | src/rules/no-conflicting-utilities.ts:202-204 | the duplicate fix keeps exactly one copy of the utility, and all other utilities in order |
| NoConflictingUtilities.ConflictFixRemoves | src/rules/no-conflicting-utilities.ts:228-232 | the conflict fix removes every copy of the side with the smaller `indexOf`; a pair of equal utilities loses every copy; the later side of two distinct utilities survives |
| NoConflictingUtilities.ScanDuplicates | src/rules/no-conflicting-utilities.ts:193-213 | the loop with its `seen` set reports each utility already seen, in order |
| NoConflictingUtilities.DuplicateReportCount | src/rules/no-conflicting-utilities.ts:193-213 | there is one duplicate report for every utility that is not the first of its kind |
| NoConflictingUtilities.CheckAtruleSkips | src/rules/no-conflicting-utilities.ts:183-185 | at-rules other than `@apply`, and `@apply` without a prelude, get no reports |
| NoConflictingUtilities.CheckAtruleCounts | src/rules/no-conflicting-utilities.ts:182-240 | one `@apply` gets one duplicate report per repeated occurrence plus one report per conflicting pair |
| ConflictPairs.ScanRow | src/rules/no-conflicting-utilities.ts:116-127 | the innermost loop appends the conflicting pairs (i, j), j > i, of one row |
| ConflictPairs.ScanGroup | src/rules/no-conflicting-utilities.ts:112-128 | the two inner loops append every conflicting pair of one group in row order |
| ConflictPairs.ScanGroups | src/rules/no-conflicting-utilities.ts:110-131 | the loop over the groups appends the pairs of each group in order |
| ConflictPairs.AllConflictsMembers | src/rules/no-conflicting-utilities.ts:110-128 | a pair is found exactly when it is a conflicting pair i < j of one of the groups |
| ValidModifierSyntax.ValidateArbitraryModifier | src/rules/valid-modifier-syntax.ts:14-61 | the method with its depth loop and early return gives the reference verdict: `nestedBrackets` for `[[`, `]]` or depth above 1 in the content, valid for content starting with `&` or matching `^[a-z-]+$`, else `invalidModifier` with the arbitrary-syntax reason |
| ValidModifierSyntax.NestedNeedsTwoOpenings | src/rules/valid-modifier-syntax.ts:30-43 | the depth test can only report `nestedBrackets` when the content holds at least two `[` |
| ValidModifierSyntax.ParamMatchSplits | src/rules/valid-modifier-syntax.ts:308-311 | a match of `^([a-z-]+)\(([^)]+)\)$` takes the modifier apart into a lower-case-and-hyphen name, `(`, a non-empty parameter without `)`, and `)` |
| ValidModifierSyntax.ParamMatchBuilds | src/rules/valid-modifier-syntax.ts:308-311 | every modifier of that shape matches, with exactly those two groups |
| ValidModifierSyntax.VerdictMessages | src/rules/valid-modifier-syntax.ts:275-364 | an invalid verdict carries one of `emptyModifier`, `nestedBrackets`, `invalidModifier`, `invalidCharacters` |
| ValidModifierSyntax.EmptyModifierFirst | src/rules/valid-modifier-syntax.ts:282-287 | the empty modifier is rejected with `emptyModifier` before any lookup, even when it is allowed |
| ValidModifierSyntax.KnownModifierValid | src/rules/valid-modifier-syntax.ts:297-300 | a built-in or allowed name (other than `` and `:`) is valid; the set lookup is exact |
| ValidModifierSyntax.UnknownPlainModifier | src/rules/valid-modifier-syntax.ts:338-363 | an unknown modifier without `[` or `(` that no compound form accepts is `invalidModifier` (unknown) when its characters are plain and `invalidCharacters` otherwise, so `Hover` is unknown and `hover#` has invalid characters |
| ValidModifierSyntax.NthValid | src/rules/valid-modifier-syntax.ts:70-104 | an `nth-*` name with a trimmed parameter of the shape `\d+`, `odd`, `even` or `\d*n(\s*[+-]\s*\d+)?` is valid |
| ValidModifierSyntax.OtherParameterizedInvalid | src/rules/valid-modifier-syntax.ts:85-91 | any other name before the parentheses gives `invalidModifier` with the name quoted in the reason |
| ValidModifierSyntax.NegationAndInValid | src/rules/valid-modifier-syntax.ts:326-333 | `not-x` and `in-x` are valid for a non-empty suffix with no further `-` |
| ValidModifierSyntax.GroupAndPeerValid | src/rules/valid-modifier-syntax.ts:319-325 | `group-x` and `peer-x` are valid for a built-in suffix with no further `-` |
| ValidModifierSyntax.ValidatorNeverDuplicate | src/rules/valid-modifier-syntax.ts:275-364 | the validator never yields `duplicateModifier`, so those reports come only from the repeat test |
| ValidModifierSyntax.DuplicateModifierCount | src/rules/valid-modifier-syntax.ts:232-244 | within one utility, `duplicateModifier` is reported once for every occurrence after the first |
| ValidModifierSyntax.NoFix | src/rules/valid-modifier-syntax.ts:256-267 | no report of the rule carries a fix, since the validator never sets one |
| ValidModifierSyntaxRule.CheckModifiers | src/rules/valid-modifier-syntax.ts:232-270 | the per-utility loop with its `seenModifiers` set reports repeats (skipping their validation) and invalid verdicts, as the reference reports |
| ValidModifierSyntaxRule.VisitAtrule | src/rules/valid-modifier-syntax.ts:220-272 | the visitor skips non-`@apply` at-rules and those without a prelude, and otherwise reports the modifiers of each utility in order |
| AtRules.AllAtRules | src/utils/at-rules.ts:195 | the combined vocabulary holds exactly the valid at-rule names |
| AtRules.ShouldHaveBlock | src/utils/at-rules.ts:184-189 | true exactly for the block set, false exactly for the block-less set, undefined for every other name |
| AtRules.BlockSetsDisjoint | src/utils/at-rules.ts:128-172 | the three block-expectation sets are pairwise disjoint |
| AtRules.BlockNamesValid | src/utils/at-rules.ts:14-172 | every name in the block sets is a valid at-rule |
| AtRules.OptionalBlockUndefined | src/utils/at-rules.ts:169-172 | `layer` and `variant` have an undefined block expectation |
| AtRules.TypoTargetsValid | src/utils/at-rules.ts:199-231 | every correction in the typo map is a valid at-rule |
| AtRules.TypoLookupValid | src/utils/at-rules.ts:199-236 | any hit of the own-key typo lookup is a valid at-rule |
| AtRules.TypoLookupAsWritten | src/utils/at-rules.ts:234 | on the map's own keys, the lookup as written agrees with the own-key lookup |
| AtRules.MediaTypo | src/utils/at-rules.ts:199-204 | the lookup of `meida` passes the four keys before it and returns `media` |
| AtRules.GetSimilarAtRules | src/utils/at-rules.ts:194-251 | the method (typo hit, the prefix loop, the edit-distance stage with bound 2, deduplication, first three) returns the reference suggestions |
| AtRules.SimilarAtRulesValid | src/utils/at-rules.ts:194-251 | at most three suggestions, all distinct, each a valid at-rule |
| AtRules.TypoComesFirst | src/utils/at-rules.ts:233-236 | a typo-map hit on the lower-cased name is the first suggestion |
| AtRules.KnownTypos | src/utils/at-rules.ts:200-204 | `imoprt` maps to `import` and `meida` to `media` |
| AtRules.InheritedComesFirst | src/utils/at-rules.ts:233-236 | as written, a truthy inherited property found by the lookup becomes the first suggestion |
| AtRules.ConstructorLookupAsWritten | src/utils/at-rules.ts:234-235 | as written, `constructor` finds the inherited `Object.prototype.constructor`, which is not in the map and not an at-rule |
| AtRules.AtRuleNamesShort | src/utils/at-rules.ts:14-123 | no valid at-rule name is longer than twenty characters |
| Levenshtein.LevenshteinDistance | src/utils/at-rules.ts:256-280 | the matrix-filling method, row by row, returns the recursive edit distance  |
| Levenshtein.DistanceSelf | src/utils/at-rules.ts:256-280 | a string is at distance 0 from itself |
| Levenshtein.DistanceEmpty | src/utils/at-rules.ts:259-265 | against the empty string the distance is the other string's length |
| Levenshtein.DistanceSymmetric | src/utils/at-rules.ts:256-280 | the distance is symmetric |
| Levenshtein.DistanceBounds | src/utils/at-rules.ts:256-280 | the distance lies between the difference of the lengths and the larger length |
| Levenshtein.DistanceZero | src/utils/at-rules.ts:256-280 | distance 0 means the strings are equal |
| Levenshtein.SimilarMembers | src/utils/at-rules.ts:285-300 | a candidate is in the result exactly when its lower-cased distance d satisfies 0 < d <= maxDistance |
| Levenshtein.SimilarSorted | src/utils/at-rules.ts:298 | the result is in non-decreasing distance order |
| Levenshtein.SimilarStable | src/utils/at-rules.ts:298 | the candidates at any one distance keep their candidate order, so the result is the stable sort |
| Suggestions.PrefixMatches | src/utils/at-rules.ts:239-243 | the prefix stage keeps exactly the vocabulary entries that start with the lower-cased input and differ from the input as written |
| Suggestions.Suggest | src/utils/at-rules.ts:194-251 | the pipeline method, with its prefix loop pushing into `suggestions`, returns the deduplicated first three of the typo hit, the prefix matches and the edit-distance matches |
| Suggestions.SimilarShape | src/utils/at-rules.ts:249-250 | at most three distinct suggestions, each the typo hit or a related entry; with fewer than three, every related entry is present |
| Suggestions.TypoFirst | src/utils/at-rules.ts:233-236 | a typo hit, when there is one, is the first suggestion |
| Suggestions.SimilarWithin | src/utils/css-properties.ts:364-395 | when the typo hit is a vocabulary entry, every suggestion is one |
| CssProperties.CheckProperty | src/utils/css-properties.ts:337-359 | the method with its early returns and prefix loop returns the reference validity: custom property, standard property, or a vendor prefix followed by a standard property |
| CssProperties.CheckVendorPrefixes | src/utils/css-properties.ts:349-356 | true exactly when some vendor prefix starts the name and the rest is a standard property |
| CssProperties.TypoLookupAsWritten | src/utils/css-properties.ts:378-379 | on the map's own keys, the lookup as written agrees with the own-key lookup |
| CssProperties.TypoTargetsValid | src/utils/css-properties.ts:369-376 | every correction in the typo map is a standard property |
| CssProperties.TypoLookupInNames | src/utils/css-properties.ts:369-380 | any hit of the own-key typo lookup is a standard property |
| CssProperties.GetSimilarProperties | src/utils/css-properties.ts:364-395 | the method (typo hit, prefix loop, edit-distance stage with bound 3, deduplication, first three) returns the reference suggestions |
| CssProperties.SimilarPropertiesShape | src/utils/css-properties.ts:394 | at most three suggestions, all distinct |
| CssProperties.SimilarPropertiesValid | src/utils/css-properties.ts:364-395 | every suggestion is a standard property |
| CssProperties.StandardNamesValid | src/utils/css-properties.ts:343-346 | every standard property is valid |
| CssProperties.TypoComesFirst | src/utils/css-properties.ts:378-380 | a typo-map hit on the lower-cased input is the first suggestion |
| CssProperties.KnownTypos | src/utils/css-properties.ts:370-372 | `colour`, `bg` and `bg-color` are corrected to `color`, `background` and `background-color` |
| CssProperties.PrefixCandidate | src/utils/css-properties.ts:383-387 | a standard property that extends the lower-cased input and differs from it is suggested unless three suggestions are already taken |
| CssProperties.CustomPropertyValid | src/utils/css-properties.ts:339-341 | every name starting with `--` is valid |
| CssProperties.PrefixedValid | src/utils/css-properties.ts:349-356 | `-webkit-transition` is valid through its vendor prefix |
| CssProperties.InheritedComesFirst | src/utils/css-properties.ts:378-380 | as written, a truthy inherited property found by the lookup becomes the first suggestion |
| CssProperties.ConstructorLookupAsWritten | src/utils/css-properties.ts:378-379 | as written, `constructor` finds `Object.prototype.constructor`, which is none of the map's corrections |
| NoInvalidProperties.PropertySpan | src/rules/no-invalid-properties.ts:78-84 | the span runs from the declaration start for the length of the property name, on the same line |
| NoInvalidProperties.CheckDeclaration | src/rules/no-invalid-properties.ts:59-106 | a declaration gives one report exactly when its property is not ignored, not valid and located; the report is on the property span, carries no fix, and has the suggestion message exactly when there are suggestions |
| NoInvalidProperties.CustomPropertyNotReported | src/rules/no-invalid-properties.ts:69 | a custom property is never reported |
| NoInvalidProperties.AtMostOnePerNode | src/rules/no-invalid-properties.ts:57-108 | a stylesheet has at most one report per node of the walk |
| NoInvalidProperties.ReportsFromDeclarations | src/rules/no-invalid-properties.ts:57-108 | every report comes from one declaration of the walk |
| NoInvalidAtRules.NameSpan | src/rules/no-invalid-at-rules.ts:84-99 | the span starts one column after the at-rule start, on its line, and is as wide as the name |
| NoInvalidAtRules.IgnoredOrUnlocated | src/rules/no-invalid-at-rules.ts:70-76 | an ignored or unlocated at-rule gives no report |
| NoInvalidAtRules.UnknownName | src/rules/no-invalid-at-rules.ts:79-127 | an unknown name gives exactly one report, on the name span, with the first suggestion when there is one; its block is not checked |
| NoInvalidAtRules.MissingBlock | src/rules/no-invalid-at-rules.ts:133-141 | a known name that expects a block and has none gives exactly `missingBlock` on the at-rule |
| NoInvalidAtRules.UnexpectedBlock | src/rules/no-invalid-at-rules.ts:142-151 | a known name that expects no block and has one gives exactly `unexpectedBlock` |
| NoInvalidAtRules.UndefinedExpectation | src/rules/no-invalid-at-rules.ts:152 | a known name with an undefined expectation is never reported |
| NoInvalidAtRules.LayerAndVariant | src/rules/no-invalid-at-rules.ts:130-152 | `@layer` and `@variant` are never reported, with or without a block |
| NoInvalidAtRules.AtMostOnePerNode | src/rules/no-invalid-at-rules.ts:63-155 | at most one report per at-rule, hence per node of the walk |
| NoInvalidAtRules.ReportsFromAtRules | src/rules/no-invalid-at-rules.ts:63-155 | every report comes from one at-rule node of the walk |
| Theme.Keys | src/utils/theme.ts:25-26 | the keys of the insertion-ordered map are its entries' names, in order |
| Theme.Get | src/utils/theme.ts:173 | a key is found exactly when it is among the keys, and then the entry with that name comes back |
| Theme.Put | src/utils/theme.ts:43-47 | a new key goes to the end, an existing key keeps its place; the set key now gives the new entry and every other key is unchanged |
| Theme.PutDistinct | src/utils/theme.ts:43-47 | setting a key keeps the keys distinct |
| Theme.LastNamed | src/utils/theme.ts:33-50 | the last entry with the given name, or none exactly when no entry has that name |
| Theme.PutAllKeys | src/utils/theme.ts:33-50 | after a series of sets, the keys are the old keys and the names that were set |
| Theme.PutAllGet | src/utils/theme.ts:33-50 | after a series of sets, the last write of a key wins and other keys keep their old values |
| Theme.PutAllDistinct | src/utils/theme.ts:33-50 | a series of sets keeps the keys distinct |
| Theme.ThemeRules | src/utils/theme.ts:29-31 | exactly the `@theme` at-rules among the given nodes |
| Theme.TokensFrom | src/utils/theme.ts:36-48 | every token comes from a declaration of a custom property that has value and declaration locations |
| Theme.TokensOfAll | src/utils/theme.ts:36-48 | every such declaration gives a token |
| Theme.RuleTokensFacts | src/utils/theme.ts:33-50 | the tokens of the rules are exactly those of the token declarations of the rules |
| Theme.SetTokens | src/utils/theme.ts:36-49 | the inner loop leaves the map with the tokens of the rule's declarations set in order |
| Theme.ExtractThemeValues | src/utils/theme.ts:25-53 | the nested loops return the reference theme map of the stylesheet |
| Theme.ThemeValuesFacts | src/utils/theme.ts:25-53 | the extracted map has distinct keys; a key is present exactly when some `@theme` rule declares it as a token, and it holds the last such token |
| Theme.ThemeNamesCustom | src/utils/theme.ts:37 | every key of the extracted map starts with `--` |
| Theme.FirstCategorySpec | src/utils/theme.ts:115-120 | `other` exactly when no category has a prefix of the token; otherwise the first category that has one |
| Theme.ThemeCategorySpec | src/utils/theme.ts:112-121 | the category of a token is the first category, in declaration order, with a prefix of the token, and `other` when there is none |
| Theme.ColorsShadow | src/utils/theme.ts:58-93 | tokens starting `--text-` or `--border-` are colours, because the colour prefixes are tried first |
| Theme.QuotedCallIsReference | src/utils/theme.ts:128 | a value containing `theme("x")`, with `x` free of `)`, has a theme reference |
| Theme.VarCallIsReference | src/utils/theme.ts:133 | a value containing `var(--x)`, with non-empty `x` free of `)`, has a theme reference |
| Theme.ThemeCallContents | src/utils/theme.ts:144 | every captured argument of a `theme(...)` match is non-empty and free of `)` |
| Theme.StripQuotes | src/utils/theme.ts:150 | one leading and one trailing quote are removed, and a string without either is unchanged |
| Theme.ContentsIffCall | src/utils/theme.ts:144-145 | the scan finds a match exactly when a `theme(` call with a non-empty argument occurs |
| Theme.ExtractIffThemeCall | src/utils/theme.ts:143-152 | `extractThemeFunctions` returns something exactly when the value has a `theme(...)` reference |
| Theme.ExtractQuotedCall | src/utils/theme.ts:143-152 | the call `theme("x")` yields `x`, trimmed |
| Theme.PathCandidates | src/utils/theme.ts:167-171 | three candidate names are tried |
| Theme.DottedCandidates | src/utils/theme.ts:168-169 | for a path with a dot, the second candidate equals the first |
| Theme.UndottedCandidates | src/utils/theme.ts:169 | for a path without a dot, the second candidate is `--` plus the path plus a trailing `-` |
| Theme.PathCandidatesFacts | src/utils/theme.ts:163-171 | the split is never empty, the first and third candidates are `--` plus the path with `.` replaced by `-`, and the second is as above |
| Theme.ValidThemePathIff | src/utils/theme.ts:157-174 | a path is valid exactly when `--` plus its dashed form is a key, or it has no dot and `--` plus the path plus `-` is a key |
| Theme.Normalize | src/utils/theme.ts:184 | the normalised string has no `.` and no `-` |
| Theme.Score | src/utils/theme.ts:189 | the scored entry is for the given token |
| Theme.EmptyScoreIsOne | src/utils/theme.ts:210 | two empty strings have similarity 1, above one half and at least any other similarity |
| Theme.ScoredStep | src/utils/theme.ts:187-194 | the loop step appends the token's score exactly when it is above one half |
| Theme.ScoredMembers | src/utils/theme.ts:187-194 | the kept scores are exactly the scores above one half of the keys |
| Theme.Insert | src/utils/theme.ts:197 | inserting adds exactly the one element |
| Theme.InsertSorted | src/utils/theme.ts:197 | inserting into a list sorted by decreasing similarity keeps it sorted |
| Theme.SortDesc | src/utils/theme.ts:197 | the sort is a permutation sorted by decreasing similarity |
| Theme.InsertStable | src/utils/theme.ts:197 | inserting into a sorted list places the new element after every element of its own similarity |
| Theme.SortStable | src/utils/theme.ts:196-199 | the sort is stable: the tokens of any one similarity keep their map order, which decides which tied tokens survive the cut to `maxSuggestions` |
| Theme.SimilarTokens | src/utils/theme.ts:196-199 | at most `maxSuggestions` tokens, the first ones of the ranking in order, and all of it when shorter |
| Theme.SuggestSimilarTokens | src/utils/theme.ts:179-200 | the scoring loop, sort and cut return the reference suggestions |
| Theme.RankedFacts | src/utils/theme.ts:184-197 | the ranking holds exactly the scores above one half of the keys, in non-increasing order |
| Theme.SimilarTokensAreKeys | src/utils/theme.ts:179-200 | at most `maxSuggestions` suggestions, each a key with similarity above one half |
| Theme.SimilarTokensOrdered | src/utils/theme.ts:196-199 | the suggestions come in non-increasing order of similarity |
| Theme.SimilarTokensBest | src/utils/theme.ts:179-200 | a key above one half that scores strictly higher than some suggestion is suggested too, and with fewer than `maxSuggestions` suggestions every key above one half is there |
| ValidThemeFunction.SkipSpaces | src/rules/valid-theme-function.ts:92 | the end of the maximal run of spaces starting at the index |
| ValidThemeFunction.MatchAt | src/rules/valid-theme-function.ts:92 | a match at an index starts with `theme`, ends with `)`, and captures a non-empty path free of quotes |
| ValidThemeFunction.QuotedPath | src/rules/valid-theme-function.ts:92 | after the opening quote: the path up to the next quote, then spaces and `)`, as above |
| ValidThemeFunction.FirstMatch | src/rules/valid-theme-function.ts:92 | the leftmost match: none exactly when no index matches; otherwise a matching index with no match before it |
| ValidThemeFunction.Quoted | src/rules/valid-theme-function.ts:111-114 | each suggestion is wrapped in double quotes |
| ValidThemeFunction.StyleSheet | src/rules/valid-theme-function.ts:64-76 | the visitor's walk returns the reference reports of the stylesheet |
| ValidThemeFunction.PathsUnchecked | src/rules/valid-theme-function.ts:61-65 | with `checkPaths: false` nothing is reported |
| ValidThemeFunction.EmptyCall | src/rules/valid-theme-function.ts:83-89 | a `theme` function without arguments gives exactly `emptyThemeFunction` |
| ValidThemeFunction.UnquotedCall | src/rules/valid-theme-function.ts:93-102 | with no quoted path, `invalidThemeSyntax` exactly when the text has both parentheses, nothing otherwise |
| ValidThemeFunction.KnownPath | src/rules/valid-theme-function.ts:104-107 | a valid path is not reported |
| ValidThemeFunction.UnknownPath | src/rules/valid-theme-function.ts:107-141 | an invalid path gives one report on the node, with the quoted suggestions exactly when there are some |
| ValidThemeFunction.UnknownPathFix | src/rules/valid-theme-function.ts:123-133 | a fix is offered exactly when there is one suggestion and the node is located, and it rewrites the matched call to `theme("<token>")` |
| ValidThemeFunction.OneReportOnNode | src/rules/valid-theme-function.ts:79-143 | at most one report per node, always on the node |
| ValidThemeFunction.MatchAtQuoted | src/rules/valid-theme-function.ts:92 | the pattern matches `theme("t")` at its start, as a whole, capturing `t` |
| ValidThemeFunction.QuotedCallMatches | src/rules/valid-theme-function.ts:92 | the first match of `theme("t")` is the whole call, capturing `t` |
| ValidThemeFunction.RawTokenRejected | src/rules/valid-theme-function.ts:125-130 | the fix writes a raw token name such as `--color-primary` as the path; with that token alone in the map, the rewritten path is not valid |
| PreferThemeTokens.DigitsFrom | src/rules/prefer-theme-tokens.ts:30 | the end of the maximal run of digits starting at the index |
| PreferThemeTokens.UnsignedLengthIff | src/rules/prefer-theme-tokens.ts:30 | the scanner accepts exactly digits, an optional fraction and one of the units |
| PreferThemeTokens.SpacingValueIff | src/rules/prefer-theme-tokens.ts:29-32 | a spacing value is an optional minus sign then an unsigned length, after trimming |
| PreferThemeTokens.DottedPathRoundTrip | src/rules/prefer-theme-tokens.ts:239-241 | for a token without dots, `--` plus the dotted path with `.` replaced by `-` is the token again |
| PreferThemeTokens.DottedPathValid | src/rules/prefer-theme-tokens.ts:239-241 | the dotted path of a key is a valid `theme()` path for the same map |
| PreferThemeTokens.MatchingToken | src/rules/prefer-theme-tokens.ts:229-246 | none exactly when no entry has the category and exactly the value; otherwise the dotted path of the first such entry |
| PreferThemeTokens.ShouldUseToken | src/rules/prefer-theme-tokens.ts:204-227 | a suggestion exactly for a colour or spacing value of a mapped property in an enabled category, carrying that category and the matching token |
| PreferThemeTokens.DeclarationReportIff | src/rules/prefer-theme-tokens.ts:157-201 | at most one report per declaration, and one exactly when it is not ignored, has no theme reference and should use a token |
| PreferThemeTokens.IgnoredNeverReported | src/rules/prefer-theme-tokens.ts:159-161 | ignored properties are never reported |
| PreferThemeTokens.ReferenceSkipped | src/rules/prefer-theme-tokens.ts:164-167 | a value that already has a theme reference is skipped |
| PreferThemeTokens.ValueReportContents | src/rules/prefer-theme-tokens.ts:174-199 | the report is on the value node with the value and property; with a token it carries the suggestion and a fix writing `theme("<token>")` |
| PreferThemeTokens.DeclarationReportContents | src/rules/prefer-theme-tokens.ts:169-200 | a reportable declaration gets the value report of the first matching token |
| PreferThemeTokens.NodeReport | src/rules/prefer-theme-tokens.ts:157-201 | a report of the visitors on a node is the one report of a reportable declaration |
| PreferThemeTokens.CheckReportFrom | src/rules/prefer-theme-tokens.ts:151-202 | every report of the rule comes from a reportable declaration of the walk |
| PreferThemeTokens.DottedPathPlain | src/rules/prefer-theme-tokens.ts:240-241 | a character other than `.` that is not in the token is not in its dotted path either |
| PreferThemeTokens.CallIsReference | src/rules/prefer-theme-tokens.ts:186 | `theme("<token>")` is a theme reference |
| PreferThemeTokens.FixIsThemeReference | src/rules/prefer-theme-tokens.ts:183-188 | the fix's replacement has a theme reference, so the fixed declaration is skipped on a second run |
| PreferThemeTokens.SuggestionIsToken | src/rules/prefer-theme-tokens.ts:234-242 | a suggestion is the non-empty dotted path of one of the stylesheet's theme names |
| PreferThemeTokens.DottedTokenAccepted | src/rules/prefer-theme-tokens.ts:183-188 | the dotted path of a key without dots is valid, and `theme("<path>")` passes `valid-theme-function` |
| PreferThemeTokens.SuggestionAccepted | src/rules/prefer-theme-tokens.ts:174-189 | a suggested path is valid for the same stylesheet, and the fix text is accepted by `valid-theme-function` |
| PreferThemeTokens.PreferThemeTokensRule.constructor | src/rules/prefer-theme-tokens.ts:141-147 | the options, with their defaults |
| PreferThemeTokens.PreferThemeTokensRule.OnStyleSheet | src/rules/prefer-theme-tokens.ts:152-155 | the rule's theme map is the map extracted from the stylesheet |
| PreferThemeTokens.PreferThemeTokensRule.FindMatchingToken | src/rules/prefer-theme-tokens.ts:229-246 | the loop returns the reference matching token |
| PreferThemeTokens.PreferThemeTokensRule.ShouldUse | src/rules/prefer-theme-tokens.ts:204-227 | the method returns the reference suggestion |
| PreferThemeTokens.PreferThemeTokensRule.OnDeclaration | src/rules/prefer-theme-tokens.ts:157-201 | the visitor returns the reference reports of the declaration |
| PreferThemeTokens.PreferThemeTokensRule.Visit | src/rules/prefer-theme-tokens.ts:151-202 | only declarations are visited |
| PreferThemeTokens.PreferThemeTokensRule.VisitAll | src/rules/prefer-theme-tokens.ts:151-202 | the visitors on each node of a walk, in order |
| PreferThemeTokens.PreferThemeTokensRule.Run | src/rules/prefer-theme-tokens.ts:151-202 | after one stylesheet, the theme map is the extracted one and the reports are the reference reports |
| BrowserCompat.MapGetFacts | src/utils/browser-compat.ts:19-236 | a `Map` built from entries finds a key exactly when some entry has it, and returns one of that key's entries |
| BrowserCompat.MapGetAppend | src/utils/browser-compat.ts:19-236 | in a `Map` built from two runs of entries, a key of the later run wins over the earlier run |
| BrowserCompat.NoVendorPrefix | src/utils/browser-compat.ts:438-440 | a name that does not start with `-` has no vendor prefix |
| BrowserCompat.GetVendorPrefix | src/utils/browser-compat.ts:447-450 | a prefix is found exactly when the name has a vendor prefix, and it is one of the four prefixes that starts the name |
| BrowserCompat.VendorPrefixUnique | src/utils/browser-compat.ts:447-450 | the four alternatives exclude each other, so the prefix found is the one the name starts with |
| BrowserCompat.VendorPrefixFirst | src/utils/browser-compat.ts:462-470 | a vendor-prefixed name of any kind is of limited availability, with the unprefixed name in the alternative, and no table is consulted |
| BrowserCompat.PropertiesShape | src/utils/browser-compat.ts:19-236 | every property entry but `--*` is named by its key, and every limited one has an alternative |
| BrowserCompat.AtRulesShape | src/utils/browser-compat.ts:241-277 | every at-rule entry is named by its key, and every limited one has an alternative |
| BrowserCompat.PseudoClassesShape | src/utils/browser-compat.ts:282-333 | every pseudo-class entry is named by its key, and every limited one has an alternative |
| BrowserCompat.FunctionsShape | src/utils/browser-compat.ts:338-431 | every function entry is named by its key followed by `()`, and every limited one has an alternative |
| BrowserCompat.CustomEntry | src/utils/browser-compat.ts:76 | the lookup of `--*` in the property table finds the custom-property entry |
| BrowserCompat.CustomPropertyStatus | src/utils/browser-compat.ts:472-475 | a property starting with `--` is the widely-available custom property, whatever follows |
| BrowserCompat.ColorPropertyStatus | src/utils/browser-compat.ts:23 | `color` is a widely-available property |
| BrowserCompat.ColorFunctionStatus | src/utils/browser-compat.ts:380 | `color` is also a newly-available function, named `color()`: the kinds have separate tables |
| BrowserCompat.ColorProperty | src/utils/browser-compat.ts:19-236 | the property table maps `color` to its widely-available entry |
| BrowserCompat.ColorFunction | src/utils/browser-compat.ts:338-431 | the function table maps `color` to its newly-available entry |
| BrowserCompat.TableLookup | src/utils/browser-compat.ts:477-488 | outside the prefix and custom-property cases, a name is classified exactly when its kind's table has it as a key, and then with one of that key's entries |
| BrowserCompat.FeatureShape | src/utils/browser-compat.ts:458-489 | every classified feature carries its display name, and a limited one always carries an alternative |
| BrowserCompat.TableFeatureShape | src/utils/browser-compat.ts:477-488 | the same for a name looked up in its table |
| UseBaseline.StrictnessOf | src/rules/use-baseline.ts:69 | the given strictness, else `limited` |
| UseBaseline.ShouldReport | src/rules/use-baseline.ts:75-85 | reported exactly when the name is not ignored and the status is limited, or newly available under `newly`; a widely-available feature never |
| UseBaseline.MessageId | src/rules/use-baseline.ts:11-16 | `vendorPrefix` exactly for a vendor-prefixed name; otherwise `limitedAvailability` exactly for limited availability, else `newlyAvailable` |
| UseBaseline.Suggestion | src/rules/use-baseline.ts:101-103 | empty exactly when there is no non-empty alternative; otherwise a space followed by the alternative |
| UseBaseline.ReportOfFeature | src/rules/use-baseline.ts:90-161 | a report comes from a classified feature that is not widely available and not ignored, carries the kind and reported name, is on the node without a fix, is `vendorPrefix` exactly for a prefixed reported name, and is `newlyAvailable` only under `newly` |
| UseBaseline.CustomPropertiesNotReported | src/rules/use-baseline.ts:119-126 | a property starting with `--` is never reported |
| UseBaseline.VendorPrefixedProperty | src/rules/use-baseline.ts:119-126 | a vendor-prefixed property gives exactly one `vendorPrefix` report naming the unprefixed property, unless the prefixed name is ignored |
| UseBaseline.PrefixedPropertyReport | src/rules/use-baseline.ts:90-126 | the same for any classifier that classifies the property as vendor-prefixed |
| UseBaseline.VendorPrefixCall | src/rules/use-baseline.ts:96-99 | appending `()` neither creates nor removes a vendor prefix |
| UseBaseline.VendorPrefixedFunction | src/rules/use-baseline.ts:154-161 | a vendor-prefixed function is reported exactly when its bare name is not ignored, as `vendorPrefix` under `name()` |
| UseBaseline.FunctionIgnoredByCall | src/rules/use-baseline.ts:154-161 | a function found in its table is ignored by listing `name()` |
| UseBaseline.AtRuleNeverVendorPrefix | src/rules/use-baseline.ts:131-138 | an at-rule is reported as `@name` and never as `vendorPrefix` |
| UseBaseline.ColonEnd | src/rules/use-baseline.ts:176 | the end of the maximal run of colons from the index |
| UseBaseline.NameEnd | src/rules/use-baseline.ts:176 | the end of the maximal run of word characters and `-` from the index |
| UseBaseline.CloseParen | src/rules/use-baseline.ts:176 | the first `)` from the index, or the end |
| UseBaseline.GroupEnd | src/rules/use-baseline.ts:176 | the optional parenthesised group ends just past a `)` it opened with `(`, or takes nothing |
| UseBaseline.MatchEnd | src/rules/use-baseline.ts:176 | a match holds at least a colon and a name character |
| UseBaseline.SplitBefore | src/rules/use-baseline.ts:186 | the part before the first `(` is the prefix up to that index |
| UseBaseline.MatchForm | src/rules/use-baseline.ts:176-186 | a match that does not start with `::` has, as its checked name, the single colon and name run |
| UseBaseline.SingleColon | src/rules/use-baseline.ts:176-181 | a match not starting with `::` has exactly one colon |
| UseBaseline.MatchesPseudoClassForm | src/rules/use-baseline.ts:176-187 | every match that is not a pseudo-element yields a single-colon name |
| UseBaseline.MatchAt | src/rules/use-baseline.ts:176 | colons then name characters make a match, and the scan continues after it |
| UseBaseline.CallMatch | src/rules/use-baseline.ts:176-186 | `:name(arg)` is one match and its checked name is `:name` |
| UseBaseline.NotDisabled | src/rules/use-baseline.ts:176-186 | `:not(:disabled)` is one match, so only `:not` is checked |
| UseBaseline.PseudoThenElement | src/rules/use-baseline.ts:176-183 | `:a::b` gives two matches, and the second starts with `::` and is skipped |
| UseBaseline.HoverBefore | src/rules/use-baseline.ts:176-183 | `:hover::before` gives `:hover` and `::before` |
| UseBaseline.CheckSelector | src/rules/use-baseline.ts:166-189 | the loop over the matches returns the reference reports of the selector |
| UseBaseline.PseudoReportFrom | src/rules/use-baseline.ts:178-188 | every pseudo-class report comes from a match that is not a pseudo-element |
| UseBaseline.SelectorReportShape | src/rules/use-baseline.ts:166-189 | every selector report names a single-colon pseudo-class and is never `vendorPrefix` |
| UseBaseline.NestedFunctionChecked | src/rules/use-baseline.ts:195-206 | every function at any depth in the value of a declaration of the walk is checked |
| UseBaseline.ReportFromNode | src/rules/use-baseline.ts:191-218 | every report of the walk is that of a declaration, at-rule or rule of the walk |
| NoInvalidNamedGridAreas.IndexFrom | src/rules/no-invalid-named-grid-areas.ts:49-53 | the first position at or after the start holding the name, or -1 exactly when there is none |
| NoInvalidNamedGridAreas.ColumnsMembers | src/rules/no-invalid-named-grid-areas.ts:47-57 | the positions collected for a row are exactly those holding the name, in strictly increasing order |
| NoInvalidNamedGridAreas.ColumnsFrom | src/rules/no-invalid-named-grid-areas.ts:49-54 | the positions from a start are those from the next occurrence of the name |
| NoInvalidNamedGridAreas.ColumnsOf | src/rules/no-invalid-named-grid-areas.ts:48-56 | the inner `while` loop returns the positions of the name in the row |
| NoInvalidNamedGridAreas.ColumnsHit | src/rules/no-invalid-named-grid-areas.ts:51-54 | a hit is followed by the positions from the next occurrence after it |
| NoInvalidNamedGridAreas.RowColumns | src/rules/no-invalid-named-grid-areas.ts:47-57 | one list of positions per row, each that row's positions of the name |
| NoInvalidNamedGridAreas.ColumnsByRow | src/rules/no-invalid-named-grid-areas.ts:47-57 | the map over the rows returns the positions of the name in every row |
| NoInvalidNamedGridAreas.FlaggedByWitness | src/rules/no-invalid-named-grid-areas.ts:59-71 | a row is flagged by the first rows scanned exactly when one of them differs from it, both holding the name |
| NoInvalidNamedGridAreas.ScanErrorsMember | src/rules/no-invalid-named-grid-areas.ts:59-79 | the errors pushed by the pair loops up to a pair are exactly the rows flagged by an earlier row scanned so far |
| NoInvalidNamedGridAreas.ErrorsForMember | src/rules/no-invalid-named-grid-areas.ts:46-80 | an error of the names is one of the names with a row flagged by an earlier row |
| NoInvalidNamedGridAreas.FlatMembers | src/rules/no-invalid-named-grid-areas.ts:42 | a token is in the flattened grid exactly when some row holds it |
| NoInvalidNamedGridAreas.NonNull | src/rules/no-invalid-named-grid-areas.ts:42-44 | the kept tokens are exactly those that are not null cells |
| NoInvalidNamedGridAreas.NonNullDistinct | src/rules/no-invalid-named-grid-areas.ts:42-44 | filtering keeps the tokens distinct |
| NoInvalidNamedGridAreas.AreaNamesFacts | src/rules/no-invalid-named-grid-areas.ts:42-44 | the names are distinct, and are exactly the grid's tokens that are not null cells |
| NoInvalidNamedGridAreas.NonRectangularIff | src/rules/no-invalid-named-grid-areas.ts:39-83 | an error (name, row) is found exactly when the name is not a null cell, the row is in the grid, and an earlier row holds the name at other positions than that row does |
| NoInvalidNamedGridAreas.FlaggedByColumns | src/rules/no-invalid-named-grid-areas.ts:47-71 | the same flag, stated on the rows of the grid |
| NoInvalidNamedGridAreas.NameInFlat | src/rules/no-invalid-named-grid-areas.ts:42 | a name some row holds is a token of the flattened grid |
| NoInvalidNamedGridAreas.SingleRowNoErrors | src/rules/no-invalid-named-grid-areas.ts:59-60 | a grid of at most one row has no errors, whatever repeats within the row |
| NoInvalidNamedGridAreas.SameColumnsNotReported | src/rules/no-invalid-named-grid-areas.ts:64-71 | a name at the same positions in every row that holds it is never reported, even when rows between them lack it |
| NoInvalidNamedGridAreas.FindNonRectangularAreas | src/rules/no-invalid-named-grid-areas.ts:39-83 | the nested loops return the reference errors, with no error twice |
| NoInvalidNamedGridAreas.ScanRows | src/rules/no-invalid-named-grid-areas.ts:59-79 | the loop over the first row of a pair appends the errors of one name and keeps the reported set in step, without duplicates |
| NoInvalidNamedGridAreas.ScanPairs | src/rules/no-invalid-named-grid-areas.ts:60-78 | the loop over the second row of a pair does the same for one first row |
| NoInvalidNamedGridAreas.NameNotYetReported | src/rules/no-invalid-named-grid-areas.ts:72-76 | the errors of earlier names never carry the current name |
| NoInvalidNamedGridAreas.ParseString | src/rules/no-invalid-named-grid-areas.ts:138-145 | a string is blank exactly when its trimmed value is empty; otherwise its cells are the whitespace-separated words of the trimmed value |
| NoInvalidNamedGridAreas.ParseStrings | src/rules/no-invalid-named-grid-areas.ts:136-153 | one parsed string per string node, in order |
| NoInvalidNamedGridAreas.StringNodesOf | src/rules/no-invalid-named-grid-areas.ts:123-125 | the nodes of the parsed strings, in order |
| NoInvalidNamedGridAreas.NoRowsNoUneven | src/rules/no-invalid-named-grid-areas.ts:148-152 | before any row, no string is uneven |
| NoInvalidNamedGridAreas.BuildGrid | src/rules/no-invalid-named-grid-areas.ts:131-153 | the loop returns the rows of the non-blank strings, the blank strings, and the strings whose width differs from the first row's |
| NoInvalidNamedGridAreas.AddString | src/rules/no-invalid-named-grid-areas.ts:137-152 | one round keeps the loop state equal to that of the strings seen so far: a blank string is added to the blank ones, any other adds its row, and its node when its width differs from the first row's |
| NoInvalidNamedGridAreas.GridStepBlank | src/rules/no-invalid-named-grid-areas.ts:140-143 | a blank string is appended to the blank strings and changes neither the rows nor the uneven strings |
| NoInvalidNamedGridAreas.GridStepRow | src/rules/no-invalid-named-grid-areas.ts:145-152 | a non-blank string appends its cells to the rows, and its node to the uneven strings when its width differs |
| NoInvalidNamedGridAreas.RowPerString | src/rules/no-invalid-named-grid-areas.ts:136-146 | without blank strings, row k is the cells of string k |
| NoInvalidNamedGridAreas.BlankStringsMembers | src/rules/no-invalid-named-grid-areas.ts:140-142 | the blank strings are exactly the strings whose trimmed value is empty |
| NoInvalidNamedGridAreas.UnevenStringsMembers | src/rules/no-invalid-named-grid-areas.ts:148-152 | the uneven strings are exactly the non-blank strings of another width |
| NoInvalidNamedGridAreas.EmptyReports | src/rules/no-invalid-named-grid-areas.ts:155-159 | one `emptyGridArea` per blank string, in order |
| NoInvalidNamedGridAreas.UnevenReports | src/rules/no-invalid-named-grid-areas.ts:164-168 | one `unevenGridArea` per uneven string, in order |
| NoInvalidNamedGridAreas.AreaReports | src/rules/no-invalid-named-grid-areas.ts:173-183 | one `nonRectangularGridArea` per error, on the string of its row, with its name |
| NoInvalidNamedGridAreas.ErrorRowsInRange | src/rules/no-invalid-named-grid-areas.ts:72-75 | every error names a row of the grid |
| NoInvalidNamedGridAreas.AreasReported | src/rules/no-invalid-named-grid-areas.ts:155-183 | with no blank and no uneven string, the reports are those of the errors, and every error row indexes a string |
| NoInvalidNamedGridAreas.ReportEmpty | src/rules/no-invalid-named-grid-areas.ts:155-159 | the loop reports each blank string |
| NoInvalidNamedGridAreas.ReportUneven | src/rules/no-invalid-named-grid-areas.ts:164-168 | the loop reports each uneven string |
| NoInvalidNamedGridAreas.ReportAreas | src/rules/no-invalid-named-grid-areas.ts:173-183 | the loop reports each error on the string of its row |
| NoInvalidNamedGridAreas.CheckDeclaration | src/rules/no-invalid-named-grid-areas.ts:113-129 | the callback on a declaration returns the reference reports: nothing unless a grid-template property, in any case, has strings |
| NoInvalidNamedGridAreas.CheckStrings | src/rules/no-invalid-named-grid-areas.ts:131-183 | the body on the strings returns the reference reports: blanks first, else uneven rows, else areas that are not rectangles |
| NoInvalidNamedGridAreas.BlankStringsFirst | src/rules/no-invalid-named-grid-areas.ts:155-162 | with a blank string, each blank string gets `emptyGridArea` and nothing else is reported |
| NoInvalidNamedGridAreas.UnevenGridReports | src/rules/no-invalid-named-grid-areas.ts:164-171 | without blank strings but with an uneven one, the reports are those of the uneven strings |
| NoInvalidNamedGridAreas.UnevenRowsNext | src/rules/no-invalid-named-grid-areas.ts:148-171 | without blank strings, a string of another width than the first gets `unevenGridArea`, and only such strings are reported |
| NoInvalidNamedGridAreas.EvenGridReports | src/rules/no-invalid-named-grid-areas.ts:173-183 | for an even grid without blank strings, the reports are the errors, each on the string of its row |
| NoInvalidNamedGridAreas.AreaErrorIff | src/rules/no-invalid-named-grid-areas.ts:39-83 | without blank strings, a name is reported on string k exactly when it is not a null cell and an earlier string holds it at other positions than string k |
| ConsistentSpacing.DefaultOptions | src/rules/consistent-spacing.ts:99-102 | without options the rule asks for a space after the colon and none before it |
| ConsistentSpacing.Required | src/rules/consistent-spacing.ts:118-256 | the text a side must hold is one space or nothing, and never a colon |
| ConsistentSpacing.BeforeVerdict | src/rules/consistent-spacing.ts:111-180 | the text before the colon is flagged exactly when its length differs from what the option asks for, and the fix puts in exactly what it asks for |
| ConsistentSpacing.AfterVerdict | src/rules/consistent-spacing.ts:189-258 | the text after the colon is flagged exactly when its length differs from what the option asks for, and the fix puts in exactly what it asks for |
| ConsistentSpacing.BeforeColonMessages | src/rules/consistent-spacing.ts:118-178 | no space under `always` gives `expectedSpaceBeforeColon`, one space under `never` gives `unexpectedSpaceBeforeColon`, more than one gives `multipleSpacesBeforeColon` |
| ConsistentSpacing.AfterColonMessages | src/rules/consistent-spacing.ts:197-256 | no space under `always` gives `expectedSpaceAfterColon`, any space under `never` gives `unexpectedSpaceAfterColon`, more than one under `always` gives `multipleSpacesAfterColon` |
| ConsistentSpacing.InfoOf | src/rules/consistent-spacing.ts:268-284 | positions exist exactly for a located declaration with a located value; the property end is the declaration start plus the property length |
| ConsistentSpacing.CheckBeforeColon | src/rules/consistent-spacing.ts:111-180 | at most one report, none exactly when the text before the colon is right; the fix replaces that text after the property end by the required text |
| ConsistentSpacing.CheckAfterColon | src/rules/consistent-spacing.ts:189-258 | at most one report, none exactly when the text after the colon is right; the fix starts just after the colon, and inserts there when the text is empty |
| ConsistentSpacing.CheckBetween | src/rules/consistent-spacing.ts:286-301 | nothing when the text between property and value has no colon; at most two reports |
| ConsistentSpacing.CheckDeclaration | src/rules/consistent-spacing.ts:262-301 | nothing for other nodes or declarations without locations; at most two reports |
| ConsistentSpacing.AtMostTwoPerDeclaration | src/rules/consistent-spacing.ts:261-303 | a stylesheet has at most two reports per node of the walk |
| ConsistentSpacing.CommentCounts | src/rules/consistent-spacing.ts:286-296 | every character on a side counts towards its length, a comment included |
| ConsistentSpacing.ColonAt | src/rules/consistent-spacing.ts:290-296 | the first colon splits the text into the parts before and after it |
| ConsistentSpacing.RerunClean | src/rules/consistent-spacing.ts:111-258 | once both sides are fixed, the check finds nothing more |
| ConsistentSpacing.SplitAtColon | src/rules/consistent-spacing.ts:286-301 | the two reports fix the disjoint ranges before and after the colon, and their fixed texts around the colon make the fixed text |
| ConsistentSpacing.BetweenFixed | src/rules/consistent-spacing.ts:127-254 | applying a declaration's fixes replaces the text between property and value by its fixed form |
| ConsistentSpacing.FixesApplied | src/rules/consistent-spacing.ts:262-301 | the same for the reports of a declaration node |
| ConsistentSpacing.FixIdempotent | src/rules/consistent-spacing.ts:260-303 | after the fixes are applied, a re-run reports nothing for the declaration |
| ValidApplyDirective.IsValidModifierSyntax | src/rules/valid-apply-directive.ts:8-28 | the method with its loop over the modifier parts returns the reference verdict |
| ValidApplyDirective.ModifierSyntaxNeedsColon | src/rules/valid-apply-directive.ts:10-13 | modifier syntax needs a colon |
| ValidApplyDirective.ModifiedUtility | src/rules/valid-apply-directive.ts:8-28 | a well-formed modifier, a colon, and a non-blank utility without colons is modifier syntax |
| ValidApplyDirective.PropertyShapeRejected | src/rules/valid-apply-directive.ts:16 | a name with only blanks after its colon is not modifier syntax |
| ValidApplyDirective.LowerRun | src/rules/valid-apply-directive.ts:49 | the length of the longest prefix of lower-case letters and dashes |
| ValidApplyDirective.BareNumberIff | src/rules/valid-apply-directive.ts:53 | the scanner's leading-number test agrees with the pattern: digits not followed by a letter |
| ValidApplyDirective.FirstBracketIff | src/rules/valid-apply-directive.ts:55 | the first bracket is `]` exactly when a `]` comes with no `[` before it |
| ValidApplyDirective.LastBracketIff | src/rules/valid-apply-directive.ts:55 | the last bracket is `[` exactly when a `[` has no `]` after it |
| ValidApplyDirective.UnclosedBracketIff | src/rules/valid-apply-directive.ts:55 | the unclosed-bracket test holds exactly when a `[` is never closed or a `]` was never opened |
| ValidApplyDirective.CssPatternUnreachable | src/rules/valid-apply-directive.ts:42-49 | the property pattern never fires on a base utility that passed the character test |
| ValidApplyDirective.OneSidedBracketUnclosed | src/rules/valid-apply-directive.ts:55 | a text with brackets of only one kind has an unclosed bracket |
| ValidApplyDirective.ValidFormatBalanced | src/rules/valid-apply-directive.ts:30-75 | a base utility that passes is non-empty, has only allowed characters, and has as many `[` as `]` |
| ValidApplyDirective.ValidateUtility | src/rules/valid-apply-directive.ts:225-259 | at most one report, on the prelude or the at-rule, without a fix; `cssPropertyInApply` exactly for the declaration shape, otherwise `invalidUtility` with the utility |
| ValidApplyDirective.ValidateUtilityIff | src/rules/valid-apply-directive.ts:225-259 | a utility passes exactly when it is not a declaration, is modifier syntax if it has a colon, and has a valid format |
| ValidApplyDirective.DeclarationInApply | src/rules/valid-apply-directive.ts:227-237 | `p:` is reported as a declaration with `p` as the property |
| ValidApplyDirective.ValidateEach | src/rules/valid-apply-directive.ts:210-212 | at most one report per utility |
| ValidApplyDirective.ValidateEachReports | src/rules/valid-apply-directive.ts:225-259 | every report of the utilities is `cssPropertyInApply` or `invalidUtility`, on the prelude or the at-rule |
| ValidApplyDirective.ValidateUtilities | src/rules/valid-apply-directive.ts:210-212 | the loop returns the reports of the utilities in order |
| ValidApplyDirective.ResolveOptions | src/rules/valid-apply-directive.ts:135-137 | `allowEmpty` only when given as true; the maximum as given unless absent or 0, then 20 |
| ValidApplyDirective.IntToString | src/rules/valid-apply-directive.ts:203-204 | the decimal text of an integer, with a minus sign when negative |
| ValidApplyDirective.EnterFlags | src/rules/valid-apply-directive.ts:145-170 | entering a `@media` sets the media flag and entering an `@apply` sets the apply flag |
| ValidApplyDirective.ExitFlags | src/rules/valid-apply-directive.ts:215-222 | leaving a `@media` or an `@apply` clears its flag, whatever encloses it |
| ValidApplyDirective.ApplyBodyReports | src/rules/valid-apply-directive.ts:170-212 | the part after the apply flag is set returns the reference reports |
| ValidApplyDirective.ApplyChecker.constructor | src/rules/valid-apply-directive.ts:134-140 | the options and the text are kept, and both flags start cleared |
| ValidApplyDirective.ApplyChecker.Atrule | src/rules/valid-apply-directive.ts:143-213 | the visitor returns the reference reports for the flags it found, and sets the flags as entering prescribes |
| ValidApplyDirective.ApplyChecker.AtruleExit | src/rules/valid-apply-directive.ts:215-222 | the exit visitor updates the flags as leaving prescribes |
| ValidApplyDirective.LintFile | src/rules/valid-apply-directive.ts:134-223 | a fresh checker over every enter and exit of the walk returns the reference reports of the event sequence |
| ValidApplyDirective.EnterExitRestores | src/rules/valid-apply-directive.ts:145-222 | entering and leaving an at-rule gives back the flags it found, unless its flag was already set |
| ValidApplyDirective.NestedApplyReported | src/rules/valid-apply-directive.ts:153-160 | an `@apply` entered inside another gives exactly `nestedApply` |
| ValidApplyDirective.MediaFlagNotNested | src/rules/valid-apply-directive.ts:145-147 | the media flag is not a depth: after an inner `@media` is left, an `@apply` still in the outer one is not reported as in a media query |
| ValidApplyDirective.FirstLevelApply | src/rules/valid-apply-directive.ts:149-212 | an `@apply` neither nested nor in a media query gets exactly the reports of its body |
| ValidApplyDirective.TooManyIff | src/rules/valid-apply-directive.ts:189-207 | `tooManyUtilities` exactly when there is a prelude with more utilities than the maximum and the empty check did not end the visit |
| ValidApplyDirective.EmptyApplyIff | src/rules/valid-apply-directive.ts:172-195 | `emptyApply` exactly when empty lists are not allowed and there is no prelude or no utility in it |
| ValidApplyDirective.ReportsWithoutApply | src/rules/valid-apply-directive.ts:143-222 | the events up to any point report nothing while no `@apply` has been entered |
| ValidApplyDirective.NoApplyNoReports | src/rules/valid-apply-directive.ts:143-222 | a stylesheet without `@apply` gets no reports, whatever its media queries |
| NoArbitraryValueOveruse.CleanValue | src/rules/no-arbitrary-value-overuse.ts:14 | the value without its first and last character, and empty when it has fewer than two |
| NoArbitraryValueOveruse.PercentUnit | src/rules/no-arbitrary-value-overuse.ts:23 | a length ends with `%` exactly when its unit is `%` |
| NoArbitraryValueOveruse.LengthStartsWithDigit | src/rules/no-arbitrary-value-overuse.ts:23 | an unsigned length starts with a digit |
| NoArbitraryValueOveruse.SignOf | src/rules/no-arbitrary-value-overuse.ts:23 | the optional leading minus sign, and it is `-` exactly when the value starts with one |
| NoArbitraryValueOveruse.TokenLengthIff | src/rules/no-arbitrary-value-overuse.ts:23 | the scanner accepts exactly an optional minus, digits, an optional fraction and one of `px`, `rem`, `em`, `vh`, `vw` |
| NoArbitraryValueOveruse.SuggestedExamples | src/rules/no-arbitrary-value-overuse.ts:12-66 | `[#fff]` on `bg-` and `[50%]` on `w-` are values a token should name |
| NoArbitraryValueOveruse.NoSuggestionOutsideList | src/rules/no-arbitrary-value-overuse.ts:56-62 | a utility that starts with none of the listed prefixes gets no suggestion, whatever its value |
| NoArbitraryValueOveruse.ResolveOptions | src/rules/no-arbitrary-value-overuse.ts:127-130 | the file maximum defaults to 10 and the rule maximum to 3, a given 0 is kept, and the allowed set is the given list or empty |
| NoArbitraryValueOveruse.Uncounted | src/rules/no-arbitrary-value-overuse.ts:157-164 | a utility without arbitrary values, or whose base utility is allowed, adds nothing |
| NoArbitraryValueOveruse.CountedStep | src/rules/no-arbitrary-value-overuse.ts:157-180 | a counted utility adds its arbitrary values, and its value when its parse has one |
| NoArbitraryValueOveruse.RuleStep | src/rules/no-arbitrary-value-overuse.ts:156-182 | the at-rule totals after one more utility are the old totals plus that utility's count and value |
| NoArbitraryValueOveruse.ValuesWithinCount | src/rules/no-arbitrary-value-overuse.ts:156-182 | an at-rule records at most as many values as it counts arbitrary values |
| NoArbitraryValueOveruse.AllowedNotCounted | src/rules/no-arbitrary-value-overuse.ts:161-164 | utilities whose base utilities are all allowed count nothing and record nothing |
| NoArbitraryValueOveruse.Tag | src/rules/no-arbitrary-value-overuse.ts:175-179 | one file entry per recorded value |
| NoArbitraryValueOveruse.TagConcat | src/rules/no-arbitrary-value-overuse.ts:175-179 | recording two runs of values records the first run, then the second |
| NoArbitraryValueOveruse.TagAt | src/rules/no-arbitrary-value-overuse.ts:175-179 | each file entry is the value at the same place, with the at-rule |
| NoArbitraryValueOveruse.IntString | src/rules/no-arbitrary-value-overuse.ts:190-191 | the decimal text of an integer |
| NoArbitraryValueOveruse.Suggestions | src/rules/no-arbitrary-value-overuse.ts:197-206 | at most one `considerThemeToken` per recorded value, each on the prelude |
| NoArbitraryValueOveruse.SuggestionsWithinCount | src/rules/no-arbitrary-value-overuse.ts:156-206 | an at-rule's suggestions are at most as many as the arbitrary values it counts |
| NoArbitraryValueOveruse.FileStep | src/rules/no-arbitrary-value-overuse.ts:166-179 | the file totals after one more at-rule are the old totals plus that at-rule's count and recorded values |
| NoArbitraryValueOveruse.FileValuesWithinCount | src/rules/no-arbitrary-value-overuse.ts:132-180 | the file records at most as many values as it counts arbitrary values |
| NoArbitraryValueOveruse.FirstValueAtRule | src/rules/no-arbitrary-value-overuse.ts:211-215 | the file report names the first at-rule that recorded a value; no earlier at-rule recorded one |
| NoArbitraryValueOveruse.NoValuesBefore | src/rules/no-arbitrary-value-overuse.ts:132-180 | no value recorded in the file means none recorded in any at-rule |
| NoArbitraryValueOveruse.FileReportIff | src/rules/no-arbitrary-value-overuse.ts:209-222 | one file report exactly when the count is over the maximum and some value was recorded, on the at-rule of the first value |
| NoArbitraryValueOveruse.OveruseTracker.constructor | src/rules/no-arbitrary-value-overuse.ts:126-137 | the options and text are kept, and the file count and values start empty |
| NoArbitraryValueOveruse.OveruseTracker.CountUtility | src/rules/no-arbitrary-value-overuse.ts:157-181 | one round adds the utility's count to the file count and its value, tagged with the at-rule, to the file values |
| NoArbitraryValueOveruse.OveruseTracker.CountUtilities | src/rules/no-arbitrary-value-overuse.ts:150-182 | the loop returns the at-rule's count and values and adds them to the file totals |
| NoArbitraryValueOveruse.OveruseTracker.Atrule | src/rules/no-arbitrary-value-overuse.ts:140-207 | the visitor returns the at-rule's reports and keeps the file totals equal to those of the at-rules visited |
| NoArbitraryValueOveruse.OveruseTracker.StyleSheetExit | src/rules/no-arbitrary-value-overuse.ts:209-222 | the exit visitor returns the file report of the at-rules visited |
| NoArbitraryValueOveruse.SuggestTokens | src/rules/no-arbitrary-value-overuse.ts:197-206 | the loop returns the suggestions of the recorded values |
| NoArbitraryValueOveruse.LintFile | src/rules/no-arbitrary-value-overuse.ts:139-223 | one stylesheet gives the reports of each at-rule in walk order, then the file report |
| FirstSeen.StoredFind | src/rules/no-duplicate-imports.ts:68-78 | a stored key belongs to a visited at-rule, the first one with that key, and that at-rule is what the map holds |
| FirstSeen.StoredAbsent | src/rules/no-duplicate-imports.ts:68-78 | a key that is not stored belongs to no visited at-rule |
| FirstSeen.StoredHas | src/rules/no-duplicate-imports.ts:76-78 | the key of every visited at-rule is in the map afterwards |
| FirstSeen.LastReportIff | src/rules/no-duplicate-reference.ts:89-102 | an at-rule is reported exactly when an earlier at-rule had the same key |
| FirstSeen.DuplicateCount | src/rules/no-duplicate-imports.ts:68-78 | every keyed at-rule is either stored or reported, so the reports number the keyed at-rules less the distinct keys |
| NoDuplicateImports.QuotedBody | src/rules/no-duplicate-imports.ts:50-52 | the string form matches exactly a quote, a run without line terminators, and a quote at the end, and captures the run |
| NoDuplicateImports.UrlArgument | src/rules/no-duplicate-imports.ts:58 | the `url(` form needs the text to start with `url` and end with `)` |
| NoDuplicateImports.QuotedArgument | src/rules/no-duplicate-imports.ts:58 | the quoted alternative captures a non-empty run without quotes |
| NoDuplicateImports.UrlOfText | src/rules/no-duplicate-imports.ts:46-66 | a URL found in the prelude is never empty |
| NoDuplicateImports.StringForm | src/rules/no-duplicate-imports.ts:50-52 | `"u"` and `'u'` give `u` |
| NoDuplicateImports.UrlCall | src/rules/no-duplicate-imports.ts:50-58 | `url(x)` is not in the string form and its argument is `x` |
| NoDuplicateImports.UnquotedUrlForm | src/rules/no-duplicate-imports.ts:58-61 | `url(u)` gives `u` |
| NoDuplicateImports.QuotedUrlForm | src/rules/no-duplicate-imports.ts:58-61 | `url("u")` and `url('u')` give `u` |
| NoDuplicateImports.QuotedRun | src/rules/no-duplicate-imports.ts:58 | the quoted alternative on a quoted run captures the run |
| NoDuplicateImports.QuoteIndexAfterRun | src/rules/no-duplicate-imports.ts:58 | the first quote after a run without quotes is right after it |
| NoDuplicateImports.FormsAgree | src/rules/no-duplicate-imports.ts:5-20 | `@import "u"`, `@import url("u")` and `@import url(u)` name the same URL, so they are duplicates |
| NoDuplicateImports.ReportCount | src/rules/no-duplicate-imports.ts:68-78 | the reports number the at-rules with a URL less the distinct URLs |
| NoDuplicateImports.ImportTracker.constructor | src/rules/no-duplicate-imports.ts:37 | the map starts empty |
| NoDuplicateImports.ImportTracker.Atrule | src/rules/no-duplicate-imports.ts:40-79 | no URL changes nothing; a stored URL is reported and the map is unchanged; a new URL is stored with its at-rule |
| NoDuplicateImports.LintFile | src/rules/no-duplicate-imports.ts:36-81 | the reports are those of the first-seen map over the at-rules in walk order |
| NoDuplicateReference.LazyFrom | src/rules/no-duplicate-reference.ts:73 | the lazy group captures the shortest prefix, of at least the given length, after which the rest is an optional quote and spaces |
| NoDuplicateReference.ReferenceNonEmpty | src/rules/no-duplicate-reference.ts:80-83 | a captured target is never empty |
| NoDuplicateReference.BodyDownNonEmpty | src/rules/no-duplicate-reference.ts:73 | a capture of the `url()` body is never empty |
| NoDuplicateReference.LazyStops | src/rules/no-duplicate-reference.ts:73 | the lazy group stops at the first length from which the rest is an optional quote and spaces |
| NoDuplicateReference.RunSuffixes | src/rules/no-duplicate-reference.ts:73 | in a run without quotes ending in a non-space, no earlier suffix is an optional quote and spaces |
| NoDuplicateReference.QuotedUrlForm | src/rules/no-duplicate-reference.ts:72-77 | `url("u")` and `url('u')` give `u`, whichever quotes open and close it |
| NoDuplicateReference.QuotedBody | src/rules/no-duplicate-reference.ts:73 | after an opening quote the lazy group captures the quoted run |
| NoDuplicateReference.UnquotedUrlForm | src/rules/no-duplicate-reference.ts:72-77 | `url(u)` gives `u` |
| NoDuplicateReference.StringForm | src/rules/no-duplicate-reference.ts:67-69 | `"u"`, `'u'` and the mixed `"u'` give `u` |
| NoDuplicateReference.FormsAgree | src/rules/no-duplicate-reference.ts:63-78 | `@reference "u"`, `@reference url('u')` and `@reference url(u)` name the same target |
| NoDuplicateReference.ReportCount | src/rules/no-duplicate-reference.ts:89-102 | the reports number the at-rules with a target less the distinct targets |
| NoDuplicateReference.ReferenceTracker.constructor | src/rules/no-duplicate-reference.ts:50 | the map starts empty |
| NoDuplicateReference.ReferenceTracker.Atrule | src/rules/no-duplicate-reference.ts:53-103 | no target changes nothing; a stored target is reported and the map is unchanged; a new target is stored with its at-rule |
| NoDuplicateReference.LintFile | src/rules/no-duplicate-reference.ts:42-105 | nothing outside a CSS context; otherwise the reports of the first-seen map over the at-rules in walk order |
| NoEmptyBlocks.NodeReport | src/rules/no-empty-blocks.ts:11-78 | at most one `emptyBlock` per node, with type `rule` or `@` and the name, exactly when the node is a rule with an empty block or an at-rule with a block that is empty |
| NoEmptyBlocks.ReportedIff | src/rules/no-empty-blocks.ts:58-80 | a node of the tree has a report exactly when it is such a rule or at-rule |
| NoEmptyBlocks.ReportOfNode | src/rules/no-empty-blocks.ts:58-80 | every such node has its report among the reports |
| NoEmptyBlocks.BlocklessAtRule | src/rules/no-empty-blocks.ts:69-71 | an at-rule without a block is never reported |
| NoImportant.ImportantIn | src/rules/no-important.ts:38-43 | the important declarations are exactly the declarations with `!important` |
| NoImportant.ReportsOfImportant | src/rules/no-important.ts:38-50 | one `avoidImportant` per important declaration, in order |
| NoImportant.OneReportPerImportant | src/rules/no-important.ts:37-51 | one report per important declaration of the tree, in walk order |
| NoImportant.ReportedIff | src/rules/no-important.ts:39-48 | a node is reported exactly when it is an important declaration |
| NoImportant.ReportsOnImportant | src/rules/no-important.ts:39-48 | every report is on an important declaration of the tree |
| RequireReferenceInVue.ReferencesIn | src/rules/require-reference-in-vue.ts:67-71 | the collected at-rules are exactly the `@reference` at-rules |
| RequireReferenceInVue.CollectReferences | src/rules/require-reference-in-vue.ts:64-71 | the walk collects the `@reference` at-rules of the tree, in order |
| RequireReferenceInVue.FallbackReference | src/rules/require-reference-in-vue.ts:59-60 | a given non-empty option is used, otherwise a non-empty default |
| RequireReferenceInVue.StyleSheet | src/rules/require-reference-in-vue.ts:63-96 | the visitor returns the reports of the rule on the stylesheet |
| RequireReferenceInVue.MissingIff | src/rules/require-reference-in-vue.ts:51-96 | in a Vue file, exactly one `missingReference` when no node is a `@reference` at-rule; none otherwise and none outside a Vue file |
| RequireReferenceInVue.FixInserts | src/rules/require-reference-in-vue.ts:82-93 | the fix inserts the directive and a blank line at the first node, or the directive and a newline at the start, and keeps the rest of the text |
| RequireReferenceInVue.DefaultFallback | src/rules/require-reference-in-vue.ts:60-88 | with no option, or an empty one, the directive is `@reference "tailwindcss";` |

## Left out

- **The CSS parser** (css-tree) is not modelled. The tree, its `loc` offsets and the source text are inputs.
- **ESLint itself** is not modelled: applying fixes, resolving overlapping fixes, message templates and rule metadata. A fix is modelled as the single edit it asks for.
- **Option validation** against each rule's JSON schema is not modelled. Options are taken as already valid values.
- **File-type detection** is not modelled. `getCSSContext` and `isCSSContext` are not in the version of src/utils/ast.ts that was modelled, so "is CSS" and "is a Vue file" are boolean inputs.
- **Plugin wiring** is not modelled: src/index.ts, src/configs, src/rules/index.ts, the type files and src/parser. They register and configure rules and carry no behaviour.
- **Three rules are not modelled**: prefer-logical-properties, relative-font-units and use-layers. They re-export rules of `@eslint/css`, whose source is not part of this model.
- **Floating point** in `calculateSimilarity` is not modelled. The similarity `1 - d/L` is kept as the exact pair (d, L). "Above 0.5" becomes `2·d < L`, and the ordering compares `d1·L2` with `d2·L1`, which is what the floating-point comparison evidently means.
- **String encoding** is simplified. Strings are sequences of characters with no astral (surrogate-pair) characters, so the code-point/UTF-16 difference in `parseUtilityClass` does not arise.
- **Lower-casing** covers ASCII letters only (`ToLower`). JavaScript's `toLowerCase` also maps other letters; every table compared against is ASCII.
- **Whitespace** for `\s` and `trim` is JavaScript's set of whitespace characters (`Strings.IsSpace`); `.` excludes JavaScript's four line terminators.
- **Inherited lookups** are modelled only where the finding below needs them. Lookups in object-literal tables are modelled as own-key lookups, and the inherited `Object.prototype` properties appear only in `Records.LookupAsWritten`.
- **Feature documentation links** are not modelled. The `mdn` field of the browser-compatibility entries (src/utils/browser-compat.ts:12) is dropped, because no rule reads it.
- **Two questionable behaviours are stated but not claimed as defects.** `ValidThemeFunction.RawTokenRejected` proves that the unknown-path fix writes a raw `--token` name that the same rule rejects; the rule's own expected outputs include that text, so it is kept as intended. `ValidApplyDirective.MediaFlagNotNested` proves that `inMediaQuery` is a flag, not a depth, so an `@apply` after an inner `@media` closes, inside an outer one, gets no `applyInMediaQuery`; nothing in the source says whether nested `@media` was meant to be counted.
- ValidThemeFunction.UnknownPathFix: only the rewritten text is stated. A second run on the fixed text is not claimed to be clean, because `theme("--color-primary")` is itself not a valid theme path.

## Findings

| source | as written | input that shows it | evidently intended | confidence | as-written member | corrected member |
|---|---|---|---|---|---|---|
| src/utils/at-rules.ts:234-235 | `typoMap[normalized]` is a lookup on a plain object literal, so it also finds properties inherited from `Object.prototype`, and the truthy result is pushed as the first suggestion | the at-rule `@constructor`: the first suggestion is the text `function Object() { [native code] }`, which is not an at-rule | only the map's own entries are corrections, so every suggestion is a valid at-rule | not executed | AtRules.ConstructorLookupAsWritten, AtRules.InheritedComesFirst | AtRules.GetSimilarAtRules, AtRules.SimilarAtRulesValid |
| src/utils/css-properties.ts:378-379 | `typoMap[normalizedInput]` is a lookup on a plain object literal, so it also finds properties inherited from `Object.prototype`, and the truthy result is pushed as the first suggestion | the property `constructor: x`: the first suggestion is the text `function Object() { [native code] }`, which is not a property | only the map's own entries are corrections, so every suggestion is a valid property name | not executed | CssProperties.ConstructorLookupAsWritten, CssProperties.InheritedComesFirst | CssProperties.GetSimilarProperties, CssProperties.SimilarPropertiesValid |
