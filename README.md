# Alternator attribute paths and projection expressions

This project models two related parts of Alternator, the DynamoDB-compatible
API of Scylla. It proves properties of both.

**Parse-tree containers (`ParsedExpressions`).**
- Alternator's expression parser builds its parse tree out of small objects.
  Each object is default-constructed and then filled in by setters:
  - a `path`: a root attribute plus `.name` and `[index]` operators;
  - a `value`: a value reference, a path, or a function call with parameters;
  - a `set_rhs`: `v`, `+` or `-` with two values;
  - an update `action`: set, remove, add or del of a path;
  - an `update_expression`: its list of actions.
- Each is a Dafny `class` with the same fields.
- Each setter states exactly which fields it changes, what they hold afterwards, and what it leaves as it was.
- Each setter also states which alternative of a variant is active afterwards.
- Arguments that the C++ code takes by value are stored as snapshot datatypes (`PathValue`, `ValueData`, `RhsValue`). Later changes to the argument object therefore do not reach the stored copy.

**Projection expressions (`Documents`, `ProjectionParser`, `ProjectionOverlap`, `ProjectionMerge`, `Projection`).**
- A ProjectionExpression such as `a.b[2].y, #n` selects parts of an item. Evaluation is pure functions:
  1. **Parse.** The expression is parsed into paths of the same shape as the parser's `path`. Whitespace around each path is ignored. `#alias` names are replaced from the names table.
  2. **Validate.** The expression is rejected when any two paths overlap, meaning one equals the other or is a prefix of it.
  3. **Resolve.** Each path is resolved against the item. A missing member, an index past the end, or a step into the wrong kind of value makes it absent.
  4. **Merge.** The values found are merged into one item that keeps the original nesting.
- Merging uses a sparse tree:
  - list slots keep the index they were requested with, in the order they were requested;
  - materializing the tree packs every list from position 0.
- Proved about evaluation:
  - Validation succeeds exactly when no two paths overlap.
  - Errors do not depend on the item.
  - The merge holds exactly the requested paths that exist, with their values.
  - Every requested value can be found in the result, under the same root and member names.
  - Two different requested values are placed at different places in the result.
  - The result holds nothing else: every place in it lies on the way to a requested value or inside one.
  - Top-level requests give `{k: item[k] for k in wanted if k in item}`.
  - The result is empty exactly when nothing requested exists.
  - A single path comes back wrapped in its maps and one-element lists.
  - A scan or query applies the same projection to each item.
  - Every assertion of the GetItem projection tests is proved as a lemma about the test's own item, and most of them from the expression text through `Evaluate`.
  - The scan and query tests are covered by one lemma over any page of items, not about their particular items.

Projecting an already projected item again gives the same result only for
paths without list indexes. Packing renumbers list elements: `a[1]` applied to
`{a: [x, y]}` gives `{a: [y]}`, and `a[1]` then finds nothing there.
`ProjectionExamples.IndexedProjectionNotIdempotent` proves this case.
`Projection.ProjectionIdempotent` proves idempotence for index-free paths.

## Model

| member | source | states |
|---|---|---|
| ParsedExpressions.Path.constructor | alternator/expressions_types.hh:31-36 | a default path has an empty root and no operators, so `has_operators()` is false |
| ParsedExpressions.Path.SetRoot | alternator/expressions_types.hh:38-40 | the root becomes the argument and `root()` returns it; the operators and `has_operators()` are unchanged |
| ParsedExpressions.Path.AddIndex | alternator/expressions_types.hh:41-43 | appends exactly one index operator at the end; the root and earlier operators are unchanged; `has_operators()` then holds |
| ParsedExpressions.Path.AddDot | alternator/expressions_types.hh:44-46 | appends exactly one member operator at the end; the root and earlier operators are unchanged; `has_operators()` then holds |
| ParsedExpressions.Value.constructor | alternator/expressions_types.hh:62-69 | a default value holds the first alternative, an empty value reference |
| ParsedExpressions.Value.SetValref | alternator/expressions_types.hh:71-73 | the value becomes that reference; only `is_valref` holds and `as_valref` returns it |
| ParsedExpressions.Value.SetPath | alternator/expressions_types.hh:74-76 | the value becomes a copy of the path; only `is_path` holds and `as_path` returns it |
| ParsedExpressions.Value.SetFuncName | alternator/expressions_types.hh:77-79 | the value becomes a call with that name and no parameters; only `is_function_call` holds |
| ParsedExpressions.Value.AddFuncParameter | alternator/expressions_types.hh:80-82 | requires a function call; appends a copy of the argument as the last parameter and keeps the name |
| ParsedExpressions.SetRhs.constructor | alternator/expressions_types.hh:105-109 | both values are default values; the operator is left indeterminate |
| ParsedExpressions.SetRhs.SetValue | alternator/expressions_types.hh:110-113 | sets the operator to `v` and the first value, and leaves the second value as it was |
| ParsedExpressions.SetRhs.SetPlus | alternator/expressions_types.hh:114-117 | sets the operator to `+` and the second value, and leaves the first value as it was |
| ParsedExpressions.SetRhs.SetMinus | alternator/expressions_types.hh:118-121 | sets the operator to `-` and the second value, and leaves the first value as it was |
| ParsedExpressions.Action.constructor | alternator/expressions_types.hh:126-139 | a default action has an empty path and holds the first alternative, a set of a default right-hand side |
| ParsedExpressions.Action.AssignSet | alternator/expressions_types.hh:142-145 | stores the path and the right-hand side; exactly `is_set` holds |
| ParsedExpressions.Action.AssignRemove | alternator/expressions_types.hh:146-149 | stores the path; exactly `is_remove` holds |
| ParsedExpressions.Action.AssignAdd | alternator/expressions_types.hh:150-153 | stores the path and the value reference; exactly `is_add` holds and `as_add` returns the reference |
| ParsedExpressions.Action.AssignDel | alternator/expressions_types.hh:154-157 | stores the path and the value reference; exactly `is_del` holds and `as_del` returns the reference |
| ParsedExpressions.UpdateExpression.constructor | alternator/expressions_types.hh:184-197 | a new update expression has no actions, and `empty()` holds |
| Documents.ResolveTopLevel | alternator-test/test_projection_expression.py:55-62 | a top-level path resolves to the attribute when the item has it, and is absent otherwise |
| Documents.WalkAppend | alternator-test/test_projection_expression.py:143-148 | resolving a longer path is resolving its prefix, then the rest from there |
| Documents.MissingPrefix | alternator-test/test_projection_expression.py:149-157 | a path with an absent prefix is absent |
| ProjectionParser.Split | alternator-test/test_projection_expression.py:72 | splitting at commas gives at least one piece and no piece contains a comma |
| ProjectionParser.SplitJoin | alternator-test/test_projection_expression.py:72 | splitting the comma-joined pieces gives the pieces back |
| ProjectionParser.JoinSplit | alternator-test/test_projection_expression.py:72 | joining the pieces of a split gives the string back |
| ProjectionParser.TrimEmpty | alternator-test/test_projection_expression.py:73 | a string trims to nothing exactly when it is all whitespace |
| ProjectionParser.TrimPadding | alternator-test/test_projection_expression.py:73 | whitespace added on either side is removed again by trimming |
| ProjectionParser.DigitsRoundTrip | alternator-test/test_projection_expression.py:144-146 | the decimal digits of a list index read back as the same index |
| ProjectionParser.ParsePlainName | alternator-test/test_projection_expression.py:70 | a plain name followed by anything that is not a name character is read whole, and the rest is left |
| ProjectionParser.ParseAliasName | alternator-test/test_projection_expression.py:71 | `#word` is read as its entry in the names table, and an alias missing from the table is an error naming it |
| ProjectionParser.SegmentsRoundTrip | alternator-test/test_projection_expression.py:72 | the written-out paths, parsed segment by segment, give the same paths back |
| ProjectionParser.PathRoundTrip | alternator-test/test_projection_expression.py:140-148 | a path written out without aliases parses back to the same path |
| ProjectionParser.ExpressionRoundTrip | alternator-test/test_projection_expression.py:70-72 | a non-empty list of paths written out with commas parses back to the same list |
| ProjectionParser.ExpressionIgnoresWhitespace | alternator-test/test_projection_expression.py:73 | whitespace around every path parses the same as none |
| ProjectionParser.EmptySegmentFails | alternator-test/test_projection_expression.py:81-87 | a segment that is empty after trimming makes the parse fail |
| ProjectionParser.EmptySegmentRefused | alternator-test/test_projection_expression.py:81-87 | an expression with an empty segment anywhere (comma at either end, two commas in a row) is an error |
| ProjectionParser.AliasRoot | alternator-test/test_projection_expression.py:71 | a `#alias` root is replaced by its entry in the names table |
| ProjectionParser.UnknownAliasFails | alternator-test/test_projection_expression.py:71 | an alias missing from the names table is an error naming it |
| ProjectionOverlap.ContainsIsPrefix | alternator-test/test_projection_expression.py:168-170 | one path contains another exactly when the roots are equal and its operators are a prefix of the other's |
| ProjectionOverlap.FindPartner | alternator-test/test_projection_expression.py:168-172 | finds the first later path overlapping a given one, or reports that there is none |
| ProjectionOverlap.FindOverlapFrom | alternator-test/test_projection_expression.py:74-80 | finds an overlapping pair at or after a given position exactly when the paths from there on are not pairwise free of overlap |
| ProjectionOverlap.FindOverlap | alternator-test/test_projection_expression.py:74-80 | finds an overlapping pair of positions exactly when the paths are not pairwise free of overlap |
| ProjectionOverlap.DuplicateOverlaps | alternator-test/test_projection_expression.py:74-80 | a path requested twice, at any two positions, is an overlap |
| ProjectionOverlap.NoOverlapsDistinct | alternator-test/test_projection_expression.py:162-167 | paths free of overlap are pairwise different |
| ProjectionMerge.ResolvedApartSeparate | alternator-test/test_projection_expression.py:158-161 | two paths that both resolve and neither contains the other part at two members or two indexes |
| ProjectionMerge.PutGet | alternator-test/test_projection_expression.py:158-161 | after merging a value in at a path, the path holds that value |
| ProjectionMerge.PutKeeps | alternator-test/test_projection_expression.py:158-161 | merging a value in keeps everything at a path it parts from |
| ProjectionMerge.PutOnly | alternator-test/test_projection_expression.py:158-161 | merging a value in adds no value anywhere except at its own path |
| ProjectionMerge.MergeFinds | alternator-test/test_projection_expression.py:158-161 | the merge of consistent results holds every result's value at its path |
| ProjectionMerge.MergeOnly | alternator-test/test_projection_expression.py:158-161 | everything in the merge lies on the way to some result, and every value in it is a result's own value |
| ProjectionMerge.Renumber | alternator-test/test_projection_expression.py:144-148 | the packed path has the same length as the requested one, keeps its member steps, and has an index step wherever the requested one has one |
| ProjectionMerge.RenumberIndexIsSlot | alternator-test/test_projection_expression.py:144-148 | each index step of the packed path is the position, in the list reached so far, of the slot requested with the original index |
| ProjectionMerge.RenumberInjective | alternator-test/test_projection_expression.py:158-161 | two different present paths of the tree are renumbered to different packed paths |
| ProjectionMerge.MaterializeGet | alternator-test/test_projection_expression.py:144-148 | packing lists keeps each part of the merge reachable along the renumbered path |
| ProjectionMerge.MaterializeFresh | alternator-test/test_projection_expression.py:143-148 | one value merged into nothing becomes the value wrapped in maps and one-element lists |
| ProjectionMerge.PutWellFormed | alternator-test/test_projection_expression.py:158-161 | merging a value in keeps every list's slots at distinct indexes |
| ProjectionMerge.MergeWellFormed | alternator-test/test_projection_expression.py:158-161 | the merge of any results has every list's slots at distinct indexes |
| ProjectionMerge.RenumberPrefix | alternator-test/test_projection_expression.py:158-161 | renumbering respects prefixes: a prefix of a present path is present and renumbers to a prefix |
| ProjectionMerge.MaterializeWalkOnly | alternator-test/test_projection_expression.py:158-161 | every place in the packed merge is the renumbering of a place in the merge, or lies inside a value the merge holds |
| ProjectionMerge.Materialize | alternator-test/test_projection_expression.py:158-161 | the merge becomes a map with the same members, and each list gets as many elements as it has slots |
| Projection.Resolved | alternator-test/test_projection_expression.py:149-157 | lists exactly the requested paths that exist in the item, each with its value |
| Projection.Validate | alternator-test/test_projection_expression.py:74-80 | accepts the paths exactly when no two overlap, and otherwise names an overlapping pair |
| Projection.Evaluate | alternator-test/test_projection_expression.py:79-92 | fails exactly when the expression does not parse or validate, whatever the item |
| Projection.EvaluateAll | alternator-test/test_projection_expression.py:105-107 | a scan or query page gives, item by item, what projecting each item alone gives |
| Projection.ResolvedConsistent | alternator-test/test_projection_expression.py:158-161 | the existing paths of a valid expression never collide in the merge |
| Projection.MergedMeansPresent | alternator-test/test_projection_expression.py:149-157 | under a valid expression, the merge holds something at a requested path only if that path exists in the item |
| Projection.LeafOnlyAtEnd | alternator-test/test_projection_expression.py:158-161 | under a valid expression, a value in the merge on the way to a requested path is at that path itself |
| Projection.MergeMatchesResolve | alternator-test/test_projection_expression.py:149-161 | the merge holds at each requested path exactly what the path resolves to in the item |
| Projection.ProjectionKeepsRequested | alternator-test/test_projection_expression.py:140-148 | every requested path that exists comes back with its value, at a path with the same root and member steps and an index step wherever the request has one |
| Projection.Placed | alternator-test/test_projection_expression.py:143-148 | where a requested path that exists is placed in the result: a path of the same length, starting at the same root, along which the result holds the path's value |
| Projection.PlacedInjective | alternator-test/test_projection_expression.py:158-161 | two different requested paths that exist are placed at different paths of the result, so neither value overwrites the other |
| Projection.ProjectionOnlyRequested | alternator-test/test_projection_expression.py:140-161 | every place below the top of the result lies on the way to where some requested existing path is placed, or inside the value placed there |
| Projection.ProjectionKeepsIndexFree | alternator-test/test_projection_expression.py:140-143 | a requested path without indexes resolves in the result exactly as in the item |
| Projection.ProjectionEmpty | alternator-test/test_projection_expression.py:149-157 | the result is empty exactly when none of the requested paths exists |
| Projection.ProjectionRootsRequested | alternator-test/test_projection_expression.py:44-48 | every attribute of the result is the root of a requested path that exists |
| Projection.TopLevelKept | alternator-test/test_projection_expression.py:55-62 | a requested top-level attribute the item has comes back with its value |
| Projection.TopLevelOnly | alternator-test/test_projection_expression.py:55-62 | with top-level requests, every attribute of the result was requested and is in the item |
| Projection.TopLevelProjection | alternator-test/test_projection_expression.py:61 | with top-level requests, the result is `{k: item[k] for k in wanted if k in item}` |
| Projection.EvaluateRendered | alternator-test/test_projection_expression.py:140-172 | paths written out without aliases evaluate to their projection when none overlap, and to an error when two do |
| Projection.EvaluateAllTopLevel | alternator-test/test_projection_expression.py:100-123 | a scan or query with top-level requests gives that comprehension for every item |
| Projection.SinglePathProjection | alternator-test/test_projection_expression.py:140-157 | one path gives its value wrapped in its maps and one-element lists, or the empty item |
| Projection.WholeAttribute | alternator-test/test_projection_expression.py:140 | a whole top-level attribute comes back unchanged |
| Projection.ResolvedAgree | alternator-test/test_projection_expression.py:149-157 | items that agree on every requested path resolve them the same |
| Projection.ProjectionIdempotent | alternator-test/test_projection_expression.py:140-143 | projecting the result again with the same index-free paths changes nothing |
| ProjectionExamples.EmptyExpressionRefused | alternator-test/test_projection_expression.py:88-92 | the empty expression is an error |
| ProjectionExamples.TrailingCommaRefused | alternator-test/test_projection_expression.py:81-83 | `a,` is an error |
| ProjectionExamples.LeadingCommaRefused | alternator-test/test_projection_expression.py:84-85 | `,a` is an error |
| ProjectionExamples.DoubleCommaRefused | alternator-test/test_projection_expression.py:86-87 | `a,,b` is an error |
| ProjectionExamples.OneTopLevelEvaluated | alternator-test/test_projection_expression.py:55-62 | one top-level name as the expression gives that attribute when the item has it, and the empty item otherwise |
| ProjectionExamples.TwoTopLevelEvaluated | alternator-test/test_projection_expression.py:55-62 | two different top-level names joined by a comma give the item restricted to them |
| ProjectionExamples.TwoPresentEvaluated | alternator-test/test_projection_expression.py:55-62 | two different top-level names the item has give exactly those two attributes |
| ProjectionExamples.WantedNonKey | alternator-test/test_projection_expression.py:55 | `a` on the top-level test's item gives `{a: hello}` |
| ProjectionExamples.WantedSortKeyAndNonKey | alternator-test/test_projection_expression.py:56 | `c,a` gives the sort key and `a` |
| ProjectionExamples.WantedKey | alternator-test/test_projection_expression.py:57 | `p,c` gives the entire key |
| ProjectionExamples.WantedNonexistent | alternator-test/test_projection_expression.py:58 | `nonexistent` gives the empty item |
| ProjectionExamples.OneTopLevelAttribute | alternator-test/test_projection_expression.py:70 | `a` gives `{a: hello}` |
| ProjectionExamples.ProjectTwoAttributes | alternator-test/test_projection_expression.py:72 | two different top-level attributes give any item restricted to those two |
| ProjectionExamples.TwoTopLevelAttributes | alternator-test/test_projection_expression.py:72 | `a,b` gives `{a: hello, b: hi}` |
| ProjectionExamples.PaddedTopLevelAttributes | alternator-test/test_projection_expression.py:73 | ` a  ,   b  ` gives `{a: hello, b: hi}` |
| ProjectionExamples.AliasedAttribute | alternator-test/test_projection_expression.py:71 | `#name` with `#name` mapped to `a` gives `{a: hello}` |
| ProjectionExamples.RepeatedAttributeRefused | alternator-test/test_projection_expression.py:74-80 | `a,a` is an error for every item |
| ProjectionExamples.PresentEvaluated | alternator-test/test_projection_expression.py:140-148 | a single path that exists, written out, gives its value wrapped in the path's maps and one-element lists |
| ProjectionExamples.AbsentEvaluated | alternator-test/test_projection_expression.py:149-157 | a single path that does not exist, written out, gives the empty item |
| ProjectionExamples.NestedWholeAttribute | alternator-test/test_projection_expression.py:140 | `a` gives the whole nested document |
| ProjectionExamples.MemberPresentEvaluated | alternator-test/test_projection_expression.py:141-143 | `a.n` for a member that exists gives only that member, still inside `a` |
| ProjectionExamples.MemberEvaluated | alternator-test/test_projection_expression.py:143 | `a.b` gives `{a: {b: [2, 4, {x: hi, y: yo}]}}` |
| ProjectionExamples.ElementEvaluated | alternator-test/test_projection_expression.py:144-147 | `a.b[i]` for an element that exists gives that element in a one-element list inside `a` |
| ProjectionExamples.FirstElementEvaluated | alternator-test/test_projection_expression.py:146 | `a.b[0]` gives `{a: {b: [2]}}` |
| ProjectionExamples.ThirdElementEvaluated | alternator-test/test_projection_expression.py:147 | `a.b[2]` gives `{a: {b: [{x: hi, y: yo}]}}` |
| ProjectionExamples.ElementMemberPresent | alternator-test/test_projection_expression.py:148 | in any item where `a.b[2].y` exists, evaluating the text `a.b[2].y` gives `{a: {b: [{y: v}]}}` |
| ProjectionExamples.ElementMemberEvaluated | alternator-test/test_projection_expression.py:148 | `a.b[2].y` gives `{a: {b: [{y: yo}]}}` |
| ProjectionExamples.MissingAttributeEvaluated | alternator-test/test_projection_expression.py:153 | `x` gives the empty item |
| ProjectionExamples.PastEndAbsent | alternator-test/test_projection_expression.py:154 | in any item without `a.b[3]`, `a.b[3]` gives the empty item |
| ProjectionExamples.MissingMemberAbsent | alternator-test/test_projection_expression.py:155 | in any item without `a.x`, `a.x` gives the empty item |
| ProjectionExamples.BelowMissingMemberAbsent | alternator-test/test_projection_expression.py:156 | in any item without `a.x.y`, `a.x.y` gives the empty item |
| ProjectionExamples.BelowPastEndAbsent | alternator-test/test_projection_expression.py:157 | in any item without `a.b[3].x`, `a.b[3].x` gives the empty item |
| ProjectionExamples.PastEndEvaluated | alternator-test/test_projection_expression.py:154 | `a.b[3]` gives the empty item |
| ProjectionExamples.MissingMemberEvaluated | alternator-test/test_projection_expression.py:155 | `a.x` gives the empty item |
| ProjectionExamples.BelowMissingMemberEvaluated | alternator-test/test_projection_expression.py:156 | `a.x.y` gives the empty item |
| ProjectionExamples.BelowPastEndEvaluated | alternator-test/test_projection_expression.py:157 | `a.b[3].x` gives the empty item |
| ProjectionExamples.NestedPairsAccepted | alternator-test/test_projection_expression.py:158-161 | `a.b[0],a.b[1]` and `a.b[0],a.c` pass validation unchanged |
| ProjectionExamples.PairEvaluated | alternator-test/test_projection_expression.py:158-161 | two paths that do not overlap, written out with a comma, give their projection |
| ProjectionExamples.OverlappingPairEvaluated | alternator-test/test_projection_expression.py:162-172 | two overlapping paths, written out with a comma, are an error whatever the item |
| ProjectionExamples.TwoElementsPresent | alternator-test/test_projection_expression.py:160 | in any item where `a.b[0]` and `a.b[1]` exist, evaluating the text `a.b[0],a.b[1]` gives `{a: {b: [x, y]}}` |
| ProjectionExamples.TwoElementsEvaluated | alternator-test/test_projection_expression.py:160 | `a.b[0],a.b[1]` gives `{a: {b: [2, 4]}}` |
| ProjectionExamples.ElementAndMemberPresent | alternator-test/test_projection_expression.py:161 | in any item where `a.b[0]` and `a.c` exist, evaluating the text `a.b[0],a.c` gives `{a: {b: [x], c: z}}` |
| ProjectionExamples.ElementAndMemberEvaluated | alternator-test/test_projection_expression.py:161 | `a.b[0],a.c` gives `{a: {b: [2], c: 5}}` |
| ProjectionExamples.RepeatedElementEvaluated | alternator-test/test_projection_expression.py:166-167 | `a.b[0],a.b[0]` is an error whatever the item |
| ProjectionExamples.ContainedElementEvaluated | alternator-test/test_projection_expression.py:168-172 | `a,a.b[0]` is an error whatever the item |
| ProjectionExamples.ResolveNested | alternator-test/test_projection_expression.py:134-157 | the test item's nested paths resolve to 2, 4, `yo` and 5, and its missing ones are absent |
| ProjectionExamples.ElementMemberProjected | alternator-test/test_projection_expression.py:148 | in any item where `a.b[2].y` exists, projecting the parsed path gives `{a: {b: [{y: v}]}}` |
| ProjectionExamples.TwoElementsProjected | alternator-test/test_projection_expression.py:160 | in any item where `a.b[0]` and `a.b[1]` exist, projecting the parsed paths `a.b[0],a.b[1]` gives `{a: {b: [x, y]}}` |
| ProjectionExamples.ElementAndMemberProjected | alternator-test/test_projection_expression.py:161 | in any item where `a.b[0]` and `a.c` exist, projecting the parsed paths `a.b[0],a.c` gives `{a: {b: [x], c: z}}` |
| ProjectionExamples.IndexedProjectionNotIdempotent | alternator-test/test_projection_expression.py:144-146 | because list elements are packed from 0, projecting `a[1]` twice does not give the first result |

## Left out

- ParsedExpressions.Path.AddIndex: the index is a `nat`, not a 32-bit `unsigned`. Parsed indexes are small, and nothing here depends on wrap-around.
- ParsedExpressions.Value.AsValref, AsPath and AsFunctionCall carry a precondition. `std::get` on the wrong alternative throws `bad_variant_access`, and that throw is not modelled.
- ParsedExpressions.Value.AddFuncParameter: requires the value to hold a function call. On any other alternative `std::get` throws `bad_variant_access`, and that throw is not modelled.
- `action::as_remove` returns an empty struct, and `action::as_set` returns a struct that only wraps the right-hand side; `AsSet` returns the right-hand side directly.
- The move semantics of the `set_rhs` setters are not modelled. The model copies instead, so it does not capture the moved-from state of the argument.
- `update_expression::add` and `append`, and the `seen_set`/`seen_remove`/`seen_add`/`seen_del` flags, are not modelled: their bodies are not part of this model.
- The Antlr grammar is not modelled. The parser here accepts names made of letters, digits and `_`, and decimal indexes, which is what the projection tests use. Quoting and `:value` references are not modelled.
- Error wording is not modelled. Errors are a small datatype: a syntax error of a few kinds, or an overlapping pair of paths.
- The paging loops of scan and query, the request layer and random test keys are not modelled. `EvaluateAll` takes one page of items as a parameter.
- The rule that ProjectionExpression and AttributesToGet may not be used together is not modelled. It is a request-layer check, not part of evaluating a projection.
- Scalars are kept abstract: they are only compared, never computed with, and numbers are kept as their digit strings.
- Non-adjacent list indexes: requested elements of one list are packed in the order the paths are given, not in index order. No test fixes this order.
- Projection.ProjectionIdempotent: proved only for paths without list indexes, because packing renumbers list elements (see `IndexedProjectionNotIdempotent`).
- Projection.ProjectionKeepsRequested: places each value at a renumbered path, and `Projection.PlacedInjective` keeps two requested values apart. Neither says where two elements of one list end up relative to each other.
