# bblfsh SDK core, modelled in Dafny

This project models the core of the Babelfish SDK (bblfsh/sdk) and proves
properties of that model. The core is the generic tree of a Universal AST
(UAST): nodes that are nil, an object, an array, a string, an int, a uint, a
float or a bool. Around the tree sit the algorithms that walk, copy, index
and rewrite it. One Dafny module stands for each source file of the core:

| module (file) | models |
|---|---|
| `Nodes` (nodes.dfy) | the node value, its kinds and sizes (uast/node.go, uast/nodes/iter.go) |
| `UastNode` (uast_node.dfy) | `Keys`, `Clone`, `CloneObject`, `Children`, `Type`/`Token`/`Roles`, `ToNode`, `WalkPreOrder` and copy-on-write `Apply` (uast/node.go) |
| `NodeIter` (iter.dfy) | `NewIterator` and the pre-order, post-order, level-order and children iterators over their stacks and queues (uast/nodes/iter.go) |
| `LibuastLoad` (libuast_load.dfy) | `UastLoad`, the recursive copy between two node tables (uast/libuast/uast.h) |
| `LibuastGo` (libuast_go.dfy) | the Go-side handle store with its temporary objects and arrays (uast/libuast/nodes_go.go) |
| `LibuastC` (libuast_c.dfy) | the views over client nodes: the sorted-key object view and the cached sizes and values (uast/libuast/nodes_c.go) |
| `LibuastCtx` (libuast_ctx.dfy) | the registry of contexts and iterators and their handles (uast/libuast/uast.go) |
| `Utf8`, `Positions` (utf8.dfy, positions.dfy) | the positional index: byte offsets to and from line/column, rune offsets and UTF-16 offsets (uast/transformer/positioner/positions.go; UTF-8 as in RFC 3629, surrogate pairs as in section 2.1 of RFC 2781) |
| `Tokens` (tokens.dfy) | `tokenFromSource.Do` and `VerifyToken.Verify` (uast/transformer/positioner/tokens.go) |
| `Semantic` (semantic.dfy) | `commentElems` `Split`/`Join` and its helpers (uast/transformer/semantic.go) |
| `TransformerState`, `TransformerMapping` (transformer_state.dfy, mapping.dfy) | the variable `State`, `Mapping.Reverse` and `Mapping.Do` (uast/transformer/transformer.go) |
| `Ops`, `OpsExec`, `OpsProps` (ops.dfy, ops_exec.dfy, ops_props.dfy) | the transformer language: each operation with its Check and Construct, their imperative form, and the round trip of Construct after Check (uast/transformer/ops.go, semantic.go) |
| `TransformerAst` (ast.dfy) | `Roles`, `RolesFieldOp`, `FieldRole` validation and build, `ASTObjectLeft`, `comment`/`uncomment` (uast/transformer/ast.go) |
| `NPath` (npath.dfy) | the NPath complexity metric (uast/npath.go) |
| `Legacy`, `Rules` (legacy.dfy, rules.dfy) | the legacy node with its roles and the suffix path selectors (uast/rules.go) |
| `Ann`, `Folder` (ann.dfy, folder.dfy) | the annotation matchers, `Rule.Apply` with its stack, and the description folder (uast/ann/ann.go, folder.go) |
| `ProtocolTypes` (protocol_types.dfy) | the v1 protocol `ToNode` and its `byOffset` order (protocol/types.go) |
| `ObjectToNoder` (objecttonoder.dfy) | the native-JSON to node converter (protocol/native/objecttonoder.go) |
| `BuildDeps` (build.dfy) | `isApkOrApt` (build/build.go) |
| `Wrappers`, `Strings`, `Sorting` | Option/Result, string helpers with Go's semantics, and a stable sort |

The model follows the code. Where the code differs from its own
documentation, the code is what the model does. `byOffset` in
protocol/types.go puts unpositioned nodes *first*, while `ObjectToNoder`'s
`byOffset` puts them last, and the model keeps that difference. Where the
code is evidently wrong, the model carries both versions; see "## Findings".
One such case is `Build` of a temporary Go node. It gives the node a new
handle, although the `TmpNode` interface documents building in place
(finding row for uast/libuast/nodes_go.go:444-455).

Nodes are values. A Go object the code updates in place, and whose identity
matters, is a Dafny `class`: `TransformerState.State` and its `ProcObject`s,
`Semantic.CommentElems`, the iterators in `NodeIter`, the libuast
`Registry`, `Context` and `Iterator`, the Go node store `LibuastGo.GoNodes`,
the client views `LibuastC.CObject`, `CArray` and `CValue`, and
`Folder.Describer`. Loops of the source are methods with loop
invariants. Each such method is proved equal to a specification function,
and the properties are proved about that function.

## Model

| member | source | states |
|---|---|---|
| Ann.MatchPathPrefix | uast/ann/ann.go:8-15 | every matcher returns a prefix of the path it is given |
| Ann.JoinMatchPrefix | uast/ann/ann.go:189-208 | the join loop also returns a prefix of its input path |
| Ann.PathPredResult | uast/ann/ann.go:21-29 | a path predicate yields the empty path when it holds and the unchanged path otherwise |
| Ann.NodeMatchResult | uast/ann/ann.go:35-48 | a node predicate leaves an empty path alone, drops the last node when it holds and keeps the path when it does not |
| Ann.JoinStops | uast/ann/ann.go:198-203 | the join loop stops at the first matcher that leaves the path length unchanged |
| Ann.Join | uast/ann/ann.go:175-187 | Join builds one join whose matchers are the given ones with nested joins spliced in, in order |
| Ann.SpliceAll | uast/ann/ann.go:178-184 | splicing flat joins gives a flat matcher list |
| Ann.JoinFlat | uast/ann/ann.go:175-187 | a join made by Join has no join among its matchers |
| Ann.SpliceTwo | uast/ann/ann.go:112 | Join(parent.on, child.on) lists the parent's matchers, then the child's |
| Ann.JoinMatchPath | uast/ann/ann.go:189-208 | the matcher loop returns exactly JoinMatch, matchers taken from the last to the first |
| Ann.Match | uast/ann/ann.go:11-15 | MatchPath of any matcher kind equals the MatchPath specification |
| Ann.AnyMatchesAll | uast/ann/ann.go:159-162 | Any matches every path completely |
| Ann.NotNegates | uast/ann/ann.go:164-169 | Not(p) holds exactly when p does not, and Not(Not(p)) is p |
| Ann.HasInternalTypeExamples | uast/ann/ann_test.go:12-33 | the five HasInternalType cases of the package tests give the paths they expect |
| Ann.On | uast/ann/ann.go:58-65 | On gives a rule whose matcher joins the given ones, with no actions and no child rules |
| Ann.Do | uast/ann/ann.go:123-127 | Do keeps the matcher and child rules and appends the actions after the rule's own |
| Ann.Roles | uast/ann/ann.go:118-121 | Roles appends one AddRoles action with the given roles |
| Ann.Rules | uast/ann/ann.go:108-116 | Rules appends the children, each with the parent's matchers joined in front of its own |
| Ann.ChildRules | uast/ann/ann.go:81-88 | the rules handed to the children start with the current rules |
| Ann.PathOf | uast/ann/ann.go:77-79 | the path of a stack entry ends in its node and is one longer than the path above it |
| Ann.KidEntries | uast/ann/ann.go:99-102 | one stack entry is pushed per child |
| Ann.KidsCount | uast/ann/ann.go:99-102 | pushing the children adds exactly their subtree sizes to the nodes still to visit |
| Ann.PopCount | uast/ann/ann.go:71-103 | each step of the Apply loop strictly lowers the nodes still to visit, so the loop ends |
| Ann.RunActionsM | uast/ann/ann.go:90-94 | the actions loop equals RunActions: actions in order, stopping at the first error |
| Ann.RunActionsStays | uast/ann/ann.go:91-93 | once an action fails, the later actions change nothing |
| Ann.RunHereStays | uast/ann/ann.go:91-93 | once a rule's action fails, the later rules change nothing |
| Ann.Here | uast/ann/ann.go:81-96 | the rules loop equals RunHere, and on success hands on the rules followed by their child rules |
| Ann.PushKids | uast/ann/ann.go:99-102 | the children loop pushes the child entries, in order, on top of the rest of the stack |
| Ann.VisitStep | uast/ann/ann.go:71-103 | one loop iteration without error is the entry's own effects followed by the visit of the new stack |
| Ann.Apply | uast/ann/ann.go:66-106 | Rule.Apply equals the stack walk ApplyRule, with one path per child (the corrected path handling) |
| Ann.RunActionsSound | uast/ann/ann.go:90-94 | every effect is one of the actions' AddRoles at the current node, and an error is one of its failing actions |
| Ann.RunActionsNoFail | uast/ann/ann.go:213-219 | with only AddRoles actions there is no error and one effect per action |
| Ann.RunHereSound | uast/ann/ann.go:86-95 | effects at a node come only from fully matched rules' AddRoles at that node; an error only from a fully matched rule |
| Ann.RunHereUnmatched | uast/ann/ann.go:87-89 | rules whose matcher leaves part of the path do nothing at that node |
| Ann.RunHereNoFail | uast/ann/ann.go:86-95 | rules without failing actions never fail at a node |
| Ann.NestedNoFails | uast/ann/ann.go:81-88 | child rules of rules without failing actions are without failing actions |
| Ann.KidEntriesRules | uast/ann/ann.go:99-102 | every child entry carries the child rules |
| Ann.VisitNoFail | uast/ann/ann.go:71-103 | the walk of a stack whose rules have no failing actions returns no error |
| Ann.ApplyNoFail | uast/ann/ann.go:66-106 | Apply of a rule tree without failing actions returns no error |
| Ann.EverywhereHere | uast/ann/ann.go:86-95 | a rule matching every path adds its roles once at each node and hands itself on |
| Ann.VisitEveryNode | uast/ann/ann.go:71-103 | under such a rule the walk never fails and adds the roles once per node still to visit |
| Ann.ApplyAnyRoles | uast/ann/ann_test.go:172-195 | On(Any()).Roles(roles) adds the roles once to every node of the tree, without error |
| Ann.AnyEverywhere | uast/ann/ann.go:159-162 | On(Any()).Roles(roles) fully matches every path |
| Ann.RootStep | uast/ann/ann_test.go:197-220 | at the root the parent rule matches, does nothing and passes its child rule on |
| Ann.RootVisit | uast/ann/ann.go:86-102 | a matching rule with no actions does nothing at the root and pushes the one child |
| Ann.RootHere | uast/ann/ann.go:86-95 | the parent rule of the test matches the root and has no effect |
| Ann.RootKids | uast/ann/ann.go:99-102 | the root's only child entry has path [root, foo] and address [0] |
| Ann.FooStep | uast/ann/ann.go:108-116 | at foo the parent rule misses and the joined child rule fully matches |
| Ann.FooChildRules | uast/ann/ann.go:81-88 | a rule with one child rule hands on itself and that child |
| Ann.FooParentMisses | uast/ann/ann.go:35-48 | the root-type matcher does not fully match the path [root, foo] |
| Ann.FooChildMatches | uast/ann/ann.go:189-208 | the joined matcher root-then-foo fully matches [root, foo] |
| Ann.FooVisit | uast/ann/ann.go:71-103 | visiting the leaf foo is exactly running the rules there |
| Ann.RuleOnRulesApplyExample | uast/ann/ann_test.go:197-220 | in TestRuleOnRulesApply only foo gets the child rule's role |
| Ann.RuleOnRulesActionErrorExample | uast/ann/ann_test.go:222-240 | in TestRuleOnRulesActionError the child rule's failing action is Apply's error |
| Ann.Doubling | uast/ann/ann.go:100 | append on a full slice gives a larger capacity |
| Ann.SliceKid | uast/ann/ann.go:99-101 | append(path, child) as written: with spare capacity every child's path ends in the last child written to the shared slot; with a full array the path is a copy ending in the child itself |
| Ann.SliceKids | uast/ann/ann.go:99-102 | one entry per child as append gives them |
| Ann.SliceWeightAppend | uast/ann/ann.go:99-102 | the weight bound of a stack is additive under concatenation |
| Ann.SharedKidsWeight | uast/ann/ann.go:99-101 | shared-slot children weigh k copies of the last child |
| Ann.CopiedKidsWeight | uast/ann/ann.go:99-101 | copied children weigh what the children weigh |
| Ann.SliceKidsLighter | uast/ann/ann.go:99-101 | the children pushed as written weigh less than their parent, so the as-written loop also ends |
| Ann.SlicePop | uast/ann/ann.go:71-103 | each iteration of the as-written loop lowers the stack's weight |
| Ann.SliceStep | uast/ann/ann.go:71-103 | one as-written iteration under a rule matching everywhere adds the roles at the entry and pushes the child entries append gives |
| Ann.SliceOnlyKid | uast/ann/ann.go:99-101 | an only child of a path with a full array gets a fresh path ending in itself |
| Ann.SliceSharedKids | uast/ann/ann.go:99-101 | two children of a path with spare capacity both get the path ending in the second child |
| Ann.SliceLeaf | uast/ann/ann.go:99-102 | a leaf pushes nothing |
| Ann.SliceOneStep | uast/ann/ann.go:71-103 | the as-written visit of a node with one child is its roles, then the child's visit |
| Ann.SliceLeafStep | uast/ann/ann.go:71-103 | the as-written visit of a leaf on top is its roles, then the rest |
| Ann.SliceSharedStep | uast/ann/ann.go:99-101 | two leaves sharing a slot: the second child's address gets the roles twice |
| Ann.SliceDescent | uast/ann/ann.go:99-101 | the root's and a's paths are copied as the array doubles to capacity 4 |
| Ann.EntryStep | uast/ann/ann.go:71-103 | one iteration of the corrected walk under a rule matching everywhere |
| Ann.EntryOnlyKid | uast/ann/ann.go:99-102 | an only child gets the path ending in itself |
| Ann.EntryTwoKids | uast/ann/ann.go:99-102 | two children get their own paths and addresses, in order |
| Ann.EntryOneStep | uast/ann/ann.go:71-103 | the corrected visit of a node with one child is its roles, then the child's visit |
| Ann.EntryPairStep | uast/ann/ann.go:71-103 | two leaves are visited once each, the second child first |
| Ann.SharedSlotAsWritten | uast/ann/ann.go:97-102 | Apply as written on root, a, b, then leaves c1 and c2 with a rule matching everywhere: c2 gets the roles twice and c1 never |
| Ann.SharedSlotFixed | uast/ann/ann.go:97-102 | the corrected Apply on the same tree adds the roles once to each of the five nodes |
| Ann.ThenThen | uast/ann/ann.go:71-103 | effects logged in two steps are the effects logged at once |
| Folder.PathStringPush | uast/ann/folder.go:33-43 | pushing a rule appends its step's text to the path's text |
| Folder.PathStringShape | uast/ann/folder.go:33-43 | the path text is empty exactly for the empty path and otherwise starts with a slash |
| Folder.ReplaceAllShrinks | uast/ann/folder.go:82-84 | replacing by something shorter never lengthens, and keeps the length only when nothing was replaced |
| Folder.ReplaceAllAbsent | uast/ann/folder.go:82-84 | a string lacking a character of the pattern is left unchanged |
| Folder.PrefixChar | uast/ann/folder.go:78 | a string with a prefix holds every character of it |
| Folder.PrefixAt | uast/ann/folder.go:78-79 | a string with a prefix agrees with it position by position |
| Folder.AbbreviateShrinks | uast/ann/folder.go:76-86 | abbreviate never lengthens, and keeps the length only when it changes nothing |
| Folder.RootStepChars | uast/ann/folder.go:78-84 | the root step and "/x" hold neither 'd' nor 'c', so neither replacement touches them |
| Folder.Untouched | uast/ann/folder.go:82-84 | text made only of those characters passes both replacements unchanged |
| Folder.AbbreviateTrimsTwice | uast/ann/folder.go:78-80 | a doubled root step loses one copy per call |
| Folder.AbbreviateTrimsOnce | uast/ann/folder.go:78-80 | a single root step is dropped |
| Folder.AbbreviateNotIdempotent | uast/ann/folder.go:75-86 | abbreviate, documented as idempotent, changes "/self::*[*]/self::*[*]/x" again on a second call |
| Folder.AbbreviateFixed | uast/ann/folder.go:75-86 | the corrected abbreviation: a fixed point of abbreviate, never longer than its input |
| Folder.AbbreviateFixedIdempotent | uast/ann/folder.go:75 | the corrected abbreviation is idempotent |
| Folder.AbbreviateFixedAgrees | uast/ann/folder.go:76-86 | where one abbreviate call already reaches a fixed point, both versions agree |
| Folder.Describe | uast/ann/folder.go:54-58 | the description of a rule with actions, abbreviated once as written, is no longer than the raw text |
| Folder.DescribeIntended | uast/ann/folder.go:54-58 | the description with the corrected abbreviation is a fixed point of abbreviate |
| Folder.DescribeAgrees | uast/ann/folder.go:54-58 | the as-written and the corrected description agree wherever one call is already a fixed point |
| Folder.FoldCount | uast/ann/folder.go:46-63 | fold gives exactly one description per rule with actions in the rule tree |
| Folder.FoldAllCount | uast/ann/folder.go:60-62 | the child loop gives one description per rule with actions under the children |
| Folder.LinesJoin | uast/ann/folder.go:89-95 | String is the descriptions joined by newlines with a final newline |
| Folder.LinesCount | uast/ann/folder.go:89-95 | String holds one newline per description when the descriptions hold none |
| Folder.JoinSnoc | uast/ann/folder.go:89-95 | joining one more description appends a separator and it |
| Folder.Describer.constructor | uast/ann/folder.go:13-16 | a folder starts with an empty path and no descriptions |
| Folder.Describer.Push | uast/ann/folder.go:23-25 | push appends the rule to the path and leaves the descriptions |
| Folder.Describer.Pop | uast/ann/folder.go:27-30 | pop removes the last rule, undoing the last push |
| Folder.Describer.Fold | uast/ann/folder.go:46-63 | fold appends the as-written descriptions of the rule tree in pre-order and leaves the path as it was |
| Folder.Describer.FoldChildren | uast/ann/folder.go:60-62 | the children loop appends their descriptions in order and leaves the path |
| NPath.CountPos | uast/npath.go:185-196 | every subtree has at least one node, which bounds the recursion |
| NPath.CountSeqIn | uast/npath.go:187 | a child's subtree is no larger than its siblings' subtrees together |
| NPath.Occurrences | uast/npath.go:176-180 | a role occurs zero times exactly when it is absent, and at most once per listed role |
| NPath.ContainsRole | uast/npath.go:218-225 | containsRol is true exactly when the role is among the node's roles |
| NPath.ChildrenOfRole | uast/npath.go:173-183 | childrenOfRole lists only children of the parent holding the wanted role |
| NPath.ChildrenOfRoleM | uast/npath.go:173-183 | the nested loops equal ChildrenOfRole, a child listed once per occurrence of the role |
| NPath.RoleCopies | uast/npath.go:176-180 | the roles loop appends the child once per occurrence of the wanted role |
| NPath.Repeat | uast/npath.go:176-180 | k copies of one node |
| NPath.WithRole | uast/npath.go:185-196 | the reference filter keeps only nodes holding the role, from the given sequence |
| NPath.WithRoleAppend | uast/npath.go:185-196 | the reference filter distributes over concatenation |
| NPath.DeepChildrenSpec | uast/npath.go:185-196 | the corrected deep search returns exactly the descendants holding the role, in pre-order, and the corrected count is its length |
| NPath.DeepChildrenOfSpec | uast/npath.go:187-194 | the same over a sequence of children |
| NPath.AsWrittenAgrees | uast/npath.go:185-216 | where every node below has exactly one role, the as-written searches equal the corrected ones |
| NPath.AsWrittenAgreesOf | uast/npath.go:187-194 | the same over a sequence of children |
| NPath.OneRole | uast/npath.go:188-193 | for a child with one role the roles loop runs the recursion once |
| NPath.HiddenTreeAsWritten | uast/npath.go:185-216 | as written, a role-w node below a child without roles is never found nor counted |
| NPath.DoubledTreeAsWritten | uast/npath.go:205-216 | as written, under a child with roles [w, v] one w node below is counted twice, three in all |
| NPath.FixedCounts | uast/npath.go:205-216 | the corrected count finds one w node in the first tree and two in the second |
| NPath.TwiceTreeAsWritten | uast/npath.go:185-196 | as written, a w node under a child with two other roles is returned twice |
| NPath.TwiceTreeFixed | uast/npath.go:185-196 | the corrected search returns it once |
| NPath.DeepCountM | uast/npath.go:205-216 | the nested loops of deepCountChildrenOfRol, recursion inside the roles loop, equal DeepCountAsWritten |
| NPath.Mul | uast/npath.go:59 | a product is defined exactly when both factors are, and then is their product |
| NPath.Add | uast/npath.go:67 | a sum is defined exactly when both terms are, and then is their sum |
| NPath.ExprComp | uast/npath.go:198-203 | expressionComp, with the as-written counts, is at least one |
| NPath.ExprCompIntended | uast/npath.go:198-203 | the corrected expressionComp is one plus the descendants holding OpBooleanAnd plus those holding OpBooleanOr |
| NPath.ExprCompFlat | uast/npath_test.go:71-88 | an And leaf and a third leaf under the node count two |
| NPath.ExprCompNested | uast/npath_test.go:78-92 | a chain And, Or, third role counts three |
| NPath.First | uast/npath.go:84-94 | the x[0] of a childrenOfRole result is one of the children, smaller than the node, and is missing exactly when no child holds the role |
| NPath.BodiesIntended | uast/npath.go:17-21 | the corrected bodies are the node itself if it is a body, else every body below it once, in pre-order |
| NPath.BodiesAgree | uast/npath.go:17-21 | where every node below has one role, the as-written and corrected bodies and expression counts agree |
| NPath.MultOfAll | uast/npath.go:26-28 | one value per measured body |
| NPath.MultOfAllStays | uast/npath.go:26-28 | once a body's visit panics, the whole loop panics |
| NPath.NpathComplexity | uast/npath.go:14-30 | the method equals Complexity: bodies by the as-written deep search, -1 and the error when there is none, else one value per body |
| NPath.ComplexityResult | uast/npath.go:14-30 | the error is reported exactly when no body is found, and a result without error has one value per body |
| NPath.ZeroFunction | uast/npath.go:22-25 | a leaf without roles gives [-1] and "Function declaration not found" |
| NPath.HiddenBodyNotFound | uast/npath.go:20-25 | a body below a child without roles is not found as written, so the metric errs, though the corrected search finds one |
| NPath.TwiceBodyMeasuredTwice | uast/npath.go:20-28 | a body below a child with two roles is measured twice as written, [1, 1], though there is one |
| NPath.MultKidsAppend | uast/npath.go:56-62 | the product over children splits over concatenation |
| NPath.MulAssoc | uast/npath.go:56-62 | the partial product is associative |
| NPath.IntMulAssoc | uast/npath.go:59 | integer products associate |
| NPath.ThreeInSequence | uast/npath_test.go:220-237 | three statements worth 7 in sequence are worth 343 |
| NPath.MissingChildPanics | uast/npath.go:84-138 | an if without body or condition, a for without body, a do-while without body panic (no value) |
| NPath.FirstRoleOnly | uast/npath.go:32-54 | visitorSelector dispatches on the first role only, and a node without roles is worth -10 |
| NPath.LastCaseIsLast | uast/npath.go:154-156 | the cases loop overwrites its value, leaving the last case's value |
| NPath.SwitchLastCase | uast/npath.go:148-163 | a switch without default is worth its last case plus one, whatever the earlier cases are worth |
| Semantic.FirstIndex | uast/transformer/semantic.go:174-182 | the first index whose rune satisfies f, every rune before it failing f, or the length when none does |
| Semantic.LastIndex | uast/transformer/semantic.go:184-193 | the last index whose rune satisfies f, every rune after it failing f, or -1 when none does |
| Semantic.FirstIndexFunc | uast/transformer/semantic.go:175-182 | the forward loop returns FirstIndex |
| Semantic.LastIndexFunc | uast/transformer/semantic.go:185-193 | the backward loop returns LastIndex |
| Semantic.Common | uast/transformer/semantic.go:209-220 | a prefix of both arguments that cannot be extended |
| Semantic.CommonIs | uast/transformer/semantic.go:209-220 | any common prefix that cannot be extended is the one Common gives |
| Semantic.CommonSymmetric | uast/transformer/semantic.go:209-212 | commonPrefix does not depend on the order of its arguments |
| Semantic.CommonLongest | uast/transformer/semantic.go:209-220 | every common prefix is a prefix of Common's result |
| Semantic.CommonPrefix | uast/transformer/semantic.go:209-220 | the loop, shorter argument first, returns Common |
| Semantic.TabRun | uast/transformer/semantic.go:248-249 | the leading run of tab runes of a line is a prefix of it without a non-tab rune |
| Semantic.CommonIndentPrefix | uast/transformer/semantic.go:243-260 | the common indentation starts every line after the first and is made of tab runes only |
| Semantic.CommonIndentEmpty | uast/transformer/semantic.go:256-258 | once the common indentation is empty it stays empty, so the early return loses nothing |
| Semantic.TrimAll | uast/transformer/semantic.go:263-265 | trimming keeps the number of lines |
| Semantic.Reindent | uast/transformer/semantic.go:272-278 | reindenting keeps the number of lines |
| Semantic.Scanned | uast/transformer/semantic.go:237-240 | the prefix, text and suffix of the scans put together are the body, with no indentation yet |
| Semantic.SplitAsWritten | uast/transformer/semantic.go:222-268 | Split as written succeeds exactly when the (trimmed) text starts with the start token and ends with the end token, overlapping or not |
| Semantic.SplitComment | uast/transformer/semantic.go:222-268 | the corrected Split succeeds exactly when the tokens are there and do not overlap |
| Semantic.ReindentTrimAll | uast/transformer/semantic.go:263-279 | putting the trimmed indentation back in front of every line after the first gives the lines back |
| Semantic.TrimAllNoNewline | uast/transformer/semantic.go:241 | the split lines hold no newline |
| Semantic.FirstLineNotIndented | uast/transformer/semantic.go:245-247 | the first line, starting with a non-tab rune, does not start with the indentation |
| Semantic.OutdentRoundTrip | uast/transformer/semantic.go:241-279 | outdenting then reindenting as Join does gives the text back |
| Semantic.ScannedStarts | uast/transformer/semantic.go:195-200 | the text left by findPrefix is empty or starts with a non-tab rune |
| Semantic.ArrangeByJoin | uast/transformer/semantic.go:270-286 | Join's reassembly undoes the arrangement of the body |
| Semantic.ArrangeJoin | uast/transformer/semantic.go:270-286 | the tokens around the arranged parts of a body give the tokens around the body |
| Semantic.NewlineIsTab | uast/transformer/semantic.go:150-153 | a newline is a tab rune, being white space |
| Semantic.SplitThenJoin | uast/transformer/semantic.go:222-286 | Join after a successful corrected Split gives the (trimmed) comment back |
| Semantic.SplitAsWrittenThenJoin | uast/transformer/semantic.go:222-286 | Join after Split as written gives the (trimmed) comment back whenever the comment is at least as long as its two tokens |
| Semantic.BetweenTokens | uast/transformer/semantic.go:230-231 | a text with non-overlapping tokens is the start token, the middle and the end token |
| Semantic.SplitOverlapAsWritten | uast/transformer/semantic.go:227-254 | as written, "/*/" splits (prefix "/", empty text) and Join gives "/*/*/", not the comment |
| Semantic.OverlapRejected | uast/transformer/semantic.go:227-229 | the corrected Split rejects "/*/" |
| Semantic.OverlapJoin | uast/transformer/semantic.go:281-285 | the tokens around the text "/" join to "/*/*/" |
| Semantic.OverlapBody | uast/transformer/semantic.go:230-231 | trimming both tokens off "/*/" as written leaves "/" |
| Semantic.OverlapArrange | uast/transformer/semantic.go:237-240 | "/" is a tab rune of the block tokens, so it all becomes the prefix and the text is empty |
| Semantic.CommonTabs | uast/transformer/semantic.go:247-259 | the indentation loop returns CommonIndent, stopping once it is empty |
| Semantic.TrimLines | uast/transformer/semantic.go:263-265 | the trimming loop returns TrimAll |
| Semantic.OutdentLines | uast/transformer/semantic.go:241-266 | the line loops give the indentation and the outdented text |
| Semantic.TrimAllNothing | uast/transformer/semantic.go:264 | trimming the empty indentation changes nothing |
| Semantic.SplitAsWrittenIs | uast/transformer/semantic.go:227-266 | a text Split accepts is arranged from what lies between its tokens |
| Semantic.ScannedIs | uast/transformer/semantic.go:195-207 | the scans give the parts that the prefix and suffix searches leave |
| Semantic.CommentElems.constructor | uast/transformer/semantic.go:137-148 | the fields hold the given tokens, trimming flag and parts |
| Semantic.CommentElems.FindPrefix | uast/transformer/semantic.go:195-200 | the leading runes failing f move to the prefix; the text keeps the rest |
| Semantic.CommentElems.FindSuffix | uast/transformer/semantic.go:202-207 | the trailing runes failing f move to the suffix |
| Semantic.CommentElems.Split | uast/transformer/semantic.go:222-268 | returns SplitAsWritten's verdict; on success the fields hold its parts, otherwise they are unchanged |
| Semantic.CommentElems.ArrangeBody | uast/transformer/semantic.go:232-266 | the fields take the arranged parts of the body |
| Semantic.CommentElems.ScanTabs | uast/transformer/semantic.go:233-240 | the fields take the scanned parts |
| Semantic.CommentElems.Join | uast/transformer/semantic.go:270-286 | Join returns the tokens around prefix, reindented text and suffix |
| Ops.CommentVars | uast/transformer/semantic.go:313-318 | the bindings commentUAST.Check makes are exactly the four variables, each bound to a string |
| Ops.Check | uast/transformer/ops.go:39-45 | every Check reports an error only together with a mismatch, and only ever adds bindings to the state it is given |
| Ops.CheckObject | uast/transformer/ops.go:288-332 | Object.Check on any node: an error implies a mismatch, and the state is only extended |
| Ops.CheckFields | uast/transformer/ops.go:293-312 | the field loop: a missing field is a mismatch unless it is optional, the existence flag is recorded, and bindings are only added |
| Ops.FieldFlag | uast/transformer/ops.go:295-299 | a field with no optional variable leaves the state unchanged; an optional one can only add its flag |
| Ops.CheckRest | uast/transformer/ops.go:313-331 | after the fields: an unused key without a `other` variable is an error and a mismatch; otherwise the unused entries are bound, only adding to the state |
| Ops.CheckElems | uast/transformer/ops.go:420-428 | opArr.Check's element loop: an error implies a mismatch, bindings are only added |
| Ops.CheckAnd | uast/transformer/ops.go:116-126 | opAnd.Check: an error implies a mismatch, bindings are only added |
| Ops.CheckAppend | uast/transformer/ops.go:571-606 | opAppend.Check: an error implies a mismatch, bindings are only added |
| Ops.CheckChunks | uast/transformer/ops.go:596-604 | the chunk loop of opAppend.Check: an error implies a mismatch, bindings are only added |
| Ops.CheckIf | uast/transformer/ops.go:701-722 | opIf.Check: an error implies a mismatch; the chosen branch's bindings and the condition only extend the state |
| Ops.CheckEachOp | uast/transformer/ops.go:749-773 | opEach.Check: an error implies a mismatch, and the state is only extended by the state variable |
| Ops.CheckEach | uast/transformer/ops.go:756-768 | the element loop keeps one state per element, in order, after the states collected so far |
| Ops.CheckOpt | uast/transformer/ops.go:851-860 | opOptional.Check: an error implies a mismatch, bindings are only added |
| Ops.CheckComment | uast/transformer/semantic.go:302-320 | commentUAST.Check: an error implies a mismatch, and the four parts are only added to the state |
| Ops.BoolVar | uast/transformer/ops.go:723-737 | the condition variable read by opIf.Construct succeeds exactly when it is bound to a boolean, and yields that boolean |
| Ops.StringVars | uast/transformer/semantic.go:327-333 | MustGetVars succeeds exactly when every name is bound to a string |
| Ops.ConstructElems | uast/transformer/ops.go:430-444 | opArr.Construct builds a list with exactly one element per operation |
| Ops.ObjFields | uast/transformer/ops.go:144-154 | Obj.Object has one field per map entry, in sorted name order, each with that entry's operation and no optional flag |
| Ops.SetFields | uast/transformer/ops.go:279-287 | setFields succeeds exactly when no name is known already or repeated; it then adds all the names, and otherwise reports ErrDuplicateField for a name seen before |
| Ops.FieldsObject | uast/transformer/ops.go:212-219 | Fields.Object succeeds exactly when the names are distinct, and keeps the fields in the given order |
| Ops.Pre | uast/transformer/ops.go:178-191 | Pre succeeds exactly when the new names are fresh, and places the new fields before the object's own |
| Ops.Post | uast/transformer/ops.go:193-208 | Post succeeds exactly when the new names are fresh, and places the new fields after the object's own |
| Ops.FirstField | uast/transformer/ops.go:250-260 | GetField finds an operation exactly when some field has that name |
| Ops.Lookup | uast/transformer/ops.go:456-466 | Lookup succeeds exactly when the map is injective, and the reverse map it keeps is the inverse of the map; otherwise ErrAmbiguousValue |
| OpsProps.SetVarBinds | uast/transformer/transformer.go:189-204 | a SetVar that succeeds leaves the variable bound to exactly the given node |
| OpsProps.BoundIn | uast/transformer/transformer.go:184-187 | a binding survives into every state that only adds bindings, so MustGetVar finds it there |
| OpsProps.CheckThenConstruct | uast/transformer/transformer.go:90-105 | for every reversible operation, Construct on any state extending the one Check produced rebuilds the node Check accepted (the round trip a Mapping and its Reverse rely on) |
| OpsProps.VarThenConstruct | uast/transformer/ops.go:62-79 | the Var case of the round trip: Construct returns the node Check bound |
| OpsProps.ArrThenConstruct | uast/transformer/ops.go:413-444 | the list case of the round trip: the element operations rebuild the list element by element |
| OpsProps.LookupThenConstruct | uast/transformer/ops.go:472-501 | the Lookup case of the round trip: the reverse map takes the mapped value back to the original value |
| OpsProps.OptThenConstruct | uast/transformer/ops.go:851-874 | the Optional case of the round trip: a missing node comes back as nil, a present one is rebuilt |
| OpsProps.ObjectThenConstruct | uast/transformer/ops.go:288-375 | the Object case of the round trip: the named fields plus the entries kept in `other` give back the whole object |
| OpsProps.RestrictSplit | uast/transformer/ops.go:323-331 | the entries the fields name and the entries left for `other` together make up the object |
| OpsProps.FieldsThenConstruct | uast/transformer/ops.go:293-312 | the field loop of Construct rebuilds exactly the entries the fields from the i-th on matched |
| OpsProps.FieldAbsent | uast/transformer/ops.go:340-352 | a missing optional field has a false flag, so Construct adds no entry for it |
| OpsProps.FieldPresent | uast/transformer/ops.go:353-357 | a present field's entry is rebuilt by its operation |
| OpsProps.ElemsThenConstruct | uast/transformer/ops.go:420-428 | the element loop: the operations from the i-th on rebuild the elements from the i-th on |
| OpsProps.AppendThenConstruct | uast/transformer/ops.go:571-629 | the Append case of the round trip: the head and the list operations rebuild the whole list |
| OpsProps.ChunksThenConstruct | uast/transformer/ops.go:596-604 | the chunk loop: the list operations from the i-th on rebuild the rest of the tail |
| OpsProps.EachCheckThenConstruct | uast/transformer/ops.go:749-795 | the Each case of the round trip: the stored element states rebuild the list, and nil stays nil |
| OpsProps.EachThenConstruct | uast/transformer/ops.go:786-793 | the element loop of Each.Construct rebuilds the elements from the i-th on |
| OpsProps.CommentThenConstruct | uast/transformer/semantic.go:302-345 | the comment case of the round trip: the four parts Check stores join back into the same comment |
| OpsProps.SetVarsBinds | uast/transformer/semantic.go:313-318 | SetVars binds every variable to exactly its node, and later states keep the bindings |
| OpsProps.CommentVarsAt | uast/transformer/semantic.go:313-318 | the variables commentUAST.Check binds and the part each holds |
| OpsProps.StringsBound | uast/transformer/semantic.go:327-333 | a state holding the four parts gives them back to MustGetVars |
| OpsProps.IsCheck | uast/transformer/ops.go:39-52 | Is matches exactly the equal value, or nil against nil, binds nothing, and Construct gives the value |
| OpsProps.VarCheckConstruct | uast/transformer/ops.go:62-79 | Var matches exactly when SetVar succeeds; Construct needs a nil node and a bound variable and returns it, with ErrUnexpectedNode and ErrVariableNotDefined otherwise |
| OpsProps.AndSingle | uast/transformer/ops.go:107-113 | And of one operation is that operation, and opAnd over it gives the same verdict, state and construction |
| OpsProps.AndStops | uast/transformer/ops.go:116-126 | opAnd.Check stops at the first failing operation: operations after it do not change the outcome |
| OpsProps.AndConstructSnoc | uast/transformer/ops.go:127-136 | opAnd.Construct runs the operations in sequence, each on the node the previous one built |
| OpsProps.ObjectUnusedField | uast/transformer/ops.go:313-321 | without `other`, an object whose fields matched is accepted exactly when every key is named, and the error names an unused key |
| OpsProps.ObjectKeepsRest | uast/transformer/ops.go:323-331 | with `other`, the keys no field names are bound to `other` as one object |
| OpsProps.ArrLength | uast/transformer/ops.go:413-444 | a list operation matches only lists of its length and builds only lists of its length |
| OpsProps.LookupReversible | uast/transformer/ops.go:456-501 | a Lookup built from an injective map of values stays reversible |
| OpsProps.LookupCheck | uast/transformer/ops.go:472-482 | Lookup rejects a non-value with ErrExpectedValue and an unknown value with ErrUnhandledValueIn, and otherwise checks the mapped value |
| OpsProps.OptCheckConstruct | uast/transformer/ops.go:851-874 | Opt records whether the node exists; Construct gives nil for false, the operation for true, and ErrUnexpectedType for a non-boolean |
| OpsProps.NotEmptyNever | uast/transformer/ops.go:805-840 | NotEmpty never accepts nor builds nil, an empty list or an empty object, and otherwise defers to its operation |
| OpsProps.CommentTextReversible | uast/transformer/semantic.go:97-107 | CommentText names four different variables, so the untrimmed comment operation is reversible |
| OpsProps.IfCheckThenConstruct | uast/transformer/ops.go:701-737 | when neither branch binds the condition, Construct takes the branch Check took and rebuilds the node |
| OpsProps.ReplaceThenFind | uast/transformer/ops.go:264-278 | after SetFieldObj the set field is found under its name and every other name finds what it found before |
| OpsProps.SetThenGetField | uast/transformer/ops.go:250-278 | SetFieldObj then GetField on an Object: the new field is found, the others unchanged, and the name set grows by the one name |
| OpsExec.CheckM | uast/transformer/transformer.go:251-262 | running an operation's Check on a State object gives the verdict, the error and the new variables Ops.Check describes |
| OpsExec.CheckAndM | uast/transformer/ops.go:116-126 | the opAnd.Check loop gives what CheckAnd describes |
| OpsExec.CheckObjectM | uast/transformer/ops.go:288-332 | the Object.Check loops give what CheckObject describes |
| OpsExec.LeftOver | uast/transformer/ops.go:324-329 | the loop collecting `left` keeps exactly the entries whose keys no field names |
| OpsExec.CheckArrM | uast/transformer/ops.go:413-429 | the opArr.Check loop gives what Check describes |
| OpsExec.TailLenM | uast/transformer/ops.go:576-579 | the summing loop gives the number of elements the list operations take |
| OpsExec.CheckAppendM | uast/transformer/ops.go:571-606 | the opAppend.Check loops give what CheckAppend describes |
| OpsExec.CheckIfM | uast/transformer/ops.go:701-722 | opIf.Check on cloned states, applied back with ApplyFrom, gives what CheckIf describes |
| OpsExec.CheckEachM | uast/transformer/ops.go:749-773 | the opEach.Check loop with a new state per element gives what CheckEachOp describes |
| OpsExec.CheckOptM | uast/transformer/ops.go:851-860 | opOptional.Check gives what CheckOpt describes |
| OpsExec.CheckCommentM | uast/transformer/semantic.go:302-320 | commentUAST.Check on a fresh commentElems object gives what CheckComment describes |
| OpsExec.SplitCommentM | uast/transformer/semantic.go:222-266 | splitting a comment with a fresh commentElems object gives the split as Go writes it, or nothing when the text is not such a comment |
| OpsExec.ConstructM | uast/transformer/transformer.go:251-262 | running an operation's Construct gives the node or the error Ops.Construct describes |
| OpsExec.ConstructAndM | uast/transformer/ops.go:127-136 | the opAnd.Construct loop gives what ConstructAnd describes |
| OpsExec.ConstructObjectM | uast/transformer/ops.go:334-375 | the Object.Construct loops give what ConstructObject describes |
| OpsExec.Overlay | uast/transformer/ops.go:372-374 | copying the kept entries over the built object gives the map union, the kept entries winning |
| OpsExec.ConstructArrM | uast/transformer/ops.go:430-444 | the opArr.Construct loop gives what Construct describes |
| OpsExec.ConstructAppendM | uast/transformer/ops.go:607-629 | the opAppend.Construct loop gives what Construct describes |
| OpsExec.ConstructEachM | uast/transformer/ops.go:774-795 | the opEach.Construct loop gives what Construct describes |
| OpsExec.ConstructCommentM | uast/transformer/semantic.go:322-345 | commentUAST.Construct on a commentElems object gives what ConstructComment describes |
| TransformerMapping.Map | uast/transformer/transformer.go:61-66 | Map builds exactly two steps, src first and dst second |
| TransformerMapping.ReversedTwice | uast/transformer/transformer.go:80-88 | reversing the steps twice gives them back |
| TransformerMapping.Reverse | uast/transformer/transformer.go:80-88 | the loop filling the new step list from the back gives the steps in the opposite order, keeping the name |
| TransformerMapping.MapNode | uast/transformer/transformer.go:92-104 | the callback leaves a node it does not change as it is, never both records an error and changes the node, and changes it exactly when src matches without an error and dst constructs |
| TransformerMapping.CallOrderCalls | uast/node.go:390-439 | the ordered list of callback invocations (children first, keys sorted, then the node) holds exactly the calls Apply makes |
| TransformerMapping.KidOrderCalls | uast/node.go:395-434 | the invocations on the children hold exactly the calls Apply makes below the node |
| TransformerMapping.KeysOrderCalls | uast/node.go:398-407 | the invocations over sorted object keys hold exactly the calls Apply makes for those keys |
| TransformerMapping.SeqOrderCalls | uast/node.go:422-429 | the invocations over list elements hold exactly the calls Apply makes for them |
| TransformerMapping.FirstSomeSpec | uast/transformer/transformer.go:106-109 | the first recorded error is none exactly when no call records one, and otherwise the error of the earliest call that does |
| TransformerMapping.ApplyMapError | uast/transformer/transformer.go:90-115 | applyMap reports an error exactly when some callback invocation of Apply recorded one |
| TransformerMapping.ApplyMapNoMatch | uast/transformer/transformer.go:90-115 | when src matches no node, applyMap returns the tree unchanged |
| TransformerMapping.MapNodeIdentity | uast/transformer/transformer.go:92-104 | mapping a reversible operation onto itself rebuilds every node it matches as the same node, with no error |
| TransformerMapping.Do | uast/transformer/transformer.go:117-132 | fewer than two steps is ErrFewSteps with the node unchanged; otherwise the consecutive pairs are applied in turn |
| TransformerMapping.DoMap | uast/transformer/transformer.go:61-66 | Do of a Map is a single applyMap from src to dst |
| TransformerState.ValueEqIsEquality | uast/transformer/transformer.go:195-201 | without floating-point values, Go's == on two values is equality of values |
| TransformerState.FloatEqExamples | uast/transformer/transformer.go:195-201 | positive and negative zero compare equal although their bits differ, and a NaN is not equal to itself |
| TransformerState.ExtendsRefl | uast/transformer/transformer.go:189-204 | a state extends itself |
| TransformerState.ExtendsTrans | uast/transformer/transformer.go:189-204 | extending a state that extends another extends that one too |
| TransformerState.SetVarIn | uast/transformer/transformer.go:189-204 | SetVar succeeds exactly when the name is new or bound to an equal value; a new name gets the value, a redeclaration with an equal value changes nothing, and anything else is ErrVariableRedeclared |
| TransformerState.SetStateVarIn | uast/transformer/transformer.go:211-218 | SetStateVar succeeds exactly when the name is new, binding it and touching no variable; otherwise ErrVariableRedeclared |
| TransformerState.SetVarOrKeep | uast/transformer/ops.go:705-706 | If's SetVar, whose error is ignored, only adds bindings and binds a new condition name |
| TransformerState.SetVarsIn | uast/transformer/semantic.go:313-318 | SetVars only adds bindings and, without an error, leaves every name bound to its node or an equal value |
| TransformerState.MustGetVarIn | uast/transformer/ops.go:723-726 | MustGetVar succeeds exactly for a bound name and gives its node; otherwise ErrVariableNotDefined |
| TransformerState.MustGetVarExtends | uast/transformer/transformer.go:184-187 | a lookup that succeeds gives the same node in every extension of the state |
| TransformerState.Merge | uast/transformer/transformer.go:168-178 | the merged map has the keys of both, keeps every entry of the first and takes the rest from the second |
| TransformerState.ApplyFromIn | uast/transformer/transformer.go:168-182 | ApplyFrom only adds bindings, and merging in a state that extends this one gives that state |
| TransformerState.ApplyFromSelf | uast/transformer/transformer.go:168-182 | merging a state into itself changes nothing |
| TransformerState.CopyMap | uast/transformer/transformer.go:157-162 | the copying loop of Clone gives an equal map |
| TransformerState.MergeLoop | uast/transformer/transformer.go:169-178 | the loops of ApplyFrom compute Merge |
| TransformerState.ProcObject.constructor | uast/transformer/transformer.go:221-224 | a new procObject has the name and no fields |
| TransformerState.State.constructor | uast/transformer/transformer.go:137-142 | NewState is empty, has no open objects, and keeps the binding invariant |
| TransformerState.State.GetVar | uast/transformer/transformer.go:184-187 | GetVar reports whether the name is bound and gives its node |
| TransformerState.State.SetVar | uast/transformer/transformer.go:189-204 | SetVar leaves the state as SetVarIn describes, and unchanged on error |
| TransformerState.State.GetStateVar | uast/transformer/transformer.go:206-209 | GetStateVar reports whether the name is bound and gives its states |
| TransformerState.State.SetStateVar | uast/transformer/transformer.go:211-218 | SetStateVar leaves the state as SetStateVarIn describes, and unchanged on error |
| TransformerState.State.SetVars | uast/transformer/semantic.go:313-318 | SetVars leaves the state and the error SetVarsIn describes |
| TransformerState.State.Clone | uast/transformer/transformer.go:155-166 | Clone gives a new state with the same contents and the same open objects |
| TransformerState.State.ApplyFrom | uast/transformer/transformer.go:168-182 | ApplyFrom leaves the contents ApplyFromIn describes and pushes the objects the other state has beyond this one's stack |
| TransformerState.State.StartObject | uast/transformer/transformer.go:220-229 | StartObject fails exactly when a named object cannot be bound, changing nothing then; otherwise a new empty object is pushed and bound to its name |
| TransformerState.State.FinishObject | uast/transformer/transformer.go:230-241 | the returned function pops the top object, and fails on an empty stack or when the top object has another name |
| TransformerState.State.UseKey | uast/transformer/transformer.go:243-249 | UseKey sets the key on the top object, and so on the variable bound to it; with no open object nothing changes |
| TransformerState.StartUseFinish | uast/transformer/transformer.go:220-249 | a named object that is given a key keeps the key in its variable after it is finished |
| TransformerState.StartThenFinish | uast/transformer/transformer.go:220-241 | starting then finishing an object by its name leaves the stack as it was |
| TransformerAst.Roles | uast/transformer/ast.go:27-33 | the loop builds one Is of each role's name, in order, as a list operation |
| TransformerAst.RoleElemsConstruct | uast/transformer/ops.go:430-444 | the elements from the i-th on construct the role names from the i-th on |
| TransformerAst.RolesConstruct | uast/transformer/ast.go:27-33 | the list operation of Roles constructs exactly the list of role names, whatever the variables |
| TransformerAst.RoleElemsCheck | uast/transformer/ops.go:413-429 | the elements from the i-th on match exactly when each is the role's name, binding nothing |
| TransformerAst.RolesCheck | uast/transformer/ast.go:27-33 | the list operation of Roles matches exactly the list of role names and binds nothing |
| TransformerAst.AppendRoles | uast/transformer/ast.go:36-41 | with no roles the operation itself is returned |
| TransformerAst.RolesFieldOp | uast/transformer/ast.go:61-84 | with no roles and no custom operation the roles are a Var under an existence flag; otherwise an If on the `_exists` flag |
| TransformerAst.RolesFieldAppends | uast/transformer/ast.go:55-84 | with roles saved, the roles field constructs the saved roles followed by the new ones |
| TransformerAst.RolesFieldFresh | uast/transformer/ast.go:55-84 | with no roles saved, the roles field constructs just the new roles |
| TransformerAst.ObjectRoles | uast/transformer/ast.go:132-153 | ObjectRoles is the object of the one roles field, its other fields kept in vr |
| TransformerAst.Validate | uast/transformer/ast.go:296-310 | validate accepts exactly the well-formed field roles, and each error is reported only when its condition holds |
| TransformerAst.Build | uast/transformer/ast.go:312-350 | build fails exactly on a rejected field role with validate's error; the left side exists unless the field is only added, the right side unless it is only skipped, a skipped left side is AnyVal(nil), and the right side takes the new name |
| TransformerAst.BuildKeepsASide | uast/transformer/ast.go:341-348 | every accepted field role keeps at least one side |
| TransformerAst.BuildPlain | uast/transformer/ast.go:323-326 | a plain field is carried over through a variable named after it, under the same name |
| TransformerAst.BuildRoles | uast/transformer/ast.go:327-337 | with roles, the right side annotates with EachObjectRoles, OptObjectRoles or ObjectRoles as the field is a list, optional or neither, and the left side only saves the native roles |
| TransformerAst.ASTObjectLeft | uast/transformer/ast.go:87-98 | an object that already has a roles field is refused (a panic in Go); otherwise the result keeps its other fields in "_" |
| TransformerAst.ASTObjectLeftFields | uast/transformer/ast.go:87-98 | the result's roles field saves the roles in typ_roles, its type field is the type when one is given, and every other field is as before |
| TransformerAst.Comment | uast/transformer/ast.go:228-233 | comment always starts with a line or block marker |
| TransformerAst.UncommentShortBlockPanics | uast/transformer/ast.go:218-226 | the inputs "/*" and "/*/" make uncomment as written slice out of range |
| TransformerAst.Uncomment | uast/transformer/ast.go:218-226 | uncomment fails exactly on a block opening shorter than its two markers, and otherwise agrees with the code as written |
| TransformerAst.UncommentComment | uast/transformer/ast.go:218-233 | uncomment undoes comment for every text, as written and corrected |
| TransformerAst.CommentUncommentDiffers | uast/transformer/ast.go:218-233 | the other way round fails: a one-line block comment comes back as a line comment |
| TransformerAst.UncommentBytes | uast/transformer/ast.go:218-226 | uncomment as Go runs it on bytes: a line comment loses its two marker bytes, a block comment its first two and last two, one shorter than four bytes panics, and other text is unchanged |
| TransformerAst.UncommentBytesAgree | uast/transformer/ast.go:218-226 | for every text except an unterminated block comment, the code-point uncomment gives the bytes Go's uncomment gives, panics included |
| TransformerAst.UncommentUnterminatedDiffers | uast/transformer/ast.go:222-223 | "/*é" (four bytes) gives "" in Go where the model panics, and "/*éé" gives "é" in Go where the model gives "" |
| Tokens.NewFilter | uast/transformer/positioner/tokens.go:30-44 | the key defaults to @token, an empty type list means no type filter, and otherwise the filter holds exactly the given types |
| Tokens.FilterObj | uast/transformer/positioner/tokens.go:52-73 | filterObj keeps exactly the objects having the token key and, when types are given, a non-empty type among them, and returns the object itself |
| Tokens.TokenFromPos | uast/transformer/positioner/tokens.go:75-94 | no token without both offsets; a start after the end or an end past the source length (compared as uint32) is an error; otherwise the token is the source between the offsets, the offsets read as code-point indices (Go reads them as byte offsets; see "## Left out") |
| Tokens.TokenFromPosInRange | uast/transformer/positioner/tokens.go:86-90 | for a source shorter than 2^32 the token is found exactly when the offsets are ordered and inside the source, its length counted in code points, and the error says which check failed |
| Tokens.TokenFromPosBytes | uast/transformer/positioner/tokens.go:75-94 | tokenFromPos as Go runs it on the source's bytes: the same checks against the byte length, and the bytes between the offsets |
| Tokens.TokenFromPosAscii | uast/transformer/positioner/tokens.go:86-92 | on an ASCII source the code-point model gives exactly Go's result on the bytes, errors included |
| Tokens.TokenFromPosAtBoundaries | uast/transformer/positioner/tokens.go:86-92 | on any source, byte offsets at the ends of two prefixes give Go the bytes of the characters between them |
| Tokens.TokenFromPosNonAsciiDiffers | uast/transformer/positioner/tokens.go:86-92 | in "é=x", bytes 3 to 4 are "x" for Go, while the model reports the end 4 past the three code points |
| Tokens.RewriteNode | uast/transformer/positioner/tokens.go:103-121 | the walk's callback on one node, with its children walked by the same method, produces what Rewrite describes |
| Tokens.DescendNode | uast/transformer/positioner/tokens.go:103-121 | the walk below a node produces what Descend describes |
| Tokens.RewriteFieldsLoop | uast/transformer/positioner/tokens.go:103-121 | the walk over an object's fields produces what RewriteFields describes |
| Tokens.Do | uast/transformer/positioner/tokens.go:101-124 | tokenFromSource.Do produces the rewritten tree and the first error, as Rewrite describes |
| Tokens.Check | uast/transformer/positioner/tokens.go:141-168 | the walk of Verify keeps the first error it met |
| Tokens.CheckFields | uast/transformer/positioner/tokens.go:141-168 | the walk of Verify over fields keeps the first error it met |
| Tokens.CheckElems | uast/transformer/positioner/tokens.go:141-168 | the walk of Verify over elements keeps the first error it met |
| Tokens.CheckNode | uast/transformer/positioner/tokens.go:141-168 | the walk's callback on one node returns what Check describes |
| Tokens.Verify | uast/transformer/positioner/tokens.go:134-170 | VerifyToken.Verify returns the first error of the walk, as Check describes |
| Tokens.RetokenedRefl | uast/transformer/positioner/tokens.go:117-119 | a tree is a retokened form of itself |
| Tokens.RewriteShape | uast/transformer/positioner/tokens.go:101-124 | Do changes nothing but the token fields of filtered objects |
| Tokens.DescendShape | uast/transformer/positioner/tokens.go:103-121 | the walk below a node changes nothing but token fields |
| Tokens.FieldsShape | uast/transformer/positioner/tokens.go:103-121 | the walk over fields keeps the keys and changes each field only by retokening |
| Tokens.ElemsShape | uast/transformer/positioner/tokens.go:103-121 | the walk over elements keeps the length and changes each element only by retokening |
| Tokens.FilterRetokened | uast/transformer/positioner/tokens.go:52-73 | unless the token key is @type itself, the filter keeps a node exactly when it keeps the retokened node |
| Tokens.FieldsKeep | uast/transformer/positioner/tokens.go:103-121 | a field the walk skips or has not reached keeps its value |
| Tokens.FieldsResult | uast/transformer/positioner/tokens.go:103-121 | a walk over fields that ends without an error met no error in any field and stored each field's rewrite |
| Tokens.FieldsStick | uast/transformer/positioner/tokens.go:104-106 | once an error is seen, the walk over fields keeps it |
| Tokens.ElemsStick | uast/transformer/positioner/tokens.go:104-106 | once an error is seen, the walk over elements keeps it |
| Tokens.ElemsResult | uast/transformer/positioner/tokens.go:103-121 | a walk over elements that ends without an error met no error in any element and appended each element's rewrite |
| Tokens.ElemsPrefix | uast/transformer/positioner/tokens.go:103-121 | the walk over elements only appends to what it has |
| Tokens.CheckAgrees | uast/transformer/positioner/tokens.go:134-170 | Verify reports no error exactly when every node of the tree agrees with the source |
| Tokens.CheckKidsAgrees | uast/transformer/positioner/tokens.go:141-168 | the children of a node report no error exactly when they all agree |
| Tokens.CheckFieldsNone | uast/transformer/positioner/tokens.go:141-168 | the fields report no error exactly when each one reports none |
| Tokens.CheckElemsNone | uast/transformer/positioner/tokens.go:141-168 | the elements report no error exactly when each one reports none |
| Tokens.RewriteAgrees | uast/transformer/positioner/tokens.go:101-124 | a tree Do rewrites without an error agrees with the source everywhere |
| Tokens.TokenKidsAgree | uast/transformer/positioner/tokens.go:117-119 | after the token is set, the token field and every rewritten field agree with the source |
| Tokens.TokenFieldsAgree | uast/transformer/positioner/tokens.go:117-120 | the fields other than the token that Do rewrites after setting it agree with the source |
| Tokens.DescendKidsAgree | uast/transformer/positioner/tokens.go:103-121 | the children the walk rewrites without an error agree with the source |
| Tokens.DoThenVerify | uast/transformer/positioner/tokens.go:101-170 | Verify accepts what Do produces: when Do meets no error, verifying its result against the same source, key and types reports none |
| Positions.LineStarts | uast/transformer/positioner/positions.go:146-162 | the line starts begin with line 1 at offset 0 |
| Positions.LineStartsSpec | uast/transformer/positioner/positions.go:146-162 | the line starts are exactly 0 and the positions after a newline, strictly increasing and within the input |
| Positions.LineStartsQuiet | uast/transformer/positioner/positions.go:157-161 | bytes without a newline add no line start |
| Positions.Size16OfWellFormed | uast/transformer/positioner/positions.go:197-200 | a well-formed rune takes two UTF-16 units exactly when it takes four UTF-8 bytes |
| Positions.FitsGrow | uast/transformer/positioner/positions.go:165-217 | a span that fits the runes still fits after one more rune |
| Positions.TiledExtend | uast/transformer/positioner/positions.go:186-210 | a rune of the current span's size extends that span, and the spans still tile the runes |
| Positions.AllFitGrow | uast/transformer/positioner/positions.go:186-210 | every span still fits after one more rune, the new one included |
| Positions.FitsNew | uast/transformer/positioner/positions.go:192-200 | a new span starting at a rune fits it |
| Positions.TiledNew | uast/transformer/positioner/positions.go:186-200 | a rune of another size closes the span and starts a new one where it ends, and the spans still tile the runes |
| Positions.SpansTiled | uast/transformer/positioner/positions.go:165-217 | the spans newIndexUnicode builds cover the decoded runes in order, each holding runes of one size, neighbours of different sizes |
| Positions.SpanOffsets | uast/transformer/positioner/positions.go:112-127 | inside a span every rune adds the span's byte size and UTF-16 size |
| Positions.SpansOrdered | uast/transformer/positioner/positions.go:165-217 | a later span starts at or after the end of an earlier one |
| Positions.Containing | uast/transformer/positioner/positions.go:165-217 | every rune lies in some span |
| Positions.SpanInvariants | uast/transformer/positioner/positions.go:113-121 | the invariants stated on runeSpan hold for every span built: byteOff >= firstUTF16Ind >= firstRuneInd and runeSize8 >= runeSize16 |
| Positions.SearchLines | uast/transformer/positioner/positions.go:239-249 | sort.Search over the line starts returns the first line starting after the offset |
| Positions.SearchLinesFrom | uast/transformer/positioner/positions.go:239-249 | the search from lo on returns the first line starting after the offset |
| Positions.SearchSpans | uast/transformer/positioner/positions.go:331-339 | sort.Search over the spans by one of their starts returns the first span starting after the offset |
| Positions.SearchSpansFrom | uast/transformer/positioner/positions.go:331-339 | the search from lo on returns the first span starting after the offset |
| Positions.SearchSpansIs | uast/transformer/positioner/positions.go:331-339 | the search result is fixed by where the key first exceeds the offset |
| Positions.NewIndex | uast/transformer/positioner/positions.go:146-162 | NewIndex builds the plain index of the line starts, or the Unicode index when the option is set |
| Positions.LinesStep | uast/transformer/positioner/positions.go:181-183 | one more decoded rune adds a line start exactly when it is a newline |
| Positions.SpansStep | uast/transformer/positioner/positions.go:186-205 | one more rune extends the current span or closes it and opens a new one, as Spans describes |
| Positions.RunesStep | uast/transformer/positioner/positions.go:177-207 | the loop index advances by the rune's length through the decoded runes |
| Positions.AddRune | uast/transformer/positioner/positions.go:186-205 | the span step of the loop keeps the spans equal to Spans of the runes decoded so far |
| Positions.NewIndexUnicode | uast/transformer/positioner/positions.go:165-217 | newIndexUnicode builds the line starts and the spans of the decoded input in one pass |
| Positions.LineColOutOfBounds | uast/transformer/positioner/positions.go:251-274 | an offset before the start or past the end is refused with the out-of-bounds error |
| Positions.LineColRoundTrip | uast/transformer/positioner/positions.go:263-307 | for every offset up to the end, LineCol finds a line whose start is the last line start at or before the offset, and Offset of that line and column gives the offset back |
| Positions.EmptyFileOffset | uast/transformer/positioner/positions.go:297-300 | on an empty input, line 1 column 1 is offset 0 |
| Positions.OffsetPastEnd | uast/transformer/positioner/positions.go:294-306 | as written, Offset accepts column 2 on an empty input and returns offset 1, past the end |
| Positions.OffsetBoundedInRange | uast/transformer/positioner/positions.go:287-307 | with the column bound checked on every line, an accepted line and column is never past the end |
| Positions.ByteSpan | uast/transformer/positioner/positions.go:390-394 | the span holding a byte offset starts at or before it |
| Positions.ToRuneOffsetAgrees | uast/transformer/positioner/positions.go:373-400 | rune offsets are computed the same way by the code as written and the corrected version |
| Positions.NoUnicode | uast/transformer/positioner/positions.go:309-312 | without a Unicode index every Unicode lookup fails with errNoUnicodeIndex |
| Positions.UnicodeIndexIs | uast/transformer/positioner/positions.go:165-217 | the Unicode index of the input is the index over its line starts and its decoded runes |
| Positions.LastSpan | uast/transformer/positioner/positions.go:206-216 | the last span fits and ends at the last rune |
| Positions.SpanEnds | uast/transformer/positioner/positions.go:313-320 | the last span ends at the rune count and at the UTF-16 unit count |
| Positions.KeysUpTo | uast/transformer/positioner/positions.go:331-339 | every span up to the one holding a rune starts, by every key, at or before that rune |
| Positions.KeysAfter | uast/transformer/positioner/positions.go:331-339 | the span after the one holding a rune starts, by every key, after that rune |
| Positions.LocateRune | uast/transformer/positioner/positions.go:331-339 | the span holding a rune is the one before the first span starting past it, by every key |
| Positions.SpanOfRune | uast/transformer/positioner/positions.go:331-344 | a rune lies some runes into its span, which every search by rune, unit or byte finds |
| Positions.BeforeEnd | uast/transformer/positioner/positions.go:321-330 | the bytes and units before a rune are fewer than those of the whole input |
| Positions.FromRuneOffset | uast/transformer/positioner/positions.go:309-354 | FromRuneOffset maps rune k to the bytes before it, and the end to the size |
| Positions.FromUTF16Offset | uast/transformer/positioner/positions.go:309-366 | FromUTF16Offset maps the units before rune k to the bytes before it |
| Positions.ToRuneOffsetInverse | uast/transformer/positioner/positions.go:373-405 | ToRuneOffset maps the bytes before rune k back to k, inverting FromRuneOffset |
| Positions.ToUTF16OffsetInverse | uast/transformer/positioner/positions.go:373-410 | the corrected ToUTF16Offset maps the bytes before rune k back to the units before it, inverting FromUTF16Offset |
| Positions.ToUTF16OffsetAsWrittenOvercounts | uast/transformer/positioner/positions.go:395-397 | as written, ToUTF16Offset of the second rune of "éé" is 2 although one UTF-16 unit precedes it |
| Positions.ToUnicodeLineColAsWritten | uast/transformer/positioner/positions.go:413-463 | the method with the column loop over the spans returns what toUnicodeLineCol as written describes |
| Positions.LineOfOffset | uast/transformer/positioner/positions.go:239-274 | the line LineCol finds for an offset starts at the last line start at or before it |
| Positions.UnicodeLineColOf | uast/transformer/positioner/positions.go:413-463 | the corrected column is the units between the line start and the offset, plus one |
| Positions.RuneLine | uast/transformer/positioner/positions.go:239-274 | the offset of a rune, read as a line and column, lies on the line of the last line start before it |
| Positions.UnicodeLineColCounts | uast/transformer/positioner/positions.go:413-469 | when rune j starts the line holding rune k, the corrected column of rune k is k - j + 1 in runes, or one more than the UTF-16 units between them |
| Positions.MiscountRunes | uast/transformer/positioner/positions.go:177-181 | "ab\ncé" decodes to four one-byte runes and a two-byte one |
| Positions.AsciiSpan | uast/transformer/positioner/positions.go:186-205 | four one-byte runes make one span |
| Positions.MiscountSpans | uast/transformer/positioner/positions.go:186-216 | the spans of "ab\ncé" are its four one-byte runes, then the two-byte one |
| Positions.MiscountLines | uast/transformer/positioner/positions.go:146-183 | the lines of "ab\ncé" start at 0 and 3 |
| Positions.UnicodeLineColAsWrittenMiscounts | uast/transformer/positioner/positions.go:424-461 | as written, the rune column of the end of "ab\ncé" is 4, where the line holds two runes |
| Positions.MiscountColumns | uast/transformer/positioner/positions.go:424-461 | on that index the column loop as written gives 4 where the corrected one gives 3 |
| Positions.MiscountLine | uast/transformer/positioner/positions.go:239-249 | on that index offsets 3 and 6 are on line 2 |
| Positions.UnicodeLineColAsWrittenEmpty | uast/transformer/positioner/positions.go:424-434 | as written, toUnicodeLineCol on an empty input indexes before the first of no spans (a panic); corrected, it is line 1, column 1 |
| UastNode.CloneAsWritten | uast/node.go:95-105 | Clone as written fails (panics) exactly on a tree with a nil array element, and otherwise gives an equal tree |
| UastNode.CloneAsWrittenPanics | uast/node.go:242-249 | Array.Clone panics on [nil], while Object.Clone copies a nil field |
| UastNode.Clone | uast/node.go:95-105 | the corrected deep copy, which keeps nil in arrays too, is equal to the original |
| UastNode.CloneObject | uast/node.go:108-115 | CloneObject has the same keys holding the same children |
| UastNode.ChildrenOfMembers | uast/node.go:128-139 | a node is listed exactly when some listed key holds it and it is not a value |
| UastNode.ChildrenExactly | uast/node.go:128-139 | Children holds exactly the fields that are not values |
| UastNode.ChildrenOfSnoc | uast/node.go:131-137 | one more key adds its field exactly when it is not a value |
| UastNode.Children | uast/node.go:128-139 | the loop over the sorted keys returns the non-value fields in key order |
| UastNode.SetType | uast/node.go:164-167 | SetType adds the @type key and no other |
| UastNode.TypeSetType | uast/node.go:158-167 | Type reads back what SetType stored, and SetType touches no other field |
| UastNode.TypeMissing | uast/node.go:158-162 | an absent or non-string @type reads as the empty type |
| UastNode.Digits | uast/node.go:176-179 | the decimal digits of a natural number, at least one |
| UastNode.DigitsRoundTrip | uast/node.go:176-179 | the decimal digits read back as the number |
| UastNode.Decimal | uast/node.go:176-179 | fmt.Sprint of an integer is never empty |
| UastNode.TokenSetToken | uast/node.go:169-186 | Token reads back what SetToken stored, prints integer and boolean tokens, and is empty without a token |
| UastNode.TokenOfInt | uast/node.go:176-179 | a printed integer token denotes the integer |
| UastNode.RoleList | uast/node.go:203-207 | RoleList is an array of exactly the role names, in order |
| UastNode.RolesSetRoles | uast/node.go:188-207 | Roles reads back what SetRoles stored |
| UastNode.RolesSkipNonStrings | uast/node.go:194-199 | Roles drops the elements of @role that are not strings |
| UastNode.ScaledExact | uast/node.go:352-356 | a scaled significand is the integer j exactly when it is whole and truncates to j |
| UastNode.FloatToNodeInt | uast/node.go:352-356 | ToNode turns a float64 into Int(i) exactly when it denotes the integer i and i fits in an int64 |
| UastNode.FloatToNodeExamples | uast/node.go:352-356 | minus zero becomes Int(0) and a NaN stays a Float |
| UastNode.ConvertedFails | uast/node.go:324-366 | ToNode fails exactly when some value inside has an unsupported type |
| UastNode.ToNode | uast/node.go:324-366 | ToNode succeeds exactly when every value converts, giving the converted tree, and otherwise reports one unsupported type found inside |
| UastNode.WalkedAll | uast/node.go:369-383 | a walk that never stops visits every node of the tree once, nil included |
| UastNode.WalkedStops | uast/node.go:369-372 | a walk that refuses the root sees nothing else |
| UastNode.WalkPreOrder | uast/node.go:369-383 | WalkPreOrder calls walk on the nodes Walked lists, in that order |
| UastNode.ApplyChanged | uast/node.go:390-439 | Apply reports a change exactly when some callback invocation reported one |
| UastNode.ApplyUnflagged | uast/node.go:390-439 | when no callback reports a change nothing is copied, and Apply gives the callback's answer for the original root |
| UastNode.ApplyIdentity | uast/node.go:390-439 | a callback that keeps every node leaves the tree as it is |
| UastNode.ApplyObject | uast/node.go:408-420 | the object loop, in the map's own order, cloning on the first change, ends with Rebuild of the object |
| UastNode.RebuildObject | uast/node.go:408-420 | the changed fields replaced, when some field changed, is Rebuild of the object |
| UastNode.ApplyArray | uast/node.go:421-433 | the array loop, cloning on the first change, ends with Rebuild of the list |
| UastNode.ApplyM | uast/node.go:390-439 | the recursive method with the map loop in the map's own order (applySort is false) computes Apply |
| NodeIter.NextLevel | uast/nodes/iter.go:216-221 | the next level of a breadth-first walk is strictly smaller than the level itself, so the walk ends |
| NodeIter.PreOrderNoNull | uast/nodes/iter.go:121-126 | nil is never pushed, so the pre-order walk never yields nil |
| NodeIter.PreOrderSubtree | uast/nodes/iter.go:32-33 | in pre-order every node comes first in its own subtree, which follows it contiguously |
| NodeIter.PostOrderSubtree | uast/nodes/iter.go:34-35 | in post-order every node comes last in its own subtree, which precedes it contiguously |
| NodeIter.PostOrderPermutesPreOrder | uast/nodes/iter.go:32-35 | post-order lists the same nodes as pre-order, with the same multiplicities |
| NodeIter.BfsPermutesPreForest | uast/nodes/iter.go:36-37 | level order lists exactly the nodes of the pre-order walk of the same roots |
| NodeIter.UnfoldObjects | uast/nodes/iter.go:233-248 | addUnfoldingArrays yields only objects |
| NodeIter.ObjectChildren | uast/nodes/iter.go:70-77 | eachChild on an object gives the non-nil values in sorted key order |
| NodeIter.ArrayChildren | uast/nodes/iter.go:78-87 | eachChild on an array gives the non-nil elements in index order |
| NodeIter.EachChild | uast/nodes/iter.go:68-89 | eachChild gives the non-nil children |
| NodeIter.ObjectChildrenRev | uast/nodes/iter.go:93-101 | eachChildRev on an object gives the non-nil values, last key first |
| NodeIter.ArrayChildrenRev | uast/nodes/iter.go:102-111 | eachChildRev on an array gives the non-nil elements, last index first |
| NodeIter.EachChildRev | uast/nodes/iter.go:91-113 | eachChildRev gives the children of eachChild, last to first |
| NodeIter.PrePush | uast/nodes/iter.go:137-142 | pushing the reversed children of the current node puts their subtrees first in what the stack yields |
| NodeIter.PrePop | uast/nodes/iter.go:127-135 | popping the top of the stack yields it, then its subtree, then the rest of the stack |
| NodeIter.PreStep | uast/nodes/iter.go:137-142 | after the children are pushed, the top of the stack is the next node of the walk, and the rest of the walk is what the stack yields after it |
| NodeIter.PreOrderIter.constructor | uast/nodes/iter.go:50-53 | a pre-order iterator over a non-nil root still has to yield the pre-order of the root |
| NodeIter.PreOrderIter.Next | uast/nodes/iter.go:137-146 | Next succeeds exactly when nodes remain, the current node is then the first remaining one, and the rest remain |
| NodeIter.FrameOfChildren | uast/nodes/iter.go:153-169 | a frame of a node and its reversed children yields the children's subtrees in order, then the node |
| NodeIter.PostOrderIter.constructor | uast/nodes/iter.go:54-57 | a post-order iterator over a non-nil root still has to yield the post-order of the root |
| NodeIter.PostOrderIter.Start | uast/nodes/iter.go:153-169 | start pushes frames that yield exactly the post-order of the node |
| NodeIter.PostOrderIter.Descend | uast/nodes/iter.go:183-189 | descending into the last entry of the top frame keeps what the stack yields, and the loop makes progress |
| NodeIter.PostOrderIter.Next | uast/nodes/iter.go:171-197 | Next succeeds exactly when nodes remain, the current node is then the first remaining one in post-order, and the rest remain |
| NodeIter.PostOrderIter.DropTop | uast/nodes/iter.go:180-184 | popping an empty top frame leaves the nodes still to be yielded, in order, as they were |
| NodeIter.PostOrderIter.YieldTop | uast/nodes/iter.go:192-195 | taking the last entry of a one-entry top frame makes it the current node: it is the first node still to be yielded, and the rest remain in order |
| NodeIter.LevelAdvance | uast/nodes/iter.go:211-214 | within a level the next node is the one after the current one |
| NodeIter.LevelRefill | uast/nodes/iter.go:215-224 | at the end of a level the next level holds what is left of the walk, and its first node comes next |
| NodeIter.LevelChildren | uast/nodes/iter.go:215-221 | the loop collecting the children of a level gives NextLevel |
| NodeIter.LevelOrderIter.constructor | uast/nodes/iter.go:58-59 | a level-order iterator over a non-nil root has the breadth-first walk of the root to yield |
| NodeIter.LevelOrderIter.Next | uast/nodes/iter.go:208-231 | Next succeeds exactly when nodes remain, the current node is then the first remaining one, and the rest remain |
| NodeIter.FixedIter.constructor | uast/nodes/iter.go:259-261 | a fixed iterator lists the given nodes |
| NodeIter.FixedIter.Next | uast/nodes/iter.go:269-286 | Next succeeds exactly when nodes remain, Node is then the first remaining one, and the rest remain |
| NodeIter.AddUnfoldingArrays | uast/nodes/iter.go:233-248 | addUnfoldingArrays appends the unfolded objects to the list it is given |
| NodeIter.AddUnfoldingElems | uast/nodes/iter.go:237-242 | the loop over an array's elements skips nil elements and appends the unfolding of every other element, in order |
| NodeIter.NewChildrenIterator | uast/nodes/iter.go:250-257 | the children iterator lists the children of the node with arrays unfolded |
| NodeIter.NewIterator | uast/nodes/iter.go:43-66 | NewIterator fails (a panic in Go) exactly on an unsupported order; otherwise it yields the order's walk, IterAny meaning pre-order, and a nil root gives the empty iterator |
| LibuastC.KindCode | uast/libuast/uast.h:17-26 | every kind has one of the eight NodeKind codes |
| LibuastC.KindToGoCode | uast/libuast/nodes_c.go:54-63 | the kindToGo table maps a code to a kind exactly when the enumeration gives that kind that code, and knows just the eight codes |
| LibuastC.GoString | uast/libuast/nodes_c.go:175-180 | C.GoString of a NULL string is "", of any other string that string |
| LibuastC.WrapKind | uast/libuast/nodes_c.go:65-80 | asNode wraps a handle exactly when it is not 0 and the client reports a known kind other than NODE_NULL, and the wrapper has that kind |
| LibuastC.AsNode | uast/libuast/nodes_c.go:65-84 | asNode makes a fresh wrapper of the reported kind: an object without cached keys, an array with size -1, or a value |
| LibuastC.TmpBuild | uast/libuast/nodes_c.go:329-331 | cTmpNode.Build is asNode of the same handle, so the built node keeps the temporary node's handle |
| LibuastC.ImagePermutes | uast/libuast/nodes_c.go:127-143 | reordering the (key, index) pairs reorders their keys and their indices the same way, as Swap does |
| LibuastC.OrderedSorted | uast/libuast/nodes_c.go:189-195 | keys whose neighbours are in order are sorted, which is what sort.StringsAreSorted tests |
| LibuastC.SortPairsView | uast/libuast/nodes_c.go:189-199 | sorting the pairs by key alone yields sorted keys that are a permutation of the raw keys, each with its original index |
| LibuastC.SwapTiesView | uast/libuast/nodes_c.go:175-199 | keys read from the client may repeat, and swapping the indices of two equal neighbouring keys gives another valid sorted view, so the unstable sort.Sort may leave either tie order |
| LibuastC.CObject.Raw | uast/libuast/nodes_c.go:164-180 | the raw keys are the client's size many keyAt strings, NULL read as "" |
| LibuastC.CObject.constructor | uast/libuast/nodes_c.go:76 | a new object wrapper has no cached keys and no index table |
| LibuastC.CObject.Orig | uast/libuast/nodes_c.go:204-210 | sorted key j sits at index Orig(j) among the raw keys |
| LibuastC.CObject.Size | uast/libuast/nodes_c.go:168-173 | Size is the client's size whether or not keys are cached |
| LibuastC.CObject.Keys | uast/libuast/nodes_c.go:182-202 | Keys caches the raw keys sorted, with the original index of each unless they were sorted already; a second call returns the cache |
| LibuastC.CObject.ValueAtIndex | uast/libuast/nodes_c.go:204-213 | valueAt is nil before Keys and out of range, and otherwise wraps the client's child at the original index |
| LibuastC.CObject.ValueAt | uast/libuast/nodes_c.go:215-223 | ValueAt reports found exactly when the key is one of the raw keys, and then wraps the child at a raw position holding it |
| LibuastC.CArray.constructor | uast/libuast/nodes_c.go:78 | a new array wrapper has size -1, not yet cached |
| LibuastC.CArray.Size | uast/libuast/nodes_c.go:245-252 | Size is the client's size, asked for only on the first call |
| LibuastC.CArray.ValueAt | uast/libuast/nodes_c.go:254-261 | ValueAt wraps the client's element i as asNode does |
| LibuastC.ScalarOf | uast/libuast/nodes_c.go:280-306 | a scalar kind reads the callback of that kind (a NULL string as ""), and object, array and nil kinds give no value |
| LibuastC.CValue.constructor | uast/libuast/nodes_c.go:79 | a new value wrapper has its kind and no cached value |
| LibuastC.CValue.Value | uast/libuast/nodes_c.go:280-306 | Value is ScalarOf the handle's kind, cached after the first call |
| LibuastGo.Arena.Next | uast/libuast/nodes_go.go:249-253 | next raises the counter by one and returns it; the handle is never 0 and, in a valid store, not yet in use |
| LibuastGo.Arena.AsNode | uast/libuast/nodes_go.go:277-283 | AsNode finds a node exactly when a non-nil node is registered under the handle, and wraps it with that handle |
| LibuastGo.Arena.ToHandle | uast/libuast/nodes_go.go:259-269 | nil gets handle 0 and changes nothing; any other node is registered under the next handle, where AsNode finds it |
| LibuastGo.Arena.ToNode | uast/libuast/nodes_go.go:270-276 | toNode returns nil exactly for nil, else the goNode under the handle toHandle assigned |
| LibuastGo.Arena.NewTmp | uast/libuast/nodes_go.go:292-301 | a temporary node goes under the next handle, the finished nodes are untouched, and AsNode of that handle is nil |
| LibuastGo.Arena.NewObject | uast/libuast/nodes_go.go:302-305 | NewObject registers an empty temporary object; the size is only a capacity |
| LibuastGo.Arena.NewArray | uast/libuast/nodes_go.go:306-309 | NewArray registers a temporary array of sz nil elements under the next handle |
| LibuastGo.Arena.Kind | uast/libuast/nodes_go.go:32-58 | uastKind is NODE_NULL exactly when the handle resolves to no node, otherwise the kind of the node |
| LibuastGo.Arena.Size | uast/libuast/nodes_go.go:110-119 | uastSize is the field count of an object, the length of an array, and 0 for values and unknown handles |
| LibuastGo.Arena.KeyAt | uast/libuast/nodes_go.go:120-129 | uastKeyAt is NULL for an unknown handle, panics on a node that is not an object, and is the i-th sorted key or "" out of range |
| LibuastGo.Arena.ChildAt | uast/libuast/nodes_go.go:399-413 | goNode.ValueAt takes array element i, nil out of range, or the value of the i-th sorted key; a value panics |
| LibuastGo.Arena.ValueAt | uast/libuast/nodes_go.go:130-141 | uastValueAt is 0 for an unknown handle, panics where goNode.ValueAt does, and otherwise registers the child under a fresh handle |
| LibuastGo.Arena.PutElem | uast/libuast/nodes_go.go:424-432 | SetValue panics exactly for a node that is not an array and for an index past the end; a nil value leaves the slot; only that slot changes |
| LibuastGo.Arena.PutKey | uast/libuast/nodes_go.go:433-443 | SetKeyValue panics exactly for a node that is not an object, otherwise stores the value (nil included) under the key |
| LibuastGo.Arena.SetValue | uast/libuast/nodes_go.go:213-226 | uastSetValue does nothing for a handle with no temporary node and otherwise stores what AsNode gives for the value handle |
| LibuastGo.Arena.SetKeyValue | uast/libuast/nodes_go.go:227-240 | uastSetKeyValue does nothing for a handle with no temporary node and otherwise stores AsNode of the value handle, nil for none |
| LibuastGo.Arena.Build | uast/libuast/nodes_go.go:444-455 | Build registers the content under a fresh handle (counter plus one) and clears the temporary node; a built node gives nil |
| LibuastGo.Arena.Free | uast/libuast/nodes_go.go:255-258 | after Free no handle resolves to a node; counter and temporary nodes stay |
| LibuastGo.Arena.Resolve | uast/libuast/uast.go:71-85 | the node a handle stands for once a temporary node counts as its own content, as the TmpNode interface describes |
| LibuastGo.Arena.BuildInPlace | uast/libuast/uast.go:71-85 | Build as the interface documents it: the result keeps the handle of the temporary node |
| LibuastGo.ToHandleThenAsNode | uast/libuast/nodes_go.go:259-283 | a registered node is found again under its non-zero handle after more registrations, which get other handles |
| LibuastGo.TmpHandleIsNoNode | uast/libuast/nodes_go.go:277-309 | the handle NewObject or NewArray returns is not a node to AsNode or uastKind |
| LibuastGo.SetKeepsValid | uast/libuast/nodes_go.go:213-240 | a setter call that does not panic keeps the store valid |
| LibuastGo.ValueAtTwice | uast/libuast/nodes_go.go:399-413 | asking for the same child twice gives two consecutive handles for the same node |
| LibuastGo.BuildMovesHandle | uast/libuast/nodes_go.go:444-455 | Build as written gives the object a new handle, and the temporary handle resolves to no node |
| LibuastGo.BuildInPlaceKeepsHandle | uast/libuast/uast.go:71-85 | building in place keeps the handle, and AsNode of it is the built node |
| LibuastGo.GoNodes.constructor | uast/libuast/nodes_go.go:243-247 | a new store is empty |
| LibuastGo.GoNodes.Next | uast/libuast/nodes_go.go:249-253 | the method updates the fields as Arena.Next says |
| LibuastGo.GoNodes.Free | uast/libuast/nodes_go.go:255-258 | the method updates the fields as Arena.Free says |
| LibuastGo.GoNodes.ToHandle | uast/libuast/nodes_go.go:259-269 | the method updates the fields and returns the handle as Arena.ToHandle says |
| LibuastGo.GoNodes.ToNode | uast/libuast/nodes_go.go:270-276 | the method updates the fields and returns the node as Arena.ToNode says |
| LibuastGo.GoNodes.NewTmp | uast/libuast/nodes_go.go:292-301 | the method updates the fields as Arena.NewTmp says |
| LibuastGo.GoNodes.NewObject | uast/libuast/nodes_go.go:143-152 | the method updates the fields as Arena.NewObject says |
| LibuastGo.GoNodes.NewArray | uast/libuast/nodes_go.go:153-162 | the method updates the fields as Arena.NewArray says |
| LibuastGo.GoNodes.NewValue | uast/libuast/nodes_go.go:163-212 | a value is registered as toHandle says, and the handle returned to C is not 0 |
| LibuastGo.GoNodes.SetValue | uast/libuast/nodes_go.go:213-226 | the new state is Arena.SetValue's; a panic is reported and changes nothing |
| LibuastGo.GoNodes.SetKeyValue | uast/libuast/nodes_go.go:227-240 | the new state is Arena.SetKeyValue's; a panic is reported and changes nothing |
| LibuastGo.GoNodes.Build | uast/libuast/nodes_go.go:444-455 | the new state and the node are Arena.Build's |
| LibuastGo.GoNodes.KeyAt | uast/libuast/nodes_go.go:383-398 | the method's answer is Arena.KeyAt's, keys computed by a loop |
| LibuastGo.GoNodes.ValueAt | uast/libuast/nodes_go.go:130-141 | the new state and handle are Arena.ValueAt's, a panic changes nothing |
| LibuastLoad.UastLoad | uast/libuast/uast.h:94-135 | the loops of UastLoad make exactly the calls on the destination, and return exactly the handle, that the recursive definition Load gives |
| LibuastLoad.LoadFrame | uast/libuast/uast.h:94-135 | a copy only appends calls, its setters only target nodes the copy made itself, and nil or an unknown kind makes no call and returns 0 |
| LibuastLoad.EntriesKeys | uast/libuast/uast.h:103-111 | the object loop sets the keys in the source's order up to the first NULL key, and returns 0 exactly when there is a NULL key |
| LibuastLoad.ElemsIndices | uast/libuast/uast.h:116-121 | the array loop sets each index from i to the size once, in order, and returns the array's handle |
| LibuastLoad.LoadObjectCalls | uast/libuast/uast.h:99-112 | an object is copied with NewObject of its size and then SetKeyValue on it for its keys up to the first NULL key; the result is 0 exactly when a key is NULL |
| LibuastLoad.LoadArrayCalls | uast/libuast/uast.h:113-122 | an array is copied with NewArray of its size and then SetValue on it at indices 0 to size - 1; the result is its handle |
| LibuastLoad.LoadScalarCall | uast/libuast/uast.h:123-133 | a value is copied by the one constructor of its kind, with the source's value |
| LibuastLoad.DenoteElems | uast/libuast/uast.h:113-122 | the copied elements of the first n entries of an array, one per entry |
| LibuastLoad.LoadIntoGoLosesObjects | uast/libuast/nodes_go.go:227-240 | copying {"a": {}} into the Go store as written returns a handle AsNode cannot resolve, and stores the nested object as nil |
| LibuastLoad.LoadFixed | uast/libuast/uast.h:94-135 | with setters that resolve temporary handles, a copy into the Go store never panics, keeps the store valid and everything it held, and its handle resolves to the tree the source stands for |
| LibuastLoad.LoadEntriesFixed | uast/libuast/uast.h:103-111 | the object loop into the fixed Go store keeps it valid and ends with the handle resolving to the source object |
| LibuastLoad.EntryStored | uast/libuast/uast.h:108-110 | one SetKeyValue of a loaded value into the fixed Go store keeps the store valid and extends the object under construction by exactly that entry |
| LibuastLoad.EntryKeysStep | uast/libuast/uast.h:103-110 | one turn of the object loop with a non-NULL key records that key ahead of the keys set by the rest of the loop, and the result is 0 exactly when a later key is NULL |
| LibuastLoad.LoadElemsFixed | uast/libuast/uast.h:116-121 | the array loop into the fixed Go store keeps it valid and ends with the handle resolving to the source array |
| LibuastCtx.Registry.constructor | uast/libuast/uast.go:80-84 | the registry starts empty, with counter 0 |
| LibuastCtx.Registry.NewContext | uast/libuast/uast.go:87-99 | newContext registers a fresh context under the next handle, with no error and no iterators |
| LibuastCtx.Registry.GetContext | uast/libuast/uast.go:101-107 | getContext finds a context exactly for a registered handle, and that context has that handle, never 0 |
| LibuastCtx.Context.constructor | uast/libuast/uast.go:109-120 | a new context has no error, no iterators and handle counter 0 |
| LibuastCtx.Context.Next | uast/libuast/uast.go:122-126 | next adds one to the context's counter and returns the new value |
| LibuastCtx.Context.SetError | uast/libuast/uast.go:195-200 | setError keeps the first error and ignores later ones |
| LibuastCtx.Context.NewIterator | uast/libuast/uast.go:218-227 | NewIterator binds a new iterator to the next handle of the context and registers it |
| LibuastCtx.Context.AsIterator | uast/libuast/uast.go:213-216 | AsIterator finds an iterator exactly for a registered handle, and it belongs to this context |
| LibuastCtx.Iterator.constructor | uast/libuast/uast.go:159-164 | an iterator holds its context, its handle and the nodes to enumerate |
| LibuastCtx.ContextHandle | uast/libuast/uast.go:128-134 | the handle of a nil context is 0 |
| LibuastCtx.IteratorHandle | uast/libuast/uast.go:166-172 | the handle of a nil iterator is 0 |
| LibuastCtx.ContextHandleRoundTrip | uast/libuast/uast.go:87-134 | a registered context's handle is not 0 and getContext of it is that context |
| LibuastCtx.IteratorHandleRoundTrip | uast/libuast/uast.go:166-227 | a registered iterator's handle is not 0 and AsIterator of it is that iterator |
| LibuastCtx.ContextError | uast/libuast/uast.go:136-145 | Error of a nil context is the "uast context is nil" error, otherwise the first error recorded |
| LibuastCtx.Free | uast/libuast/uast.go:147-157 | free deregisters the context, drops its iterators and frees the Go store's nodes; a nil context changes nothing |
| LibuastCtx.IterNext | uast/libuast/uast.go:174-183 | Next gives nil for a nil, closed or exhausted iterator, and otherwise the next node, which it consumes |
| LibuastCtx.Close | uast/libuast/uast.go:185-193 | Close removes the iterator from its context and ends it; an iterator without a context is left alone |
| ProtocolTypes.Uint32 | uast/uast.go:31-40 | uint32(off) keeps a field below 2^32 unchanged and always lands below 2^32 |
| ProtocolTypes.AsPositionObject | uast/uast.go:31-49 | a position whose fields fit in 32 bits survives ToObject followed by AsPosition |
| ProtocolTypes.FieldProps | protocol/types.go:282-284 | a node converted under a field gets exactly internalRole set to the field; at the root it gets no property |
| ProtocolTypes.ByOffsetAsymmetric | protocol/types.go:337-355 | byOffset.Less never holds both ways, so the stable sort is well defined |
| ProtocolTypes.StartPosNone | protocol/types.go:357-376 | startPosition is nil exactly when no node of the subtree has a start position |
| ProtocolTypes.MinStartNone | protocol/types.go:362-373 | the loop over the children finds no start exactly when every child is unpositioned |
| ProtocolTypes.MinStartLeast | protocol/types.go:362-373 | the start the loop finds is one child's start and no later than any child's start |
| ProtocolTypes.ToNodeNull | protocol/types.go:246-253 | asNode(nil) is empty and ToNode of nil is nil without error |
| ProtocolTypes.ToNodeObject | protocol/types.go:254-255 | an object converts to exactly one node, which ToNode returns as it is |
| ProtocolTypes.ToNodeWrapped | protocol/types.go:256-258 | a list of two objects converts to a parent with no type, properties or roles holding both nodes in order |
| ProtocolTypes.ArrayAsNodesAppend | protocol/types.go:261-271 | arrayAsNode flattens: its result over a concatenation is the concatenation of its results |
| ProtocolTypes.ValueAsNodeField | protocol/types.go:307-316 | a value becomes one token node, printed with fmt.Sprint, carrying its field name as internalRole |
| ProtocolTypes.ObjectProperties | protocol/types.go:273-305 | an object node's properties are internalRole (the field) and its printed value fields, special keys aside; a value field named internalRole wins over the field name |
| ProtocolTypes.ObjectChildren | protocol/types.go:286-304 | an object node's children are a permutation of its non-value fields' conversions, sorted by byOffset |
| ProtocolTypes.UnpositionedFirst | protocol/types.go:345-347 | after the sort no unpositioned child follows a positioned one: unpositioned children come first |
| ProtocolTypes.ObjectPropsM | protocol/types.go:282-295 | the loop over the fields collects exactly the field property and the printed value fields |
| ProtocolTypes.ObjectKidsM | protocol/types.go:286-302 | the loop over the fields collects the conversions of the non-value fields, in key order |
| ProtocolTypes.ObjectAsNodeM | protocol/types.go:273-305 | objectAsNode builds the node the specification function ObjectAsNode describes |
| ProtocolTypes.ArrayAsNodesM | protocol/types.go:261-271 | arrayAsNode's loop gives the concatenated conversions of the elements |
| ProtocolTypes.AsNodesM | protocol/types.go:318-331 | asNode dispatches on nil, list, object and value as AsNodes says |
| ProtocolTypes.ToNodeM | protocol/types.go:246-259 | ToNode gives nil for no node, the node for one, and a parent for several |
| ObjectToNoder.ParseUint32 | protocol/native/objecttonoder.go:316-321 | strconv.ParseUint(s, 10, 32) only ever yields a value below 2^32 |
| ObjectToNoder.ToUint32 | protocol/native/objecttonoder.go:313-329 | toUint32 only ever yields a value below 2^32 |
| ObjectToNoder.ToUint32Digits | protocol/native/objecttonoder.go:316-321 | the decimal digits of a uint32 parse back to it |
| ObjectToNoder.ToUint32Refuses | protocol/native/objecttonoder.go:313-329 | the empty string, a string with a non-digit (a sign, say) and a boolean are refused |
| ObjectToNoder.SetInternalKey | protocol/native/objecttonoder.go:289-296 | setInternalKey fails exactly when the node already has a different non-empty type, and otherwise sets the type |
| ObjectToNoder.SetToken | protocol/native/objecttonoder.go:217-223 | setting a token fails exactly when the node has a different non-empty token, and otherwise sets it |
| ObjectToNoder.WithField | protocol/native/objecttonoder.go:200-213 | each node of a plain list gets internalRole set to the list's key, nothing else changes |
| ObjectToNoder.FindRoot | protocol/native/objecttonoder.go:70-90 | without TopLevelIsRootNode the root found is one of the map's values |
| ObjectToNoder.ToNodeErrors | protocol/native/objecttonoder.go:56-83 | a root that is not a map, an empty map, and a map with several keys when the root sits below a key are refused, each with its own error |
| ObjectToNoder.ToNodeSingleKey | protocol/native/objecttonoder.go:85-87 | with one key and the root below it, ToNode converts that key's value |
| ObjectToNoder.SetInternalKeyCases | protocol/native/objecttonoder.go:289-296 | a fresh node takes any type, a conflicting type is refused with both names, and the same type again is accepted |
| ObjectToNoder.AddPropertyTokens | protocol/native/objecttonoder.go:217-223 | a token key with a different printed value than the node's token is refused with both tokens; the same value is accepted unchanged |
| ObjectToNoder.AddPropertyPlain | protocol/native/objecttonoder.go:266-268 | any other key becomes a printed property and nothing else changes |
| ObjectToNoder.AddPropertyOffset | protocol/native/objecttonoder.go:235-245 | the offset key fills the offset of the start position, creating it if need be, and leaves line, column and the rest of the node alone |
| ObjectToNoder.EmptyPromotedList | protocol/native/objecttonoder.go:191-194 | an empty promoted list adds no child |
| ObjectToNoder.MapFieldChild | protocol/native/objecttonoder.go:124-130 | a nested object becomes one more child, after the others, carrying its key as internalRole |
| ObjectToNoder.ByOffsetAsymmetric | protocol/native/objecttonoder.go:335-349 | byOffset.Less never holds both ways |
| ObjectToNoder.UnpositionedLast | protocol/native/objecttonoder.go:158 | after the sort no positioned child follows an unpositioned one |
| ObjectToNoder.ConvertType | protocol/native/objecttonoder.go:101-113 | the converted object's type is the string under the type key, "" when there is none |
| ObjectToNoder.FieldsKeepType | protocol/native/objecttonoder.go:122-156 | adding fields never changes the type set before them |
| ObjectToNoder.FieldsM | protocol/native/objecttonoder.go:122-156 | the field loop gives what Fields defines, stopping at the first error |
| ObjectToNoder.FieldsFailStays | protocol/native/objecttonoder.go:122-156 | once a field fails, the remaining fields are not looked at and the error is the result |
| ObjectToNoder.AddFieldM | protocol/native/objecttonoder.go:123-155 | one field is added as AddField defines |
| ObjectToNoder.ElementsM | protocol/native/objecttonoder.go:176-189 | the elements are converted in order as Elements defines, stopping at the first error |
| ObjectToNoder.ElementsFailStays | protocol/native/objecttonoder.go:178-184 | once an element fails, the error is the result |
| ObjectToNoder.ConvertM | protocol/native/objecttonoder.go:92-161 | toNode sorts the keys first and converts as Convert defines |
| ObjectToNoder.ToNodeM | protocol/native/objecttonoder.go:56-68 | the exported ToNode finds the root and converts it as ToNode defines |
| Rules.MatchesNonEmpty | uast/rules.go:40-79 | no selector matches the empty path |
| Rules.ScanSound | uast/rules.go:50-65 | when the OnPath loop succeeds, the last selector matches a suffix of the path and the earlier ones match within what lies before that suffix |
| Rules.OnPathSound | uast/rules.go:40-68 | OnPath matches its selectors against the path from the end, each selector within what the later ones left |
| Rules.OnPathExamples | uast/rules.go:40-68 | OnPath(foo, bar) matches the path foo, bar but not foo, other, bar, since each selector is tried on a suffix |
| Rules.InternalTypeMatch | uast/rules.go:80-107 | OnInternalType holds exactly when the types are non-empty, no longer than the path and equal to the internal types of the path's last nodes |
| Rules.InternalRoleMatch | uast/rules.go:109-136 | OnInternalRole holds exactly when the given internal roles are non-empty, no longer than the path and present on the path's last nodes |
| Rules.Select | uast/rules.go:10 | running a selector on a path gives what Matches defines |
| Rules.OnPathMatch | uast/rules.go:40-68 | the loop of OnPath gives what the recursive Scan defines |
| Rules.RoleRuleEffect | uast/rules.go:27-37 | a role rule never fails; when its selector matches it appends its roles to the current node and leaves the rest of the path alone, else it changes nothing |
| Rules.RunKeepsPath | uast/rules.go:6-37 | a rule leaves the path as it was except for roles added to the current node |
| Rules.RunAllKeepsPath | uast/rules.go:13-25 | Rules, too, only adds roles to the current node |
| Rules.RunAllFirstError | uast/rules.go:13-25 | when Rules fails, its error is that of the first failing rule, run on the path the rules before it left |
| Rules.RunAllErrStays | uast/rules.go:16-20 | once a prefix of the rules fails, the later rules are not run and the error stands |
| Rules.Apply | uast/rules.go:6-37 | running a rule gives what Run defines |
| Rules.ApplyAll | uast/rules.go:13-25 | the loop of Rules gives what RunAll defines |
| BuildDeps.CallsManagerMeans | build/build.go:92-102 | the prefix loop accepts exactly when the trimmed command starts with apt, apt-get or apk followed by a blank |
| BuildDeps.SplitShorter | build/build.go:104-108 | a part of a command that strings.Split really cuts is shorter than the command, so the recursion ends |
| BuildDeps.SeparatorsListed | build/build.go:103-105 | the separators tried are exactly "&&", "&", "\|\|", ";" and newline |
| BuildDeps.AcceptedParts | build/build.go:87-117 | an accepted non-blank command calls a package manager, and every part any separator cuts it into is accepted |
| BuildDeps.AcceptedWhenPartsAre | build/build.go:87-117 | conversely, a non-blank package-manager call all of whose parts under every cutting separator are accepted is accepted |
| BuildDeps.RefusedPart | build/build.go:109-113 | a command cut by some separator into a refused part is refused |
| BuildDeps.EchoRefused | build/build.go:96-101 | " echo" calls no package manager and is refused |
| BuildDeps.RefusesChainedEcho | build/build.go:103-115 | "apt update && echo" is refused, since its part " echo" is |
| BuildDeps.SimpleAccepted | build/build.go:87-117 | a package-manager call with no separator character in it is accepted |
| BuildDeps.AcceptedSemicolon | build/build.go:103-115 | a package-manager call cut only by ";" into accepted parts is accepted |
| BuildDeps.TwoCalls | build/build.go:103-115 | two accepted commands joined by ";" into a call without other separators are accepted |
| BuildDeps.AcceptsTwoInstalls | build/build.go:87-117 | "apt install x; apt install y" is accepted |
| BuildDeps.SplitOnce | build/build.go:106 | a text the separator occurs in once splits into the two sides of that occurrence |
| BuildDeps.SplitWhole | build/build.go:106-108 | a text without the separator's first character is not cut, so the loop skips that separator |
| Strings.SortedKeys | uast/node.go:85-92 | the keys of an object in sort.Strings order: strictly increasing and holding exactly the object's keys |
| Strings.SortedKeysOf | uast/node.go:85-92 | Object.Keys collects the keys with a loop and returns them sorted |
| Strings.StrictlySortedUnique | uast/node.go:85-92 | two strictly sorted lists of the same keys are equal, so the sorted key list is unique |
| Strings.TrimSpace | build/build.go:88 | strings.TrimSpace leaves no blank at either end and never lengthens the text |
| Strings.IndexOf | build/build.go:106 | the first occurrence of the separator, or -1 when there is none |
| Strings.JoinSplit | build/build.go:106 | joining the parts of strings.Split with the separator gives the text back |
| Strings.SplitPartsFree | build/build.go:106 | no part of strings.Split contains the separator |
| Strings.SplitJoin | uast/transformer/semantic.go:241-279 | splitting a join on a one-character separator absent from the parts gives the parts back |
| Sorting.SortStablePermutes | protocol/types.go:303 | sort.Stable rearranges the children without adding or losing any |
| Sorting.SortStableOrdered | protocol/types.go:303 | with an asymmetric Less, after sort.Stable no element is less than one before it |
| Sorting.SortStableKeepsOrdered | protocol/types.go:303 | sort.Stable leaves a list already in order unchanged |
| Sorting.OrderedPartitions | protocol/types.go:345-347 | in an ordered list, when every element outside a class is less than every element in it, the class comes last |
| Utf8.DecodeRune | uast/transformer/positioner/positions.go:181 | utf8.DecodeRune reads one well-formed rune of at most the input's length; ASCII is one byte, a line feed is itself, continuation bytes follow the first |
| Utf8.RunesCover | uast/transformer/positioner/positions.go:180-212 | the runes decoded one after another cover the input exactly |
| Utf8.LengthsOrdered | uast/transformer/positioner/positions.go:199-204 | a text has no more runes than UTF-16 code units, and no more code units than bytes |
| Utf8.DecodeExamples | uast/transformer/positioner/positions.go:181-204 | "é" is two bytes, one UTF-16 unit; U+1D4D0 is four bytes, a surrogate pair; the overlong C0 80 decodes as U+FFFD of one byte |
| Utf8.EncodeChar | uast/transformer/positioner/tokens.go:91-92 | the UTF-8 bytes of a code point: one to four, one exactly for ASCII, which is its own byte, and a lead byte of at least 0xC0 otherwise |
| Utf8.EncodeAppend | uast/transformer/positioner/tokens.go:91-92 | a concatenation encodes to the concatenation of the encodings |
| Utf8.EncodeLength | uast/transformer/positioner/tokens.go:88 | a string takes at least one byte per character, and exactly one each exactly when it is ASCII |
| Utf8.EncodeAscii | uast/transformer/positioner/tokens.go:91-92 | ASCII text encodes byte for character |
| Utf8.EncodeFirst | uast/transformer/ast.go:220-222 | the first byte of an encoding is ASCII exactly when the first character is, and is then that character, with the rest encoding the rest |
| Utf8.DecodeEncoded | uast/transformer/positioner/positions.go:181 | utf8.DecodeRune of a character's bytes gives back the character and its length |
| Utf8.RunesOfEncode | uast/transformer/positioner/positions.go:177-212 | decoding a string's bytes rune by rune gives back its code points, each with its encoded length |

## Left out

Widths and number formats
- NPath.Visit: the NPath sums and products are unbounded integers. Go's `int` would wrap around past 2^63.
- Positions.NewIndex: offsets, line and column numbers are unbounded. Go's `int` is 64 bits.
- The offsets, lines and columns of `Legacy` positions are unbounded. Go stores them as `uint32`. `ProtocolTypes.Uint32` models the truncation where the protocol converts positions.
- UastNode.ToNode: the float-to-int64 conversion follows amd64. An out-of-range value or NaN becomes -2^63. The Go specification leaves that case implementation-defined.
- Floats are opaque 64-bit patterns. Integral and finite are decided on the bits.
- ObjectToNoder.ToNode takes the formatting of a float (fmt.Sprint) as a parameter `formatFloat`. So do the other converters that print floats.

Strings
- Go strings are bytes. The model's strings are sequences of code points, and `Strings.Less` compares code points. For valid UTF-8 the two orders agree.
- Semantic.CommentElems.Split: the `[]rune` conversions turn invalid UTF-8 into U+FFFD (uast/transformer/semantic.go:196, 203, 234). The model cannot express invalid UTF-8 in a `string`, so this is not modelled.
- Positions works on bytes and decodes them with `Utf8.DecodeRune`, which does return U+FFFD for ill-formed input.
- Tokens.TokenFromPos: the filter holds the source as code points and reads the offsets as code-point indices. Go's source is bytes, and its offsets are byte offsets (uast/transformer/positioner/tokens.go:86-92). `Tokens.TokenFromPosBytes` is Go's version on the bytes. The two agree on ASCII sources (`Tokens.TokenFromPosAscii`). On other sources the token lies elsewhere: for "é=x" with offsets 3 to 4, Go gives "x" and the model an out-of-bounds error (`Tokens.TokenFromPosNonAsciiDiffers`). A Go token can also cut a character in two, which a `string` cannot hold.
- Tokens.TokenFromPosInRange: "inside the source" is counted in code points, where Go compares the end offset with the byte length. The two coincide on ASCII sources.
- Tokens.Verify: compares the stored tokens with code-point slices of the source, as `Tokens.TokenFromPos` cuts them. On a non-ASCII source it can reject positions that Go accepts, and the other way round.
- TransformerAst.Uncomment: measures the text in code points, where Go slices bytes (uast/transformer/ast.go:223). The two agree on every text except an unterminated block comment (`TransformerAst.UncommentBytesAgree`). On an unterminated block comment with non-ASCII text they differ: "/*é" is four bytes, which Go cuts to "" where the model panics, and "/*éé" gives "é" in Go and "" in the model (`TransformerAst.UncommentUnterminatedDiffers`). Go's slice can then also cut a character in two.
- TransformerAst.UncommentAsWritten: the same as `TransformerAst.Uncomment`.

Map order
Go visits maps in a random order. The model uses increasing key order. This changes the results below.
- TransformerMapping.ApplyMap: with several failing subtrees, the model reports the first failure in sorted key order. Go may report any of them.
- Ops.CheckObject: the key named in `ErrUnusedField` is the least unused key. Go names whichever key its map loop meets first (uast/transformer/ops.go:315-318).
- Ops.StringVars: MustGetVars reports the least failing name. In Go, which name is reported depends on map order. The sources of `SetVars` and `MustGetVars` are not part of this model. `TransformerState.SetVarsIn` models them as they are used.
- ProtocolTypes.ObjectAsNode: the fields are converted in sorted key order. With Go's random order, children that `byOffset` does not separate (equal offsets, or fields it cannot tell apart) can come out of the stable sort in another order.

References
- Tokens.Do: rewrites the tree as a value and returns the new tree. Go changes the objects in place, so aliases of them see the change. The tokens it stores are the code-point slices of `Tokens.TokenFromPos`, which differ from Go's byte slices on non-ASCII sources (see "Strings" above).
- TransformerState.State.Clone: the object stack is shared, as in Go, because `objs` holds the same `ProcObject` references. The variables are values, though. A variable bound by StartObject holds the fields as they were at the last UseKey on *this* state. In Go it is the same map, so a clone and a state given to ApplyFrom see later keys too.
- Ops.Pre: returns a new operation. In Go, Pre and Post also add their fields to the `set` of the Object they are given (uast/transformer/ops.go:179-180, 194-195), so that Object stops reporting those fields as unused.
- Ops.Post: the same as Ops.Pre.
- Ann.Rules: returns a new rule in which each child has the parent's matcher joined in front of its own. Go writes `or.on = Join(r.on, or.on)` through each child's pointer (uast/ann/ann.go:109-111). So in Go a child rule attached to two parents, or kept by the caller and attached again, carries every join made to it, in every parent that holds it. The model's children are values, so each parent gets its own joined copy and this sharing is not captured.
- Ann.ApplyRule: actions are recorded in a log of effects (node address, roles added) instead of changing the nodes. A matcher that tests roles sees the roles a node had before Apply. In Go it also sees roles that earlier actions of the same walk added to the node or its ancestors.
- Ann.Apply: the actions are `AddRoles` and a failing action. An arbitrary Go function as an action is not modelled.
- Rules.Run: Go's `Rule` and `Selector` are arbitrary functions over node pointers (uast/rules.go:6, 10). The model has closed datatypes instead. A rule is `Role`, `Rules` or a failing stand-in. A selector is `OnPath`, `OnNoRole`, `OnInternalType` or `OnInternalRole`. `Rules.RunKeepsPath` and `Rules.RunAllKeepsPath` hold for these rules only. An arbitrary Go rule may rewrite any node on the path.
- Ann.ApplyAsWritten: assumes Go's growth of a full slice of pointers for small capacities, 1, 2, 4, 8 (`Ann.Doubling`). It also assumes `NewNodePath` gives a path of length and capacity one. `NewNodePath` is not part of this model.
- Nil and empty lists are not told apart: Ops.CheckAppend passes `Arr([])` where Go passes a typed nil list for an empty head. `OpsProps.NilHeadSafe` therefore excludes an Each (alone or under Opt or NotEmpty) as the head of an Append from the round trip. For such an Each, Go's Construct returns nil and Append's Construct fails (uast/transformer/ops.go:587-589, 612-614, 754-757, 782-784).

Iterators, sorting, control
- LibuastCtx.Iterator: the query iterator behind a libuast iterator is the sequence of nodes it will yield. The iterators of `NodeIter` are modelled with their stacks and queues.
- Sorting.SortStable: `sort.Stable` is modelled by a stable insertion sort. Its result equals Go's whenever `byOffset` is a strict weak order, and always for up to 20 children, which Go also sorts by insertion. `byOffset` (protocol/types.go:337-355) is not a strict weak order when a child has no `internalRole`, which happens only for a field with the empty key (protocol/types.go:282-284).
- LibuastC.SortPairsView: `sort.Sort` over `offsSort` (uast/libuast/nodes_c.go:197) is modelled by one result, a stable sort that breaks ties between equal keys by original index. `SortedView` holds for the result of any sort, stable or not. The keys come from the client's `keyAt` with NULL read as "" (uast/libuast/nodes_c.go:175-180), so they need not be distinct. `sort.Sort` is not stable, so Go may pair duplicate keys with their indices in another order. `cObject.ValueAt` then returns the value of the first matching key in sorted order, which can be a different one of the duplicates. `LibuastC.SwapTiesView` proves that both tie orders are sorted views. `LibuastC.CObject.ValueAt` therefore promises only the value at some raw position holding the key.
- NPath.VisitWhile: the `fmt.Println` in visitWhile is dropped.
- Panics become error values: `LibuastGo.Panic`, `Positions.IndexPanic`, `Ops` errors where Pre, Post and Object panic on duplicate fields, `TransformerAst.ASTObjectLeft`, `UastNode.CloneAsWritten` (None), `TransformerAst.UncommentAsWritten` (None), and `NPath.MissingChildPanics`.
- There is no concurrency. The mutexes and atomics of uast/libuast/uast.go and nodes_go.go are modelled as single-threaded code.

Not modelled
- The Positioner wrappers `FromLineCol`, `FromOffset`, `FromUnicodeOffset`, `FromUTF16Offset`, `OnCode` and their conversion functions (uast/transformer/positioner/positions.go:25-110). They walk a tree and call the index functions that are modelled.
- `TokenFromSource.OnCode` (uast/transformer/positioner/tokens.go:24-28): it only builds the filter. Reading positions out of a node is a parameter `pos` of `Tokens.Do` and `Tokens.Verify`.
- `Context.toNode`, `Iterate`, `Filter` and `loadNode` (uast/libuast/uast.go:202-257) need the query and XPath engine, which is not part of this model.
- The `uastAs*` accessors and C string allocation of uast/libuast/nodes_c.go are a table of functions `LibuastC.Client` over client handles.
- `ValueConv` and `StringConv` of uast/transformer/ops.go take Go function values, which the operation language cannot hold.
- The shorthands `String`, `Int`, `TypedObj`, `One`, `AnyVal` and `LookupVar` of uast/transformer/ops.go only combine operations that are modelled.
- `LookupOpVar` (uast/transformer/ops.go:512-560) chooses the operation to apply by the value of a variable. It is not among the operations this model covers, and `Ops.Op` has no case for it.
- OpsProps.CheckThenConstruct: the round trip covers the reversible fragment only. Any, And and If are excluded, and If is treated by `OpsProps.IfCheckThenConstruct`. A comment must be untrimmed, with four different variables. It is stated only for nodes that satisfy `OpsProps.Fits`. Such a node holds no float, because float equality is IEEE equality and not identity. It also holds no string on which a comment's two tokens overlap, because Go's Split accepts such a string and Join does not give it back.

## Findings

Nothing was executed. Each row is shown by a lemma about the code as written, with a concrete input. The members the rest of the model relies on are listed as corrected. Some top-level operations run the code as written, with the corrected version beside them:
- `Folder.Describe` and `Folder.Describer.Fold`;
- `NPath.Bodies`, `NPath.ExprComp` and `NPath.Complexity`;
- `Semantic.CommentElems.Split` and `Ops.CheckComment`;
- `Positions.ToUnicodeLineColAsWritten`.

`Ann.Apply` follows each child's own path. `Ann.ApplyAsWritten` is its as-written partner.

| source | as written | input that shows it | evidently intended | confidence | as-written member | corrected member |
|---|---|---|---|---|---|---|
| uast/transformer/positioner/positions.go:424-461 | toUnicodeLineCol takes the rune span holding the line start and scans it from the start of the span, subtracting the line start's bytes only from the offset | bytes of "ab\ncé", offset 6 (end of input): column 4 | column 3, one more than the runes between the line start and the offset | not executed | Positions.UnicodeLineColAsWrittenMiscounts | Positions.UnicodeLineColCounts |
| uast/transformer/semantic.go:227-254 | Split checks the start-token prefix and the end-token suffix on the same text, so they may overlap | "/*/" with tokens "/*" and "*/": Split succeeds with prefix "/", and Join gives "/*/*/" | Split rejects a text shorter than its two tokens, so that Join gives the comment back | not executed | Semantic.SplitOverlapAsWritten | Semantic.SplitThenJoin |
| uast/npath.go:20, 199-200, 205-216 | deepChildrenOfRole and deepCountChildrenOfRol recurse into a child once per role it has, inside the loop over its roles | root, then x with roles [A, B], then s with role FunctionDeclarationBody: s is measured twice, [1, 1]; with x having no roles, s is never found | every descendant with the role once, whatever the roles of the nodes above it | not executed | NPath.TwiceBodyMeasuredTwice | NPath.BodiesIntended |
| uast/ann/folder.go:57, 75-86 | abbreviate, documented as idempotent, strips one leading "/self::*[*]" step per call | "/self::*[*]/self::*[*]/x": a second call changes the result again | an idempotent abbreviation, repeated until nothing changes | not executed | Folder.AbbreviateNotIdempotent | Folder.AbbreviateFixedIdempotent |
| uast/libuast/nodes_go.go:227-240, 424-441 | UastLoad into the Go store uses the setters, which resolve a handle with AsNode; a handle of a temporary object or array is no node, so nested objects are stored as nil and the result's handle resolves to nothing | copying {"a": {}} | setters that resolve temporary handles too, so that the copy stands for the same tree | not executed | LibuastLoad.LoadIntoGoLosesObjects | LibuastLoad.LoadFixed |
| uast/node.go:242-249 | Array.Clone calls Clone on every element, including nil, and panics | the array [nil], which ToNode produces from a JSON null in a list | a deep copy that keeps nil, as Object.Clone does | not executed | UastNode.CloneAsWrittenPanics | UastNode.Clone |
| uast/transformer/positioner/positions.go:395-397 | toUnicodeOffset divides the bytes into the span by runeSize16 for UTF-16 | bytes of "éé", offset 2: 2 | 1, the UTF-16 units before the second rune: the bytes divided by runeSize8, times runeSize16 | not executed | Positions.ToUTF16OffsetAsWrittenOvercounts | Positions.ToUTF16OffsetInverse |
| uast/transformer/positioner/positions.go:424-434 | toUnicodeLineCol takes spans[i-1] with i == 0 when there are no spans | an empty input, offset 0: index out of range | line 1, column 1 | not executed | Positions.UnicodeLineColAsWrittenEmpty | Positions.UnicodeLineColCounts |
| uast/transformer/positioner/positions.go:294-304 | Offset checks the column only when maxCol > 0, and maxCol is 0 on an empty last line | an empty input, line 1, column 2: offset 1, past the end | the column bound checked on every line | not executed | Positions.OffsetPastEnd | Positions.OffsetBoundedInRange |
| uast/transformer/ast.go:218-226 | uncomment cuts the markers by position, s[2:len(s)-2], once the text starts with "/*" | "/*" and "/*/": slice out of range | an error for a block comment shorter than its two markers | not executed | TransformerAst.UncommentShortBlockPanics | TransformerAst.UncommentComment |
| uast/libuast/nodes_go.go:444-455 | goTmpNode.Build registers the built node under a new handle | building a temporary object: the old handle no longer leads to the node | the TmpNode interface calls it building in place, so the handle is kept | not executed | LibuastGo.BuildMovesHandle | LibuastGo.BuildInPlaceKeepsHandle |
| uast/ann/ann.go:97-102 | Rule.Apply pushes append(path, child) for every child; while the path's array has room, all children's paths share its next slot, and the last child's write wins | root, then a, then b with children c1 and c2, and a rule that matches everywhere: c2 gets the roles twice and c1 never | each child visited once with its own path | not executed | Ann.SharedSlotAsWritten | Ann.SharedSlotFixed |
