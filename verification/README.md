# babel-plugin-jsx-template-vars, modelled in Dafny

The plugin rewrites a React component so that what it renders becomes a
server-side template: a Handlebars template or a PHP template. The author names the component's
*template variables* in a declaration, `Component.templateVars = [ ... ]`.
Each variable is one of three kinds:

- a *replace* variable is printed in place;
- a *control* variable guards a piece of markup;
- a *list* variable is iterated over.

The transform renames these variables to fresh identifiers and declares them
at the top of the component. It also brackets the JSX that uses them with calls
that print the template language's open and close tags. Those calls
look up token strings in a per-language table and fill in their
placeholders.

This project models the deterministic logic under the Babel plumbing, in
three layers.

**Configuration front end.**
- `ConfigDecode` models utils.js. It decodes array and object literals into plain values, and extracts names from guards.
- `TemplateVars` models visitor.js. It recognises the declaration, normalises each entry to `[ name, config ]` and sorts the entries into the `replace`, `control` and `list` buckets. It also finds the component and reads the plugin options.
- `LegacyPlugin` models the older single-file version in index.js. It recognises `templateProps`, builds a `{{name}}` initialiser for each replace variable, and rewrites the component.

**Rewrite rules.** These come from controller.js and its split-out copies under controllers/.
- `Registry` mints the uid tables.
- `ReplaceRules`, `ListRules` and `ControlRules` decide renaming, the list alias map `toTag`, guard classification, marker splicing and the ternary `+` fold.
- `Markers` reads the emitted marker calls back as open/close markers, which gives a notion of balance.
- `ComponentInit` models `init`:
  - the `__context__` parameter and the context variable;
  - the prologue of the first block;
  - context threading into child components;
  - dispatch of identifiers and expression containers.
- `JsEval` is a small evaluator for the JavaScript fragment the transform emits. It lets the value of the generated context expressions be stated.

**Template-string back ends.**
- `Templates` holds the placeholder scanners for `||%n||`, `||%var||` and `||%subVar||`. It also holds a reference rendering of a template written as pieces.
- `Tables` holds the token tables and the permissive path lookup.
- `Backends` holds the registries and lookups of language.js, languages.js, language-functions.js and includes/language.js.
- `TaggedBackend` holds the `[%tag]` expansion of language/index.js, which shares one argument queue across nested expansions.
- `BackendExamples` and `TaggedExamples` work concrete lookups through to the exact strings a PHP or Handlebars author would expect.

**Modelling choices.**
- The Babel tree is a small `Node` datatype. Node types the rules never read are `Other`, which keeps its child nodes, so a traversal still enters `export` declarations, function declarations and `if` blocks.
- A tree walk is abstracted: each rule receives the visited node and its chain of ancestors.
- `scope.generateUidIdentifier` is a counter minting `_uid`, `_uid2`, `_uid3`, ...
- A thrown JavaScript error is an `Err` outcome. Examples are reading a property of `undefined`, and `forEach` on something that is not an array.
- Where the repository holds several copies of one behaviour, each behaviour is modelled once. Where the copies disagree, the difference is stated as a lemma:
  - the replace exclusions (`LegacyPlugin.LegacyRenamesMore`);
  - the replace initialiser (`ReplaceRules.InitialisersAgree`);
  - the first-block guard (`LegacyPlugin.SecondBlockDiffers`).

**Where the project's description and the code disagree, the model follows the code.**
- The description says a one-element `['title']` entry is a replace variable. In visitor.js:109-112 such an entry has no configuration object, and reading its `type` throws (`TemplateVars.OneElementEntryThrows`).

## Model

| member | source | states |
|---|---|---|
| Js.DigitsValueOfNatToString | language-functions.js:48-50 | reading the decimal digits `String(n)` prints with `parseInt` gives back `n`, so a placeholder index survives printing and parsing |
| Js.NatToStringInjective | language-functions.js:55-62 | distinct counters print as distinct decimal strings, so the `data_<n>` names of different depths never coincide |
| Js.UnshiftAll | controller.js:41-46 | unshifting the items one by one leaves them in front of the body in reverse order, the last item first |
| ConfigDecode.Field | controllers/list.js:109-110 | a configuration key is defined exactly when the value is an object that has that key |
| ConfigDecode.TruthyLiteral | utils.js:4-5 | a literal value is stored only when it is truthy |
| ConfigDecode.DecodeArray | utils.js:14-36 | a missing expression, or one without elements, decodes to the empty array; otherwise the result has one value per string, array or object element, in order, and each value has its element's shape |
| ConfigDecode.DecodeElement | utils.js:17-32 | an element contributes a value exactly when it is a string literal, an array or an object; a string contributes its own text |
| ConfigDecode.DecodeElements | utils.js:17-33 | the decoded values correspond one to one, in order, with the contributing elements |
| ConfigDecode.DecodePropertyValue | utils.js:4-10 | a plain property stores a value exactly when it holds a truthy literal, an array or an object |
| ConfigDecode.DecodeProperties | utils.js:1-13 | the decoded object's keys are the accumulated keys plus the names of the storing properties; a member that is not a plain property makes the read throw |
| ConfigDecode.DuplicateKeyOverwrites | utils.js:3-5 | of two properties with the same name, the later one's value is the one kept |
| ConfigDecode.FalsyLiteralsDropped | utils.js:4 | `''`, `0` and `false` values are not stored at all |
| ConfigDecode.GetNameFromNode | utils.js:39-46 | an identifier yields its name, a member expression `object.property`, and any other node no name (`false`) |
| ConfigDecode.NameNodeRoundTrip | utils.js:39-46 | the name read off `obj` or `obj.prop`, split at its first `.`, gives back the object and the property it was written from |
| ConfigDecode.NameNodeInjective | utils.js:39-46 | two names written as identifiers or one-level member paths are read as the same string exactly when they were written alike |
| ConfigDecode.GetExpressionSubject | utils.js:55-72 | the subject of a guard is the name on its left: an identifier, a member path, a negated name, or the left of a comparison, looking through a negation directly under the first binary operand; any other left side gives `null` |
| TemplateVars.NormaliseConfigProp | visitor.js:57-62 | a bare entry becomes the pair of itself and an empty configuration; an array entry is kept as it is, so a one-element array has no configuration |
| TemplateVars.KindOf | visitor.js:109-118 | an entry with no configuration throws; otherwise it is replace when the type is missing, falsy or `replace`, control when it is `control`, list when it is `list`, and ignored otherwise |
| TemplateVars.PushAllFilters | visitor.js:107-120 | the `forEach` succeeds exactly when every entry has a configuration, and then appends to each bucket exactly the entries of its kind, in declaration order |
| TemplateVars.Classify | visitor.js:100-121 | the buckets are the entries of each kind in declaration order, and classification fails exactly when some entry has no configuration |
| TemplateVars.BucketsPartition | visitor.js:112-118 | the three buckets together hold no more entries than were declared; entries of an unknown type are dropped |
| TemplateVars.OneElementEntryThrows | visitor.js:108-112 | an entry written as a one-element array reads `type` of `undefined` and throws |
| TemplateVars.GetTemplateVarsFromExpression | visitor.js:73-124 | a node is recognised exactly when it has a left and a right side, whatever its operator (`=`, `+=`, even `==`), and its left side is `X.templateVars` with identifier object and property; a right side that is not an array literal gives empty buckets; an array right side succeeds exactly when it decodes and classifies |
| TemplateVars.DecodeEntry | utils.js:14-33 | a written entry, a bare name or a `[ name, { type } ]` pair, decodes to the value it stands for, with an empty type dropped as falsy |
| TemplateVars.DecodeEntries | utils.js:14-36 | a written list of entries decodes to their values, in order |
| TemplateVars.EntriesClassify | visitor.js:100-121 | written entries all have a configuration, and each bucket's filter picks exactly the entries written for it, in order |
| TemplateVars.PrintedTemplateVars | visitor.js:73-124 | reading back a written `Component.templateVars = [ ... ]` gives each bucket exactly the entries its author typed for it, in the order written, and drops entries of any other type |
| TemplateVars.LastNamed | visitor.js:180-188 | the traversal keeps the last declaration carrying the name, and finds one exactly when some declaration carries it |
| TemplateVars.GetComponentPath | visitor.js:178-190 | a component is found exactly when some declaration reachable without entering another declaration carries the name, and what is found is such a declaration |
| TemplateVars.WrappedDeclarationFound | visitor.js:178-190 | a component declared inside a node the rules do not otherwise read, such as an `export`, is still found |
| TemplateVars.VisitExpressionStatement | visitor.js:141-173 | a statement that is not a `templateVars` assignment is left alone; one that is gets removed, and `init` runs with its buckets on the named component exactly when `tidyOnly` is off and the component is found |
| TemplateVars.ReadSettings | visitor.js:135-136 | `tidyOnly` defaults to off and `language` to `handlebars`; given values are taken as they are |
| TemplateVars.ReadSettingsRoundTrip | visitor.js:135-136 | explicit options are read back as given, writing out the settings read from any options changes nothing, and no options at all give `tidyOnly` off and `handlebars` |
| Registry.UidNameInjective | controller.js:20 | the counter never mints the same uid name twice |
| Registry.UidTableDomain | controller.js:16-26 | the uid map's keys are exactly the key strings of the entries' names |
| Registry.UidTableLastWins | controller.js:19-22 | a name whose entry no later entry repeats is mapped to the uid minted at that entry's position: later duplicates overwrite earlier ones |
| Registry.UidTableOrigin | controller.js:19-22 | every mapped name comes from some entry and carries the uid minted at that entry's position |
| Registry.GenerateVarTypeUids | controller.js:16-26 | the loop returns the uid map, the names in entry order with duplicates kept, and advances the counter by one per entry |
| Registry.UidTableInjective | controller.js:396-401 | distinct names get distinct uids, so the map is invertible |
| Registry.MapInvInverts | controller.js:400 | on an injective map, `mapInv` sends each uid back to the name that owns it and every inverted entry round-trips |
| Registry.ReplaceMapInv | controller.js:396-402 | every replace entry's name is found again by looking up its uid in the inverse map |
| Registry.RegisteredHasUid | controller.js:19-25 | every registered name has a uid |
| Registry.RenamedIsFresh | controller.js:51-56 | when no entry is itself named like a minted uid, a renamed identifier no longer reads as a registered name |
| ReplaceRules.UpdateIdentifierNames | controllers/replace.js:22-45 | an identifier is renamed exactly when it is registered and its parent is not an object property, member access, declarator or array pattern, and then to its name's uid; an object property's identifier value is renamed exactly when both names are registered |
| ReplaceRules.RenameIdempotent | controllers/replace.js:25-41 | renaming twice changes nothing the second time: a uid is never a registered name |
| ReplaceRules.RenameUsesLastUid | controllers/replace.js:29-30 | a renamed identifier gets the uid minted for the last entry of its name |
| ReplaceRules.InitialisersAgree | controllers/replace.js:18 | the split-out controller wraps the embedded controller's `format` call between the language `open` and `close` strings, all three reading the same context |
| ReplaceRules.InitVars | controller.js:37-47 | the block starts with one declaration per replace entry, in reverse entry order, and then holds the original statements unchanged |
| ReplaceRules.InitVarsDeclaresUids | controllers/replace.js:11-21 | every registered name's uid is declared among the leading statements of the block |
| ListRules.TagOf | controllers/list.js:120 | a name tags a list exactly when `toTag` holds a non-empty origin for it, and then yields that origin |
| ListRules.NormaliseListVar | controllers/list.js:65-78 | a missing or falsy config, or one without a truthy `child`, reads as a primitive child; a truthy child is kept; a truthy string, number or boolean config cannot take the default and throws |
| ListRules.PropNames | controllers/list.js:45-47 | the prop names are read exactly when every prop is a string, one name per prop in order |
| ListRules.ObjectTemplate | controllers/list.js:44-50 | the template object has one property per prop, in order, keyed by the prop and valued by an `objectProperty` call naming it, which is no list marker |
| ListRules.BuildDeclaration | controllers/list.js:36-64 | an object child declares the uid as a one-element array holding the template object; a primitive child as one holding the `primitive` call; any other child type builds nothing; a config whose child cannot be read throws |
| ListRules.BuiltDeclarations | controllers/list.js:19-25 | at most one declaration per entry, each a variable declaration |
| ListRules.ApplyWritesLastWins | controllers/list.js:27-31 | after the `toTag` writes a key is present exactly when it was or was written; an unwritten key keeps its value and a written one holds the origin of its last write |
| ListRules.InitVars | controllers/list.js:14-34 | succeeds exactly when every declaration builds and every alias list is an array; the built declarations then precede the block in reverse order, and `toTag` is the result of the name and alias writes in order |
| ListRules.InitVarsTagsOwnName | controllers/list.js:27 | after `initVars` every list variable's own name is a key of `toTag` |
| ListRules.WritesContainEntry | controllers/list.js:27 | each entry contributes a write keyed by its own name |
| ListRules.UpdateIdentifierNames | controllers/list.js:79-114 | a registered name under an allowed parent is renamed to its uid; as the base of `.map` it is renamed only when its uid is truthy, and then a `const x = name.map(...)` binding tags `x` with the name; an excluded parent or unregistered name changes nothing |
| ListRules.ListBracketOrigin | controllers/list.js:115-147 | an identifier container brackets with its own `toTag` origin, a `.map` call with the origin of its object, anything else not at all |
| ListRules.UpdateJSXListExpressions | controllers/list.js:115-147 | an untagged container leaves the children unchanged; a tagged one is wrapped between a list open and a list close keyed to its origin, nothing else moving |
| ListRules.ListBracketsBalanced | controllers/list.js:123-124 | bracketing keeps the children balanced exactly when they were, and adds no plain node |
| ListRules.MapBindingBracketsOrigin | controllers/list.js:97-101 | once a `.map` binding has tagged its variable, a container holding that variable brackets with the original list |
| ListRules.SeededNameBracketsItself | controllers/list.js:27 | a list name seeded by `initVars` brackets its own container with itself |
| Markers.ListCallRoundTrip | controllers/list.js:151-157 | a list `open` or `close` call reads back as the open or close marker keyed by the list's name |
| Markers.ControlCallRoundTrip | controllers/control.js:187-203 | a control `open` or `close` call reads back as the matching marker keyed by the intent and the argument objects |
| Markers.ListKeysDistinct | controllers/list.js:151-157 | list markers of different names never close each other |
| Markers.ScanAppend | controllers/control.js:142-155 | scanning a concatenation is scanning the first part and then the second from where it stopped |
| Markers.SpliceBalanced | controllers/control.js:160 | replacing a plain node by a self-contained run of nodes keeps the children balanced exactly when they were |
| Markers.NestedSelfContained | controllers/control.js:142-155 | a control pair around a list pair around a plain node closes everything it opens, on any stack |
| Markers.PlainAppend | controllers/list.js:123-124 | the plain nodes of a concatenation are the plain nodes of each part |
| Markers.SpliceBracketedPlain | controllers/list.js:123-124 | wrapping a plain node in markers leaves the plain nodes as they were |
| ControlRules.IntentNameInjective | controllers/control.js:109-121 | the four intents have distinct names, so their markers never match each other |
| ControlRules.IdentifierCount | controllers/control.js:92-101 | counts some argument exactly when some argument has type `identifier` |
| ControlRules.MatchedCount | controllers/control.js:92-101 | counts no more than the identifiers, and counts some exactly when an identifier argument names a registered control variable |
| ControlRules.GetExpressionStatement | controllers/control.js:84-128 | no intent unless an identifier argument is registered; then an identifier is `ifTruthy`, `!x` is `ifFalsy`, `===` and `!==` comparisons are `ifEqual` and `ifNotEqual`, and anything else has no intent; an intent implies arguments |
| ControlRules.GuardIntentMatches | controllers/control.js:84-128 | with a registered identifier argument, a written guard `x`, `! x`, `x === v` or `x !== v` gets the intent its author meant |
| ControlRules.ControlExpressionIsLogical | controllers/control.js:211-225 | of the listed node types only a logical expression has both sides, so exactly the logical expressions are control expressions |
| ControlRules.GuardStatement | controllers/control.js:130-138 | the rewrite fires exactly when the container holds a logical expression whose left side resolves to an intent, with that statement's arguments |
| ControlRules.ControlGroup | controllers/control.js:138-161 | a firing guard becomes three nodes, or five when its right side is a tagged list identifier, with the right side in the middle |
| ControlRules.ControlGroupMarkers | controllers/control.js:140-156 | the outer nodes are the intent's open and close markers over the guard's arguments, and the inner pair, when present, is keyed to the list the right side is tagged with |
| ControlRules.PrintedGuardResolves | controllers/control.js:84-156 | a written `guard && right` over a registered control name has that name as its subject, fires with the guard's intent, and is bracketed by that intent's open and close markers over the guard's arguments |
| ControlRules.UpdateJSXExpressions | controllers/control.js:130-162 | a non-firing container leaves the children unchanged; a firing one is replaced in place by its group, the other children untouched |
| ControlRules.ControlGroupBalanced | controllers/control.js:130-162 | after the rewrite the children are balanced exactly when they were, and the only plain node the group leaves is the guard's right side |
| ControlRules.AtMostOneRuleFires | controller.js:543-551 | the control rewrite and the list bracketing never both fire on the same container |
| ControlRules.CombinedBinary | controllers/control.js:178-184 | one part is returned as it is; more parts give a binary node of the operator whose right operand is the last part |
| ControlRules.CombinedBinaryLeaves | controllers/control.js:178-184 | `n` parts fold into a left spine of `n - 1` binary nodes whose leaves are the parts, in order |
| ControlRules.TernaryParts | controllers/control.js:71-78 | six parts, the consequent second and the alternate fifth |
| ControlRules.UpdateTernaryExpressions | controllers/control.js:51-82 | a ternary is rewritten exactly when its test resolves to an intent, into a `+` spine whose leaves are the six parts |
| ControlRules.TernaryPartsBalanced | controllers/control.js:62-78 | the rewritten ternary's markers are balanced and leave just the consequent and the alternate |
| ControlRules.UpdateTernaryConditions | controllers/control.js:16-50 | an unregistered name, or one under an object property or array pattern, rewrites nothing; otherwise the parent ternary, else the grandparent ternary, is the one rewritten |
| ComponentInit.MintTables | controller.js:396-420 | the replace, control and list tables are minted from consecutive counter ranges in that order, and the context identifier takes the next uid after them |
| ComponentInit.UidBeforeEnd | controller.js:447 | a uid minted for a table is never one minted at or after the table's end |
| ComponentInit.ContextUidDistinct | controller.js:396-447 | the context identifier is none of the uids the replace, control and list tables hand out |
| ComponentInit.ComponentParams | controller.js:428-432 | the component's parameters are read from an arrow or `function` initialiser, and are then exactly its parameter list; any other or missing initialiser throws |
| ComponentInit.FunctionInitialiserParams | controller.js:428-445 | `const Card = function ( props ) { ... }` and its arrow form alike have their parameters read, and the props identifier is kept as the props name |
| ComponentInit.InjectContextParam | controller.js:428-445 | no parameters gain a `{ __context__ }` pattern; an object-pattern first parameter gains `__context__` after its own properties; an identifier first parameter is left alone and becomes the props name; the other parameters never change |
| ComponentInit.ContextDeclaration | controller.js:521-525 | the context declaration binds the context identifier |
| ComponentInit.ContextInitValue | controller.js:521-525 | the context starts as the incoming `__context__` when that is a number and 0 otherwise; reading it off an unbound or `undefined` props name throws |
| ComponentInit.ContextThreading | controller.js:461-469 | a child component receives its parent's context plus one inside a `.map` and the same context elsewhere, and its own context declaration reads that number back |
| ComponentInit.InitBlock | controller.js:505-530 | succeeds exactly when the list declarations build; the block then reads the context declaration, the list declarations reversed, the replace declarations reversed, then the original statements, and `toTag` has the list writes applied |
| ComponentInit.PrologueLayout | controller.js:514-529 | three rounds of unshifting lay the block out round by round, the last round first |
| ComponentInit.VisitBlocks | controller.js:505-511 | only the first block visited receives the prologue; every later block is left as it is |
| ComponentInit.FirstValueAttribute | controller.js:492 | a `value` attribute is found exactly when one exists, and it is the first one |
| ComponentInit.VisitJSXElement | controller.js:457-504 | a component gains one `__context__` attribute and a text input with a `value` attribute gains a `jsxtv_value` copy of its value, both appended; the tag, the children and the existing attributes are untouched |
| ComponentInit.FirstValueIgnoresAppended | controller.js:469-492 | appending the context attribute does not change which `value` attribute the text-input check finds |
| ComponentInit.ParentPathHasMap | controller.js:577-589 | the walk up the ancestors finds a map exactly when some ancestor is a `.map( ... )` call |
| ComponentInit.VisitContainer | controller.js:543-551 | when the control rewrite fires the list bracketing has nothing to do; otherwise the list bracketing alone decides the result |
| ComponentInit.VisitContainerBalanced | controller.js:543-551 | visiting a container keeps the children balanced exactly when they were |
| ComponentInit.VisitIdentifier | controller.js:531-541 | the ternary rewrite and the replace renaming see the original name; the list renaming sees the name the replace renaming left, so a replace-renamed identifier is never list-renamed |
| Templates.ArgAt | language-functions.js:48-51 | placeholder `n` takes the n-th argument counting from 1; an index outside the arguments prints as `undefined` |
| Templates.ContextVar | language-functions.js:54-59 | the data variable is plain `data` exactly at context 0 |
| Templates.ContextVarsDistinct | language-functions.js:54-63 | at any depth the next context's variable differs from the current one and from `data` |
| Templates.DigitRun | language-functions.js:48 | the digit run is the longest prefix of decimal digits |
| Templates.MatchLength | language-functions.js:48 | a match is at least three characters long and starts a placeholder |
| Templates.MatchNeedsPercent | language-functions.js:48-63 | no placeholder matches unless the third character is `%` |
| Templates.NoPlaceholderUnchanged | language-functions.js:47-64 | a pass leaves a text with no `%` unchanged |
| Templates.SlotMatch | language-functions.js:48-50 | the positional pass matches a printed positional placeholder in full and puts the n-th argument in its place |
| Templates.TokenStep | language-functions.js:47-64 | a pass replaces a placeholder it recognises and copies any other placeholder through, then carries on after it |
| Templates.RunPrint | language-functions.js:47-64 | on a printed template with `%`-free literals, a scanning pass gives the print of the template with that pass applied piece by piece |
| Templates.StepsKeepPercentFree | language-functions.js:47-64 | a pass whose replacements hold no `%` introduces none, so a later pass sees only the original placeholders |
| Templates.ThreeStepsRender | language-functions.js:47-64 | applying the positional, `var` and `subVar` steps piece by piece and printing gives the reference rendering |
| Templates.SubstituteRenders | language-functions.js:47-64 | on `%`-free literals and arguments, the three scanning passes of the context back ends produce exactly the reference rendering of the template |
| Templates.SubstitutePositionalRenders | language.js:19-24 | the positional-only substitution replaces every positional placeholder with its argument and changes no other piece |
| Tables.StepInto | language.js:35-37 | a lookup step moves into a key exactly when the key is present with a truthy value, and otherwise stays where it is |
| Tables.DescendFollowsPresent | language.js:34-38 | where every segment names a truthy entry, the permissive walk reaches exactly what the strict walk reaches |
| Tables.DescendSkipsMissing | language.js:35-37 | a segment naming no truthy entry is skipped, and the walk carries on from the same table |
| Tables.DescendIsFollowOfTaken | languages.js:95-101 | the permissive walk is the strict walk along the segments it actually took |
| Tables.VerbatimRender | languages/handlebars.js:11-12 | a template with no placeholder renders as it is written |
| Tables.PositionalRendersContextFree | languages.js:80-85 | on a template without context placeholders, the positional step alone already gives the full rendering |
| Tables.PhpTokensClean | languages/php.js:2-31 | no literal text of the PHP table, with a `%`-free quote, holds a `%` |
| Tables.HandlebarsTokensClean | languages/handlebars.js:2-31 | no literal text of the Handlebars table holds a `%` |
| Tables.ContextPhpTokensClean | language-functions.js:3-34 | no literal text of the context-aware PHP table holds a `%` |
| Tables.PhpPlaceholders | languages/php.js:4-30 | the PHP format, list open and object field use placeholder 1, the equality opens use 1 and 2, and the primitive format and every close use none |
| Tables.HandlebarsPlaceholders | languages/handlebars.js:4-30 | the Handlebars format and both list templates use placeholder 1, the equality opens use 1 and 2, and the primitive format and every close use none |
| Tables.ControlEntries | languages/php.js:13-30 | every table holds, for each of the four intents, an `open` and a `close` template, found along `control`, the intent's name and the end |
| Backends.Register | language.js:57-59 | registering files the table under its name, replaces any table of that name and leaves the other names alone |
| Backends.BuiltinLanguagesHold | includes/language.js:69-75 | after loading, the registry holds exactly the PHP and Handlebars tables, under their own names |
| Backends.Group | language.js:35 | the lookup's starting group exists exactly when the language is registered as an object holding that type |
| Backends.Lookup | language.js:34-43 | a lookup succeeds exactly when the group exists and the permissive walk ends on a string, and then yields that string; otherwise it throws |
| Backends.LookupFollows | language.js:34-43 | where every segment is present, the lookup finds exactly the string the strict walk reaches |
| Backends.PositionalString | languages.js:95-104 | the positional back ends succeed exactly when the lookup does, and fill the found string's positional placeholders from the arguments |
| Backends.ContextString | language-functions.js:74-83 | the context back ends succeed exactly when the lookup does, and apply the positional, `var` and `subVar` passes to the found string |
| Backends.ReplaceFinds | languages/php.js:4-6 | the replace lookup finds the `format` template, and throws when that prints empty |
| Backends.ListFinds | languages/handlebars.js:7-12 | the list lookup finds exactly the list templates that print to something; any other target throws |
| Backends.ControlFinds | languages/handlebars.js:13-30 | the control lookup finds each intent's `open` and `close` templates |
| Backends.DescendStays | language.js:35-37 | a walk none of whose segments names a truthy entry stays on the group itself |
| Backends.ControlMisses | language.js:34-43 | a control path naming no intent, such as `else`, stops on the control group and throws |
| Backends.ContextRenders | includes/language.js:19-55 | where the lookup finds a `%`-clean template, the context back end renders it with the arguments and the context |
| Backends.PositionalRenders | language.js:19-43 | where the lookup finds a `%`-clean template without context placeholders, the positional back end renders it in full |
| BackendExamples.ContextListOpen | language-functions.js:10 | at the top level the PHP list opening loops over `$data[ 'items' ]` and names its item `$data_1` |
| BackendExamples.PhpTruthyOpen | languages/php.js:15 | the PHP `ifTruthy` opening for `flag` reads `<?php if ( $data[ 'flag' ] ) { ?>` |
| BackendExamples.HandlebarsEqualOpen | languages/handlebars.js:23 | the Handlebars `ifEqual` opening compares its two subjects: `{{#if_equal status 'yes'}}` |
| BackendExamples.HandlebarsSection | languages.js:40-41 | a Handlebars section opens and closes on the list's name |
| BackendExamples.InlineObjectKeyDiffers | languages.js:12 | the tables of languages.js file the object-field format under `formatObject`, so a lookup by `formatObjectProperty` throws |
| BackendExamples.PhpHasNoElse | languages/php.js:13-30 | the PHP table has no `else` branch, so the ternary's `else` lookup throws |
| BackendExamples.HandlebarsHasNoElse | languages/handlebars.js:13-30 | nor has the Handlebars table |
| BackendExamples.PositionalOneSlot | language.js:19-23 | a template with one slot and `%`-free literals renders as its literals around the one subject |
| BackendExamples.PositionalTwoSlots | language.js:19-23 | a template with two slots renders its two subjects in order between its literals |
| TaggedBackend.CloseFrom | language/index.js:38 | the lazy `.+?` of the tag pattern stops at the first `]`, and finds none when a line terminator comes first |
| TaggedBackend.TagEnd | language/index.js:38 | a tag is recognised only as `[%`, at least one name character that does not break a line, and the first `]` after it |
| TaggedBackend.Strip | language/index.js:39 | the tag name has every `[`, `]` and `%` removed and is never longer than the match |
| TaggedBackend.StripBrackets | language/index.js:38-39 | a tag written around a clean name is read back as exactly that name |
| TaggedBackend.StripAppend | language/index.js:39 | removing the bracket characters works piece by piece over a concatenation |
| TaggedBackend.Tag | language/index.js:40-69 | whatever a tag expands to, the queue it leaves is what remains of the queue it was given after some shifts |
| TaggedBackend.Scan | language/index.js:36-73 | expanding a whole template likewise only ever shifts arguments off the front of the shared queue |
| TaggedBackend.PlainPasses | language/index.js:38 | text that opens no tag is copied through, and the expansion carries on after it unchanged |
| TaggedBackend.TagAtHead | language/index.js:38-70 | a tag at the head of the template is expanded first, and the rest is expanded with the queue it leaves; an error in the tag stops everything |
| TaggedBackend.ScanShow | language/index.js:36-73 | expanding a template equals expanding its literal pieces and tags one after another from left to right, threading the argument queue |
| TaggedBackend.NoTagsVerbatim | language/index.js:36-73 | a template without tags comes back as it is and consumes no argument |
| TaggedBackend.TagFuel | language/index.js:66 | once a tag expands within some recursion depth, any larger depth gives the same result |
| TaggedBackend.ScanFuel | language/index.js:36-73 | the same holds for whole templates |
| TaggedBackend.SelfReferenceOverflows | language/index.js:57-66 | a custom tag whose template is itself recurses until the stack overflows, at every depth |
| TaggedBackend.TagsOf | language/index.js:89 | the custom tags are the language's `variables` table when it has one |
| TaggedBackend.LanguageString | language/index.js:81-90 | the lookup fails when the permissive walk does not end on a string, and otherwise succeeds exactly when expanding that string does, returning its text |
| TaggedBackend.ArgStringQuoted | language/index.js:13-15 | a quoted text is a string argument; a bare identifier, or the empty string, is not |
| TaggedBackend.LanguageStringOf | language/index.js:81-83 | a path given as a bare string has no `forEach`, so the lookup throws |
| TaggedBackend.ReplaceFirstAfter | language/index.js:24 | a string pattern replaces its first occurrence only, and inserts the replacement as it is |
| TaggedBackend.VariableStringAlwaysThrows | language/index.js:23-25 | the variable helper as written passes a word where the path array belongs, so it throws for every language and argument |
| TaggedBackend.VariableStringFills | language/index.js:23-25 | with the path it evidently means, the helper puts the argument where the language's `variable` string has its placeholder |
| TaggedExamples.VariableExpands | language/index.js:57-66 | a `variable` argument that is not a plain value is expanded through the language's `variable` template, here reading the top-level data array, and is shifted off the queue |
| TaggedExamples.ValuePassesThrough | language/index.js:59-64 | an argument of kind `value` is written as it is in place of the `variable` tag |
| TaggedExamples.EqualOpenExpands | language/index.js:100-103 | an `ifEqual` opening with two `variable` tags consumes its two arguments in order, a data key and then a literal |
| TaggedExamples.NestedContextTags | language/index.js:42-45 | at depth 2 the context tag names `data_2` and the sub-context tag `data_3` |
| TaggedExamples.UnknownTagVanishes | language/index.js:57-69 | a tag the language does not define expands to nothing and consumes no argument |
| LegacyPlugin.ConfigPropNameAgrees | index.js:104-117 | the name helper agrees with the normalised entry's name for bare entries and `[ name, config ]` pairs, and for an array of any other non-zero length yields the whole array instead |
| LegacyPlugin.TagProperties | index.js:91-93 | the child props turn into properties exactly when every prop name is a string, one property `name: '{{name}}'` per name, in order |
| LegacyPlugin.CreatePropValue | index.js:80-101 | a string entry (no config, no type, or type `string`) becomes `'{{name}}'`; an `array` entry of objects becomes a one-element array holding the object of tags of its props; other types give `undefined`; a missing child, or props that are not an array of strings, throw |
| LegacyPlugin.TagTableContents | index.js:91-93 | reading the tag properties back gives a table with one `{{name}}` entry per prop name on top of what was there |
| LegacyPlugin.Strings | index.js:91 | the prop names are read in order, one per prop |
| LegacyPlugin.TagPropertiesDecode | index.js:91-96 | the object literal decoder reads the generated properties back as the table of tags |
| LegacyPlugin.TemplateObjectReadsBack | index.js:95-96 | the template object of an array entry reads back as exactly its prop names, each mapped to its own tag |
| LegacyPlugin.TagTableReadsBack | index.js:89-93 | from an empty start, the tag table's keys are exactly the prop names and each maps to its tag |
| LegacyPlugin.RecognisersDisjoint | index.js:137 | the `templateProps` recogniser and the `templateVars` recogniser never claim the same statement |
| LegacyPlugin.PushAllAsWrittenFails | index.js:152-164 | as written, the bucket loop succeeds exactly when every entry classifies and none is a list entry, and then builds what the corrected loop builds |
| LegacyPlugin.GetTemplatePropsAsWritten | index.js:118-168 | as written, an unrecognised statement gives `false`, and a recognised one succeeds exactly when its entries decode, classify and include no list entry; its list bucket is then always empty |
| LegacyPlugin.GetTemplateProps | index.js:118-168 | with the list push corrected, a recognised statement succeeds exactly when its entries decode and classify, and its buckets hold the entries of each kind in declaration order |
| LegacyPlugin.ListTypoOnlyBreaksLists | index.js:161 | the push onto the misspelt bucket is the only difference: wherever the statement as written succeeds, or has no list entry, both readings agree |
| LegacyPlugin.ListEntryDecodes | index.js:141-143 | the right side `[ [ 'items', { type: 'list' } ] ]` decodes to one list entry |
| LegacyPlugin.ListEntryThrows | index.js:160-162 | that one list entry makes the statement as written throw, while the corrected reading puts it in the list bucket |
| LegacyPlugin.IsControlExpression | index.js:204-218 | an expression counts as a control expression exactly when it is a logical expression: the other listed types have no `left` and `right` |
| LegacyPlugin.LegacyRename | index.js:287-298 | an identifier is renamed exactly when it is a replace variable and its parent is neither an object property nor a member expression, and then to its own uid |
| LegacyPlugin.LegacyRenamesMore | index.js:293-295 | this visitor renames wherever the current replace rules rename the identifier itself, and also declarators and array patterns, which the current rules leave alone; a shorthand-style property value it leaves to the property |
| LegacyPlugin.LegacyRenameIdempotent | index.js:287-298 | a renamed identifier is never renamed again, since the fresh uids are not variable names |
| LegacyPlugin.LegacyDeclarations | index.js:281-285 | one `let` declaration per replace variable, in declaration order |
| LegacyPlugin.LegacyBlock | index.js:279-286 | a block keeps its body and gains in front of it the replace declarations, the last declared first |
| LegacyPlugin.LegacyBlocks | index.js:279-286 | every block of the component gets that prologue |
| LegacyPlugin.EveryBlockDeclares | index.js:279-286 | in every block, each replace variable is declared as `let <uid> = '{{name}}'` with its own uid |
| LegacyPlugin.SecondBlockDiffers | index.js:279-286 | where the current front end leaves a second block untouched, this visitor declares the uids in it too |
| LegacyPlugin.VisitStatement | index.js:222-309 | with the corrected bucket reading: a statement is kept exactly when it is not a `templateProps` assignment, the visit fails exactly when the corrected reading fails, and the component is transformed exactly when there is one and tidying only is off: replace uids minted first, then control uids, and every block given the prologue |
| LegacyPlugin.VisitStatementAsWritten | index.js:222-244 | over the reading as written, the visit throws exactly when that reading throws, so a statement with a list entry is never transformed; where it does not throw it is the corrected visit, and the list bucket is empty |
| LegacyPlugin.ListEntryVisitThrows | index.js:230 | after a component, with tidying only off, `Card.templateProps = [ [ 'items', { type: 'list' } ] ]` makes the visit as written throw, while the corrected visit transforms the component |
| LegacyPlugin.Dispatch | index.js:231-244 | nothing happens for an unrecognised statement, a recognised one is removed, and the transformation follows only when asked for |
| LegacyPlugin.Transform | index.js:247-286 | the replace variables get consecutive fresh uids from the counter, the control variables the next ones, and every block the replace prologue |

## Left out

- Babel's machinery is not modelled: traversal order, re-queueing, path mutation (`insertBefore`, `replaceWith`, `remove`, `skip`) and `parse` of generated source. Each rewrite is a pure function of the visited node, its ancestors or its sibling sequence.
- `scope.generateUidIdentifier` is a counter. Babel also skips names already bound in the scope, which the counter does not.
- ComponentInit.ContextUidDistinct: this holds for the counter model of uid minting. Babel's own skipping of bound names is outside the model.
- `getExpressionArgs`, `isJSXElementComponent` and `isJSXElementTextInput` are imported from a utils.js that does not define them. They are not part of this model, and their results are parameters.
- The process-wide `templateVarsController` and the `languages` registries are threaded as explicit values rather than mutated in place.
- `window.templateVarsLanguage` (language/index.js:82, 89) is a parameter, the language root.
- The `console.log` calls are left out: language/index.js:101, index.js:305, and the `JSXExpressionContainer` visitor of index.js:301-307, which computes a subject only to print it.
- Plugin registration (index.js:313-322) is left out, as is the commented-out custom-language hook (visitor.js:137-139).
- visitor.js:172 passes four arguments to `init`, which takes three (controller.js:389). The model hands `init` the Babel types it evidently expects, and does not model the argument mismatch.
- index.js:43-78 and index.js:170-203 are copies of utils.js: the literal decoder and the name extractors. They are modelled once, in `ConfigDecode`.
- Regular expressions are not modelled as such. Each placeholder pattern is a scanner written directly over strings.
- Templates.ArgAt: the model does not require each placeholder index to be in range. It follows JavaScript, where an out-of-range positional placeholder prints `undefined`.
- ListRules.TagOf: `toTag` starts as `{}` (controller.js:419), so in JavaScript `toTag[ 'constructor' ]` and other inherited keys are truthy. The model's map holds only the names tagged on purpose, so a variable named `constructor` or `toString` is never taken for a list here.
- ListRules.ListBracketOrigin: for the same reason, an identifier or `.map` object named after an inherited key does not bracket in the model (controllers/list.js:120, 135).
- ControlRules.ControlGroup: for the same reason, a right side named after an inherited key gets no inner list pair in the model (controllers/control.js:149).
- Tables.StepInto: a walk that reaches a string stays there. In JavaScript, a numeric or `length` segment would index into the string.
- Tables.StepInto: keys inherited from `Object.prototype` (`constructor`, `toString`, ...) are not present in the tables the model walks. In JavaScript they are truthy and the walk would step into them.
- TaggedBackend.Tag: a self-referencing tag recurses until the JavaScript stack overflows. The model bounds the recursion by a `fuel` depth and reports `StackOverflow` when it runs out. Expansions that finish within the depth are the same at every larger depth (`TaggedBackend.TagFuel`).
- TaggedBackend.Tag: keys inherited from `Object.prototype` (`constructor`, `toString`, ...) are not in the `tags` map. In JavaScript `tags[ tagName ]` is truthy for them (language/index.js:57, 66), and the tag would expand a function.
- TaggedBackend.ReplaceFirstAfter: the replacement string is inserted literally. JavaScript's `$&`, `$1`, ... patterns in a replacement string are not modelled.
- Backends.ContextString: the context is a number. A non-numeric context is not modelled. JavaScript would print it into `data_${ context }` as it is, or concatenate it in the `context + 1` of `||%subVar||`.
- LegacyPlugin.LegacyBlock: the declaration is built directly. It does not model `parse` of the generated `let <uid> = '{{name}}';` text, which fails for a name that holds a quote.
- LegacyPlugin.CreatePropValue: index.js defines `createPropValue` but never calls it. It is modelled on its own.
- LegacyPlugin.VisitStatement: it reads the buckets with the list push corrected (see Findings). As written, index.js:230 reaches the `listvl` push of index.js:161 and throws on any list entry; `LegacyPlugin.VisitStatementAsWritten` models that.
- LegacyPlugin.VisitStatement: when the statement has no previous sibling, the traversal does nothing. The model then does not record the uids the visitor mints anyway.
- ControlRules.UpdateJSXExpressions: only a container among a JSX element's children is modelled. The visitor of controller.js:543-551 also reaches a container that is an attribute's value, such as `className={ isActive && 'active' }`. There the `insertBefore` and `insertAfter` of controllers/control.js:142-143 have no sibling list to insert into, and Babel rejects the insertion; that failure is not modelled.
- ListRules.UpdateJSXListExpressions: likewise only a container among children is modelled. A tagged list name in an attribute value, such as `items={ items }`, reaches the `insertBefore` and `insertAfter` of controllers/list.js:123-124, which Babel rejects there; that failure is not modelled.
- ComponentInit.VisitContainer: it dispatches to the two rewrites above, so it too covers only containers among children, and not the failure of a firing rewrite on an attribute-value container.
- ConfigDecode.DecodeElements: an array hole, as in `[ 'a', , 'b' ]`, is not representable. Babel gives a `null` element there, and utils.js:18 throws reading its `type`.
- Floating-point numbers are not modelled: a numeric literal is a natural number.

## Findings

| source | as written | input that shows it | evidently intended | confidence | as-written member | corrected member |
|---|---|---|---|---|---|---|
| index.js:161 | a `list` entry is pushed onto `templateProps.listvl`, which does not exist, so the push throws and the whole `templateProps` statement fails | `Card.templateProps = [ [ 'items', { type: 'list' } ] ]` | push onto `templateProps.list`, the bucket the object declares at index.js:148 | high (not executed) | LegacyPlugin.GetTemplatePropsAsWritten and LegacyPlugin.VisitStatementAsWritten, shown by LegacyPlugin.ListEntryThrows and LegacyPlugin.ListEntryVisitThrows | LegacyPlugin.GetTemplateProps and LegacyPlugin.VisitStatement |
| language/index.js:24 | `getVariableString` calls `getLanguageString( 'variable', [], [], context )`, passing a string where the path array belongs, so `targetPath.forEach` throws | any argument and context, for example `getVariableString( 'x', 0 )` | look up the root's `variable` string (path `[ 'variable' ]`) and fill its `%v` placeholder | high (not executed) | TaggedBackend.VariableStringAlwaysThrows | TaggedBackend.VariableStringFills |
