# kotlinq, modelled in Dafny

kotlinq is a Kotlin compiler plugin. It rewrites lambda literals in a source file so that each one
also carries an inspectable expression tree. The plugin works in five steps:

1. It parses the file and picks the lambdas to rewrite. The choice follows `@Kotlinq` annotations
   and the configured packages.
2. It normalises each lambda's syntax tree (`collapse`).
3. It translates the tree into a `Node` (`NodeConverter`).
4. It prints that tree back as Kotlin constructor text (`toCode`).
5. It splices `withExpressionN(original, { code })` into the file in place of the lambda.

Around this pipeline sit the configuration path, the in-memory query library and the traversal:

- The Gradle DSL (`KotlinqExtension`) collects packages and symbol types.
- The Gradle side serialises them as `k:v;k:v` option strings.
- The compiler side parses those strings back (`processOption`) and filters files by package
  (`PackageMatcher`).
- The query library (`QueryableSequence`) filters, maps, sorts, pages and joins in memory.
- `walk` traverses a node tree in pre-order.

The model has one module per source file of that core:

| module | file | models |
|---|---|---|
| `Nodes` | node.dfy | `Node` and its variants, the syntax tree `Ast`, `toCode`, the value serializer, the `InternalIdentifiedNode` name helpers |
| `Walkers` | walkers.dfy | `walk` as the pre-order sequence it visits |
| `Collapse` | collapse.dfy | `collapse` |
| `Selectors` | selectors.dfy | the selector lookups the core uses on syntax trees (`node[i]`, `node["a b"]`, `all(...)`, `text`) |
| `Lookups` | lookups.dfy | `constLiteral`, `isOn`/`isOff`, `recursive`, `searchLambdas` |
| `ConverterOptions` | options.dfy | `Options`, its defaults, `SymbolType` |
| `NodeConverter` | node_converter.dfy | `convert` and `parseAst`, with chains folded over the re-entered suffix |
| `ConverterFindings` | converter_findings.dfy | three lambdas the translation gets wrong, each as written and corrected |
| `Parsing` | parsing.dfy | `replaceAll` and `processFileContent` |
| `PackageMatching` | package_matcher.dfy | `PackageMatcher` |
| `GradlePlugin` | gradle_plugin.dfy | the option list built by `applyToCompilation`, and its round trip through `processOption` |
| `CommandLine` | command_line_processor.dfy | `processOption`, the registrar defaults, `KotlinqFileExtension` |
| `Extension` | kotlinq_extension.dfy | the `KotlinqExtension` DSL object |
| `Collections` | queryable.dfy | `QueryableSequence` and its extension functions |
| `Sorting`, `Text`, `Wrappers` | sorting.dfy, text.dfy, wrappers.dfy | the Kotlin library functions the core calls, and `Option`/`Outcome` |

Most of the core is pure and is modelled with functions and lemmas. The parts that change state
in place are classes:

- the compiler configuration, `CommandLine.Configuration`;
- the file factory and its counter, `CommandLine.KotlinqFileExtension`;
- the Gradle DSL object, `Extension.KotlinqExtension`.

The two loops of the splicer are methods proved against specification functions: the fold in
`replaceAll` and the argument count taken with `walk`.

Exceptions are values. The converter, the literal decoder and the splicer return
`Outcome<T> = Ok(value) | Throw(message)`. `message` is `None` for an exception that has no
message, such as the `NullPointerException` thrown by `!!`.

## Model

| member | source | states |
|---|---|---|
| Nodes.WithChildrenEquality | kotlinq/src/main/kotlin/io/github/kotlinq/expression/node/Node.kt:39-51 | two `WithChildren` nodes are equal iff they have the same class name and equal child lists, so `Plus(a,b) != Minus(a,b)` |
| Nodes.Children | kotlinq/src/main/kotlin/io/github/kotlinq/expression/node/Node.kt:32-61 | a leaf has no children; a unary operator has its operand as its one child; a binary operator or a property access has two |
| Nodes.WithChildrenCode | kotlinq/src/main/kotlin/io/github/kotlinq/expression/node/Node.kt:35-37 | every `WithChildren` node prints as its class name, then its children's codes joined by `,` with no spaces, in parentheses |
| Nodes.Codes | kotlinq/src/main/kotlin/io/github/kotlinq/expression/node/Node.kt:36 | the children's codes, one per child, in order |
| Nodes.ValueCodes | kotlinq/src/main/kotlin/io/github/kotlinq/expression/codeSerialization.kt:5-10 | `Value(5)` prints `Value(5)`; a nested node value prints its own code; a string prints between triple quotes; null prints `null`; `Error(m)` prints `error(` + m in triple quotes + `)` |
| Nodes.InternalIdentifierFrom | kotlinq/src/main/kotlin/io/github/kotlinq/expression/node/Node.kt:158-176 | a `Val` or `Ref` identifies itself; a `GetProperty` is identified iff both its sides are; every other node, `Identifier` and `LambdaArgument` included, is not |
| Nodes.PlainName | kotlinq/src/main/kotlin/io/github/kotlinq/expression/node/Node.kt:115-119 | a name without `::` is its own last segment, has no prefix, and hands itself on as its reference path |
| Nodes.QualifiedName | kotlinq/src/main/kotlin/io/github/kotlinq/expression/node/Node.kt:115-119 | `path::name` splits back into prefix `path` and last segment `name`; its insertable prefix gives the reference path `path.name` |
| Nodes.GetPropertyIdentifier | kotlinq/src/main/kotlin/io/github/kotlinq/expression/node/Node.kt:166-176 | a property access on identified sides is identified as `objPath::propName` and hands on `objPath.propName` |
| Walkers.PreOrder | kotlinq/src/main/kotlin/io/github/kotlinq/expression/node/walkers.kt:3-8 | the node itself is visited first; a node without children is the only node visited |
| Walkers.PreOrderIsNodeThenChildren | kotlinq/src/main/kotlin/io/github/kotlinq/expression/node/walkers.kt:4-7 | the visit order is the node, then each child's whole subtree, left to right |
| Walkers.PreOrderAllAppend | kotlinq/src/main/kotlin/io/github/kotlinq/expression/node/walkers.kt:6 | walking a list of subtrees visits the first list completely before the second |
| Walkers.PreOrderLength | kotlinq/src/main/kotlin/io/github/kotlinq/expression/node/walkers.kt:3-8 | the callback runs exactly once per node of the tree |
| Walkers.PreOrderAllLength | kotlinq/src/main/kotlin/io/github/kotlinq/expression/node/walkers.kt:6 | walking a list of subtrees makes as many calls as the subtrees have nodes |
| Walkers.PreOrderAllMember | kotlinq/src/main/kotlin/io/github/kotlinq/expression/node/walkers.kt:6 | a node is visited while walking a list iff it is visited while walking one of its subtrees |
| Walkers.Visited | kotlinq/src/main/kotlin/io/github/kotlinq/expression/node/walkers.kt:3-8 | a node is visited iff it is the root or is visited in some child's subtree |
| Collapse.Collapse | kotlinq/src/main/kotlin/io/github/kotlinq/parser/helpers.kt:41-51 | a node with several children keeps its description and span and never gains children; the result is never a converted node |
| Collapse.CollapseAll | kotlinq/src/main/kotlin/io/github/kotlinq/parser/helpers.kt:47-49 | the kept children of a node are at most as many as its children |
| Collapse.CollapseKeepsTokens | kotlinq/src/main/kotlin/io/github/kotlinq/parser/helpers.kt:41-51 | collapsing keeps the default-channel tokens in order; a node that collapses to nothing has none |
| Collapse.CollapseAllKeepsTokens | kotlinq/src/main/kotlin/io/github/kotlinq/parser/helpers.kt:47-49 | dropping the null collapses of children keeps every default-channel token, in order |
| Collapse.CollapseDropsHidden | kotlinq/src/main/kotlin/io/github/kotlinq/parser/helpers.kt:43-49 | no hidden-channel token is left in a collapsed tree, apart from the single-token wrapper the source keeps |
| Collapse.CollapseAllDropsHidden | kotlinq/src/main/kotlin/io/github/kotlinq/parser/helpers.kt:47-49 | the same holds for every kept child |
| Selectors.SelfAndDescendants | kotlinq/src/main/kotlin/io/github/kotlinq/parser/helpers.kt:11-20 | the document-order listing of a subtree starts at its root |
| Selectors.Descendants | kotlinq/src/main/kotlin/io/github/kotlinq/parser/helpers.kt:15-20 | only inner nodes have descendants: those of their children, in order |
| Selectors.DescendantSmaller | kotlinq/src/main/kotlin/io/github/kotlinq/parser/helpers.kt:15-20 | a descendant is strictly smaller than its ancestor |
| Selectors.DescendantsTransitive | kotlinq/src/main/kotlin/io/github/kotlinq/parser/helpers.kt:15-20 | a descendant of a descendant is a descendant |
| Selectors.ChildSmaller | kotlinq/src/main/kotlin/io/github/kotlinq/parser/helpers.kt:15-20 | every child is a strictly smaller descendant |
| Selectors.Keep | kotlinq/src/main/kotlin/io/github/kotlinq/parser/helpers.kt:11-27 | a step keeps exactly the candidates that pass its name or `terminal` test |
| Selectors.Walk | kotlinq/src/main/kotlin/io/github/kotlinq/parser/helpers.kt:11-27 | every node a selector reaches passes the selector's last test |
| Selectors.All | kotlinq/src/main/kotlin/io/github/kotlinq/parser/helpers.kt:11-27 | every node `all(...)` returns passes the selector's last test |
| Selectors.First | kotlinq/src/main/kotlin/io/github/kotlinq/parser/helpers.kt:11-27 | `node[sel]` is the first node `all(sel)` finds, and is absent iff that list is empty |
| Selectors.ChildAt | kotlinq/src/main/kotlin/io/github/kotlinq/parser/helpers.kt:15-20 | `node[i]` is the i-th child, and exists iff i is in range |
| Selectors.FirstTerminal | kotlinq/src/main/kotlin/io/github/kotlinq/parser/helpers.kt:29-31 | the first flattened terminal, absent iff the subtree holds none |
| Selectors.FirstNamed | kotlinq/src/main/kotlin/io/github/kotlinq/parser/helpers.kt:11-13 | `node["name"]` is a node of the subtree, root included, with that description |
| Selectors.FirstNamedAt | kotlinq/src/main/kotlin/io/github/kotlinq/parser/helpers.kt:11-13 | `node["name"]` is the first node in document order with that description |
| Selectors.FirstNamedNone | kotlinq/src/main/kotlin/io/github/kotlinq/parser/helpers.kt:11-13 | `node["name"]` is absent when no node of the subtree has that description |
| Selectors.TokenNode | kotlinq/src/main/kotlin/io/github/kotlinq/parser/helpers.kt:29-31 | the text of a node holding one token is that token's text |
| Lookups.ConstLiteral | kotlinq/src/main/kotlin/io/github/kotlinq/parser/lookups.kt:13-37 | `literalConstant` is found first and decoded by its first token's kind and its text; a `literalConstant` without a token throws without a message; with no `literalConstant`, a `lineStringLiteral` gives its `lineStringContent` text as a string value, or throws without a message when it has no content; with neither the result is absent |
| Lookups.DecodeIntegerLiteral | kotlinq/src/main/kotlin/io/github/kotlinq/parser/lookups.kt:17 | an `IntegerLiteral` within Int range decodes to that Int |
| Lookups.DecodeIntegerOverflow | kotlinq/src/main/kotlin/io/github/kotlinq/parser/lookups.kt:17 | an `IntegerLiteral` above Int range throws a number-format error |
| Lookups.DecodeLongLiteral | kotlinq/src/main/kotlin/io/github/kotlinq/parser/lookups.kt:18 | a `LongLiteral` decodes to its Long value after the `L`/`l` suffix is trimmed |
| Lookups.DecodeBooleanAndNull | kotlinq/src/main/kotlin/io/github/kotlinq/parser/lookups.kt:27-28 | a `BooleanLiteral` decodes by case-insensitive `true`; a `NullLiteral` decodes to a present null value, not to "no literal" |
| Lookups.DecodeOtherKind | kotlinq/src/main/kotlin/io/github/kotlinq/parser/lookups.kt:29 | any other token kind under `literalConstant` gives "no literal" |
| Lookups.KotlinqFlag | kotlinq/src/main/kotlin/io/github/kotlinq/parser/lookups.kt:39-49 | an absent annotation, or one not named `Kotlinq`, carries no flag; a `Kotlinq` annotation carries a flag or fails on its argument |
| Lookups.OnOffExclusive | kotlinq/src/main/kotlin/io/github/kotlinq/parser/lookups.kt:39-49 | a `Kotlinq` flag of `true` makes `isOff` hold and `isOn` fail; a flag of `false` the reverse; no flag makes both false; they never hold together |
| Lookups.NestedMatches | kotlinq/src/main/kotlin/io/github/kotlinq/parser/lookups.kt:52 | `all("& sel")` is the strict descendants with that description, in order |
| Lookups.RecursiveLeaves | kotlinq/src/main/kotlin/io/github/kotlinq/parser/lookups.kt:51-60 | every match `recursive` returns is a descendant with that description that holds no nested match |
| Lookups.NoLeavesNoMatches | kotlinq/src/main/kotlin/io/github/kotlinq/parser/lookups.kt:51-60 | `recursive` returns nothing only when there is no match at all |
| Lookups.CandidateLambdas | kotlinq/src/main/kotlin/io/github/kotlinq/parser/lookups.kt:65-73 | without `onlyIfAnnotationPresent` the candidates are all innermost lambda literals |
| Lookups.KeepMarked | kotlinq/src/main/kotlin/io/github/kotlinq/parser/lookups.kt:65-88 | the filter succeeds exactly when every declaration's first modifier annotation can be read; a declaration is kept exactly when it is in the input and that annotation reads as `Kotlinq(false)` (off) or `Kotlinq(true)` (on) |
| Lookups.LambdasMarkedOff | kotlinq/src/main/kotlin/io/github/kotlinq/parser/lookups.kt:76-79 | succeeds exactly when every annotated lambda's annotation can be read; the result holds exactly the own lambdas of the annotated lambdas marked off |
| Lookups.LambdasIn | kotlinq/src/main/kotlin/io/github/kotlinq/parser/lookups.kt:68-85 | the result holds exactly the lambda literals found anywhere inside the given declarations |
| Lookups.OffLambdas | kotlinq/src/main/kotlin/io/github/kotlinq/parser/lookups.kt:76-88 | a lambda is switched off exactly when it is the own lambda of an annotated lambda marked off, or lies inside a class or top-level function marked off |
| Lookups.SwitchedOffNotSelected | kotlinq/src/main/kotlin/io/github/kotlinq/parser/lookups.kt:76-91 | a lambda switched off by any of the three annotations is never selected |
| Lookups.Minus | kotlinq/src/main/kotlin/io/github/kotlinq/parser/lookups.kt:89 | list difference keeps exactly the elements not in the second list |
| Lookups.Selected | kotlinq/src/main/kotlin/io/github/kotlinq/parser/lookups.kt:62-91 | no candidates gives an empty result; otherwise the result is exactly the candidates minus the lambdas switched off by an annotation |
| Lookups.Locate | kotlinq/src/main/kotlin/io/github/kotlinq/parser/lookups.kt:89-91 | each selected lambda becomes a span record with its start and stop, in order; a lambda without position info fails the `!!` |
| Lookups.SearchLambdas | kotlinq/src/main/kotlin/io/github/kotlinq/parser/lookups.kt:62-94 | `searchLambdas` locates exactly the selected lambdas, and passes on a failure of the selection |
| ConverterOptions.WithDefaultSymbols | kotlinq/src/main/kotlin/io/github/kotlinq/expression/node/NodeConverter.kt:27-29 | conversion uses the default symbols plus the supplied ones, a supplied entry overriding per key; the flags are kept |
| ConverterOptions.SymbolTypeValueOf | kotlinq/src/main/kotlin/io/github/kotlinq/expression/node/Options.kt:12-14 | `SymbolType.valueOf` accepts exactly `Identifier` and `Constructor`, and gives back the type of that name |
| ConverterOptions.SymbolTypeNameRoundTrip | kotlinq/src/main/kotlin/io/github/kotlinq/expression/node/Options.kt:12-14 | reading a symbol type's name gives that type back |
| ConverterOptions.DefaultTable | kotlinq/src/main/kotlin/io/github/kotlinq/expression/node/Options.kt:3-10 | the defaults map `listOf`, `setOf`, `mapOf` to Identifier and `Pair` to Constructor; `upperCaseIsClassName` is on and `onlyIfAnnotationPresent` off |
| NodeConverter.Convert | kotlinq/src/main/kotlin/io/github/kotlinq/expression/node/NodeConverter.kt:17-37 | no statement gives `Error("Lambda is empty")`; several give `Error("Too complex lambda")`; an exception with a message becomes `Error(message)`; only a message-less one escapes |
| NodeConverter.ConvertCorrected | kotlinq/src/main/kotlin/io/github/kotlinq/expression/node/NodeConverter.kt:17-37 | the converter with the three corrections under Findings: a message-less exception becomes an `Error` node too, so conversion never throws; a `$name` segment makes a string literal a template; the suffixes after a call are translated on the call. The rewriting pipeline does not use it |
| NodeConverter.ArgumentNames | kotlinq/src/main/kotlin/io/github/kotlinq/expression/node/NodeConverter.kt:23 | the parameter names are the declared names without repeats, first name first, or `["it"]` when none are declared |
| NodeConverter.Distinct | kotlinq/src/main/kotlin/io/github/kotlinq/expression/node/NodeConverter.kt:23 | `toSet()` keeps each name once, in first-occurrence order |
| NodeConverter.IndexOf | kotlinq/src/main/kotlin/io/github/kotlinq/expression/node/NodeConverter.kt:166-175 | `indexOf` is the first position holding the name |
| NodeConverter.ParameterPositions | kotlinq/src/main/kotlin/io/github/kotlinq/expression/node/NodeConverter.kt:166-175 | the i-th of distinct declared parameters resolves to `LambdaArgument(i)` |
| NodeConverter.ImplicitIt | kotlinq/src/main/kotlin/io/github/kotlinq/expression/node/NodeConverter.kt:166-175 | with no declared parameters `it` resolves to `It` |
| NodeConverter.ItWhenParametersDeclared | kotlinq/src/main/kotlin/io/github/kotlinq/expression/node/NodeConverter.kt:166-175 | with declared parameters `it` is not a parameter and resolves to `Val("it")` |
| NodeConverter.IdentifierLadder | kotlinq/src/main/kotlin/io/github/kotlinq/expression/node/NodeConverter.kt:166-174 | a simple identifier resolves by the fixed order: parameter, then symbol marked Identifier, then top-level `Val`, then `Ref(prefix::name)`, else `Identifier` |
| NodeConverter.SimpleIdentifierResolves | kotlinq/src/main/kotlin/io/github/kotlinq/expression/node/NodeConverter.kt:166-175 | a `simpleIdentifier` node translates to the resolution of its text |
| NodeConverter.ReferenceSplitsBack | kotlinq/src/main/kotlin/io/github/kotlinq/expression/node/NodeConverter.kt:171 | a reference built from a prefix and a plain name splits back into that prefix and name |
| NodeConverter.CallNameLadder | kotlinq/src/main/kotlin/io/github/kotlinq/expression/node/NodeConverter.kt:193-200 | a call name resolves by the fixed order: upper case with the option on, or Constructor, gives `Ref("N::class")`; Identifier gives `Identifier`; then `Ref("::N")`, `Ref("prefix::N")`, `Identifier` |
| NodeConverter.DefaultCallNames | kotlinq/src/main/kotlin/io/github/kotlinq/expression/node/NodeConverter.kt:193-200 | with the default options `listOf` stays an identifier, `Pair` is a constructor reference, and `sin` a top-level reference |
| NodeConverter.Child | kotlinq/src/main/kotlin/io/github/kotlinq/expression/node/NodeConverter.kt:81-152 | `node[i]` is the i-th child when in range and throws an index error otherwise |
| NodeConverter.NonTerminals | kotlinq/src/main/kotlin/io/github/kotlinq/expression/node/NodeConverter.kt:102-111 | the arguments are exactly the non-terminal children |
| NodeConverter.Segments | kotlinq/src/main/kotlin/io/github/kotlinq/expression/node/NodeConverter.kt:61-62 | a template's segments are exactly its expression and content children |
| NodeConverter.ContentNode | kotlinq/src/main/kotlin/io/github/kotlinq/expression/node/NodeConverter.kt:64-71 | a content segment naming a parameter after an optional `$` becomes that parameter's `LambdaArgument`; other content becomes `Value(text)` |
| NodeConverter.ParseTemplate | kotlinq/src/main/kotlin/io/github/kotlinq/expression/node/NodeConverter.kt:59-76 | a template becomes a `Concat` with one part per segment, the content segments translated as above |
| NodeConverter.ParseSegments | kotlinq/src/main/kotlin/io/github/kotlinq/expression/node/NodeConverter.kt:61-73 | segments translate one for one; segments that are all content never fail |
| NodeConverter.TextTemplate | kotlinq/src/main/kotlin/io/github/kotlinq/expression/node/NodeConverter.kt:59-76 | a template of content segments translates to the `Concat` of their content nodes |
| NodeConverter.StringConstant | kotlinq/src/main/kotlin/io/github/kotlinq/expression/node/NodeConverter.kt:77-79 | a string literal that is not a template translates to `Value` of its content text |
| NodeConverter.OperatorFor | kotlinq/src/main/kotlin/io/github/kotlinq/expression/node/NodeConverter.kt:86-165 | each operator family picks only its own operators by token kind |
| NodeConverter.DispatchOperation | kotlinq/src/main/kotlin/io/github/kotlinq/expression/node/NodeConverter.kt:86-165 | comparison, equality, multiplicative and additive productions go to the operator translation |
| NodeConverter.DispatchNavigation | kotlinq/src/main/kotlin/io/github/kotlinq/expression/node/NodeConverter.kt:112-132 | a postfix expression whose second child is a navigation suffix goes to the member-access translation |
| NodeConverter.DispatchCall | kotlinq/src/main/kotlin/io/github/kotlinq/expression/node/NodeConverter.kt:102-111 | a postfix expression whose second child is `valueArguments` goes to the call translation |
| NodeConverter.DispatchInfix | kotlinq/src/main/kotlin/io/github/kotlinq/expression/node/NodeConverter.kt:176-180 | an `infixOperation` goes to the infix translation |
| NodeConverter.SingleOperation | kotlinq/src/main/kotlin/io/github/kotlinq/expression/node/NodeConverter.kt:86-165 | `x op y` becomes the operator's node over the translated sides, or `Unknown(node)` for an operator token of another kind |
| NodeConverter.MissingOperator | kotlinq/src/main/kotlin/io/github/kotlinq/expression/node/NodeConverter.kt:86-165 | an operator child without an operator token fails the `!!` |
| NodeConverter.ChainFoldsLeft | kotlinq/src/main/kotlin/io/github/kotlinq/expression/node/NodeConverter.kt:133-165 | `a op1 b op2 c ...` translates to the left fold `op2(op1(a, b), c) ...` through the re-entry on the converted prefix |
| NodeConverter.ChainLast | kotlinq/src/main/kotlin/io/github/kotlinq/expression/node/NodeConverter.kt:133-165 | the last pair of a chain becomes the operator's node over the accumulated left side |
| NodeConverter.ChainStep | kotlinq/src/main/kotlin/io/github/kotlinq/expression/node/NodeConverter.kt:133-165 | a longer chain re-enters on its first pair, converted, followed by the rest |
| NodeConverter.NavigationStep | kotlinq/src/main/kotlin/io/github/kotlinq/expression/node/NodeConverter.kt:112-132 | `obj.prop` resolves the property with top-level mode off and the receiver's path as prefix, and re-enters on the rest with the extended path |
| NodeConverter.NavigationFolds | kotlinq/src/main/kotlin/io/github/kotlinq/expression/node/NodeConverter.kt:112-132 | `a.b.c` translates to `GetProperty(GetProperty(a, Ref("a::b")), Ref("a.b::c"))`, folded over any number of plain properties |
| NodeConverter.NavigationHead | kotlinq/src/main/kotlin/io/github/kotlinq/expression/node/NodeConverter.kt:113-131 | the first access on an identified receiver is a `Ref` under the receiver's path and hands on `path.name` |
| NodeConverter.ArgumentReceiver | kotlinq/src/main/kotlin/io/github/kotlinq/expression/node/NodeConverter.kt:112-132 | a property of a lambda argument is an `Identifier` |
| NodeConverter.CallStep | kotlinq/src/main/kotlin/io/github/kotlinq/expression/node/NodeConverter.kt:102-111 | `obj(args)` becomes `Call(obj, args)` over the translated non-terminal arguments, in order |
| NodeConverter.InfixIsCall | kotlinq/src/main/kotlin/io/github/kotlinq/expression/node/NodeConverter.kt:176-180 | `x name y` becomes `Call(Identifier(name), x, y)` |
| NodeConverter.UnknownProduction | kotlinq/src/main/kotlin/io/github/kotlinq/expression/node/NodeConverter.kt:213 | any production without a rule becomes `Unknown(node)` |
| NodeConverter.ReentrySmaller | kotlinq/src/main/kotlin/io/github/kotlinq/expression/node/NodeConverter.kt:112-165 | the re-entered node is smaller than the node it replaces, so chain translation terminates |
| NodeConverter.CallReentrySmaller | kotlinq/src/main/kotlin/io/github/kotlinq/expression/node/NodeConverter.kt:203-207 | the re-entered receiver of a generic call is smaller than the call, so its translation terminates |
| ConverterFindings.EmptyStringLambdaEscapes | kotlinq/src/main/kotlin/io/github/kotlinq/expression/node/NodeConverter.kt:32-35 | `{ "" }` makes `convert` throw instead of returning an `Error` node; the corrected entry returns `Error` |
| ConverterFindings.EmptyStringEscapes | kotlinq/src/main/kotlin/io/github/kotlinq/expression/node/NodeConverter.kt:32-35 | any lambda whose one statement collapses to an empty string literal escapes the `catch` as written |
| ConverterFindings.EmptyStringFails | kotlinq/src/main/kotlin/io/github/kotlinq/parser/lookups.kt:32-35 | an empty string literal fails the `!!` on its missing content, with no message |
| ConverterFindings.TemplateReferenceDropped | kotlinq/src/main/kotlin/io/github/kotlinq/expression/node/NodeConverter.kt:59-79 | `"Hello $it"` translates to `Value("Hello ")` as written; the corrected rule gives `Concat(Value("Hello "), It)` |
| ConverterFindings.ReferenceTemplateKeepsSegments | kotlinq/src/main/kotlin/io/github/kotlinq/expression/node/NodeConverter.kt:59-76 | corrected: a string literal with a `$name` segment is translated as a template, and succeeds when all its segments are content |
| ConverterFindings.CallSuffixDropped | kotlinq/src/main/kotlin/io/github/kotlinq/expression/node/NodeConverter.kt:102-111 | `it.f().g` translates to `Call(GetProperty(It, Identifier("f")))` as written, dropping `.g`; corrected it is `GetProperty(Call(...), Identifier("g"))` |
| ConverterFindings.CallKeepsSuffixes | kotlinq/src/main/kotlin/io/github/kotlinq/expression/node/NodeConverter.kt:102-132 | as written a call drops the suffixes after it; corrected it re-enters on them like a navigation chain |
| Parsing.RangeStart | kotlinq/src/main/kotlin/io/github/kotlinq/parser/parsing.kt:17-23 | a non-trailing lambda's range starts at its start; a trailing one's starts at the last `)` within the 3-character window before its start |
| Parsing.TrailingIff | kotlinq/src/main/kotlin/io/github/kotlinq/parser/parsing.kt:19-20 | a lambda is trailing iff a `)` followed only by whitespace lies in the 3 characters before its start |
| Parsing.Splice | kotlinq/src/main/kotlin/io/github/kotlinq/parser/parsing.kt:16-26 | one step replaces only the computed range by the rendered trimmed original; the text before and after is unchanged; a span out of range throws, and a rendering that throws fails the step with its exception |
| Parsing.SpliceValue | kotlinq/src/main/kotlin/io/github/kotlinq/parser/parsing.kt:17-25 | when the lambda renders, one step's result is the text before the range, the rendered lambda, and the text after the lambda |
| Parsing.SpliceAll | kotlinq/src/main/kotlin/io/github/kotlinq/parser/parsing.kt:16-26 | an empty span list leaves the text unchanged; one span is one step |
| Parsing.SpliceAllAppend | kotlinq/src/main/kotlin/io/github/kotlinq/parser/parsing.kt:16 | folding over two lists of spans is folding over the first, then over the second |
| Parsing.SpliceOrder | kotlinq/src/main/kotlin/io/github/kotlinq/parser/parsing.kt:15 | the spans are a permutation of the input, in descending start order |
| Parsing.ReplaceAll | kotlinq/src/main/kotlin/io/github/kotlinq/parser/parsing.kt:13-27 | the loop computes the fold of the splice step over the spans in descending start order; no spans leaves the text unchanged |
| Parsing.CountOver | kotlinq/src/main/kotlin/io/github/kotlinq/parser/parsing.kt:41-45 | the count is the declared count or one more than a visited `LambdaArgument` index, and is at least each of them |
| Parsing.CountArguments | kotlinq/src/main/kotlin/io/github/kotlinq/parser/parsing.kt:39-45 | N is at least the declared parameter count and at least 1 + every `LambdaArgument` index in the converted tree |
| Parsing.WrapperBalance | kotlinq/src/main/kotlin/io/github/kotlinq/parser/parsing.kt:46-47 | the wrapper text `(withExpressionN(original, { code }))` adds exactly the original's and the code's parenthesis balance, one less for a trailing lambda |
| Parsing.WidenedBalance | kotlinq/src/main/kotlin/io/github/kotlinq/parser/parsing.kt:19-23 | widening the range back to the `)` takes exactly one closing parenthesis, and nothing else that counts, out of the file |
| Parsing.RewriteBalance | kotlinq/src/main/kotlin/io/github/kotlinq/parser/parsing.kt:13-50 | for either revision of the converter: when the conversion succeeds, rewriting one lambda changes the file's parenthesis balance by exactly that of the emitted code; when it throws, the step throws the same exception |
| Parsing.RenderOutcome | kotlinq/src/main/kotlin/io/github/kotlinq/parser/parsing.kt:38-47 | rendering throws exactly when the conversion throws, with its exception; otherwise it is the wrapper around the converted tree's code; with the corrected converter it never throws |
| Parsing.RenderBalance | kotlinq/src/main/kotlin/io/github/kotlinq/parser/parsing.kt:38-47 | when the conversion succeeds, every rendering succeeds and adds the original's and the code's parenthesis balance, one less for a trailing lambda |
| Parsing.Positioned | kotlinq/src/main/kotlin/io/github/kotlinq/parser/lookups.kt:89-91 | each lambda becomes a span record carrying its own start and stop |
| Parsing.Processed | kotlinq/src/main/kotlin/io/github/kotlinq/parser/parsing.kt:30-50 | no lambda selected gives "nothing modified" (null), and only then; a failed selection or a lambda without position info throws; rendering uses the converter as written, so a conversion that throws fails the file |
| Parsing.ProcessedLocated | kotlinq/src/main/kotlin/io/github/kotlinq/parser/parsing.kt:31-38 | with lambdas located, the result is the fold of the splice step, rendering with the converter as written, over the stub-free text in descending start order |
| Parsing.ProcessFileContent | kotlinq/src/main/kotlin/io/github/kotlinq/parser/parsing.kt:30-50 | the method's result equals `Parsing.Processed` on the same file, removing `" with Expression"` before parsing and rendering with the converter as written |
| PackageMatching.ExactPattern | kotlinq/src/main/kotlin/io/github/kotlinq/plugin/GradlePlugin.kt:14-27 | a pattern without `.*` accepts a path iff the path's last components are the pattern's parts; ancestors are never tried |
| PackageMatching.WildcardPattern | kotlinq/src/main/kotlin/io/github/kotlinq/plugin/GradlePlugin.kt:14-27 | a pattern ending in `.*` accepts a path iff the path or one of its ancestors ends with the pattern's parts |
| PackageMatching.NoPath | kotlinq/src/main/kotlin/io/github/kotlinq/plugin/GradlePlugin.kt:21 | a missing path is rejected |
| PackageMatching.PatternComponents | kotlinq/src/main/kotlin/io/github/kotlinq/plugin/GradlePlugin.kt:16-17 | `a.b.c` reads as components `[a, b, c]` without wildcard, and `a.b.c.*` as the same components with wildcard |
| PackageMatching.DotsToSeparators | kotlinq/src/main/kotlin/io/github/kotlinq/plugin/GradlePlugin.kt:16 | replacing dots by `/` in a dotted name gives the slash-joined components |
| PackageMatching.Parent | kotlinq/src/main/kotlin/io/github/kotlinq/plugin/GradlePlugin.kt:23 | a path's parent drops its last component; the empty path has none |
| GradlePlugin.SubpluginOptions | kotlinq/src/main/kotlin/io/github/kotlinq/plugin/GradlePlugin.kt:37-50 | the packages option is present only for a non-empty list, joined by `;`; the symbols option only for a non-empty map, as `k:v` joined by `;`; debug and uppercase are always present |
| GradlePlugin.SymbolEntries | kotlinq/src/main/kotlin/io/github/kotlinq/plugin/GradlePlugin.kt:46 | one `k:v` entry per symbol, in insertion order |
| GradlePlugin.BoolToString | kotlinq/src/main/kotlin/io/github/kotlinq/plugin/GradlePlugin.kt:43-44 | a Boolean printed by `toString` reads back as the same Boolean |
| GradlePlugin.ConfiguredSymbols | kotlinq/src/main/kotlin/io/github/kotlinq/plugin/KotlinqExtension.kt:8 | the symbol types the DSL holds, as the compiler side sees them |
| GradlePlugin.PackagesRoundTrip | kotlinq/src/main/kotlin/io/github/kotlinq/plugin/GradlePlugin.kt:42 | joining packages by `;` and splitting them on the compiler side gives one matcher per package, in order |
| GradlePlugin.EntryRoundTrip | kotlinq/src/main/kotlin/io/github/kotlinq/plugin/GradlePlugin.kt:46 | one `k:v` entry parses back to `k` and its symbol type when `k` has no `:` |
| GradlePlugin.SymbolsRoundTrip | kotlinq/src/main/kotlin/io/github/kotlinq/plugin/GradlePlugin.kt:46 | the serialized symbol map parses back to the same map when no name contains `;` or `:` |
| GradlePlugin.OptionsRoundTrip | kotlinq/src/main/kotlin/io/github/kotlinq/plugin/GradlePlugin.kt:37-50 | applying every emitted option on the compiler side gives back the packages, both switches and the symbol map |
| CommandLine.ParsePackages | kotlinq/src/main/kotlin/io/github/kotlinq/plugin/KotlinqCommandLineProcessor.kt:77 | one matcher per `;`-separated segment, in order |
| CommandLine.ParseEntry | kotlinq/src/main/kotlin/io/github/kotlinq/plugin/KotlinqCommandLineProcessor.kt:79 | a segment parses iff it has a `:` and a known type name after it; the name is the part before it |
| CommandLine.ParseEntries | kotlinq/src/main/kotlin/io/github/kotlinq/plugin/KotlinqCommandLineProcessor.kt:79 | the symbols value parses iff every segment does |
| CommandLine.EntriesFailure | kotlinq/src/main/kotlin/io/github/kotlinq/plugin/KotlinqCommandLineProcessor.kt:79 | a failing symbols value fails with the error of its first bad segment |
| CommandLine.EntriesLastWins | kotlinq/src/main/kotlin/io/github/kotlinq/plugin/KotlinqCommandLineProcessor.kt:79 | every named symbol is in the map, and its type is the one from its last segment |
| CommandLine.ApplyOption | kotlinq/src/main/kotlin/io/github/kotlinq/plugin/KotlinqCommandLineProcessor.kt:75-82 | each known option sets only its own key; debug and uppercase are case-insensitive `true`; only a bad symbols value fails; other options change nothing |
| CommandLine.Configuration.ProcessOption | kotlinq/src/main/kotlin/io/github/kotlinq/plugin/KotlinqCommandLineProcessor.kt:75-82 | the configuration becomes the applied option, and is unchanged when the option fails |
| CommandLine.Register | kotlinq/src/main/kotlin/io/github/kotlinq/plugin/KotlinqCommandLineProcessor.kt:85-97 | unset options take the defaults: no matchers, debug off, no symbols, uppercase on |
| CommandLine.FileOptions | kotlinq/src/main/kotlin/io/github/kotlinq/plugin/KotlinqCommandLineProcessor.kt:109-114 | a file is converted with the configured symbols and uppercase switch; annotations are required iff matchers are absent or empty |
| CommandLine.PatchBody | kotlinq/src/main/kotlin/io/github/kotlinq/plugin/KotlinqCommandLineProcessor.kt:113-122 | the patched body is the processed text, or the original when nothing was modified |
| CommandLine.KotlinqFileExtension.CreatePreprocessedFile | kotlinq/src/main/kotlin/io/github/kotlinq/plugin/KotlinqCommandLineProcessor.kt:107-124 | a missing file, or one whose package no configured matcher accepts, gives nothing; otherwise a patched file with the file options; the counter grows by one exactly per patched file |
| CommandLine.EmptyMatchersSkipAll | kotlinq/src/main/kotlin/io/github/kotlinq/plugin/KotlinqCommandLineProcessor.kt:75-111 | an empty matcher list would skip every file, but parsing a packages value never yields one |
| Extension.KotlinqExtension.constructor | kotlinq/src/main/kotlin/io/github/kotlinq/plugin/KotlinqExtension.kt:7-19 | a new extension has no packages and no symbols, debug off and uppercase on |
| Extension.KotlinqExtension.Package | kotlinq/src/main/kotlin/io/github/kotlinq/plugin/KotlinqExtension.kt:25-27 | `package(p)` appends p and changes nothing else |
| Extension.KotlinqExtension.Constructors | kotlinq/src/main/kotlin/io/github/kotlinq/plugin/KotlinqExtension.kt:32-34 | `constructors(s...)` sets each symbol to `Constructor` and changes nothing else |
| Extension.KotlinqExtension.Ignore | kotlinq/src/main/kotlin/io/github/kotlinq/plugin/KotlinqExtension.kt:39-41 | `ignore(s...)` sets each symbol to `Identifier` and changes nothing else |
| Extension.PutEntries | kotlinq/src/main/kotlin/io/github/kotlinq/plugin/KotlinqExtension.kt:32-41 | one map update sets its key and keeps every other entry and the key order |
| Extension.PutAllSets | kotlinq/src/main/kotlin/io/github/kotlinq/plugin/KotlinqExtension.kt:32-41 | after the loop every given symbol has the given value |
| Extension.PutAllKeeps | kotlinq/src/main/kotlin/io/github/kotlinq/plugin/KotlinqExtension.kt:32-41 | symbols not given keep their entries |
| Extension.PutAllOrder | kotlinq/src/main/kotlin/io/github/kotlinq/plugin/KotlinqExtension.kt:32-41 | existing keys keep their insertion order |
| Collections.QueryableSequence.Filter | kotlinq/src/main/kotlin/io/github/kotlinq/collections/QueryableSequence.kt:12-14 | `filter` keeps only elements satisfying the predicate, and every such element as often as it occurs |
| Collections.KeptAppend | kotlinq/src/main/kotlin/io/github/kotlinq/collections/QueryableSequence.kt:13 | filtering preserves order: filtering a concatenation concatenates the filtered parts |
| Collections.QueryableSequence.Map | kotlinq/src/main/kotlin/io/github/kotlinq/collections/QueryableSequence.kt:16-18 | `map` keeps length and order and applies the mapper elementwise |
| Collections.QueryableSequence.SortedBy | kotlinq/src/main/kotlin/io/github/kotlinq/collections/QueryableSequence.kt:20-22 | `sortedBy` returns a permutation in ascending key order |
| Collections.QueryableSequence.SortedDescendingBy | kotlinq/src/main/kotlin/io/github/kotlinq/collections/QueryableSequence.kt:24-26 | `sortedDescendingBy` returns a permutation in descending key order |
| Sorting.SortBy | kotlinq/src/main/kotlin/io/github/kotlinq/collections/QueryableSequence.kt:20-26 | insertion sort by key: a permutation, ordered in the requested direction |
| Collections.QueryableSequence.Drop | kotlinq/src/main/kotlin/io/github/kotlinq/collections/QueryableSequence.kt:28-30 | `drop(n)` removes the first n elements, or all of them; a negative n throws |
| Collections.QueryableSequence.Take | kotlinq/src/main/kotlin/io/github/kotlinq/collections/QueryableSequence.kt:32-34 | `take(n)` keeps the first min(n, length) elements; a negative n throws |
| Collections.TakeDrop | kotlinq/src/main/kotlin/io/github/kotlinq/collections/QueryableSequence.kt:28-34 | `take(n)` followed by `drop(n)` is the whole sequence |
| Collections.QueryableSequence.Join | kotlinq/src/main/kotlin/io/github/kotlinq/collections/QueryableSequence.kt:40-51 | the result is the reference join: for each left element in order, `construct(l, r)` for each matching right element in order; so every joined element comes from a matching pair and every matching pair is joined |
| Collections.JoinRowAppend | kotlinq/src/main/kotlin/io/github/kotlinq/collections/QueryableSequence.kt:46-50 | within one left element, joining a concatenation of rights concatenates the joins, so rows keep the order of the right sequence |
| Collections.JoinPair | kotlinq/src/main/kotlin/io/github/kotlinq/collections/QueryableSequence.kt:46-50 | one left and one right element give `[construct(l, r)]` when they match and nothing otherwise |
| Collections.JoinEmpty | kotlinq/src/main/kotlin/io/github/kotlinq/collections/QueryableSequence.kt:46-50 | joining with no right elements gives nothing |
| Collections.JoinAllAppend | kotlinq/src/main/kotlin/io/github/kotlinq/collections/QueryableSequence.kt:46-50 | the join is ordered by left element: joining a concatenation of lefts concatenates their joins |
| Collections.QueryableSequence.Aggregate | kotlinq/src/main/kotlin/io/github/kotlinq/collections/QueryableSequence.kt:53-55 | `aggregate(f)` is `f(toList())` |
| Collections.QueryableSequence.Count | kotlinq/src/main/kotlin/io/github/kotlinq/collections/QueryableSequence.kt:57-59 | `count()` is the length of `toList()`, and throws past the Int range |
| Collections.WrapRoundTrip | kotlinq/src/main/kotlin/io/github/kotlinq/collections/extensions.kt:3-5 | `asSequence(asQueryable(s))` is `s`, and the other way round |
| Collections.QueryableSequenceOf | kotlinq/src/main/kotlin/io/github/kotlinq/collections/extensions.kt:9 | `queryableSequenceOf(xs).toList()` is `xs` |
| Collections.First | kotlinq/src/main/kotlin/io/github/kotlinq/collections/extensions.kt:7 | `first()` is element 0, and fails on an empty source |
| Text.SplitJoin | kotlinq/src/main/kotlin/io/github/kotlinq/plugin/GradlePlugin.kt:42-47 | joining pieces free of a one-character separator and splitting again gives the pieces back |
| Text.ReplaceAtFirst | kotlinq/src/main/kotlin/io/github/kotlinq/parser/parsing.kt:32 | `replace` substitutes the first occurrence and continues after it |
| Text.ReplaceAbsent | kotlinq/src/main/kotlin/io/github/kotlinq/parser/parsing.kt:32 | `replace` leaves a text without the piece unchanged |
| Text.Trim | kotlinq/src/main/kotlin/io/github/kotlinq/parser/parsing.kt:18-19 | `trim` is empty iff the text is all whitespace, and otherwise starts and ends with a non-whitespace character |
| Text.LastIndexOf | kotlinq/src/main/kotlin/io/github/kotlinq/parser/parsing.kt:22 | `lastIndexOf` is the last position at or before `from` holding the character, or -1 |
| Text.TrimEndChars | kotlinq/src/main/kotlin/io/github/kotlinq/parser/lookups.kt:18 | `trimEnd` drops exactly the trailing run of the given characters |
| Text.ParseDecimal | kotlinq/src/main/kotlin/io/github/kotlinq/parser/lookups.kt:17-18 | `toInt`/`toLong` accept exactly an optionally signed run of decimal digits whose value is in range |
| Text.ParseNatToString | kotlinq/src/main/kotlin/io/github/kotlinq/parser/lookups.kt:17-18 | a printed number in range reads back as itself |

## Left out

- The Kotlin parser is a parameter. `processFileContent` takes it as a function from text to
  syntax tree.
- The selector engine behind `AstInspector` is not part of this model. Its lookups are modelled as
  descendant and child steps over the syntax tree:
  - a plain name means the first node, root included, with that description;
  - `&` means the root itself;
  - `text` means the text of the first terminal.
- The regular-expression import injection in `processFileContent` is not modelled. The model
  removes only the `" with Expression"` stubs.
- Float, Real and Double literals are kept opaque as their text. Their floating-point decoding is
  not modelled.
- The messages of JVM exceptions are approximations. The number-format message and the
  index-out-of-bounds message are modelled; a `!!` failure has no message.
- `toBoolean`, `isUpperCase` and the case-insensitive comparisons cover ASCII letters only.
- The reflection side of `Ref` is not modelled: `PseudoCallable`, `KClass`, `primaryConstructor`,
  `returnClass`, `isConstructor`. A `Ref` holds its reference string, so printing a `Ref` never
  fails.
- `Unknown.toCode` prints the description only. The unused private `Ast.toCode` helpers are not
  modelled.
- `hashCode` and `toString` of `WithChildren` are not modelled.
- Logging, `print`, `printStackTrace` and the debug dump file write are not modelled.
- The lazy `VirtualFile` wrapper (`PatchedFile.kt`) is not part of this model. A patched file is a
  record of its path and options, and `CommandLine.PatchBody` computes its body.
- The Gradle and compiler wiring is not modelled: `GradlePlugin.apply`, the artifact and id
  getters, the registrar's extension registration, the CLI option descriptors.
- The runtime wrappers `kotlinq.kt` and `FunctionWithExpression.kt` are not part of this model.
- Sequences are modelled as eager `seq` values. Laziness, and the receiver being left unchanged by
  non-terminal operations, follow from values being immutable.
- Sort keys are `int`. Any `Comparable` key is not modelled.
- `join` casts its other queryable to `QueryableSequence`. The model takes a `QueryableSequence`,
  so that cast never fails.
- Sorting.SortBy: stability (the order of equal keys) is not proved, although Kotlin's sort is
  stable.
- Collections.QueryableSequence.Filter: the order of kept elements is stated by
  `Collections.KeptAppend`, not in this contract.
- Collections.QueryableSequence.Count: counts beyond the Int range throw, as `Sequence.count`
  does; the result is not modelled as a 64-bit value.
- Lookups.CandidateLambdas: for `onlyIfAnnotationPresent` the contract says nothing. The body
  follows the source, listing the lambdas of `Kotlinq`-on classes and top-level functions.
- Lookups.RecursiveLeaves: `recursive` is modelled with `onlyLeaves` set, the only way the core
  calls it.
- A lambda nested inside a selected lambda can be listed under both candidates; the model keeps
  the source's list difference and does not deduplicate.
- Terminal token kinds are taken to be `KotlinLexer` rule names. For any other kind,
  `KotlinLexer.Rules.valueOf` (lookups.kt:16, NodeConverter.kt:87-150) would throw
  `IllegalArgumentException`; the model instead gives an absent constant
  (`Lookups.DecodeOtherKind`) or an `Unknown` node (`NodeConverter.SingleOperation`). That throw
  is not modelled.
- Relative paths are modelled as component lists. Absolute paths and a pattern starting with `.`
  are not modelled.
- NodeConverter.ChainFoldsLeft: the fold is proved for chains whose operator tokens are all
  recognised; a chain with an unrecognised operator is covered only by
  `NodeConverter.SingleOperation` for its first pair.
- NodeConverter.NavigationFolds: proved for chains of plain properties on an identified receiver;
  other receivers are covered one step at a time by `NodeConverter.NavigationStep`.

## Findings

| source | as written | input that shows it | evidently intended | confidence | as-written member | corrected member |
|---|---|---|---|---|---|---|
| kotlinq/src/main/kotlin/io/github/kotlinq/expression/node/NodeConverter.kt:32-35 | the `catch` returns `Error(e.message!!)`, and a `!!` failure has no message, so the second `!!` throws out of `convert` | `{ "" }`: the empty string literal has no content segment, so `constLiteral` fails its `!!` | every exception inside conversion becomes an `Error` node | not executed | ConverterFindings.EmptyStringLambdaEscapes | NodeConverter.ConvertCorrected |
| kotlinq/src/main/kotlin/io/github/kotlinq/expression/node/NodeConverter.kt:59 | a string literal is a template only when it holds a `${...}` expression; `"Hello $it"` has only content segments, so it falls to `constLiteral`, which keeps the first segment | `{ "Hello $it" }` gives `Value("Hello ")` | a `$name` segment makes the literal a template: `Concat(Value("Hello "), It)` | not executed | ConverterFindings.TemplateReferenceDropped | ConverterFindings.ReferenceTemplateKeepsSegments |
| kotlinq/src/main/kotlin/io/github/kotlinq/expression/node/NodeConverter.kt:102-111 | a call returns `Call(obj, args)` at once and ignores the suffixes after its argument list | `{ it.f().g }` gives `Call(GetProperty(It, Identifier("f")))` | the remaining suffixes are translated on the converted call, as navigation does: `GetProperty(Call(...), Identifier("g"))` | not executed | ConverterFindings.CallSuffixDropped | ConverterFindings.CallKeepsSuffixes |
