# Lime front-end core, modelled in Dafny

Lime is a small programming language. Its front-end reads a source, turns the ANTLR parse
tree into a Lime syntax tree of `LimeNode`s (the parsing visitor), and then populates the
lexical environments of that tree: every node records the environment it lives in, declarations
bind their names, function declarations open a new scope, and symbol references are resolved or
reported as diagnostics. An analysis context caches one analysis unit per source and owns the
prelude unit, which declares the scalar types `unit`, `bool` and `int`.

This project models that core and proves properties of it.

- `source.dfy`, `source_section.dfy`: sources are equal when their identifiers are, and hashing
  agrees with that equality. The file also holds the line splitting of a source and of a section,
  and the JDK `subList` bounds checks those calls inherit.
- `token_ranges.dfy`: the section built from one ANTLR position, from one token, or from two tokens.
- `ast.dfy`: the syntax tree as one `Node` datatype. Each node has an `id` that stands for its
  object identity. It also models `childrenWithName` and `childrenNodes`.
- `parsing_visitor.dfy`, `numerals.dfy`: the visitor rules, as a function from a parse tree to a
  `Result`. The Kotlin exceptions (`!!`, `as`, `toBigInteger`) are its failures.
- `lexical_environment.dfy`: `LexicalEnvironment`, a class whose `bindings` and `children`
  change in place, with insertion and simple and recursive lookup.
- `scope_spec.dfy`: a value-level specification, `Walk`, of what populating a node does to its
  state. The state holds the binding chain, the diagnostics, the resolved references, the
  populated nodes, the nodes that opened an environment, and the final bindings of the scope of
  every function whose children are populated.
- `lime_node.dfy`: `populateLexicalEnv`, `envSpec` and its overrides, `populateChildren`,
  `openEnv`, `insertOrDiag` and `getOrDiag`, as methods over the real environments and the
  analysis unit. Each is proved equal to `Walk`.
- `scope_examples.dfy`: the scoping cases the test suite exercises, proved about `Walk`.
- `tree_string.dfy`: `treeString` as string-building methods, proved equal to a line-based
  specification.
- `analysis_unit.dfy`, `analysis_context.dfy`, `prelude.dfy`: the unit, the context cache and
  `analyseBuffer`, and the prelude unit.

## Model

| member | source | states |
|---|---|---|
| LexicalEnvironments.LexicalEnvironment.constructor | liblimelang/src/main/kotlin/analysis/LexicalEnvironment.kt:10-23 | a new environment has no bindings and no children; it is appended to its parent's children, and the parent's bindings are untouched |
| LexicalEnvironments.LexicalEnvironment.Insert | liblimelang/src/main/kotlin/analysis/LexicalEnvironment.kt:32-41 | an unbound symbol becomes bound to the declaration, the call returns the environment itself, and a simple lookup then finds the declaration; an already bound symbol fails with `SymbolAlreadyBounded` and leaves the bindings as they were; enclosing environments never change |
| LexicalEnvironments.LexicalEnvironment.Lookup | liblimelang/src/main/kotlin/analysis/LexicalEnvironment.kt:47-58 | a local binding is returned in either mode; a simple lookup of an unbound symbol is absent; a recursive lookup is the innermost-first lookup along the parent chain |
| LexicalEnvironments.LookupChainFinds | liblimelang/src/main/kotlin/analysis/LexicalEnvironment.kt:47-58 | a recursive lookup finds a symbol exactly when some environment on the chain binds it, and it then returns the binding of the nearest such environment |
| LexicalEnvironments.LookupChainShadowing | liblimelang/src/main/kotlin/analysis/LexicalEnvironment.kt:51-57 | a binding in the innermost environment shadows every outer binding of the same symbol |
| LexicalEnvironments.LookupChainNearest | liblimelang/src/main/kotlin/analysis/LexicalEnvironment.kt:51-57 | when environment i is the first to bind a symbol, a recursive lookup returns its binding |
| LexicalEnvironments.LookupChainOtherSymbol | liblimelang/src/main/kotlin/analysis/LexicalEnvironment.kt:32-58 | binding a symbol does not change the lookup of any other symbol |
| Ast.ChildNamesDistinct | liblimelang/src/main/kotlin/ast/LimeNode.kt:40-45 | every node's named children have pairwise distinct names |
| Ast.NodesOfMembers | liblimelang/src/main/kotlin/ast/LimeNode.kt:48-57 | a node is among the children nodes exactly when some child is that node, or is a present optional that holds it |
| Ast.LeafChildNodes | liblimelang/src/main/kotlin/ast/LimeNode.kt:48-57 | identifiers, literals, operators and named or scalar types have no child nodes |
| LimeNodes.ChildrenNodes | liblimelang/src/main/kotlin/ast/LimeNode.kt:48-57 | the collecting loop over `childrenWithName` yields the child nodes in child order |
| LimeNodes.NodesOfChildren | liblimelang/src/main/kotlin/ast/LimeNode.kt:50-55 | the loop over any list of child pairs keeps node children and present optionals, in order |
| LimeNodes.PopulateLexicalEnv | liblimelang/src/main/kotlin/ast/LimeNode.kt:67-70 | after populating a node, the bindings of every environment on its chain, the lexical diagnostics, the resolved references, the populated nodes and the opening nodes are exactly what `Walk` prescribes; when the subtree's ids are distinct, so are the bindings of every function scope populated so far (`scopes`, read from the children environments not on the chain). Only the environment entries of the node's subtree change, and a changed children-environment entry is a fresh environment. When the ids are distinct, the node's own environment is the given one, every descendant gets the environment its parent's `envSpec` passes on (`EnvsPlaced`), and the given environment's children list grows by the scopes of the subtree's outermost functions, in walk order (`EnvsOf`, `TopFunIds`) |
| LimeNodes.EnvSpec | liblimelang/src/main/kotlin/ast/LimeNode.kt:77-79 | the per-class environment logic (its overrides, or else the default of populating the children in the same environment) equals `WalkEnvSpec`, function scopes included when ids are distinct; it sets no environment of the node itself and none outside its subtree, places the children as `ChildEnvsPlaced` says (in the given environment, or for a function declaration in its new one), and appends to the given environment's children exactly the scopes of the outermost functions of the subtree |
| LimeNodes.PopulateChildren | liblimelang/src/main/kotlin/ast/LimeNode.kt:82-84 | the children nodes are populated one after the other, in order, as `WalkSeq` prescribes, each residing in the given environment; no entry outside their subtrees changes, and the given environment's children list grows by the scopes their outermost functions open |
| LimeNodes.PopulateEach | liblimelang/src/main/kotlin/ast/LimeNode.kt:83 | populating a list of nodes from left to right is the sequential walk of that list; every node of the list resides in the given environment and its subtree is placed; no entry outside their subtrees changes; the given environment's children list grows by the scopes of the list's outermost functions, in order |
| LimeNodes.OpenEnv | liblimelang/src/main/kotlin/ast/LimeNode.kt:87-89 | a fresh, empty environment without children becomes the node's children environment; it is a child of the given environment and is appended to that environment's children; no binding changes; seen from the new environment, the state is the old one with an empty scope in front and the node recorded as opener, its scope now open |
| LimeNodes.InsertOrDiag | liblimelang/src/main/kotlin/ast/LimeNode.kt:95-117 | it reports an insertion exactly when the symbol was unbound in the given environment, and the new state is `ScopeSpec.InsertOrDiag` of the old one |
| LimeNodes.ReportConflict | liblimelang/src/main/kotlin/ast/LimeNode.kt:104-117 | on a conflict, exactly one diagnostic is added, at `diagLoc` with a hint at the declaration already bound in the environment, and the rest of the state is kept |
| LimeNodes.GetOrDiag | liblimelang/src/main/kotlin/ast/LimeNode.kt:123-141 | the result is the recursive lookup; when the lookup finds nothing, exactly one diagnostic is added, at the node's location; otherwise nothing is added |
| LimeNodes.FunDeclEnvSpec | liblimelang/src/main/kotlin/ast/declarations/function/FunDecl.kt:23-27 | a function declaration opens its scope, binds its name in the outer environment, and populates its children in the new scope, as `WalkEnvSpec` says; when ids are distinct, its children environment is a fresh environment whose parent is the given one, every child resides there, it ends up binding exactly the function's scope that `WalkEnvSpec` records for the node (its parameters and body declarations, by `ScopeSpec.FunScope`), it is the one environment appended to the given environment's children, and its own children are the scopes of the outermost functions among its children |
| LimeNodes.OpenAndDeclare | liblimelang/src/main/kotlin/ast/declarations/function/FunDecl.kt:24-25 | after opening and declaring, the outer state is the old one with the name declared and the node recorded as opener; the new scope is empty, without children, directly below the outer chain, appended to the outer environment's children, and recorded as the node's children environment; no other entry held it |
| LimeNodes.DeclEnvSpec | liblimelang/src/main/kotlin/ast/declarations/ConstDecl.kt:21-24 | a constant, parameter or type declaration populates its children first, each residing in the given environment, and then binds its name, the same as in `Param.kt` and `TypeDecl.kt`; the given environment's children list grows by the scopes of the functions among its children |
| LimeNodes.ChildrenResidence | liblimelang/src/main/kotlin/ast/LimeNode.kt:67-84 | in a placed tree, a node resides in its environment; a function declaration's children environment has that environment as parent; every child node resides in the function's children environment, or else in its parent's own environment |
| LimeNodes.PlacedWithoutFunctions | liblimelang/src/main/kotlin/ast/LimeNode.kt:77-84 | in a placed tree without function declarations, every node of the subtree resides in the one given environment |
| LimeNodes.EnvsPlacedFrame | liblimelang/src/main/kotlin/ast/LimeNode.kt:67-70 | placement depends only on the subtree's own entries: maps that agree on the subtree's ids place it alike |
| LimeNodes.SymbolLiteralEnvSpec | liblimelang/src/main/kotlin/ast/expressions/literals/SymbolLiteral.kt:23-25 | a symbol literal records the declaration it resolves to, or reports that its symbol is missing |
| AnalysisUnits.AnalysisUnit.constructor | liblimelang/src/main/kotlin/analysis/AnalysisUnit.kt:14-21 | a new unit has its source, no root, no diagnostic and no populated node |
| AnalysisUnits.AnalysisUnit.AddLexEnvDiagnostic | liblimelang/src/main/kotlin/ast/LimeNode.kt:106-115 | the diagnostic is appended to the unit's lexical diagnostics, and nothing else changes |
| ScopeSpec.InsertOrDiag | liblimelang/src/main/kotlin/ast/LimeNode.kt:95-117 | an unbound symbol is bound to the declaration with no diagnostic; a bound symbol leaves the chain unchanged and appends one "already exists" diagnostic at `diagLoc`, hinting at the previous declaration's location; references and populated nodes are unchanged |
| ScopeSpec.GetOrDiag | liblimelang/src/main/kotlin/ast/LimeNode.kt:123-141 | a symbol found by recursive lookup records the found declaration as the literal's reference with no diagnostic; a missing one appends one "cannot find" diagnostic at the literal and records nothing; the chain is unchanged |
| ScopeSpec.DeclaredSymbol | liblimelang/src/main/kotlin/ast/declarations/ConstDecl.kt:23 | a declaration binds a name exactly when its name child is present, and it binds that identifier's text |
| ScopeSpec.Opened | liblimelang/src/main/kotlin/ast/LimeNode.kt:87-89 | opening a scope puts one empty scope in front of the chain and changes nothing else |
| ScopeSpec.WalkFunDecl | liblimelang/src/main/kotlin/ast/declarations/function/FunDecl.kt:23-27 | a view of `Walk` for one case: the function's name is declared in the outer scope; its children are walked in a new scope below it, which is dropped afterwards, and the bindings that scope ends with are recorded as the function's scope |
| ScopeSpec.FunScope | liblimelang/src/main/kotlin/ast/declarations/function/FunDecl.kt:23-27 | the scope recorded for a function is the innermost scope of the walk of its children, started from one empty scope below the outer chain with the name declared outside; the outer chain afterwards only has the name declared |
| ScopeSpec.Opening | liblimelang/src/main/kotlin/ast/LimeNode.kt:87-89 | opening records the node as opener and forgets any scope recorded for it, keeping every other scope and the rest of the state |
| ScopeSpec.Closed | liblimelang/src/main/kotlin/ast/declarations/function/FunDecl.kt:23-27 | closing a function's scope goes back to the outer chain and records the scope's bindings under the function's id, keeping every other recorded scope |
| ScopeSpec.WalkUnscoped | liblimelang/src/main/kotlin/ast/LimeNode.kt:67-84 | the walk's chain, diagnostics, references, populated and opening nodes do not depend on the scopes recorded before it |
| ScopeSpec.WalkScopeKeys | liblimelang/src/main/kotlin/ast/LimeNode.kt:67-84 | after a walk, scopes are recorded for exactly the functions recorded before and those of the subtree |
| LimeNodes.DeclareOutside | liblimelang/src/main/kotlin/ast/declarations/function/FunDecl.kt:25 | declaring the function's name in the outer environment, seen from the new scope below it, is `DeclareName` on the outer part of the state; the new scope is untouched |
| ScopeSpec.LeafWalk | liblimelang/src/main/kotlin/ast/LimeNode.kt:77-84 | populating a node without children only records the node as populated |
| ScopeSpec.DefaultWalk | liblimelang/src/main/kotlin/ast/LimeNode.kt:77-84 | a view of `Walk` for one case: a node that is not a function, parameter, constant, type declaration or symbol literal is recorded as populated, then walks its children in the incoming scope |
| ScopeSpec.SymbolLiteralWalk | liblimelang/src/main/kotlin/ast/expressions/literals/SymbolLiteral.kt:23-25 | a view of `Walk` for one case: populating a symbol literal records it, then resolves it or reports it |
| ScopeSpec.WalkSeqPair | liblimelang/src/main/kotlin/ast/LimeNode.kt:83 | a view of `Walk` for one case: children are populated from the first to the last |
| ScopeSpec.WalkExtends | liblimelang/src/main/kotlin/ast/LimeNode.kt:67-84 | population only adds: existing bindings of the current scope stay, outer scopes are untouched, diagnostics are only appended, and resolved references and populated nodes only grow |
| ScopeSpec.ExtendsTransitive | liblimelang/src/main/kotlin/ast/LimeNode.kt:82-84 | the only-adds relation composes, so it holds across a sequence of populations |
| ScopeSpec.WalkStamps | liblimelang/src/main/kotlin/ast/LimeNode.kt:67-70 | populating a node gives an environment to exactly the nodes of its subtree, and makes exactly its function declarations open an environment |
| ScopeSpec.WalkSeqStamps | liblimelang/src/main/kotlin/ast/LimeNode.kt:82-84 | populating a list of nodes gives an environment to exactly the nodes of their subtrees |
| ScopeExamples.RedeclarationConflicts | liblimelang/src/main/kotlin/ast/declarations/ConstDecl.kt:21-24 | a parameter, constant or type whose name is already bound in the current scope keeps the old binding and adds one conflict diagnostic at its name, pointing at the previous declaration |
| ScopeExamples.ConstWalk | liblimelang/src/main/kotlin/ast/declarations/ConstDecl.kt:21-24 | `const x = v` walks its name and its value, then binds `x` |
| ScopeExamples.ConstBinds | liblimelang/src/test/kotlin/LexicalEnvTest.kt:24 | `const x = 0` binds `x` with no diagnostic and populates its three nodes |
| ScopeExamples.SequentialConstsResolve | liblimelang/src/test/kotlin/LexicalEnvTest.kt:25 | in `const x = 0 const y = x`, the reference resolves to the first constant, nothing is reported, and both names are bound |
| ScopeExamples.ConstSelfReferenceUnresolved | liblimelang/src/test/kotlin/LexicalEnvTest.kt:27 | in `const x = x`, the value is populated before the name is bound, so the reference is reported missing; `x` is still bound |
| ScopeExamples.DuplicateConstConflict | liblimelang/src/test/kotlin/LexicalEnvTest.kt:28 | `const x = 0 const x = 0` reports one conflict, at the second name, pointing at the first declaration, and keeps the first binding |
| ScopeExamples.BlockWalk | liblimelang/src/main/kotlin/ast/LimeNode.kt:77-84 | a block expression opens no scope: it stamps the block and its element list, then walks the elements in turn in the incoming scope |
| ScopeExamples.FunWalk | liblimelang/src/main/kotlin/ast/declarations/function/FunDecl.kt:23-27 | `fun f() body` binds `f` outside, then walks its body in a new scope that is dropped afterwards and recorded as the function's scope |
| ScopeExamples.RecursiveFunResolves | liblimelang/src/test/kotlin/LexicalEnvTest.kt:15 | a function whose body refers to its own name resolves that reference to itself, with no diagnostic |
| ScopeExamples.InnerDeclShadowsFun | liblimelang/src/test/kotlin/LexicalEnvTest.kt:14 | a constant in a function's body may reuse the function's name, because it lives in the function's own scope: no conflict. Parameters and the body share that scope (ScopeExamples.FunWithParamWalk), so this is the case of the test at line 14, whose parameter is named like the function; ScopeExamples.ParamNamedLikeFun states it with the parameter |
| ScopeExamples.ParamNamedLikeFun | liblimelang/src/test/kotlin/LexicalEnvTest.kt:14 | in `fun f(f: int) { const x = 0 }` the parameter may reuse the function's name, because it binds in the function's own scope: nothing is reported, `f` is bound outside to the function, and the function's scope ends up binding exactly `f` to the parameter and `x` to the constant |
| ScopeExamples.DuplicateFunConflict | liblimelang/src/test/kotlin/LexicalEnvTest.kt:17 | two functions with one name report one conflict, at the second name, pointing at the first function |
| ScopeExamples.ParamWalk | liblimelang/src/main/kotlin/ast/declarations/function/Param.kt:22-25 | a parameter walks its name and its type, then binds its name |
| ScopeExamples.FunWithParamWalk | liblimelang/src/main/kotlin/ast/declarations/function/FunDecl.kt:23-27 | the parameter list and the body of a function are walked one after the other, in the same new scope |
| ScopeExamples.ParamThenConstConflict | liblimelang/src/test/kotlin/LexicalEnvTest.kt:13 | in `fun main(x: int) { const x = 0 }` the parameter and the constant share one scope, so under the code a conflict is reported at the constant's name, pointing at the parameter |
| ScopeExamples.VarWalk | liblimelang/src/main/kotlin/ast/declarations/VarDecl.kt:12-18 | a variable declaration walks its children and binds nothing, because the class has no environment logic of its own |
| ScopeExamples.VarReferenceUnresolved | liblimelang/src/test/kotlin/LexicalEnvTest.kt:36 | so in `fun f() { var x = 0; var y = x }` the reference to `x` is reported missing, and no binding is added |
| Preludes.PreludeShape | liblimelang/src/main/kotlin/analysis/Prelude.kt:30-39 | the prelude module holds exactly three type declarations, `unit`, `bool` and `int` in that order, whose scalar types have sizes 0, 1 and 4, all located at `FIRST`..`FIRST` |
| Preludes.PreludeIds | liblimelang/src/main/kotlin/analysis/Prelude.kt:30-39 | the prelude tree has ten nodes, with ids 0 to 9, and no function declaration |
| Preludes.ScalarDeclWalk | liblimelang/src/main/kotlin/ast/declarations/TypeDecl.kt:18-21 | a prelude type declaration binds its name and populates its three nodes, with no diagnostic |
| Preludes.ScalarModuleWalk | liblimelang/src/main/kotlin/analysis/Prelude.kt:36-42 | a module of three differently named scalar declarations, populated in an empty root environment, binds the three names and reports nothing |
| Preludes.PreludeWalk | liblimelang/src/main/kotlin/analysis/Prelude.kt:42 | populating the prelude in a new root environment gives that environment exactly the prelude bindings, with no diagnostic, no reference and no opened environment |
| Preludes.PopulatePrelude | liblimelang/src/main/kotlin/analysis/Prelude.kt:42 | after the prelude is populated, the unit and the root environment are in the state `PreludeWalk` describes, and every prelude node resides in the root environment |
| Preludes.PreludeUnit | liblimelang/src/main/kotlin/analysis/Prelude.kt:22-45 | the prelude unit has the prelude source, the prelude module as root, and no diagnostic; its root environment has no parent and ends up in the populated state, and every node of the unit resides in it |
| Preludes.PreludePopulated | liblimelang/src/main/kotlin/analysis/Prelude.kt:36-43 | the root environment binds exactly `unit`, `bool` and `int`, each found by recursive lookup; there is no lexical diagnostic and no reference; all ten nodes reside in the root environment, and none opened an environment |
| AnalysisContexts.AnalysisContext.constructor | liblimelang/src/main/kotlin/analysis/AnalysisContext.kt:18-21 | a new context caches exactly the prelude unit, under the prelude source |
| AnalysisContexts.AnalysisContext.AnalyseBuffer | liblimelang/src/main/kotlin/analysis/AnalysisContext.kt:53-69 | without `reparse`, a cached source gives back its cached unit and the cache does not change; otherwise a new unit for the buffer is cached under its name, replacing any old one, and no other entry changes |
| AnalysisContexts.AnalyseTwice | liblimelang/src/main/kotlin/analysis/AnalysisContext.kt:61-63 | analysing one buffer name twice without `reparse` returns the same unit both times, whatever the second content |
| TreeStrings.Indent | liblimelang/src/main/kotlin/ast/LimeNode.kt:188 | the indentation of a level is that many copies of the three-character unit |
| TreeStrings.IndentPrefix | liblimelang/src/main/kotlin/ast/LimeNode.kt:188 | a shallower indentation is a prefix of a deeper one |
| TreeStrings.NodeTreeString | liblimelang/src/main/kotlin/ast/LimeNode.kt:150-185 | the builder's result is the tree string of the node |
| TreeStrings.ReprString | liblimelang/src/main/kotlin/ast/LimeNode.kt:152-159 | a child is shown as the parsing-error marker when null, as its subtree one level deeper when a node or a present optional, as `None` when an empty optional, and as its text otherwise |
| TreeStrings.AppendChildLines | liblimelang/src/main/kotlin/ast/LimeNode.kt:174-180 | the loop appends one line per child, separated by line breaks |
| TreeStrings.ChildLineString | liblimelang/src/main/kotlin/ast/LimeNode.kt:175-176 | one child line is the indentation, the child's name and its representation |
| TreeStrings.ListTreeString | liblimelang/src/main/kotlin/ast/LimeListNode.kt:17-28 | the builder's result is the tree string of the list node |
| TreeStrings.AppendElemLines | liblimelang/src/main/kotlin/ast/LimeListNode.kt:19-26 | the loop appends one line per element, numbered from 0 and separated by line breaks |
| TreeStrings.ElemLineString | liblimelang/src/main/kotlin/ast/LimeListNode.kt:20-22 | one element line is the indentation, `<i>: ` and the element's tree one level deeper |
| TreeStrings.TreeStringJoin | liblimelang/src/main/kotlin/ast/LimeNode.kt:146-185 | a tree string is its lines joined with line breaks |
| TreeStrings.TreeStringLines | liblimelang/src/main/kotlin/ast/LimeNode.kt:146-185 | when no shown text contains a line break, splitting the tree string into lines gives back its lines |
| TreeStrings.TreeLinesIndented | liblimelang/src/main/kotlin/ast/LimeNode.kt:172-181 | every line of a tree string after the first is indented deeper than the node's own level |
| TreeStrings.InlineChildIsScalar | liblimelang/src/main/kotlin/ast/LimeNode.kt:170-171 | the one-line form is only used for a single child that is text, a number, a boolean, null or an empty optional, never a node |
| ParsingVisitors.Loc | liblimelang/src/main/kotlin/parser/ParsingVisitor.kt:34-47 | a context's section is its position in the unit's source, or `FIRST`..`FIRST` when it has none |
| ParsingVisitors.Id | liblimelang/src/main/kotlin/parser/ParsingVisitor.kt:50-66 | no token gives null; a token without text fails; otherwise it gives a fresh identifier with the token's text, starting at the token's start and ending on that line, the text's length in UTF-16 code units further as a 32-bit `Int` sum: exactly that far when the sum fits an `Int`, and congruent to it modulo 2^32 when it wraps |
| ParsingVisitors.RequiredId | liblimelang/src/main/kotlin/parser/ParsingVisitor.kt:150 | `id(...)!!` succeeds exactly when there is a token with text, and then gives a fresh identifier |
| ParsingVisitors.CastTo | liblimelang/src/main/kotlin/parser/ParsingVisitor.kt:84 | a cast succeeds exactly on a node of the target class, returns that node, and fails on null |
| ParsingVisitors.NotNull | liblimelang/src/main/kotlin/parser/ParsingVisitor.kt:175 | `!!` succeeds exactly on a non-null value and returns it |
| ParsingVisitors.AsOptional | liblimelang/src/main/kotlin/parser/ParsingVisitor.kt:151 | a nullable identifier in an optional slot is present exactly when it is not null |
| ParsingVisitors.CastNullable | liblimelang/src/main/kotlin/parser/ParsingVisitor.kt:152 | a cast to a nullable type succeeds on null or on a node of the target class, and leaves the value unchanged |
| ParsingVisitors.VisitOpt | liblimelang/src/main/kotlin/parser/ParsingVisitor.kt:111 | visiting a missing context gives null without failing |
| ParsingVisitors.VisitCast | liblimelang/src/main/kotlin/parser/ParsingVisitor.kt:84 | a visit followed by a cast that succeeds yields a node of the target class |
| ParsingVisitors.VisitRequiredCast | liblimelang/src/main/kotlin/parser/ParsingVisitor.kt:175 | a missing context fails with a null-pointer error; a success yields a node of the target class |
| ParsingVisitors.VisitChildren | liblimelang/src/main/kotlin/parser/ParsingVisitor.kt:116-118 | the default visit of a rule with no children gives null |
| ParsingVisitors.EmptyElemRules | liblimelang/src/main/kotlin/parser/ParsingVisitor.kt:78-130 | an empty module is an empty list node at the context; an empty block holds exactly one unit literal at the same section |
| ParsingVisitors.IntLiteralExact | liblimelang/src/main/kotlin/parser/ParsingVisitor.kt:100-102 | the decimal text of any integer gives an integer literal of exactly that value |
| ParsingVisitors.IntLiteralMalformed | liblimelang/src/main/kotlin/parser/ParsingVisitor.kt:100-102 | an integer literal fails exactly when its text is not an optionally signed string of digits, and then with a number-format error |
| ParsingVisitors.BracketTransparent | liblimelang/src/main/kotlin/parser/ParsingVisitor.kt:110-112 | a bracketed expression is its inner expression; with no inner expression it is null |
| ParsingVisitors.MissingNameRules | liblimelang/src/main/kotlin/parser/ParsingVisitor.kt:146-179 | a variable, constant, assignment or function without a name fails with a null-pointer error |
| ParsingVisitors.MissingValueRules | liblimelang/src/main/kotlin/parser/ParsingVisitor.kt:156-168 | a constant or assignment without a value fails with a null-cast error |
| ParsingVisitors.VarDeclWithoutValue | liblimelang/src/main/kotlin/parser/ParsingVisitor.kt:146-154 | a variable without a value is accepted, with a null value |
| ParsingVisitors.MissingParamsRule | liblimelang/src/main/kotlin/parser/ParsingVisitor.kt:170-179 | a function without a parameter list fails with a null-pointer error |
| ParsingVisitors.ListChainInOrder | liblimelang/src/main/kotlin/parser/ParsingVisitor.kt:82-92 | a chain of module or block elements, nested through the grammar's `tail`, builds one list node at the innermost context; its elements are the elements visited in nesting order, the innermost first and each enclosing head after its tail's elements; the first failure is the result |
| ParsingVisitors.ListChainSingle | liblimelang/src/main/kotlin/parser/ParsingVisitor.kt:132-136 | a single element makes a list node holding just that element, or fails as its visit or cast fails |
| ParsingVisitors.ListChainStep | liblimelang/src/main/kotlin/parser/ParsingVisitor.kt:138-142 | each enclosing block element appends its head after the elements of its tail |
| ParsingVisitors.AssignmentIsNoElement | liblimelang/src/main/kotlin/parser/ParsingVisitor.kt:82-84 | an assignment the visitor builds is neither a `Decl` nor an `Expr`, so a module or block element holding one fails its cast with a class-cast error |
| ParsingVisitors.VisitFresh | liblimelang/src/main/kotlin/parser/ParsingVisitor.kt:72-179 | every node a visit builds, and every node inside it, takes its own id from the range the visit consumed, so ids never repeat |
| Numerals.ParseIntegerOfDecimal | liblimelang/src/main/kotlin/parser/ParsingVisitor.kt:101 | `toBigInteger` of the decimal text of an integer gives that integer back |
| Numerals.ParseInteger | liblimelang/src/main/kotlin/parser/ParsingVisitor.kt:101 | parsing succeeds exactly on an optionally signed string of digits; the sign decides the sign of the value |
| Sources.HashRespectsEquality | liblimelang/src/main/kotlin/Source.kt:49-55 | equal sources, those with one identifier, have equal hashes whatever their contents |
| Sources.StringHashIsTruncatedPolynomial | liblimelang/src/main/kotlin/Source.kt:49 | the identifier's hash is the base-31 polynomial of its UTF-16 code units, truncated to a signed 32-bit `Int` |
| Sources.UnitsHashIsTruncatedPolynomial | liblimelang/src/main/kotlin/Source.kt:49 | wrapping to 32 bits after each step of `h = 31 * h + u` gives the truncation of the exact polynomial |
| Sources.Utf16OfBasicPlane | liblimelang/src/main/kotlin/Source.kt:49 | a string of characters up to U+FFFF has one code unit per character, equal to the character's value |
| Sources.SupplementaryHash | liblimelang/src/main/kotlin/Source.kt:49 | a character above U+FFFF is hashed as its surrogate pair: U+1F600 gives the units D83D, DE00 and the hash 1772899 |
| Sources.Lines | liblimelang/src/main/kotlin/Source.kt:34 | splitting gives at least one line, and no line contains a line break |
| Sources.JoinLinesOfLines | liblimelang/src/main/kotlin/Source.kt:34 | for content without carriage returns, joining the lines with newlines gives the content back |
| Sources.LinesOfJoinLines | liblimelang/src/main/kotlin/Source.kt:34 | splitting lines joined with newlines gives the lines back |
| Sources.TrailingBreakGivesEmptyLine | liblimelang/src/test/kotlin/SourceTest.kt:34-43 | content ending with a line break ends with an empty line |
| Sources.SubList | liblimelang/src/main/kotlin/Source.kt:45 | a sub-list succeeds exactly when the bounds lie within the list in order, and is then that slice; bounds outside the list give an index error, and reversed bounds inside it give an illegal-argument error |
| Sources.GetLinesFrom | liblimelang/src/main/kotlin/Source.kt:42-45 | with both bounds computed in a 32-bit `Int`, asking for n lines from line `start` succeeds exactly when `start` is at least 1, n is not negative, the last bound does not pass the largest `Int` and the lines exist, or in the one wrapped case of an empty range from the smallest `Int` at the largest line count; it then gives exactly those n lines, counted from 1; without wrap-around, the error is an index error exactly when a bound lies outside the list |
| Sources.GetLinesPastIntMax | liblimelang/src/main/kotlin/Source.kt:45 | a last bound past the largest `Int` wraps negative, so the call fails with an illegal-argument error, not an index error |
| Sources.GetLinesFromIntMin | liblimelang/src/main/kotlin/Source.kt:45 | from the smallest `Int`, the first bound wraps to the largest, so asking for one or more lines fails with an illegal-argument error |
| Sections.SectionBounds | liblimelang/src/main/kotlin/SourceSection.kt:16 | the line count, computed in a 32-bit `Int`, wraps back so that the sub-list runs from the wrapped `start.line - 1` to exactly `end.line` |
| Sections.SectionLinesRange | liblimelang/src/main/kotlin/SourceSection.kt:16 | a section's lines are the lines from its start line to its end line, both included, and the call succeeds exactly when those lines exist or the section ends just before it starts, or in the one wrapped case of a section from the smallest to the largest `Int` line, which gives no lines |
| Sections.SectionLinesIgnoreColumns | liblimelang/src/main/kotlin/SourceSection.kt:16 | a section's lines do not depend on its columns |
| Sections.ReversedSectionIsIllegal | liblimelang/src/main/kotlin/SourceSection.kt:16 | a section ending more than a line before it starts, or starting at the smallest `Int` line and ending before the largest, fails with an illegal-argument error once its end line is within the source |
| TokenRanges.FromPoint | liblimelang/src/main/kotlin/parser/Parser.kt:67 | a location keeps the point's line and column |
| TokenRanges.FromPosition | liblimelang/src/main/kotlin/parser/Parser.kt:13-21 | a position's section runs from its start point to its end point, in the given source |
| TokenRanges.FromToken | liblimelang/src/main/kotlin/parser/Parser.kt:24-32 | a token's section starts at its start point and ends at its end point, or at its start when the end is unknown |
| TokenRanges.FromTokens | liblimelang/src/main/kotlin/parser/Parser.kt:39-64 | the section starts where the token that starts first starts, and ends at the end of the token that stops last, or at the start when that end is unknown |
| TokenRanges.FromTokensSame | liblimelang/src/main/kotlin/parser/Parser.kt:39-64 | the section from a token to itself is the section of that token |
| TokenRanges.FromTokensSymmetric | liblimelang/src/main/kotlin/parser/Parser.kt:34-38 | when the tokens start and stop at different offsets, their order does not matter |
| TokenRanges.FromTokensCovers | liblimelang/src/main/kotlin/parser/Parser.kt:34-38 | for tokens whose offsets and points agree, the section covers both tokens |

## Left out

- The ANTLR lexer, the parser and their error strategies and listeners (`ErrorStrategy.kt`, `LexingErrorListener.kt`, `ParsingErrorStrategy.kt`, `LimeSafeBaseVisitor.kt`) are left out: they are generated or foreign code. The parse tree is a datatype of the contexts the visitor reads.
- AnalysisUnits.AnalysisUnit.constructor: it does not run the lexer, the parser or the visitor, so a new unit has no root and no parse diagnostic. The parse driver calls generated code. The constructor in `AnalysisUnit.kt` also takes only the source, while `AnalysisContext.kt` and `Prelude.kt` pass a context as well; the context argument is not modelled.
- `SyntheticAnalysisUnit` is not part of this model; the prelude unit is an ordinary unit.
- `analyseFile` and `Source.sourceFile` read the file system and decode a charset; they are left out as I/O. `AnalysisContext`'s `charset` and `debug` settings go with them.
- Reflection and lazy caching in `childrenWithName`/`childrenNodes` are replaced by an explicit list of each class's `@Child` properties, in index order. `memberProperties` does not promise an order, so for two properties with one index (`FunCall`'s `callee` and `args`) the model's declaration order is an assumption.
- Ast.ChildNodes: a list node's child nodes are its elements. `LimeListNode.children` (LimeListNode.kt:13) carries no `@Child`, so under reflection alone a list node has no child nodes, and populating a module, a block's elements or a parameter list would not reach them. The model walks the elements because the prelude (Prelude.kt:36-42) populates its module to bind the declarations and the scoping tests expect list elements to be scoped. `Module.kt` itself declares a plain node without a unit, out of step with the visitor's use of it as a list. Likewise `Decl.kt` (Decl.kt:18-24) declares `name`, `type` and `value` as `@Child` constructor properties, while every subclass calls `Decl(unit, location)` (ConstDecl.kt:18, for one) and declares its own children; the model follows the subclasses, and a declaration has only the children its own class declares.
- Node identity is a node id; per-node mutable fields (`nodeLexicalEnvironment`, `childrenLexicalEnvironment`, `referencedDecl`) live in maps of the unit, keyed by id.
- List nodes are values; `children.add` builds the list with one more element rather than updating a shared list in place.
- LimeNodes.PopulateLexicalEnv, LimeNodes.FunDeclEnvSpec: which environment each node receives, the bindings each function's scope ends with, and the children lists of the environments are promised for trees whose node ids are distinct (`Ast.DistinctIds`), as the visitor's trees are (ParsingVisitors.VisitFresh). With a repeated id, a later entry overwrites an earlier one in the unit's maps; the rest of the state is still promised.
- LimeNodes.FunDeclEnvSpec: a function's children environment's own children list is stated when the function is populated. The enclosing calls do not restate it, although no later step changes it.
- `toString` renderings, and the iteration order of `HashMap`s, are not modelled. Neither is the key object a `HashMap` keeps when a source is replaced by an equal one, which cannot be observed through identifiers.
- `VarAffect` exists in three packages, and the visitor imports the `ast` one (`ast/VarAffect.kt`): a plain node with no `@Child`, neither a `Decl` nor an `Expr`. So an assignment has no children, and every cast of one to `Decl` or `Expr` fails with a class-cast error (ParsingVisitors.AssignmentIsNoElement). The `declarations/` and `expressions/` versions are never built and are not modelled.
- ParsingVisitors.ListChainInOrder: the grammar is not modelled. That a `tail` holds the earlier elements of the source, so that nesting order is source order, is an assumption about the grammar.
- Numerals.ParseInteger: only ASCII digits are accepted. `BigInteger` also accepts other Unicode decimal digits; the lexer's integer tokens are taken to hold ASCII digits only.
- Sources.Utf16: a lone surrogate is a `char` Dafny does not have, so strings holding unpaired surrogates cannot be written in the model.
- The visitor passes `id(ctx.type)`, an identifier or null, where an optional type expression is expected; the model maps null to an empty optional and an identifier to a present one. No rule of the visitor builds a `FunParamList`, so a function declaration's cast `as FunParamList` always fails in the model, as it does in the code.
- `ConditionalExpr`, `Identifier` and `UnitLiteral` declare no `@Child`, so they have no children in the model, as in the code.
- The tests and the code disagree on scoping, and the model follows the code. `VarDecl` has no environment logic, so a variable never binds its name and the variable tests in `LexicalEnvTest.kt` lines 34-40 do not hold; ScopeExamples.VarReferenceUnresolved shows one. For the same reason the block test at line 45, `const x = { var x; { var x; x } { var x } }`, reports its one reference, `x`, missing. Parameters and the body share one scope, so the test at line 13 gets a conflict; ScopeExamples.ParamThenConstConflict shows it.
- ScopeExamples.RecursiveFunResolves: its body refers to the function by a symbol literal, not by a call as the test at line 15 does. The visitor does not build calls, so a call has no counterpart in the model.
- TreeStrings: a list node with no element still ends its header with a line break, as the code does; nothing more is stated about it.
- Sources.GetLines only restates `Lines`; the properties of splitting are stated by the `Lines` lemmas above.
- The prelude's root environment is not kept by the context. The code does not keep it either, except through the nodes.
