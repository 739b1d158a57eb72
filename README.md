# Mapper: a verified model of the mapping-function generator

Mapper is a Kotlin Symbol Processing (KSP) processor. A class annotated with
`@Mapper(Target::class)` gets a generated file holding two extension
functions, `Annotated.toTarget()` and `Target.toAnnotated()`. Each function
calls the other class's primary constructor:

- An argument that has a source property with the same name or alias, and
  an assignable type, is filled from that property (`name = this.name`).
- An argument with no match and no default value becomes an extra parameter
  of the generated function and is forwarded (`name = name`).
- An argument with no match but a default value is left out.

This project models the core of that engine in Dafny and proves properties of
the model. The core is:

- the field matcher;
- the assignability test;
- the renderer for generic argument lists;
- the declaration text of a missing argument;
- the header and body of a generated function;
- the shared import collector;
- the visitor that generates both directions and composes the file text.

Modules, one per source file or concern:

- `Descriptors`: the KSP symbol graph as immutable datatypes. These are
  declarations, resolved types with type arguments (`*`, unresolved, or
  resolved), type parameters with their first bound, constructor parameters,
  properties, annotations and class declarations. It also holds the
  `Warning` and `Error` values the engine reports.
- `Extensions`: `Extensions.kt`. The KSP `Resolver` is a table of known
  class declarations searched by qualified name. The recursive supertype
  search terminates because the table is required to be acyclic.
- `TypeChecks`: `isKSTypeAssignable` and `matches`.
- `Imports`: `PackageImports`, a class whose `imports` field is an
  insertion-ordered, duplicate-free sequence, as the source's
  `LinkedHashSet` is. It also holds `asFormattedImports`.
- `Text`: joining, `getArgumentLineEnding`, and the text an indexed loop
  writes when it appends an item, a separator unless the item is last, and
  a terminator.
- `TypeRenderer`: `convertTypeArgumentToString`. The source's deque is the
  suffix `owner.arguments[from..]` of the type that owns the arguments.
- `FieldMatcher`: `getMatchingAndMissingArguments`. The two loops are
  methods checked against recursive specification functions.
- `FunctionHeader`: `appendTargetClassTypeParameter` and
  `generateExtensionFunctionName`.
- `MissingDeclaration`: `convertMissingArgumentToDeclarationText`.
- `MappingFunctionGenerator`: `generateMappingFunction` and
  `generateExtensionMapperFunction`.
- `MapperVisitor`: `visitClassDeclaration`, `visitFunctionDeclaration` and
  `generateCode`, without the file output.
- `MatcherScenarios`: two concrete runs of the matcher:
  - a bound reached through two supertype steps;
  - the `@MapperProperty` alias of the sample `MockEntity`.

Every method that appends text step by step, as the source's
`StringBuilder` code does, is proved equal to a specification function.
Every method that adds imports states the new collector contents as
`InsertAll(old, <imports in order>)`. Lemmas prove what those specification
functions mean. Fatal conditions are `Failure` values of `Result`; warnings
are returned as data.

Where the code's behaviour is surprising, the model follows the code:

- A target parameter takes the match of the last candidate that passed a
  branch. The scan never stops, so a later candidate overwrites an earlier
  match. It is not the first qualifying candidate.
- `matches` compares type-argument lists only for emptiness. The early
  return at `MappingFunctionGenerator.kt:387-389` answers for every pair of
  lists that reaches the element-by-element comparison.
- In the renderer, a star or unresolved argument ends the walk. The text
  built so far is returned, with its bracket still open. `*` is written
  only for a top-level argument of a missing parameter's type. The
  renderer never writes a nested argument's nullability marker.
- The cast label of the plain branch is set whenever the target type names
  a type parameter, bounded or not.
- Every matched line ends in a comma, the last one included, because
  `hasNextLine` at `MappingFunctionGenerator.kt:106` always holds.
- An unbounded first source type parameter renders as `<>` in the function
  name.
- Imports are never recursive. Each argument class of a missing parameter
  adds its own declaration only, not those of its nested arguments.
- At formatting time an import is dropped when its class name equals the
  name of any type parameter registered by either direction. The blank
  line after the imports is written only when the last stored import is
  itself emitted.

## Model

| member | source | states |
|---|---|---|
| Extensions.CompareByQualifiedNameIsEquivalence | ksp/src/main/kotlin/com/github/henryJung/symbol_processor/Extensions.kt:38-42 | comparing by qualified name is reflexive, symmetric and transitive |
| Extensions.CompareByQualifiedNameIff | ksp/src/main/kotlin/com/github/henryJung/symbol_processor/Extensions.kt:38-42 | for dot-free simple names, equal by qualified name iff package and simple name are both equal |
| Extensions.CompareByDeclarationIff | ksp/src/main/kotlin/com/github/henryJung/symbol_processor/Extensions.kt:35-36 | for dot-free simple names, a type matches a declaration iff its own declaration has the same package and simple name |
| Extensions.SameDeclarationSameName | ksp/src/main/kotlin/com/github/henryJung/symbol_processor/Extensions.kt:8-9 | two types whose declarations compare equal have the same name, whatever their nullability and arguments |
| Extensions.FindClass | ksp/src/main/kotlin/com/github/henryJung/symbol_processor/Extensions.kt:24-25 | the resolver lookup returns the first entry with the qualified name, and none iff no entry has it |
| Extensions.GetClassDeclarationByName | ksp/src/main/kotlin/com/github/henryJung/ksp/processing/MapperVisitor.kt:29-30 | the declaration found has the qualified name asked for; none iff no known class has it |
| Extensions.ContainsSupertype | ksp/src/main/kotlin/com/github/henryJung/symbol_processor/Extensions.kt:23-33 | a declaration that does not resolve contains no supertype |
| Extensions.ContainsSupertypeByQualifiedName | ksp/src/main/kotlin/com/github/henryJung/symbol_processor/Extensions.kt:23-25 | the search depends on the starting declaration only through its qualified name |
| Extensions.DirectSupertypeIsContained | ksp/src/main/kotlin/com/github/henryJung/symbol_processor/Extensions.kt:26-29 | every direct supertype of a resolved class is found |
| Extensions.ContainsSupertypeRanksBelow | ksp/src/main/kotlin/com/github/henryJung/symbol_processor/Extensions.kt:23-33 | whatever is found lies strictly earlier in the acyclic class table |
| Extensions.ContainsSupertypeIrreflexive | ksp/src/main/kotlin/com/github/henryJung/symbol_processor/Extensions.kt:23-33 | no class contains itself as a supertype |
| Extensions.ContainsSupertypeTransitive | ksp/src/main/kotlin/com/github/henryJung/symbol_processor/Extensions.kt:23-33 | the supertype search is transitive |
| Extensions.MarkedNullableAsString | ksp/src/main/kotlin/com/github/henryJung/symbol_processor/Extensions.kt:44 | "?" iff the type is marked nullable, "" iff it is not |
| Extensions.ExtractAnnotation | ksp/src/main/kotlin/com/github/henryJung/symbol_processor/Extensions.kt:14-15 | the first annotation with the short name; none (where `first` throws) iff no annotation has it |
| TypeChecks.Matches | ksp/src/main/kotlin/com/github/henryJung/ksp/processing/generator/MappingFunctionGenerator.kt:386-407 | true iff both lists are empty or both are non-empty; two non-empty lists always match |
| TypeChecks.IsKSTypeAssignable | ksp/src/main/kotlin/com/github/henryJung/ksp/processing/generator/MappingFunctionGenerator.kt:371-384 | a nullable source never fits a non-null target; in generic position only nullability counts; otherwise equal qualified names and same argument emptiness are also required |
| TypeChecks.AssignableToItself | ksp/src/main/kotlin/com/github/henryJung/ksp/processing/generator/MappingFunctionGenerator.kt:371-384 | every type is assignable to itself in both kinds of position |
| TypeChecks.ArgumentsOnlyComparedForEmptiness | ksp/src/main/kotlin/com/github/henryJung/ksp/processing/generator/MappingFunctionGenerator.kt:383-389 | `List<Int>` is assignable where `List<String>` is expected |
| Imports.Insert | ksp/src/main/kotlin/com/github/henryJung/ksp/processing/generator/PackageImports.kt:12-14 | adding to the ordered set keeps it duplicate-free, keeps the old entries as a prefix and adds exactly the new pair |
| Imports.InsertAll | ksp/src/main/kotlin/com/github/henryJung/ksp/processing/generator/PackageImports.kt:10 | adding a batch keeps the set duplicate-free, keeps the old entries as a prefix and holds exactly the old and the added pairs |
| Imports.InsertIdempotent | ksp/src/main/kotlin/com/github/henryJung/ksp/processing/generator/PackageImports.kt:12-14 | adding a pair twice is adding it once |
| Imports.InsertAllPresent | ksp/src/main/kotlin/com/github/henryJung/ksp/processing/generator/PackageImports.kt:12-14 | adding pairs already present changes nothing |
| Imports.InsertAllAppend | ksp/src/main/kotlin/com/github/henryJung/ksp/processing/generator/PackageImports.kt:10 | adding two batches in turn is adding their concatenation |
| Imports.KeptImports | ksp/src/main/kotlin/com/github/henryJung/ksp/processing/generator/PackageImports.kt:32 | the emitted entries are exactly the stored ones whose class name is not a type-parameter name |
| Imports.FormattedPrefixIsKept | ksp/src/main/kotlin/com/github/henryJung/ksp/processing/generator/PackageImports.kt:28-39 | after each step the text is one statement per kept entry so far, plus the blank line once the last stored entry was emitted |
| Imports.FormattedImportsShape | ksp/src/main/kotlin/com/github/henryJung/ksp/processing/generator/PackageImports.kt:24-42 | the formatted imports are one statement per kept entry in stored order, then a blank line only if the last stored entry is kept |
| Imports.PackageImports.constructor | ksp/src/main/kotlin/com/github/henryJung/ksp/processing/generator/PackageImports.kt:8-10 | a fresh collector is empty |
| Imports.PackageImports.AddImport | ksp/src/main/kotlin/com/github/henryJung/ksp/processing/generator/PackageImports.kt:12-14 | the imports become `Insert(old, (package, class))` and stay duplicate-free |
| Imports.PackageImports.AddTypeImport | ksp/src/main/kotlin/com/github/henryJung/ksp/processing/generator/PackageImports.kt:16-22 | adds the type's declaration package and simple name, as `AddImport` would |
| Imports.PackageImports.AddTypeParameters | ksp/src/main/kotlin/com/github/henryJung/ksp/processing/generator/MappingFunctionGenerator.kt:26 | the registered type parameters become the old ones plus the given ones |
| Imports.PackageImports.AsFormattedImports | ksp/src/main/kotlin/com/github/henryJung/ksp/processing/generator/PackageImports.kt:24-42 | the loop returns `FormattedImports` of the stored imports and the registered names |
| Text.ArgumentLineEnding | ksp/src/main/kotlin/com/github/henryJung/ksp/processing/generator/MappingFunctionGenerator.kt:429-432 | non-empty iff another item follows, and then it starts with a comma |
| Text.ListedPrefix | ksp/src/main/kotlin/com/github/henryJung/ksp/processing/generator/MappingFunctionGenerator.kt:136-150 | after `n` steps of a separator loop the text is the items joined, plus the ending of the last item written |
| Text.ListedIsJoin | ksp/src/main/kotlin/com/github/henryJung/ksp/processing/generator/MappingFunctionGenerator.kt:117-121 | a complete separator loop writes the items joined by separator and terminator, then one terminator |
| Text.BracketedListIsJoin | ksp/src/main/kotlin/com/github/henryJung/ksp/processing/generator/MappingFunctionGenerator.kt:134-152 | a non-empty bracketed list is `<` + items joined by ", " + `>` |
| TypeRenderer.ConvertedTypeArguments | ksp/src/main/kotlin/com/github/henryJung/ksp/processing/generator/MappingFunctionGenerator.kt:330-369 | the result always starts with the text passed in |
| TypeRenderer.ConvertTypeArgumentToString | ksp/src/main/kotlin/com/github/henryJung/ksp/processing/generator/MappingFunctionGenerator.kt:330-369 | the recursive method returns `ConvertedTypeArguments` for the deque `owner.arguments[from..]` |
| TypeRenderer.ConvertedStep | ksp/src/main/kotlin/com/github/henryJung/ksp/processing/generator/MappingFunctionGenerator.kt:339-368 | one resolved argument: optional `<`, its name and nested rendering, then ", " and the rest, or `>` |
| TypeRenderer.ConvertedSuffix | ksp/src/main/kotlin/com/github/henryJung/ksp/processing/generator/MappingFunctionGenerator.kt:330-369 | for a fully resolved type the walk writes the remaining argument texts joined by ", " and a closing `>` |
| TypeRenderer.ConvertedIsReference | ksp/src/main/kotlin/com/github/henryJung/ksp/processing/generator/MappingFunctionGenerator.kt:330-369 | rendering a fully resolved type's arguments gives its reference argument text, `<A, B<C>>` or nothing |
| TypeRenderer.RenderedIsTypeText | ksp/src/main/kotlin/com/github/henryJung/ksp/processing/generator/MappingFunctionGenerator.kt:197-201 | a fully resolved type renders as its depth-first reference text |
| TypeRenderer.ConvertedWritesNoMarker | ksp/src/main/kotlin/com/github/henryJung/ksp/processing/generator/MappingFunctionGenerator.kt:343-349 | the renderer never writes a '?' of its own, whatever the nested nullability |
| TypeRenderer.StarStopsRendering | ksp/src/main/kotlin/com/github/henryJung/ksp/processing/generator/MappingFunctionGenerator.kt:335-336 | `Map<String, *>` renders as `Map<String, `: a star ends the walk with the list open |
| TypeRenderer.NonProjectionStopsRendering | ksp/src/main/kotlin/com/github/henryJung/ksp/processing/generator/MappingFunctionGenerator.kt:335-336 | a star or unresolved argument after resolved ones returns what was written so far: the earlier argument texts joined by ", " with a trailing ", " and no closing `>`, or the text unchanged at the head of the deque |
| FieldMatcher.ReferencedTypeParameter | ksp/src/main/kotlin/com/github/henryJung/ksp/processing/generator/MappingFunctionGenerator.kt:260-263 | the first target type parameter named like the target type; none iff no parameter has that name |
| FieldMatcher.Examine | ksp/src/main/kotlin/com/github/henryJung/ksp/processing/generator/MappingFunctionGenerator.kt:253-316 | not a candidate iff the name test fails; a bound match iff a candidate passes the bound branch (a bound that is a supertype of the source type, and assignable as a type parameter); a plain match iff it fails that branch and passes the assignability test; incompatible iff it fails both; a plain match carries a label iff the target type names a type parameter |
| FieldMatcher.MatchOf | ksp/src/main/kotlin/com/github/henryJung/ksp/processing/generator/MappingFunctionGenerator.kt:283-308 | no match iff the property is not a candidate or fails both branches; a match names both properties, never feeds a nullable source into a non-null target, and without a type parameter needs an assignable source |
| FieldMatcher.LastMatchIsLastPassingCandidate | ksp/src/main/kotlin/com/github/henryJung/ksp/processing/generator/MappingFunctionGenerator.kt:237-318 | the recorded match is the one of the last candidate that passed a branch; none iff no candidate passed |
| FieldMatcher.AppendedCandidate | ksp/src/main/kotlin/com/github/henryJung/ksp/processing/generator/MappingFunctionGenerator.kt:245-317 | a further property overwrites the match when it passes, keeps it otherwise, and warns only as an incompatible candidate |
| FieldMatcher.MatchComesFromCandidate | ksp/src/main/kotlin/com/github/henryJung/ksp/processing/generator/MappingFunctionGenerator.kt:253-308 | a recorded match names the target and some candidate property with compatible nullability |
| FieldMatcher.MatcherPartition | ksp/src/main/kotlin/com/github/henryJung/ksp/processing/generator/MappingFunctionGenerator.kt:320-324 | every target parameter lands in exactly one of matched, missing (no match, no default) and dropped (no match, default) |
| FieldMatcher.MatcherKeepsOrder | ksp/src/main/kotlin/com/github/henryJung/ksp/processing/generator/MappingFunctionGenerator.kt:235-325 | matched and missing lists follow constructor order: matching a concatenation concatenates the results |
| FieldMatcher.ScanStep | ksp/src/main/kotlin/com/github/henryJung/ksp/processing/generator/MappingFunctionGenerator.kt:245-317 | one more property updates the match, warnings and imports according to its verdict |
| FieldMatcher.ScanSourceProperties | ksp/src/main/kotlin/com/github/henryJung/ksp/processing/generator/MappingFunctionGenerator.kt:237-318 | the scan returns the last match, the warnings of incompatible candidates, and adds the imports of bound matches in order |
| FieldMatcher.ScanSourceProperty | ksp/src/main/kotlin/com/github/henryJung/ksp/processing/generator/MappingFunctionGenerator.kt:245-317 | one iteration extends the match, warnings and imports from the first `j` properties to the first `j + 1` |
| FieldMatcher.MatchTargetParameter | ksp/src/main/kotlin/com/github/henryJung/ksp/processing/generator/MappingFunctionGenerator.kt:235-325 | one target parameter extends matched, missing, warnings and imports from the first `i` parameters to the first `i + 1` |
| FieldMatcher.GetMatchingAndMissingArguments | ksp/src/main/kotlin/com/github/henryJung/ksp/processing/generator/MappingFunctionGenerator.kt:222-328 | returns the missing and matched arguments and the warnings of the specification functions, and adds the matcher's imports in order |
| FieldMatcher.CandidateWarningsAreIncompatibilities | ksp/src/main/kotlin/com/github/henryJung/ksp/processing/generator/MappingFunctionGenerator.kt:309-316 | the scan only ever warns about an incompatible candidate |
| FieldMatcher.MatcherWarningsAreIncompatibilities | ksp/src/main/kotlin/com/github/henryJung/ksp/processing/generator/MappingFunctionGenerator.kt:235-325 | every matcher warning is about an incompatible candidate |
| FunctionHeader.BoundImportsStep | ksp/src/main/kotlin/com/github/henryJung/ksp/processing/generator/MappingFunctionGenerator.kt:143-147 | a parameter adds its first bound's import iff arguments are missing and it has a bound |
| FunctionHeader.TypeParameterClauseIsJoin | ksp/src/main/kotlin/com/github/henryJung/ksp/processing/generator/MappingFunctionGenerator.kt:134-152 | a non-empty clause is the entries joined by ", " in angle brackets |
| FunctionHeader.NoBoundsWithoutMissingArguments | ksp/src/main/kotlin/com/github/henryJung/ksp/processing/generator/MappingFunctionGenerator.kt:143-148 | with no missing argument the clause lists bare names and imports nothing |
| FunctionHeader.AppendTypeParameterEntry | ksp/src/main/kotlin/com/github/henryJung/ksp/processing/generator/MappingFunctionGenerator.kt:137-149 | appends one entry and its separator, importing the bound only when arguments are missing |
| FunctionHeader.AppendNextTypeParameter | ksp/src/main/kotlin/com/github/henryJung/ksp/processing/generator/MappingFunctionGenerator.kt:136-150 | one iteration extends the clause and its imports from `index` entries to `index + 1` |
| FunctionHeader.AppendTypeParameterList | ksp/src/main/kotlin/com/github/henryJung/ksp/processing/generator/MappingFunctionGenerator.kt:135-150 | writes `<` and every entry with its separator, and adds the bounds' imports in order |
| FunctionHeader.AppendTargetClassTypeParameter | ksp/src/main/kotlin/com/github/henryJung/ksp/processing/generator/MappingFunctionGenerator.kt:128-153 | appends the bracketed clause (nothing without type parameters) and adds the bounds' imports |
| FunctionHeader.GenerateExtensionFunctionName | ksp/src/main/kotlin/com/github/henryJung/ksp/processing/generator/MappingFunctionGenerator.kt:409-427 | `Source<FirstBound>.toTarget`, adding the first bound's import when there is one |
| FunctionHeader.OnlyFirstTypeParameterShows | ksp/src/main/kotlin/com/github/henryJung/ksp/processing/generator/MappingFunctionGenerator.kt:417-424 | sources that agree on name and first type parameter get the same name and imports |
| FunctionHeader.UnboundedFirstTypeParameterRendersEmpty | ksp/src/main/kotlin/com/github/henryJung/ksp/processing/generator/MappingFunctionGenerator.kt:417-424 | an unbounded first type parameter gives `Source<>.toTarget`, none gives `Source.toTarget`; neither imports |
| MissingDeclaration.ArgumentTypes | ksp/src/main/kotlin/com/github/henryJung/ksp/processing/generator/MappingFunctionGenerator.kt:167-182 | a star becomes `Asterix` and a resolved argument its `ArgumentClass`, position by position |
| MissingDeclaration.MissingArgumentDeclaration | ksp/src/main/kotlin/com/github/henryJung/ksp/processing/generator/MappingFunctionGenerator.kt:155-220 | fails iff some type argument is unresolved, with that parameter's error; otherwise one line starting with a tab and the name and ending in a line break |
| MissingDeclaration.AppendArgumentType | ksp/src/main/kotlin/com/github/henryJung/ksp/processing/generator/MappingFunctionGenerator.kt:189-209 | appends the argument text and separator; a class adds its own import, a star nothing |
| MissingDeclaration.ArgumentClassImportsStep | ksp/src/main/kotlin/com/github/henryJung/ksp/processing/generator/MappingFunctionGenerator.kt:204 | one more argument adds its class's import, a star none |
| MissingDeclaration.AppendNextArgumentType | ksp/src/main/kotlin/com/github/henryJung/ksp/processing/generator/MappingFunctionGenerator.kt:188-210 | one iteration extends the list and its imports from `index` arguments to `index + 1` |
| MissingDeclaration.AppendOpenArgumentList | ksp/src/main/kotlin/com/github/henryJung/ksp/processing/generator/MappingFunctionGenerator.kt:187-210 | writes `<` and every argument with its separator, adding the argument classes' imports in order |
| MissingDeclaration.AppendArgumentTypes | ksp/src/main/kotlin/com/github/henryJung/ksp/processing/generator/MappingFunctionGenerator.kt:186-212 | appends the bracketed argument list and adds the argument classes' imports |
| MissingDeclaration.ConvertMissingArgumentToDeclarationText | ksp/src/main/kotlin/com/github/henryJung/ksp/processing/generator/MappingFunctionGenerator.kt:155-220 | returns `MissingArgumentDeclaration`; imports the parameter's type first, then its argument classes unless the fatal error stops it |
| MissingDeclaration.DeclarationTextIsJoin | ksp/src/main/kotlin/com/github/henryJung/ksp/processing/generator/MappingFunctionGenerator.kt:184-217 | with arguments the line is `\tname: Type<A, B>?` with the texts joined by ", ", then the separator |
| MissingDeclaration.ArgumentClassMarker | ksp/src/main/kotlin/com/github/henryJung/ksp/processing/generator/MappingFunctionGenerator.kt:197-203 | an argument class's text holds '?' iff it is nullable itself |
| MissingDeclaration.StarArgumentDeclaration | ksp/src/main/kotlin/com/github/henryJung/ksp/processing/generator/MappingFunctionGenerator.kt:206-208 | a non-last `items: List<*>?` declares `\titems: List<*>?,` |
| MappingFunctionGenerator.DeclarationResults | ksp/src/main/kotlin/com/github/henryJung/ksp/processing/generator/MappingFunctionGenerator.kt:90-99 | the result of each missing argument's declaration, with the last-index flag on the last one only |
| MappingFunctionGenerator.FailureStays | ksp/src/main/kotlin/com/github/henryJung/ksp/processing/generator/MappingFunctionGenerator.kt:90-99 | once a declaration fails, the outcome and the imports stay fixed |
| MappingFunctionGenerator.ConcatenatedFailIff | ksp/src/main/kotlin/com/github/henryJung/ksp/processing/generator/MappingFunctionGenerator.kt:90-99 | the loop fails iff some step fails, with the error of the first failing step |
| MappingFunctionGenerator.DeclarationsFailIff | ksp/src/main/kotlin/com/github/henryJung/ksp/processing/generator/MappingFunctionGenerator.kt:90-99 | the declarations fail iff some missing argument has an unresolved type argument, with the first such argument's error |
| MappingFunctionGenerator.DeclarationsStep | ksp/src/main/kotlin/com/github/henryJung/ksp/processing/generator/MappingFunctionGenerator.kt:90-99 | a failing declaration fixes the outcome and imports of the whole loop; a successful one extends the text |
| MappingFunctionGenerator.AppendMissingDeclarations | ksp/src/main/kotlin/com/github/henryJung/ksp/processing/generator/MappingFunctionGenerator.kt:90-99 | appends all declarations or returns the first error, adding the imports up to the failure |
| MappingFunctionGenerator.ForwardedItems | ksp/src/main/kotlin/com/github/henryJung/ksp/processing/generator/MappingFunctionGenerator.kt:117-121 | one `\tp = p` item per missing argument |
| MappingFunctionGenerator.AppendMatchedLine | ksp/src/main/kotlin/com/github/henryJung/ksp/processing/generator/MappingFunctionGenerator.kt:105-114 | appends the assignment, the ` as Label` cast when there is a label, and the line ending |
| MappingFunctionGenerator.AppendNextMatchedLine | ksp/src/main/kotlin/com/github/henryJung/ksp/processing/generator/MappingFunctionGenerator.kt:104-115 | one iteration extends the matched lines from `index` to `index + 1` |
| MappingFunctionGenerator.AppendMatchedLines | ksp/src/main/kotlin/com/github/henryJung/ksp/processing/generator/MappingFunctionGenerator.kt:104-115 | appends every matched line in order |
| MappingFunctionGenerator.AppendForwardedLines | ksp/src/main/kotlin/com/github/henryJung/ksp/processing/generator/MappingFunctionGenerator.kt:117-121 | appends `\tp = p` per missing argument, with a comma after all but the last |
| MappingFunctionGenerator.AppendHeader | ksp/src/main/kotlin/com/github/henryJung/ksp/processing/generator/MappingFunctionGenerator.kt:64-79 | writes `fun `, the type-parameter clause, the name and `(`, adding the bounds' and then the name's imports |
| MappingFunctionGenerator.AppendConstructorCall | ksp/src/main/kotlin/com/github/henryJung/ksp/processing/generator/MappingFunctionGenerator.kt:102-123 | appends `) = Target(`, the matched lines, the forwarded lines and `)` |
| MappingFunctionGenerator.AssembleExtensionMapperFunction | ksp/src/main/kotlin/com/github/henryJung/ksp/processing/generator/MappingFunctionGenerator.kt:64-125 | after the matcher, builds `Assembled` and adds the clause, name and declaration imports in order |
| MappingFunctionGenerator.GenerateExtensionMapperFunction | ksp/src/main/kotlin/com/github/henryJung/ksp/processing/generator/MappingFunctionGenerator.kt:42-126 | returns `ExtensionMapperFunction` and adds the matcher's and the assembly's imports in order |
| MappingFunctionGenerator.GenerateMappingFunction | ksp/src/main/kotlin/com/github/henryJung/ksp/processing/generator/MappingFunctionGenerator.kt:17-40 | registers the target's type parameters, imports the target then the source class, then generates the function named after the target |
| MappingFunctionGenerator.MatchedLinesAreCommaTerminated | ksp/src/main/kotlin/com/github/henryJung/ksp/processing/generator/MappingFunctionGenerator.kt:104-115 | every matched line ends in a comma, the last one included, whatever the number of missing arguments |
| MappingFunctionGenerator.ForwardedLinesIsJoin | ksp/src/main/kotlin/com/github/henryJung/ksp/processing/generator/MappingFunctionGenerator.kt:117-121 | the forwarded lines are the items joined by ",\n" and closed by a line break |
| MappingFunctionGenerator.GenerationFailsIff | ksp/src/main/kotlin/com/github/henryJung/ksp/processing/generator/MappingFunctionGenerator.kt:155-182 | a function fails iff some missing argument has an unresolved type argument, with the first such argument's error |
| MappingFunctionGenerator.NoMappableWarningIff | ksp/src/main/kotlin/com/github/henryJung/ksp/processing/generator/MappingFunctionGenerator.kt:81-89 | the no-mappable-argument warning is given iff arguments are missing and none matched |
| MappingFunctionGenerator.GeneratedFunctionShape | ksp/src/main/kotlin/com/github/henryJung/ksp/processing/generator/MappingFunctionGenerator.kt:64-123 | a generated function starts with `fun`, its type-parameter clause, its name and `(`, and ends with `)` and a blank line |
| MatcherScenarios.ZooIsAcyclic | ksp/src/main/kotlin/com/github/henryJung/symbol_processor/Extensions.kt:23-33 | the sample hierarchy `Dog : Mammal : Animal` is acyclic |
| MatcherScenarios.BoundBranchFollowsSupertypes | ksp/src/main/kotlin/com/github/henryJung/ksp/processing/generator/MappingFunctionGenerator.kt:265-308 | a `Dog` fills `pet: T?` with `T : Animal` through the bound branch, labelled `Animal?`; an `Animal` falls to the plain branch, labelled `T?` |
| MatcherScenarios.AliasMatchesMockEntity | app/src/main/java/com/github/henryJung/app/model/MockEntity.kt:7-13 | `@MapperProperty("name") name222` is the source of the target parameter `name` |
| MapperVisitor.AsciiLowercase | ksp/src/main/kotlin/com/github/henryJung/ksp/processing/MapperVisitor.kt:78 | lowercasing keeps the length |
| MapperVisitor.AsciiLowercaseSpec | ksp/src/main/kotlin/com/github/henryJung/ksp/processing/MapperVisitor.kt:78 | no capital remains, other characters are kept, and lowercasing is idempotent |
| MapperVisitor.GenerateCode | ksp/src/main/kotlin/com/github/henryJung/ksp/processing/MapperVisitor.kt:68-92 | package name, file name and text: the suppression header iff type parameters are registered, the package line, the formatted imports, both functions |
| MapperVisitor.SharedImportsAfterBoth | ksp/src/main/kotlin/com/github/henryJung/ksp/processing/MapperVisitor.kt:43-57 | the collector after both directions holds the forward imports followed by the backward ones |
| MapperVisitor.GenerateBothDirections | ksp/src/main/kotlin/com/github/henryJung/ksp/processing/MapperVisitor.kt:37-65 | generates annotated-to-target, then target-to-annotated, with one shared collector, and returns `BothDirections` |
| MapperVisitor.VisitFunctionDeclaration | ksp/src/main/kotlin/com/github/henryJung/ksp/processing/MapperVisitor.kt:25-66 | returns `Visit`: a missing `Mapper` annotation or a first argument that is not a type fails with that error; a qualified name no known class has fails with `MappingTargetNotFound` of that name; otherwise both directions for the first known class with the name |
| MapperVisitor.TargetNotFoundIff | ksp/src/main/kotlin/com/github/henryJung/ksp/processing/MapperVisitor.kt:29-35 | the target is reported missing iff the annotation names a type whose qualified name no known class has |
| MapperVisitor.VisitClassDeclaration | ksp/src/main/kotlin/com/github/henryJung/ksp/processing/MapperVisitor.kt:21-23 | a class without a primary constructor fails; otherwise the constructor is visited |
| MapperVisitor.SharedTypeParametersNonEmpty | ksp/src/main/kotlin/com/github/henryJung/ksp/processing/generator/MappingFunctionGenerator.kt:26 | the registered type parameters are non-empty iff either class declares one |
| MapperVisitor.FileTextHeader | ksp/src/main/kotlin/com/github/henryJung/ksp/processing/MapperVisitor.kt:85-88 | the file starts with the suppression header iff it was asked for |
| MapperVisitor.SuppressHeaderIff | ksp/src/main/kotlin/com/github/henryJung/ksp/processing/MapperVisitor.kt:85-87 | a generated file starts with the suppression header iff the annotated or the target class declares type parameters |
| MapperVisitor.SharedImportsOrder | ksp/src/main/kotlin/com/github/henryJung/ksp/processing/MapperVisitor.kt:37-57 | the shared imports hold no duplicate, start with the target class, hold the annotated class and keep the forward imports as a prefix |
| MapperVisitor.BothDirectionsOutcome | ksp/src/main/kotlin/com/github/henryJung/ksp/processing/MapperVisitor.kt:37-65 | the file is produced iff both directions succeed; otherwise the first failing direction's unresolvable-argument error; a file ends with the forward then the backward function and carries their warnings in that order |
| MapperVisitor.MapperLowercase | ksp/src/main/kotlin/com/github/henryJung/ksp/processing/MapperVisitor.kt:78 | the annotation name `Mapper` lowercases to `mapper`, the package suffix |
| MapperVisitor.MapperFileNaming | ksp/src/main/kotlin/com/github/henryJung/ksp/processing/MapperVisitor.kt:75-83 | the file lives in `<package>.mapper` and is named `<Class>Mapper` |

## Left out

- The KSP symbol graph and `Resolver` are immutable descriptors and a
  table of known class declarations. Lazy resolution, `toString()` of KSP
  nodes and source positions are not modelled. Class and parameter names
  are simple names, and a bound's printed text is an input field.
- `containsSupertype` is modelled on a topologically ordered table: the
  `Acyclic` precondition asks that every direct supertype of a known class
  resolves to a class listed earlier in the table, or to none. This rules
  out a cyclic supertype hierarchy, on which the source would recurse
  forever. An acyclic hierarchy listed in another order is not covered
  until its table is reordered.
- The target package at `MappingFunctionGenerator.kt:23` comes from
  `containingFile`. The model takes the declaration's package, assuming the
  two agree.
- `KSPLogger` output is not modelled. A warning is a `Warning` value
  without its (Korean) message. Warnings logged before a fatal error are
  not returned. `logAndThrowError` and the `!!`, `first()` and `as` that
  would throw are `Failure` values of `Error`.
- `CodeGenerator.createNewFile`, the output stream and its byte encoding are
  left out. The visitor returns the file's package, name and text instead.
- `String.lowercase()` is modelled on ASCII letters only.
- The element-by-element comparison in `matches`
  (`MappingFunctionGenerator.kt:393-406`) is unreachable and is modelled as
  such.
- `MapperSymbolProcessor`, the processor providers and the annotation
  declarations are not part of this model. Neither are the choice of
  annotated classes and the `isDataClass` check (`Extensions.kt:12`) the
  processor makes; a class's modifiers are kept as data only.
