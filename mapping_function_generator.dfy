/**
  `MappingFunctionGenerator`: one mapping extension function, from the field
  match to the finished text (MappingFunctionGenerator.kt:17-126).
*/
module MappingFunctionGenerator {
  import opened Descriptors
  import opened Extensions
  import opened Text
  import opened Imports
  import opened FieldMatcher
  import opened FunctionHeader
  import opened MissingDeclaration

  /** The text of a generated function and the warnings logged for it. */
  datatype Generated = Generated(text: string, warnings: seq<Warning>)

  /** The result of each missing argument's declaration, in order. */
  function DeclarationResults(missing: seq<ValueParameter>): (r: seq<Result<string, Error>>)
    ensures |r| == |missing|
    ensures forall i :: 0 <= i < |missing| ==> r[i] == MissingArgumentDeclaration(missing[i], |missing| - 1 == i)
  {
    seq(|missing|, i requires 0 <= i < |missing| => MissingArgumentDeclaration(missing[i], |missing| - 1 == i))
  }

  /** The imports each missing argument's declaration adds, in order. */
  function DeclarationImportLists(missing: seq<ValueParameter>): (r: seq<seq<ImportEntry>>)
    ensures |r| == |missing|
    ensures forall i :: 0 <= i < |missing| ==> r[i] == DeclarationImports(missing[i])
  {
    seq(|missing|, i requires 0 <= i < |missing| => DeclarationImports(missing[i]))
  }

  /** The first `n` results concatenated; the first failure wins. */
  function Concatenated(results: seq<Result<string, Error>>, n: nat): Result<string, Error>
    requires n <= |results|
  {
    if n == 0 then Success("")
    else match Concatenated(results, n - 1)
      case Failure(e) => Failure(e)
      case Success(text) =>
        match results[n - 1]
        case Failure(e) => Failure(e)
        case Success(declaration) => Success(text + declaration)
  }

  /** The imports of the first `n` steps, up to and including the first
      failing one. */
  function ImportsUntilFailure(results: seq<Result<string, Error>>, imports: seq<seq<ImportEntry>>, n: nat): seq<ImportEntry>
    requires n <= |results| == |imports|
  {
    if n == 0 then []
    else if Concatenated(results, n - 1).Failure? then ImportsUntilFailure(results, imports, n - 1)
    else ImportsUntilFailure(results, imports, n - 1) + imports[n - 1]
  }

  /** Once a step fails, the outcome stays that failure and no further
      imports are added. */
  lemma {:induction false} FailureStays(results: seq<Result<string, Error>>, imports: seq<seq<ImportEntry>>, m: nat, n: nat)
    requires m <= n <= |results| == |imports| && Concatenated(results, m).Failure?
    ensures Concatenated(results, n) == Concatenated(results, m)
    ensures ImportsUntilFailure(results, imports, n) == ImportsUntilFailure(results, imports, m)
    decreases n
  {
    if m < n {
      FailureStays(results, imports, m, n - 1);
    }
  }

  /** Declarations of the first `n` missing arguments (:90-99); the first
      argument with an unresolvable type argument stops generation. */
  function Declarations(missing: seq<ValueParameter>, n: nat): Result<string, Error>
    requires n <= |missing|
  {
    Concatenated(DeclarationResults(missing), n)
  }

  /** Imports the declarations add, up to and including a fatal one. */
  function DeclarationsImports(missing: seq<ValueParameter>, n: nat): seq<ImportEntry>
    requires n <= |missing|
  {
    ImportsUntilFailure(DeclarationResults(missing), DeclarationImportLists(missing), n)
  }

  /** The concatenation fails exactly when some step among the first `n`
      fails, and then with the error of the first failing step. */
  lemma {:induction false} ConcatenatedFailIff(results: seq<Result<string, Error>>, n: nat)
    requires n <= |results|
    ensures Concatenated(results, n).Failure? <==> exists k :: 0 <= k < n && results[k].Failure?
    ensures Concatenated(results, n).Failure? ==>
              exists k :: 0 <= k < n && results[k].Failure?
                && Concatenated(results, n).error == results[k].error
                && forall j :: 0 <= j < k ==> results[j].Success?
  {
    if n > 0 {
      ConcatenatedFailIff(results, n - 1);
    }
  }

  /** The declarations fail exactly when some argument among the first `n`
      has an unresolvable type argument, and then with the error of the
      first such argument. */
  lemma DeclarationsFailIff(missing: seq<ValueParameter>, n: nat)
    requires n <= |missing|
    ensures Declarations(missing, n).Failure? <==> exists k :: 0 <= k < n && !Resolvable(missing[k].ty.arguments)
    ensures Declarations(missing, n).Failure? ==>
              exists k :: 0 <= k < n && !Resolvable(missing[k].ty.arguments)
                && Declarations(missing, n).error == UnresolvableArgumentType(missing[k].name)
                && forall j :: 0 <= j < k ==> Resolvable(missing[j].ty.arguments)
  {
    var results := DeclarationResults(missing);
    ConcatenatedFailIff(results, n);
    forall k | 0 <= k < n
      ensures results[k].Failure? <==> !Resolvable(missing[k].ty.arguments)
      ensures results[k].Failure? ==> results[k].error == UnresolvableArgumentType(missing[k].name)
    {
    }
  }

  /** The " as Label" cast of a matched line, if it has a label (:110-112). */
  function CastText(m: MatchingArgument): string
  {
    match m.targetClassPropertyGenericTypeName
    case Some(name) => " as " + name
    case None => ""
  }

  /** One matched line of the constructor call (:104-115). */
  function MatchedLine(m: MatchingArgument, hasNextLine: bool): string
  {
    ("\t" + m.targetClassPropertyName + " = this." + m.sourceClassPropertyName) + CastText(m)
    + (ArgumentLineEnding(hasNextLine, false) + "\n")
  }

  /** The matched lines for the first `n` matches; `hasNextLine` is computed
      as at :106 from the number of missing arguments. */
  function MatchedLines(matched: seq<MatchingArgument>, missingCount: nat, n: nat): string
    requires n <= |matched|
  {
    if n == 0 then ""
    else MatchedLines(matched, missingCount, n - 1)
         + MatchedLine(matched[n - 1], missingCount - 1 != n - 1 || missingCount > 0)
  }

  /** The forwarded parameter `\tp = p` of a missing argument (:117-121). */
  function ForwardedItems(missing: seq<ValueParameter>): (r: seq<string>)
    ensures |r| == |missing|
    ensures forall i :: 0 <= i < |missing| ==> r[i] == "\t" + missing[i].name + " = " + missing[i].name
  {
    seq(|missing|, i requires 0 <= i < |missing| => "\t" + missing[i].name + " = " + missing[i].name)
  }

  function ForwardedLines(missing: seq<ValueParameter>): string
  {
    Listed(ForwardedItems(missing), ",", "\n", |missing|)
  }

  function Header(source: ClassDeclaration, target: ClassDeclaration, tps: seq<TypeParameter>, isMissingArguments: bool): string
  {
    "fun " + TypeParameterClause(tps, isMissingArguments) + ExtensionFunctionName(source, target) + "(\n"
  }

  /** What `generateExtensionMapperFunction` (MappingFunctionGenerator.kt:42-126)
      makes of the matcher's results: the header, the missing-argument
      declarations, the call of the target constructor with the matched and
      then the forwarded arguments; or the fatal error of a declaration. */
  function Assembled(source: ClassDeclaration, target: ClassDeclaration, tps: seq<TypeParameter>, targetClassName: string,
                     missing: seq<ValueParameter>, matched: seq<MatchingArgument>, matcherWarnings: seq<Warning>)
    : Result<Generated, Error>
  {
    match Declarations(missing, |missing|)
    case Failure(e) => Failure(e)
    case Success(declarations) =>
      Success(Generated(
        Header(source, target, tps, missing != []) + declarations
        + ") = " + targetClassName + "(\n"
        + MatchedLines(matched, |missing|, |matched|) + ForwardedLines(missing) + ")\n\n",
        matcherWarnings
        + (if missing != [] && matched == [] then [NoMappableArgument(source.declaration.simpleName, targetClassName)] else [])))
  }

  /** The generated function for a source and a target class. */
  function ExtensionMapperFunction(env: seq<ClassDeclaration>, source: ClassDeclaration, target: ClassDeclaration,
                                   tps: seq<TypeParameter>, targetClassName: string): Result<Generated, Error>
    requires Acyclic(env)
  {
    var targets := ConstructorParameters(target);
    Assembled(source, target, tps, targetClassName,
              MissingArguments(env, tps, targets, source.properties),
              MatchedArguments(env, tps, targets, source.properties),
              MatcherWarnings(env, tps, targets, source.properties))
  }

  /** The imports the assembly adds after the matcher, in order: bounds of
      the type-parameter clause, the bound in the name, and the types of the
      missing-argument declarations. */
  function AssemblyImports(source: ClassDeclaration, tps: seq<TypeParameter>, missing: seq<ValueParameter>): seq<ImportEntry>
  {
    BoundImports(tps, missing != [], |tps|) + NameImports(source) + DeclarationsImports(missing, |missing|)
  }

  /** The imports one function adds, in order: bounds met by the matcher,
      then those of the assembly. */
  function ExtensionMapperImports(env: seq<ClassDeclaration>, source: ClassDeclaration, target: ClassDeclaration,
                                  tps: seq<TypeParameter>): seq<ImportEntry>
    requires Acyclic(env)
  {
    var targets := ConstructorParameters(target);
    MatcherImports(env, tps, targets, source.properties)
    + AssemblyImports(source, tps, MissingArguments(env, tps, targets, source.properties))
  }

  lemma DeclarationsImportsStep(before: seq<ImportEntry>, missing: seq<ValueParameter>, n: nat)
    requires n < |missing| && Declarations(missing, n).Success?
    ensures InsertAll(before, DeclarationsImports(missing, n + 1))
         == InsertAll(InsertAll(before, DeclarationsImports(missing, n)), DeclarationImports(missing[n]))
  {
    assert DeclarationImportLists(missing)[n] == DeclarationImports(missing[n]);
    InsertAllAppend(before, DeclarationsImports(missing, n), DeclarationImports(missing[n]));
  }

  /** One step of the loop at :90-99: a failing declaration fixes the outcome
      and the imports of the whole loop; a successful one extends the text. */
  lemma DeclarationsStep(text: string, missing: seq<ValueParameter>, n: nat, written: string)
    requires n < |missing| && Declarations(missing, n).Success?
    requires written == text + Declarations(missing, n).value
    ensures var declaration := MissingArgumentDeclaration(missing[n], |missing| - 1 == n);
            if declaration.Failure? then
              Declarations(missing, |missing|) == Failure(declaration.error)
              && DeclarationsImports(missing, |missing|) == DeclarationsImports(missing, n + 1)
            else
              Declarations(missing, n + 1).Success?
              && written + declaration.value == text + Declarations(missing, n + 1).value
  {
    var declaration := MissingArgumentDeclaration(missing[n], |missing| - 1 == n);
    assert DeclarationResults(missing)[n] == declaration;
    if declaration.Failure? {
      FailureStays(DeclarationResults(missing), DeclarationImportLists(missing), n + 1, |missing|);
    } else {
      AppendedInTwo(text, Declarations(missing, n).value, declaration.value);
    }
  }

  /** The loop at :90-99 over the missing arguments. */
  method AppendMissingDeclarations(text: string, missing: seq<ValueParameter>, packageImports: PackageImports)
    returns (r: Result<string, Error>)
    requires packageImports.Valid()
    modifies packageImports`imports
    ensures packageImports.Valid()
    ensures r == match Declarations(missing, |missing|)
                 case Success(declarations) => Success(text + declarations)
                 case Failure(e) => Failure(e)
    ensures packageImports.imports == InsertAll(old(packageImports.imports), DeclarationsImports(missing, |missing|))
  {
    ghost var before := packageImports.imports;
    var written := text;
    var missingArgumentIndex := 0;
    while missingArgumentIndex < |missing|
      invariant 0 <= missingArgumentIndex <= |missing|
      invariant packageImports.Valid()
      invariant Declarations(missing, missingArgumentIndex).Success?
      invariant written == text + Declarations(missing, missingArgumentIndex).value
      invariant packageImports.imports == InsertAll(before, DeclarationsImports(missing, missingArgumentIndex))
    {
      DeclarationsImportsStep(before, missing, missingArgumentIndex);
      DeclarationsStep(text, missing, missingArgumentIndex, written);
      var declaration := ConvertMissingArgumentToDeclarationText(
        |missing| - 1 == missingArgumentIndex, missing[missingArgumentIndex], packageImports);
      if declaration.Failure? {
        return Failure(declaration.error);
      }
      written := written + declaration.value;
      missingArgumentIndex := missingArgumentIndex + 1;
    }
    r := Success(written);
  }

  /** One more matched line extends the lines written so far. */
  lemma MatchedLinesStep(text: string, matched: seq<MatchingArgument>, missingCount: nat, n: nat, written: string)
    requires n < |matched|
    requires written == text + MatchedLines(matched, missingCount, n)
    ensures written + MatchedLine(matched[n], missingCount - 1 != n || missingCount > 0)
         == text + MatchedLines(matched, missingCount, n + 1)
  {
    AppendedInTwo(text, MatchedLines(matched, missingCount, n), MatchedLine(matched[n], missingCount - 1 != n || missingCount > 0));
  }

  /** The body of the loop at :105-114: one matched line. */
  method AppendMatchedLine(text: string, matchingArgument: MatchingArgument, hasNextLine: bool) returns (r: string)
    ensures r == text + MatchedLine(matchingArgument, hasNextLine)
  {
    var lineEnding := ArgumentLineEnding(hasNextLine, false);
    var assignment := "\t" + matchingArgument.targetClassPropertyName + " = this." + matchingArgument.sourceClassPropertyName;
    r := text + assignment;
    var cast := "";
    if matchingArgument.targetClassPropertyGenericTypeName.Some? {
      cast := " as " + matchingArgument.targetClassPropertyGenericTypeName.value;
      r := r + cast;
    } else {
      assert r == r + cast;
    }
    r := r + (lineEnding + "\n");
    AppendedInThree(text, assignment, cast, lineEnding + "\n");
  }

  /** One iteration of the loop at :104-115. */
  method AppendNextMatchedLine(text: string, matched: seq<MatchingArgument>, missingCount: nat, index: nat, written: string)
    returns (r: string)
    requires index < |matched|
    requires written == text + MatchedLines(matched, missingCount, index)
    ensures r == text + MatchedLines(matched, missingCount, index + 1)
  {
    var hasNextLine := missingCount - 1 != index || missingCount > 0;
    MatchedLinesStep(text, matched, missingCount, index, written);
    r := AppendMatchedLine(written, matched[index], hasNextLine);
  }

  /** The loop at :104-115 over the matched arguments. */
  method AppendMatchedLines(text: string, matched: seq<MatchingArgument>, missingCount: nat) returns (r: string)
    ensures r == text + MatchedLines(matched, missingCount, |matched|)
  {
    r := text;
    var index := 0;
    while index < |matched|
      invariant 0 <= index <= |matched|
      invariant r == text + MatchedLines(matched, missingCount, index)
    {
      r := AppendNextMatchedLine(text, matched, missingCount, index, r);
      index := index + 1;
    }
  }

  /** The loop at :117-121 forwarding the missing arguments. */
  method AppendForwardedLines(text: string, missing: seq<ValueParameter>) returns (r: string)
    ensures r == text + ForwardedLines(missing)
  {
    r := text;
    ghost var items := ForwardedItems(missing);
    var index := 0;
    while index < |missing|
      invariant 0 <= index <= |missing|
      invariant r == text + Listed(items, ",", "\n", index)
    {
      var paramName := missing[index].name;
      var lineEnding := ArgumentLineEnding(|missing| - 1 != index, false);
      ListedExtendLines(text, items, index, r, lineEnding);
      r := r + ("\t" + paramName + " = " + paramName + lineEnding + "\n");
      index := index + 1;
    }
  }

  /** The header part of `generateExtensionMapperFunction` (:64-79). */
  method AppendHeader(sourceClass: ClassDeclaration, targetClass: ClassDeclaration,
                      targetClassTypeParameters: seq<TypeParameter>, isMissingArguments: bool,
                      packageImports: PackageImports)
    returns (r: string)
    requires packageImports.Valid()
    modifies packageImports`imports
    ensures packageImports.Valid()
    ensures r == Header(sourceClass, targetClass, targetClassTypeParameters, isMissingArguments)
    ensures packageImports.imports
         == InsertAll(old(packageImports.imports),
                      BoundImports(targetClassTypeParameters, isMissingArguments, |targetClassTypeParameters|)
                      + NameImports(sourceClass))
  {
    ghost var before := packageImports.imports;
    r := "fun ";
    r := AppendTargetClassTypeParameter(r, targetClassTypeParameters, packageImports, isMissingArguments);
    var name := GenerateExtensionFunctionName(sourceClass, targetClass, packageImports);
    r := r + name;
    r := r + "(\n";
    InsertAllAppend(before, BoundImports(targetClassTypeParameters, isMissingArguments, |targetClassTypeParameters|),
                    NameImports(sourceClass));
  }

  /** The constructor call of `generateExtensionMapperFunction` (:102-123). */
  method AppendConstructorCall(text: string, targetClassName: string, matchingArguments: seq<MatchingArgument>,
                               missingArguments: seq<ValueParameter>)
    returns (r: string)
    ensures r == text + ") = " + targetClassName + "(\n"
                 + MatchedLines(matchingArguments, |missingArguments|, |matchingArguments|)
                 + ForwardedLines(missingArguments) + ")\n\n"
  {
    r := text + ") = " + targetClassName + "(\n";
    r := AppendMatchedLines(r, matchingArguments, |missingArguments|);
    r := AppendForwardedLines(r, missingArguments);
    r := r + ")\n\n";
  }

  /** A failing declaration is the outcome of the whole assembly. */
  lemma AssembledFailure(source: ClassDeclaration, target: ClassDeclaration, tps: seq<TypeParameter>,
                         targetClassName: string, missing: seq<ValueParameter>, matched: seq<MatchingArgument>,
                         matcherWarnings: seq<Warning>)
    requires Declarations(missing, |missing|).Failure?
    ensures Assembled(source, target, tps, targetClassName, missing, matched, matcherWarnings)
         == Failure(Declarations(missing, |missing|).error)
  {
  }

  /** Successful declarations give the assembled text and warnings. */
  lemma AssembledSuccess(source: ClassDeclaration, target: ClassDeclaration, tps: seq<TypeParameter>,
                         targetClassName: string, missing: seq<ValueParameter>, matched: seq<MatchingArgument>,
                         matcherWarnings: seq<Warning>, declarations: string, text: string, warnings: seq<Warning>)
    requires Declarations(missing, |missing|) == Success(declarations)
    requires text == Header(source, target, tps, missing != []) + declarations
                     + ") = " + targetClassName + "(\n"
                     + MatchedLines(matched, |missing|, |matched|) + ForwardedLines(missing) + ")\n\n"
    requires warnings == matcherWarnings
                         + (if missing != [] && matched == [] then [NoMappableArgument(source.declaration.simpleName, targetClassName)] else [])
    ensures Assembled(source, target, tps, targetClassName, missing, matched, matcherWarnings)
         == Success(Generated(text, warnings))
  {
  }

  /** The part of `generateExtensionMapperFunction` (MappingFunctionGenerator.kt:64-125)
      after the matcher. */
  method AssembleExtensionMapperFunction(sourceClass: ClassDeclaration, targetClass: ClassDeclaration,
                                         targetClassTypeParameters: seq<TypeParameter>, targetClassName: string,
                                         missingArguments: seq<ValueParameter>,
                                         matchingArguments: seq<MatchingArgument>, matcherWarnings: seq<Warning>,
                                         packageImports: PackageImports)
    returns (r: Result<Generated, Error>)
    requires packageImports.Valid()
    modifies packageImports`imports
    ensures packageImports.Valid()
    ensures r == Assembled(sourceClass, targetClass, targetClassTypeParameters, targetClassName,
                           missingArguments, matchingArguments, matcherWarnings)
    ensures packageImports.imports
         == InsertAll(old(packageImports.imports), AssemblyImports(sourceClass, targetClassTypeParameters, missingArguments))
  {
    ghost var before := packageImports.imports;
    var warnings := matcherWarnings;
    var header := AppendHeader(sourceClass, targetClass, targetClassTypeParameters, missingArguments != [], packageImports);
    ghost var afterHeader := packageImports.imports;
    ghost var headerImports := BoundImports(targetClassTypeParameters, missingArguments != [], |targetClassTypeParameters|)
                               + NameImports(sourceClass);
    InsertAllAppend(before, headerImports, DeclarationsImports(missingArguments, |missingArguments|));
    var extensionFunctions := header;
    if missingArguments != [] {
      if matchingArguments == [] {
        warnings := warnings + [NoMappableArgument(sourceClass.declaration.simpleName, targetClassName)];
      }
      var declared := AppendMissingDeclarations(extensionFunctions, missingArguments, packageImports);
      if declared.Failure? {
        AssembledFailure(sourceClass, targetClass, targetClassTypeParameters, targetClassName,
                         missingArguments, matchingArguments, matcherWarnings);
        return Failure(declared.error);
      }
      extensionFunctions := declared.value;
    } else {
      assert Declarations(missingArguments, 0) == Success("");
      assert DeclarationsImports(missingArguments, 0) == [];
      assert extensionFunctions == header + "";
      assert warnings == warnings + [];
    }
    ghost var declarations := extensionFunctions[|header|..];
    assert extensionFunctions == header + declarations;
    extensionFunctions := AppendConstructorCall(extensionFunctions, targetClassName, matchingArguments, missingArguments);
    r := Success(Generated(extensionFunctions, warnings));
    AssembledSuccess(sourceClass, targetClass, targetClassTypeParameters, targetClassName,
                     missingArguments, matchingArguments, matcherWarnings, declarations, extensionFunctions, warnings);
  }

  /** `generateExtensionMapperFunction` (MappingFunctionGenerator.kt:42-126). */
  method GenerateExtensionMapperFunction(env: seq<ClassDeclaration>, sourceClass: ClassDeclaration,
                                         targetClass: ClassDeclaration, targetClassTypeParameters: seq<TypeParameter>,
                                         targetClassName: string, packageImports: PackageImports)
    returns (r: Result<Generated, Error>)
    requires Acyclic(env) && packageImports.Valid()
    modifies packageImports`imports
    ensures packageImports.Valid()
    ensures r == ExtensionMapperFunction(env, sourceClass, targetClass, targetClassTypeParameters, targetClassName)
    ensures packageImports.imports
         == InsertAll(old(packageImports.imports),
                      ExtensionMapperImports(env, sourceClass, targetClass, targetClassTypeParameters))
  {
    ghost var before := packageImports.imports;
    var missingArguments, matchingArguments, warnings :=
      GetMatchingAndMissingArguments(env, targetClass, sourceClass, targetClassTypeParameters, packageImports);
    ghost var afterMatcher := packageImports.imports;
    r := AssembleExtensionMapperFunction(sourceClass, targetClass, targetClassTypeParameters, targetClassName,
                                         missingArguments, matchingArguments, warnings, packageImports);
    InsertAllAppend(before, MatcherImports(env, targetClassTypeParameters, ConstructorParameters(targetClass), sourceClass.properties),
                    AssemblyImports(sourceClass, targetClassTypeParameters, missingArguments));
  }

  /** The imports `generateMappingFunction` adds: the target class, the
      source class, then those of the generated function. */
  function MappingFunctionImports(env: seq<ClassDeclaration>, source: ClassDeclaration, target: ClassDeclaration)
    : seq<ImportEntry>
    requires Acyclic(env)
  {
    [ImportOf(target.declaration), ImportOf(source.declaration)]
    + ExtensionMapperImports(env, source, target, target.typeParameters)
  }

  /** `generateMappingFunction` (MappingFunctionGenerator.kt:17-40): registers
      the target's type parameters and the imports of both classes, then
      generates the function named after the target class. */
  method GenerateMappingFunction(env: seq<ClassDeclaration>, sourceClass: ClassDeclaration,
                                 targetClass: ClassDeclaration, packageImports: PackageImports)
    returns (r: Result<Generated, Error>)
    requires Acyclic(env) && packageImports.Valid()
    modifies packageImports
    ensures packageImports.Valid()
    ensures r == ExtensionMapperFunction(env, sourceClass, targetClass, targetClass.typeParameters,
                                         targetClass.declaration.simpleName)
    ensures packageImports.targetClassTypeParameters
         == old(packageImports.targetClassTypeParameters) + set tp | tp in targetClass.typeParameters
    ensures packageImports.imports
         == InsertAll(old(packageImports.imports), MappingFunctionImports(env, sourceClass, targetClass))
  {
    ghost var before := packageImports.imports;
    var targetClassName := targetClass.declaration.simpleName;
    var targetPackageName := targetClass.declaration.packageName;
    var targetClassTypeParameters := targetClass.typeParameters;
    packageImports.AddTypeParameters(targetClassTypeParameters);
    packageImports.AddImport(targetPackageName, targetClassName);
    packageImports.AddImport(sourceClass.declaration.packageName, sourceClass.declaration.simpleName);
    ghost var classes := [ImportOf(targetClass.declaration), ImportOf(sourceClass.declaration)];
    assert packageImports.imports == InsertAll(before, classes) by {
      assert classes[..1] == [ImportOf(targetClass.declaration)];
      assert InsertAll(before, classes[..1]) == Insert(before, ImportOf(targetClass.declaration));
    }
    r := GenerateExtensionMapperFunction(env, sourceClass, targetClass, targetClassTypeParameters,
                                         targetClassName, packageImports);
    InsertAllAppend(before, classes, ExtensionMapperImports(env, sourceClass, targetClass, targetClassTypeParameters));
  }

  /** Reference text of matched lines: one assignment per match, each
      closed by a comma, whatever follows. */
  function CommaTerminatedLines(matched: seq<MatchingArgument>): string
  {
    if matched == [] then ""
    else
      var m := matched[|matched| - 1];
      CommaTerminatedLines(matched[..|matched| - 1])
      + ("\t" + m.targetClassPropertyName + " = this." + m.sourceClassPropertyName) + CastText(m) + ",\n"
  }

  /** Every matched line ends in a comma, also the last one before the
      closing parenthesis when no argument is missing: `hasNextLine` at :106
      holds for every index. */
  lemma {:induction false} MatchedLinesAreCommaTerminated(matched: seq<MatchingArgument>, missingCount: nat, n: nat)
    requires n <= |matched|
    ensures MatchedLines(matched, missingCount, n) == CommaTerminatedLines(matched[..n])
  {
    if n > 0 {
      var m := matched[n - 1];
      var assignment := "\t" + m.targetClassPropertyName + " = this." + m.sourceClassPropertyName;
      MatchedLinesAreCommaTerminated(matched, missingCount, n - 1);
      assert matched[..n][..n - 1] == matched[..n - 1];
      assert missingCount - 1 != n - 1 || missingCount > 0;
      assert ArgumentLineEnding(true, false) + "\n" == ",\n";
      assert MatchedLine(m, true) == assignment + CastText(m) + ",\n";
      AppendedInThree(CommaTerminatedLines(matched[..n - 1]), assignment, CastText(m), ",\n");
    }
  }

  /** The forwarded lines are the `\tp = p` items joined by ",\n" and closed
      by a line break; no comma after the last. */
  lemma ForwardedLinesIsJoin(missing: seq<ValueParameter>)
    ensures ForwardedLines(missing)
         == if missing == [] then "" else Join(ForwardedItems(missing), ",\n") + "\n"
  {
    if missing != [] {
      ListedIsJoin(ForwardedItems(missing), ",", "\n");
      assert "," + "\n" == ",\n";
    }
  }

  /** Generation fails exactly when a missing argument has an unresolvable
      type argument, and then with the error of the first such argument. */
  lemma GenerationFailsIff(env: seq<ClassDeclaration>, source: ClassDeclaration, target: ClassDeclaration,
                           tps: seq<TypeParameter>, targetClassName: string)
    requires Acyclic(env)
    ensures var missing := MissingArguments(env, tps, ConstructorParameters(target), source.properties);
            var r := ExtensionMapperFunction(env, source, target, tps, targetClassName);
            && (r.Failure? <==> exists k :: 0 <= k < |missing| && !Resolvable(missing[k].ty.arguments))
            && (r.Failure? ==>
                  exists k :: 0 <= k < |missing| && !Resolvable(missing[k].ty.arguments)
                    && r.error == UnresolvableArgumentType(missing[k].name)
                    && forall j :: 0 <= j < k ==> Resolvable(missing[j].ty.arguments))
  {
    var targets := ConstructorParameters(target);
    var missing := MissingArguments(env, tps, targets, source.properties);
    var matched := MatchedArguments(env, tps, targets, source.properties);
    var warnings := MatcherWarnings(env, tps, targets, source.properties);
    DeclarationsFailIff(missing, |missing|);
    var r := Assembled(source, target, tps, targetClassName, missing, matched, warnings);
    assert ExtensionMapperFunction(env, source, target, tps, targetClassName) == r;
    if Declarations(missing, |missing|).Failure? {
      AssembledFailure(source, target, tps, targetClassName, missing, matched, warnings);
      var k :| 0 <= k < |missing| && !Resolvable(missing[k].ty.arguments)
                 && Declarations(missing, |missing|).error == UnresolvableArgumentType(missing[k].name)
                 && forall j :: 0 <= j < k ==> Resolvable(missing[j].ty.arguments);
      assert r.Failure? && r.error == UnresolvableArgumentType(missing[k].name);
    } else {
      assert r.Success?;
    }
  }

  /** A generated function starts with `fun`, its type-parameter clause,
      its name and the opening parenthesis, and ends with the closing
      parenthesis of the constructor call and a blank line. */
  lemma GeneratedFunctionShape(env: seq<ClassDeclaration>, source: ClassDeclaration, target: ClassDeclaration,
                               tps: seq<TypeParameter>, targetClassName: string)
    requires Acyclic(env)
    requires ExtensionMapperFunction(env, source, target, tps, targetClassName).Success?
    ensures var missing := MissingArguments(env, tps, ConstructorParameters(target), source.properties);
            var text := ExtensionMapperFunction(env, source, target, tps, targetClassName).value.text;
            var header := "fun " + TypeParameterClause(tps, missing != []) + ExtensionFunctionName(source, target) + "(\n";
            && |header| + 3 <= |text|
            && text[..|header|] == header
            && text[|text| - 3..] == ")\n\n"
  {
    var targets := ConstructorParameters(target);
    AssembledShape(source, target, tps, targetClassName, MissingArguments(env, tps, targets, source.properties),
                   MatchedArguments(env, tps, targets, source.properties),
                   MatcherWarnings(env, tps, targets, source.properties));
  }

  /** `GeneratedFunctionShape` for any matcher results. */
  lemma AssembledShape(source: ClassDeclaration, target: ClassDeclaration, tps: seq<TypeParameter>,
                       targetClassName: string, missing: seq<ValueParameter>, matched: seq<MatchingArgument>,
                       matcherWarnings: seq<Warning>)
    requires Assembled(source, target, tps, targetClassName, missing, matched, matcherWarnings).Success?
    ensures var text := Assembled(source, target, tps, targetClassName, missing, matched, matcherWarnings).value.text;
            var header := Header(source, target, tps, missing != []);
            && |header| + 3 <= |text|
            && text[..|header|] == header
            && text[|text| - 3..] == ")\n\n"
  {
    var declarations := Declarations(missing, |missing|).value;
    var header := Header(source, target, tps, missing != []);
    var matchedLines := MatchedLines(matched, |missing|, |matched|);
    var text := header + declarations + ") = " + targetClassName + "(\n" + matchedLines + ForwardedLines(missing) + ")\n\n";
    var warnings := matcherWarnings
                    + (if missing != [] && matched == [] then [NoMappableArgument(source.declaration.simpleName, targetClassName)] else []);
    AssembledSuccess(source, target, tps, targetClassName, missing, matched, matcherWarnings, declarations, text, warnings);
    FramedFunction(header, declarations, targetClassName, matchedLines, ForwardedLines(missing));
  }

  /** The front and back of a function text assembled from its parts. */
  lemma FramedFunction(header: string, declarations: string, targetClassName: string, matchedLines: string,
                       forwarded: string)
    ensures var text := header + declarations + ") = " + targetClassName + "(\n" + matchedLines + forwarded + ")\n\n";
            && |header| + 3 <= |text|
            && text[..|header|] == header
            && text[|text| - 3..] == ")\n\n"
  {
    var body := declarations + ") = " + targetClassName + "(\n" + matchedLines + forwarded;
    var text := header + declarations + ") = " + targetClassName + "(\n" + matchedLines + forwarded + ")\n\n";
    assert text == header + body + ")\n\n";
    Framed(header, body, ")\n\n");
  }

  /** The front and back of a text framed by a header and a trailer. */
  lemma Framed(header: string, body: string, trailer: string)
    ensures var text := header + body + trailer;
            && |header| + |trailer| <= |text|
            && text[..|header|] == header
            && text[|text| - |trailer|..] == trailer
  {
  }

  /** A generated function warns that nothing maps exactly when arguments
      are missing and none matched (:81-89); the matcher's own warnings are
      all about incompatible candidates. */
  lemma NoMappableWarningIff(env: seq<ClassDeclaration>, source: ClassDeclaration, target: ClassDeclaration,
                             tps: seq<TypeParameter>, targetClassName: string)
    requires Acyclic(env)
    requires ExtensionMapperFunction(env, source, target, tps, targetClassName).Success?
    ensures var targets := ConstructorParameters(target);
            var missing := MissingArguments(env, tps, targets, source.properties);
            var matched := MatchedArguments(env, tps, targets, source.properties);
            NoMappableArgument(source.declaration.simpleName, targetClassName)
              in ExtensionMapperFunction(env, source, target, tps, targetClassName).value.warnings
            <==> missing != [] && matched == []
  {
    var targets := ConstructorParameters(target);
    var missing := MissingArguments(env, tps, targets, source.properties);
    var matched := MatchedArguments(env, tps, targets, source.properties);
    var matcherWarnings := MatcherWarnings(env, tps, targets, source.properties);
    var warning := NoMappableArgument(source.declaration.simpleName, targetClassName);
    MatcherWarningsAreIncompatibilities(env, tps, targets, source.properties);
    assert warning !in matcherWarnings;
    assert ExtensionMapperFunction(env, source, target, tps, targetClassName).value.warnings
        == matcherWarnings + (if missing != [] && matched == [] then [warning] else []);
    if !(missing != [] && matched == []) {
      assert matcherWarnings + [] == matcherWarnings;
    } else {
      assert (matcherWarnings + [warning])[|matcherWarnings|] == warning;
    }
  }
}
