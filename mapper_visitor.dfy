/**
  `MapperVisitor`: for a class annotated with `@Mapper(Target::class)`, the
  two mapping functions (annotated to target, then target to annotated)
  sharing one import collector, and the text of the generated file
  (MapperVisitor.kt:21-101).
*/
module MapperVisitor {
  import opened Descriptors
  import opened Extensions
  import opened Imports
  import opened FieldMatcher
  import opened MappingFunctionGenerator

  /** The short name of the processor's annotation. */
  const MapperAnnotationName := "Mapper"

  /** The header written first when type parameters were registered
      (MapperVisitor.kt:100). */
  const SuppressUncheckedCast := "@file:Suppress(\"UNCHECKED_CAST\")\n\n"

  /** A file handed to the code generator, with the warnings logged while
      generating it. */
  datatype GeneratedFile = GeneratedFile(packageName: string, fileName: string, text: string, warnings: seq<Warning>)

  function LowerChar(c: char): char
  {
    if 'A' <= c <= 'Z' then (c as int - 'A' as int + 'a' as int) as char else c
  }

  /** `String.lowercase()` on ASCII letters. */
  function AsciiLowercase(s: string): (r: string)
    ensures |r| == |s|
  {
    if s == [] then [] else AsciiLowercase(s[..|s| - 1]) + [LowerChar(s[|s| - 1])]
  }

  /** Lowercasing leaves no capital letter, keeps every other character and
      is idempotent. */
  lemma {:induction false} AsciiLowercaseSpec(s: string)
    ensures forall i :: 0 <= i < |s| ==> !('A' <= AsciiLowercase(s)[i] <= 'Z')
    ensures forall i :: 0 <= i < |s| && !('A' <= s[i] <= 'Z') ==> AsciiLowercase(s)[i] == s[i]
    ensures AsciiLowercase(AsciiLowercase(s)) == AsciiLowercase(s)
  {
    if s != [] {
      var init := s[..|s| - 1];
      AsciiLowercaseSpec(init);
      var lowered := AsciiLowercase(s);
      assert lowered[..|s| - 1] == AsciiLowercase(init);
      assert AsciiLowercase(lowered) == AsciiLowercase(lowered[..|s| - 1]) + [LowerChar(lowered[|s| - 1])];
    }
  }

  /** The package of the generated file (MapperVisitor.kt:75-78). */
  function PackageName(classPackage: string, annotationName: string): string
  {
    classPackage + "." + AsciiLowercase(annotationName)
  }

  /** The name of the generated file (MapperVisitor.kt:76-83). */
  function FileName(className: string, annotationName: string): string
  {
    className + annotationName
  }

  /** The text of the generated file (MapperVisitor.kt:85-90). */
  function FileText(suppress: bool, packageName: string, importText: string, extensionFunctions: string): string
  {
    (if suppress then SuppressUncheckedCast else "") + "package " + packageName + "\n\n" + importText + extensionFunctions
  }

  /** The imports both directions add to the shared collector, in order. */
  function SharedImports(env: seq<ClassDeclaration>, annotatedClass: ClassDeclaration, targetClass: ClassDeclaration)
    : seq<ImportEntry>
    requires Acyclic(env)
  {
    InsertAll([], MappingFunctionImports(env, annotatedClass, targetClass)
                  + MappingFunctionImports(env, targetClass, annotatedClass))
  }

  /** The type parameters both directions register. */
  function SharedTypeParameters(annotatedClass: ClassDeclaration, targetClass: ClassDeclaration): set<TypeParameter>
  {
    (set tp | tp in targetClass.typeParameters) + (set tp | tp in annotatedClass.typeParameters)
  }

  /** The file `generateCode` writes for two generated functions, given the
      collector's imports and type parameters. */
  function ComposedFile(annotation: Annotation, sourceClass: ClassDeclaration, imports: seq<ImportEntry>,
                        tps: set<TypeParameter>, forward: Generated, backward: Generated): GeneratedFile
  {
    var packageName := PackageName(sourceClass.declaration.packageName, annotation.shortName);
    GeneratedFile(
      packageName,
      FileName(sourceClass.declaration.simpleName, annotation.shortName),
      FileText(tps != {}, packageName, FormattedImports(imports, TypeParameterNames(tps)), forward.text + backward.text),
      forward.warnings + backward.warnings)
  }

  /** Both directions for a resolved target (MapperVisitor.kt:37-65). */
  function BothDirections(env: seq<ClassDeclaration>, annotation: Annotation, annotatedClass: ClassDeclaration,
                          targetClass: ClassDeclaration): Result<GeneratedFile, Error>
    requires Acyclic(env)
  {
    match ExtensionMapperFunction(env, annotatedClass, targetClass, targetClass.typeParameters,
                                  targetClass.declaration.simpleName)
    case Failure(e) => Failure(e)
    case Success(forward) =>
      match ExtensionMapperFunction(env, targetClass, annotatedClass, annotatedClass.typeParameters,
                                    annotatedClass.declaration.simpleName)
      case Failure(e) => Failure(e)
      case Success(backward) =>
        Success(ComposedFile(annotation, annotatedClass, SharedImports(env, annotatedClass, targetClass),
                             SharedTypeParameters(annotatedClass, targetClass), forward, backward))
  }

  /** A failing direction decides the outcome of both. */
  lemma BothDirectionsFailure(env: seq<ClassDeclaration>, annotation: Annotation, annotatedClass: ClassDeclaration,
                              targetClass: ClassDeclaration, forward: Result<Generated, Error>,
                              backward: Result<Generated, Error>)
    requires Acyclic(env)
    requires forward == ExtensionMapperFunction(env, annotatedClass, targetClass, targetClass.typeParameters,
                                                targetClass.declaration.simpleName)
    requires backward == ExtensionMapperFunction(env, targetClass, annotatedClass, annotatedClass.typeParameters,
                                                 annotatedClass.declaration.simpleName)
    requires forward.Failure? || backward.Failure?
    ensures BothDirections(env, annotation, annotatedClass, targetClass)
         == if forward.Failure? then Failure(forward.error) else Failure(backward.error)
  {
  }

  /** Two successful directions compose the file from the collector's state
      after both. */
  lemma BothDirectionsSuccess(env: seq<ClassDeclaration>, annotation: Annotation, annotatedClass: ClassDeclaration,
                              targetClass: ClassDeclaration, forward: Generated, backward: Generated,
                              imports: seq<ImportEntry>, tps: set<TypeParameter>)
    requires Acyclic(env)
    requires ExtensionMapperFunction(env, annotatedClass, targetClass, targetClass.typeParameters,
                                     targetClass.declaration.simpleName) == Success(forward)
    requires ExtensionMapperFunction(env, targetClass, annotatedClass, annotatedClass.typeParameters,
                                     annotatedClass.declaration.simpleName) == Success(backward)
    requires imports == SharedImports(env, annotatedClass, targetClass)
    requires tps == SharedTypeParameters(annotatedClass, targetClass)
    ensures BothDirections(env, annotation, annotatedClass, targetClass)
         == Success(ComposedFile(annotation, annotatedClass, imports, tps, forward, backward))
  {
  }

  /** Both directions succeed or the first failing one decides, always with
      an unresolvable argument type; a composed file ends with the forward
      function followed by the backward one and carries their warnings in
      that order. */
  lemma BothDirectionsOutcome(env: seq<ClassDeclaration>, annotation: Annotation, annotatedClass: ClassDeclaration,
                              targetClass: ClassDeclaration)
    requires Acyclic(env)
    ensures var forward := ExtensionMapperFunction(env, annotatedClass, targetClass, targetClass.typeParameters,
                                                   targetClass.declaration.simpleName);
            var backward := ExtensionMapperFunction(env, targetClass, annotatedClass, annotatedClass.typeParameters,
                                                    annotatedClass.declaration.simpleName);
            var r := BothDirections(env, annotation, annotatedClass, targetClass);
            && (r.Failure? <==> forward.Failure? || backward.Failure?)
            && (r.Failure? ==> r.error == (if forward.Failure? then forward.error else backward.error)
                               && r.error.UnresolvableArgumentType?)
            && (r.Success? ==>
                  var functions := forward.value.text + backward.value.text;
                  && |functions| <= |r.value.text|
                  && r.value.text[|r.value.text| - |functions|..] == functions
                  && r.value.warnings == forward.value.warnings + backward.value.warnings)
  {
    var forward := ExtensionMapperFunction(env, annotatedClass, targetClass, targetClass.typeParameters,
                                           targetClass.declaration.simpleName);
    var backward := ExtensionMapperFunction(env, targetClass, annotatedClass, annotatedClass.typeParameters,
                                            annotatedClass.declaration.simpleName);
    GenerationFailsIff(env, annotatedClass, targetClass, targetClass.typeParameters,
                       targetClass.declaration.simpleName);
    GenerationFailsIff(env, targetClass, annotatedClass, annotatedClass.typeParameters,
                       annotatedClass.declaration.simpleName);
    if forward.Success? && backward.Success? {
      var tps := SharedTypeParameters(annotatedClass, targetClass);
      var packageName := PackageName(annotatedClass.declaration.packageName, annotation.shortName);
      var importText := FormattedImports(SharedImports(env, annotatedClass, targetClass), TypeParameterNames(tps));
      var functions := forward.value.text + backward.value.text;
      var front := (if tps != {} then SuppressUncheckedCast else "") + "package " + packageName + "\n\n" + importText;
      assert FileText(tps != {}, packageName, importText, functions) == front + functions;
    }
  }

  /** The collector's type parameters after both directions. */
  lemma SharedTypeParametersAfterBoth(annotatedClass: ClassDeclaration, targetClass: ClassDeclaration,
                                      tps: set<TypeParameter>)
    requires tps == ({} + set tp | tp in targetClass.typeParameters) + set tp | tp in annotatedClass.typeParameters
    ensures tps == SharedTypeParameters(annotatedClass, targetClass)
  {
  }

  /** The collector's imports after both directions, one after the other. */
  lemma SharedImportsAfterBoth(env: seq<ClassDeclaration>, annotatedClass: ClassDeclaration,
                               targetClass: ClassDeclaration, imports: seq<ImportEntry>)
    requires Acyclic(env)
    requires imports == InsertAll(InsertAll([], MappingFunctionImports(env, annotatedClass, targetClass)),
                                  MappingFunctionImports(env, targetClass, annotatedClass))
    ensures imports == SharedImports(env, annotatedClass, targetClass)
  {
    InsertAllAppend([], MappingFunctionImports(env, annotatedClass, targetClass),
                    MappingFunctionImports(env, targetClass, annotatedClass));
  }

  /** What `visitFunctionDeclaration` (MapperVisitor.kt:25-66) produces for
      the primary constructor of `annotatedClass`. */
  function Visit(env: seq<ClassDeclaration>, annotatedClass: ClassDeclaration): Result<GeneratedFile, Error>
    requires Acyclic(env)
  {
    match ExtractAnnotation(annotatedClass.annotations, MapperAnnotationName)
    case None => Failure(MapperAnnotationMissing)
    case Some(annotation) =>
      if annotation.arguments == [] || !annotation.arguments[0].TypeValue? then Failure(MapperArgumentNotAType)
      else
        var name := QualifiedName(annotation.arguments[0].ty.declaration);
        match GetClassDeclarationByName(env, name)
        case None => Failure(MappingTargetNotFound(name))
        case Some(targetClass) => BothDirections(env, annotation, annotatedClass, targetClass)
  }

  /** The target is reported missing exactly when the annotation names a
      class and no known class has its qualified name: a resolved target
      can only fail on an unresolvable argument type. */
  lemma TargetNotFoundIff(env: seq<ClassDeclaration>, annotatedClass: ClassDeclaration)
    requires Acyclic(env)
    ensures var r := Visit(env, annotatedClass);
            var annotation := ExtractAnnotation(annotatedClass.annotations, MapperAnnotationName);
            r.Failure? && r.error.MappingTargetNotFound?
            <==> && annotation.Some? && annotation.value.arguments != [] && annotation.value.arguments[0].TypeValue?
                 && var name := QualifiedName(annotation.value.arguments[0].ty.declaration);
                    forall c :: c in env ==> QualifiedName(c.declaration) != name
  {
    var annotation := ExtractAnnotation(annotatedClass.annotations, MapperAnnotationName);
    if annotation.Some? && annotation.value.arguments != [] && annotation.value.arguments[0].TypeValue? {
      var name := QualifiedName(annotation.value.arguments[0].ty.declaration);
      var targetClass := GetClassDeclarationByName(env, name);
      if targetClass.Some? {
        var t := targetClass.value;
        GenerationFailsIff(env, annotatedClass, t, t.typeParameters, t.declaration.simpleName);
        GenerationFailsIff(env, t, annotatedClass, annotatedClass.typeParameters,
                           annotatedClass.declaration.simpleName);
        assert Visit(env, annotatedClass) == BothDirections(env, annotation.value, annotatedClass, t);
      }
    }
  }

  /** `generateCode` (MapperVisitor.kt:68-92), without the file I/O: the
      package name, the file name and the text written, for the
      concatenated text of two generated functions. */
  method GenerateCode(annotation: Annotation, sourceClass: ClassDeclaration, packageImports: PackageImports,
                      forward: Generated, backward: Generated)
    returns (file: GeneratedFile)
    ensures file == ComposedFile(annotation, sourceClass, packageImports.imports,
                                 packageImports.targetClassTypeParameters, forward, backward)
  {
    var extensionFunctions := forward.text + backward.text;
    var classPackage := sourceClass.declaration.packageName;
    var className := sourceClass.declaration.simpleName;
    var annotationName := annotation.shortName;
    var packageName := classPackage + "." + AsciiLowercase(annotationName);
    var fileName := className + annotationName;
    var header := "";
    if packageImports.targetClassTypeParameters != {} {
      header := SuppressUncheckedCast;
    }
    var importText := packageImports.AsFormattedImports();
    var text := header + "package " + packageName + "\n\n" + importText + extensionFunctions;
    file := GeneratedFile(packageName, fileName, text, forward.warnings + backward.warnings);
  }

  /** The two directions for a resolved target (MapperVisitor.kt:37-65). */
  method GenerateBothDirections(env: seq<ClassDeclaration>, annotation: Annotation, annotatedClass: ClassDeclaration,
                                targetClass: ClassDeclaration)
    returns (r: Result<GeneratedFile, Error>)
    requires Acyclic(env)
    ensures r == BothDirections(env, annotation, annotatedClass, targetClass)
  {
    var packageImports := new PackageImports();
    var forward := GenerateMappingFunction(env, annotatedClass, targetClass, packageImports);
    if forward.Failure? {
      BothDirectionsFailure(env, annotation, annotatedClass, targetClass, forward,
                            ExtensionMapperFunction(env, targetClass, annotatedClass, annotatedClass.typeParameters,
                                                    annotatedClass.declaration.simpleName));
      return Failure(forward.error);
    }
    var backward := GenerateMappingFunction(env, targetClass, annotatedClass, packageImports);
    if backward.Failure? {
      BothDirectionsFailure(env, annotation, annotatedClass, targetClass, forward, backward);
      return Failure(backward.error);
    }
    SharedImportsAfterBoth(env, annotatedClass, targetClass, packageImports.imports);
    SharedTypeParametersAfterBoth(annotatedClass, targetClass, packageImports.targetClassTypeParameters);
    BothDirectionsSuccess(env, annotation, annotatedClass, targetClass, forward.value, backward.value,
                          packageImports.imports, packageImports.targetClassTypeParameters);
    var file := GenerateCode(annotation, annotatedClass, packageImports, forward.value, backward.value);
    r := Success(file);
  }

  /** `visitFunctionDeclaration` (MapperVisitor.kt:25-66) for the primary
      constructor of `annotatedClass`. */
  method VisitFunctionDeclaration(env: seq<ClassDeclaration>, annotatedClass: ClassDeclaration)
    returns (r: Result<GeneratedFile, Error>)
    requires Acyclic(env)
    ensures r == Visit(env, annotatedClass)
    ensures var annotation := ExtractAnnotation(annotatedClass.annotations, MapperAnnotationName);
            annotation.None? ==> r == Failure(MapperAnnotationMissing)
    ensures var annotation := ExtractAnnotation(annotatedClass.annotations, MapperAnnotationName);
            annotation.Some? && (annotation.value.arguments == [] || !annotation.value.arguments[0].TypeValue?) ==>
              r == Failure(MapperArgumentNotAType)
    ensures var annotation := ExtractAnnotation(annotatedClass.annotations, MapperAnnotationName);
            annotation.Some? && annotation.value.arguments != [] && annotation.value.arguments[0].TypeValue? ==>
              var name := QualifiedName(annotation.value.arguments[0].ty.declaration);
              && ((forall c :: c in env ==> QualifiedName(c.declaration) != name) ==>
                    r == Failure(MappingTargetNotFound(name)))
              && (FindClass(env, name).Some? ==>
                    r == BothDirections(env, annotation.value, annotatedClass, env[FindClass(env, name).value]))
  {
    var annotation := ExtractAnnotation(annotatedClass.annotations, MapperAnnotationName);
    if annotation.None? {
      return Failure(MapperAnnotationMissing);
    }
    var arguments := annotation.value.arguments;
    if arguments == [] || !arguments[0].TypeValue? {
      return Failure(MapperArgumentNotAType);
    }
    var argumentClassType := arguments[0].ty;
    var name := QualifiedName(argumentClassType.declaration);
    var targetClass := GetClassDeclarationByName(env, name);
    if targetClass.None? {
      return Failure(MappingTargetNotFound(name));
    }
    r := GenerateBothDirections(env, annotation.value, annotatedClass, targetClass.value);
  }

  /** `visitClassDeclaration` (MapperVisitor.kt:21-23): visits the primary
      constructor, which must exist. */
  method VisitClassDeclaration(env: seq<ClassDeclaration>, classDeclaration: ClassDeclaration)
    returns (r: Result<GeneratedFile, Error>)
    requires Acyclic(env)
    ensures classDeclaration.primaryConstructor.None? ==> r == Failure(PrimaryConstructorMissing)
    ensures classDeclaration.primaryConstructor.Some? ==> r == Visit(env, classDeclaration)
  {
    if classDeclaration.primaryConstructor.None? {
      return Failure(PrimaryConstructorMissing);
    }
    r := VisitFunctionDeclaration(env, classDeclaration);
  }

  /** The registered type parameters are non-empty exactly when one of the
      two classes declares type parameters. */
  lemma SharedTypeParametersNonEmpty(annotatedClass: ClassDeclaration, targetClass: ClassDeclaration)
    ensures SharedTypeParameters(annotatedClass, targetClass) != {}
        <==> annotatedClass.typeParameters != [] || targetClass.typeParameters != []
  {
    var tps := SharedTypeParameters(annotatedClass, targetClass);
    if annotatedClass.typeParameters != [] {
      assert annotatedClass.typeParameters[0] in tps;
    } else if targetClass.typeParameters != [] {
      assert targetClass.typeParameters[0] in tps;
    }
  }

  /** The file starts with the unchecked-cast suppression exactly when
      asked to; otherwise it starts with the package line. */
  lemma FileTextHeader(suppress: bool, packageName: string, importText: string, extensionFunctions: string)
    ensures var text := FileText(suppress, packageName, importText, extensionFunctions);
            (|SuppressUncheckedCast| <= |text| && text[..|SuppressUncheckedCast|] == SuppressUncheckedCast) <==> suppress
  {
    var text := FileText(suppress, packageName, importText, extensionFunctions);
    var rest := "package " + packageName + "\n\n" + importText + extensionFunctions;
    assert rest[0] == 'p';
    if suppress {
      assert text == SuppressUncheckedCast + rest;
    } else {
      assert text == "" + rest;
      assert text[0] == 'p';
      assert SuppressUncheckedCast[0] == '@';
    }
  }

  /** A generated file carries the suppression header exactly when the
      annotated or the target class declares type parameters
      (MapperVisitor.kt:85-87 with MappingFunctionGenerator.kt:26). */
  lemma SuppressHeaderIff(annotation: Annotation, annotatedClass: ClassDeclaration, targetClass: ClassDeclaration,
                          imports: seq<ImportEntry>, forward: Generated, backward: Generated)
    ensures var text := ComposedFile(annotation, annotatedClass, imports,
                                     SharedTypeParameters(annotatedClass, targetClass), forward, backward).text;
            (|SuppressUncheckedCast| <= |text| && text[..|SuppressUncheckedCast|] == SuppressUncheckedCast)
            <==> annotatedClass.typeParameters != [] || targetClass.typeParameters != []
  {
    var tps := SharedTypeParameters(annotatedClass, targetClass);
    var packageName := PackageName(annotatedClass.declaration.packageName, annotation.shortName);
    SharedTypeParametersNonEmpty(annotatedClass, targetClass);
    FileTextHeader(tps != {}, packageName, FormattedImports(imports, TypeParameterNames(tps)), forward.text + backward.text);
  }

  /** The shared collector holds no duplicate, starts with the target class,
      holds both classes, and lists everything the annotated-to-target
      function imported before what the other direction added. */
  lemma SharedImportsOrder(env: seq<ClassDeclaration>, annotatedClass: ClassDeclaration, targetClass: ClassDeclaration)
    requires Acyclic(env)
    ensures var shared := SharedImports(env, annotatedClass, targetClass);
            var forward := InsertAll([], MappingFunctionImports(env, annotatedClass, targetClass));
            && Distinct(shared)
            && shared != [] && shared[0] == ImportOf(targetClass.declaration)
            && ImportOf(annotatedClass.declaration) in shared
            && |forward| <= |shared| && shared[..|forward|] == forward
  {
    var first := MappingFunctionImports(env, annotatedClass, targetClass);
    var second := MappingFunctionImports(env, targetClass, annotatedClass);
    var shared := SharedImports(env, annotatedClass, targetClass);
    InsertAllAppend([], first, second);
    var forward := InsertAll([], first);
    var classes := [ImportOf(targetClass.declaration), ImportOf(annotatedClass.declaration)];
    InsertAllAppend([], classes, ExtensionMapperImports(env, annotatedClass, targetClass, targetClass.typeParameters));
    var pair := InsertAll([], classes);
    assert classes[..1] == [ImportOf(targetClass.declaration)];
    assert InsertAll([], classes[..1]) == [ImportOf(targetClass.declaration)];
    assert pair[0] == ImportOf(targetClass.declaration);
    assert forward[..|pair|] == pair;
    assert forward[0] == pair[0];
    assert shared[..|forward|] == forward;
    assert shared[0] == forward[0];
    assert ImportOf(annotatedClass.declaration) in first;
  }

  /** The annotation's short name lowercases to "mapper". */
  lemma MapperLowercase()
    ensures AsciiLowercase(MapperAnnotationName) == "mapper"
  {
    var lowered := AsciiLowercase(MapperAnnotationName);
    assert MapperAnnotationName[..5] == "Mappe";
    assert AsciiLowercase("Mappe") == "mappe" by {
      assert "Mappe"[..4] == "Mapp";
      assert AsciiLowercase("Mapp") == "mapp" by {
        assert "Mapp"[..3] == "Map";
        assert AsciiLowercase("Map") == "map" by {
          assert "Map"[..2] == "Ma";
          assert AsciiLowercase("Ma") == "ma" by {
            assert "Ma"[..1] == "M";
            assert AsciiLowercase("M") == "m" by {
              assert "M"[..0] == "";
            }
          }
        }
      }
    }
  }

  /** A generated file lives in the annotated class's package followed by
      `.mapper` and is named after the class followed by `Mapper`. */
  lemma MapperFileNaming(annotatedClass: ClassDeclaration)
    requires ExtractAnnotation(annotatedClass.annotations, MapperAnnotationName).Some?
    ensures var annotation := ExtractAnnotation(annotatedClass.annotations, MapperAnnotationName).value;
            && PackageName(annotatedClass.declaration.packageName, annotation.shortName)
               == annotatedClass.declaration.packageName + ".mapper"
            && FileName(annotatedClass.declaration.simpleName, annotation.shortName)
               == annotatedClass.declaration.simpleName + "Mapper"
  {
    MapperLowercase();
  }
}
