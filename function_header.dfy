/**
  The header of a generated mapping function: the target-class type-parameter
  clause (`appendTargetClassTypeParameter`, MappingFunctionGenerator.kt:128-153)
  and the receiver-and-name part (`generateExtensionFunctionName`, :409-427).
*/
module FunctionHeader {
  import opened Descriptors
  import opened Extensions
  import opened Text
  import opened Imports

  /** One entry of the clause: the parameter name, followed by its first
      bound's text only when some constructor arguments are missing. */
  function TypeParameterEntry(tp: TypeParameter, isMissingArguments: bool): string
  {
    tp.name + (if isMissingArguments && tp.firstBound.Some? then ": " + tp.firstBound.value.text else "")
  }

  function TypeParameterEntries(tps: seq<TypeParameter>, isMissingArguments: bool): (r: seq<string>)
    ensures |r| == |tps|
    ensures forall i :: 0 <= i < |tps| ==> r[i] == TypeParameterEntry(tps[i], isMissingArguments)
  {
    seq(|tps|, i requires 0 <= i < |tps| => TypeParameterEntry(tps[i], isMissingArguments))
  }

  /** The clause the loop at :134-152 writes: nothing for a class without
      type parameters. */
  function TypeParameterClause(tps: seq<TypeParameter>, isMissingArguments: bool): string
  {
    BracketedList(TypeParameterEntries(tps, isMissingArguments))
  }

  /** Imports the clause adds for the first `n` parameters: each first bound,
      and only when arguments are missing (:143-147). */
  function BoundImports(tps: seq<TypeParameter>, isMissingArguments: bool, n: nat): seq<ImportEntry>
    requires n <= |tps|
  {
    if n == 0 || !isMissingArguments then []
    else BoundImports(tps, isMissingArguments, n - 1)
         + (if tps[n - 1].firstBound.Some? then [ImportOf(tps[n - 1].firstBound.value.ty.declaration)] else [])
  }

  /** One more parameter adds its bound's import, if it adds one. */
  lemma BoundImportsStep(before: seq<ImportEntry>, tps: seq<TypeParameter>, isMissingArguments: bool, n: nat)
    requires n < |tps|
    ensures InsertAll(before, BoundImports(tps, isMissingArguments, n + 1))
         == if isMissingArguments && tps[n].firstBound.Some?
            then Insert(InsertAll(before, BoundImports(tps, isMissingArguments, n)), ImportOf(tps[n].firstBound.value.ty.declaration))
            else InsertAll(before, BoundImports(tps, isMissingArguments, n))
  {
    var prior := BoundImports(tps, isMissingArguments, n);
    if isMissingArguments && tps[n].firstBound.Some? {
      var e := ImportOf(tps[n].firstBound.value.ty.declaration);
      InsertAllAppend(before, prior, [e]);
    } else if isMissingArguments {
      assert prior + [] == prior;
    }
  }

  /** A non-empty clause is the entries joined by ", " between angle
      brackets. */
  lemma TypeParameterClauseIsJoin(tps: seq<TypeParameter>, isMissingArguments: bool)
    requires tps != []
    ensures TypeParameterClause(tps, isMissingArguments)
         == "<" + Join(TypeParameterEntries(tps, isMissingArguments), ", ") + ">"
  {
    BracketedListIsJoin(TypeParameterEntries(tps, isMissingArguments));
  }

  /** With every argument matched, the clause names the parameters only and
      imports nothing. */
  lemma {:induction false} NoBoundsWithoutMissingArguments(tps: seq<TypeParameter>, n: nat)
    requires n <= |tps|
    ensures BoundImports(tps, false, n) == []
    ensures forall i :: 0 <= i < |tps| ==> TypeParameterEntries(tps, false)[i] == tps[i].name
  {
    forall i | 0 <= i < |tps|
      ensures TypeParameterEntries(tps, false)[i] == tps[i].name
    {
      assert TypeParameterEntry(tps[i], false) == tps[i].name + "";
    }
  }

  /** The body of the loop at :136-150: one entry and its separator. */
  method AppendTypeParameterEntry(extensionFunctions: string, targetClassTypeParameter: TypeParameter, separator: string,
                                  packageImports: PackageImports, isMissingArguments: bool)
    returns (r: string)
    requires packageImports.Valid()
    modifies packageImports`imports
    ensures packageImports.Valid()
    ensures r == extensionFunctions + (TypeParameterEntry(targetClassTypeParameter, isMissingArguments) + separator + "")
    ensures packageImports.imports
         == if isMissingArguments && targetClassTypeParameter.firstBound.Some?
            then Insert(old(packageImports.imports), ImportOf(targetClassTypeParameter.firstBound.value.ty.declaration))
            else old(packageImports.imports)
  {
    r := extensionFunctions + targetClassTypeParameter.name;
    if isMissingArguments {
      if targetClassTypeParameter.firstBound.Some? {
        var upperBound := targetClassTypeParameter.firstBound.value;
        packageImports.AddTypeImport(upperBound.ty);
        r := r + ": " + upperBound.text;
      }
    }
    r := r + separator;
  }

  /** `appendTargetClassTypeParameter` (MappingFunctionGenerator.kt:128-153):
      appends the clause to `extensionFunctions` and returns the result. */
  method AppendTargetClassTypeParameter(extensionFunctions: string, targetClassTypeParameters: seq<TypeParameter>,
                                        packageImports: PackageImports, isMissingArguments: bool)
    returns (r: string)
    requires packageImports.Valid()
    modifies packageImports`imports
    ensures packageImports.Valid()
    ensures r == extensionFunctions + TypeParameterClause(targetClassTypeParameters, isMissingArguments)
    ensures packageImports.imports
         == InsertAll(old(packageImports.imports),
                      BoundImports(targetClassTypeParameters, isMissingArguments, |targetClassTypeParameters|))
  {
    r := extensionFunctions;
    var tps := targetClassTypeParameters;
    ghost var entries := TypeParameterEntries(tps, isMissingArguments);
    if tps != [] {
      r := AppendTypeParameterList(r, tps, packageImports, isMissingArguments);
      BracketedListClosed(extensionFunctions, entries, r);
      r := r + ">";
    } else {
      assert entries == [];
      assert r == extensionFunctions + "";
    }
  }

  /** The opening bracket and the loop at :135-150. */
  method AppendTypeParameterList(extensionFunctions: string, tps: seq<TypeParameter>,
                                 packageImports: PackageImports, isMissingArguments: bool)
    returns (r: string)
    requires packageImports.Valid()
    modifies packageImports`imports
    ensures packageImports.Valid()
    ensures r == extensionFunctions + "<" + Listed(TypeParameterEntries(tps, isMissingArguments), ", ", "", |tps|)
    ensures packageImports.imports == InsertAll(old(packageImports.imports), BoundImports(tps, isMissingArguments, |tps|))
  {
    ghost var before := packageImports.imports;
    r := extensionFunctions + "<";
    var index := 0;
    while index < |tps|
      invariant 0 <= index <= |tps|
      invariant packageImports.Valid()
      invariant r == extensionFunctions + "<" + Listed(TypeParameterEntries(tps, isMissingArguments), ", ", "", index)
      invariant packageImports.imports == InsertAll(before, BoundImports(tps, isMissingArguments, index))
    {
      r := AppendNextTypeParameter(extensionFunctions + "<", tps, index, r, packageImports, isMissingArguments, before);
      index := index + 1;
    }
  }

  /** One iteration of the loop at :136-150: the parameter at `index` with
      its separator, after the first `index`. */
  method AppendNextTypeParameter(ghost clauseStart: string, tps: seq<TypeParameter>, index: nat, written: string,
                                 packageImports: PackageImports, isMissingArguments: bool,
                                 ghost before: seq<ImportEntry>)
    returns (r: string)
    requires packageImports.Valid() && index < |tps|
    requires written == clauseStart + Listed(TypeParameterEntries(tps, isMissingArguments), ", ", "", index)
    requires packageImports.imports == InsertAll(before, BoundImports(tps, isMissingArguments, index))
    modifies packageImports`imports
    ensures packageImports.Valid()
    ensures r == clauseStart + Listed(TypeParameterEntries(tps, isMissingArguments), ", ", "", index + 1)
    ensures packageImports.imports == InsertAll(before, BoundImports(tps, isMissingArguments, index + 1))
  {
    var separator := ArgumentLineEnding(|tps| - 1 != index, true);
    BoundImportsStep(before, tps, isMissingArguments, index);
    ListedExtend(clauseStart, TypeParameterEntries(tps, isMissingArguments), index, written, separator);
    r := AppendTypeParameterEntry(written, tps[index], separator, packageImports, isMissingArguments);
  }

  /** The type-argument part after the source class name (:416-424): empty
      without type parameters, otherwise the simple name of the first
      parameter's first bound in angle brackets, or `<>` when it has none. */
  function SourceTypeClause(source: ClassDeclaration): string
  {
    if source.typeParameters == [] then ""
    else "<" + (match source.typeParameters[0].firstBound
                case Some(b) => GetName(b.ty)
                case None => "") + ">"
  }

  function ExtensionFunctionName(source: ClassDeclaration, target: ClassDeclaration): string
  {
    source.declaration.simpleName + SourceTypeClause(source) + ".to" + target.declaration.simpleName
  }

  /** The import the name adds: the first parameter's first bound. */
  function NameImports(source: ClassDeclaration): seq<ImportEntry>
  {
    if source.typeParameters != [] && source.typeParameters[0].firstBound.Some?
    then [ImportOf(source.typeParameters[0].firstBound.value.ty.declaration)]
    else []
  }

  /** `generateExtensionFunctionName` (MappingFunctionGenerator.kt:409-427). */
  method GenerateExtensionFunctionName(sourceClass: ClassDeclaration, targetClass: ClassDeclaration,
                                       packageImports: PackageImports)
    returns (name: string)
    requires packageImports.Valid()
    modifies packageImports`imports
    ensures packageImports.Valid()
    ensures name == ExtensionFunctionName(sourceClass, targetClass)
    ensures packageImports.imports == InsertAll(old(packageImports.imports), NameImports(sourceClass))
  {
    var sourceClassName := sourceClass.declaration.simpleName;
    var targetClassName := targetClass.declaration.simpleName;
    var sourceClassType := "";
    if sourceClass.typeParameters != [] {
      var ksTypeParameter := sourceClass.typeParameters[0];
      var upperBound := "";
      if ksTypeParameter.firstBound.Some? {
        var upperBoundType := ksTypeParameter.firstBound.value.ty;
        packageImports.AddTypeImport(upperBoundType);
        upperBound := GetName(upperBoundType);
      }
      sourceClassType := "<" + upperBound + ">";
    }
    name := sourceClassName + sourceClassType + ".to" + targetClassName;
  }

  /** Only the source's first type parameter shows in the name: two sources
      with the same simple name and the same first type parameter give the
      same name, whatever their other parameters. */
  lemma OnlyFirstTypeParameterShows(a: ClassDeclaration, b: ClassDeclaration, target: ClassDeclaration)
    requires a.declaration.simpleName == b.declaration.simpleName
    requires a.typeParameters != [] && b.typeParameters != []
    requires a.typeParameters[0].firstBound == b.typeParameters[0].firstBound
    ensures ExtensionFunctionName(a, target) == ExtensionFunctionName(b, target)
    ensures NameImports(a) == NameImports(b)
  {
  }

  /** An unbounded first type parameter renders as an empty `<>`, and a
      source without type parameters as its bare name. */
  lemma UnboundedFirstTypeParameterRendersEmpty(source: ClassDeclaration, target: ClassDeclaration)
    ensures source.typeParameters != [] && source.typeParameters[0].firstBound.None? ==>
              ExtensionFunctionName(source, target) == source.declaration.simpleName + "<>.to" + target.declaration.simpleName
    ensures source.typeParameters == [] ==>
              ExtensionFunctionName(source, target) == source.declaration.simpleName + ".to" + target.declaration.simpleName
    ensures source.typeParameters == [] || source.typeParameters[0].firstBound.None? ==> NameImports(source) == []
  {
    if source.typeParameters != [] && source.typeParameters[0].firstBound.None? {
      assert SourceTypeClause(source) == "<>";
    } else if source.typeParameters == [] {
      assert SourceTypeClause(source) == "";
    }
  }
}
