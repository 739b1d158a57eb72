/**
  The declaration of one missing constructor argument as an extra parameter
  of the generated function, `convertMissingArgumentToDeclarationText`
  (MappingFunctionGenerator.kt:155-220): `\tname: Type<Args>?` followed by a
  comma unless it is the last one.
*/
module MissingDeclaration {
  import opened Descriptors
  import opened Extensions
  import opened Text
  import opened Imports
  import opened TypeRenderer

  /** `ArgumentType` (argument/ArgumentType.kt:5-8): a resolved argument
      class or the star `*`. */
  datatype ArgumentType = ArgumentClass(ksType: KType) | Asterix

  /** No type argument lacks its type reference. */
  predicate Resolvable(arguments: seq<TypeArgument>)
  {
    forall i :: 0 <= i < |arguments| ==> !arguments[i].Unresolved?
  }

  /** The classification loop at :167-182: a star becomes `Asterix`, a
      resolved argument its `ArgumentClass`. */
  function ArgumentTypes(arguments: seq<TypeArgument>): (r: seq<ArgumentType>)
    ensures |r| == |arguments|
    ensures forall i :: 0 <= i < |arguments| && arguments[i].Star? ==> r[i] == Asterix
    ensures forall i :: 0 <= i < |arguments| && arguments[i].Projection? ==> r[i] == ArgumentClass(arguments[i].ty)
  {
    seq(|arguments|, i requires 0 <= i < |arguments| =>
      match arguments[i]
      case Projection(ty) => ArgumentClass(ty)
      case _ => Asterix)
  }

  /** The text of one argument (:193-209): a class renders with its own
      arguments and its own nullability marker. */
  function ArgumentTypeText(argumentType: ArgumentType): string
  {
    match argumentType
    case ArgumentClass(k) => Rendered(k) + MarkedNullableAsString(k)
    case Asterix => "*"
  }

  function ArgumentTypeTexts(argumentTypes: seq<ArgumentType>): (r: seq<string>)
    ensures |r| == |argumentTypes|
    ensures forall i :: 0 <= i < |argumentTypes| ==> r[i] == ArgumentTypeText(argumentTypes[i])
  {
    seq(|argumentTypes|, i requires 0 <= i < |argumentTypes| => ArgumentTypeText(argumentTypes[i]))
  }

  /** Imports added for the first `n` argument classes (:204). */
  function ArgumentClassImports(argumentTypes: seq<ArgumentType>, n: nat): seq<ImportEntry>
    requires n <= |argumentTypes|
  {
    if n == 0 then []
    else ArgumentClassImports(argumentTypes, n - 1)
         + match argumentTypes[n - 1]
           case ArgumentClass(k) => [ImportOf(k.declaration)]
           case Asterix => []
  }

  /** The bracketed argument list, empty when there are no arguments. */
  function ArgumentListText(argumentTypes: seq<ArgumentType>): string
  {
    BracketedList(ArgumentTypeTexts(argumentTypes))
  }

  /** The declaration text of a missing argument whose type arguments all
      resolve. */
  function DeclarationText(missingArgument: ValueParameter, isLastIndex: bool): string
  {
    var t := missingArgument.ty;
    var argumentTypes := ArgumentTypes(t.arguments);
    "\t" + missingArgument.name + ": " + GetName(t) + ArgumentListText(argumentTypes)
    + MarkedNullableAsString(t) + ArgumentLineEnding(!isLastIndex, false) + "\n"
  }

  /** The outcome of `convertMissingArgumentToDeclarationText`: the fatal
      error of :176-179 exactly when some type argument is neither a star nor
      resolvable, otherwise one indented line. */
  function MissingArgumentDeclaration(missingArgument: ValueParameter, isLastIndex: bool): (r: Result<string, Error>)
    ensures r.Failure? <==> exists i :: 0 <= i < |missingArgument.ty.arguments| && missingArgument.ty.arguments[i].Unresolved?
    ensures r.Failure? ==> r.error == UnresolvableArgumentType(missingArgument.name)
    ensures r.Success? ==>
              && |r.value| > |missingArgument.name| + 1
              && r.value[..|missingArgument.name| + 1] == "\t" + missingArgument.name
              && r.value[|r.value| - 1] == '\n'
  {
    if Resolvable(missingArgument.ty.arguments) then
      var text := DeclarationText(missingArgument, isLastIndex);
      var head := "\t" + missingArgument.name;
      assert text == head + (text[|head|..]);
      Success(text)
    else Failure(UnresolvableArgumentType(missingArgument.name))
  }

  /** Imports the declaration adds: the parameter's type first, then every
      argument class, unless the fatal error stops it after the first. */
  function DeclarationImports(missingArgument: ValueParameter): seq<ImportEntry>
  {
    var argumentTypes := ArgumentTypes(missingArgument.ty.arguments);
    [ImportOf(missingArgument.ty.declaration)]
    + (if Resolvable(missingArgument.ty.arguments) then ArgumentClassImports(argumentTypes, |argumentTypes|) else [])
  }

  /** The body of the loop at :188-210: one argument and its separator. */
  method AppendArgumentType(text: string, argumentType: ArgumentType, typeSeparator: string,
                            packageImports: PackageImports)
    returns (r: string)
    requires packageImports.Valid()
    modifies packageImports`imports
    ensures packageImports.Valid()
    ensures r == text + (ArgumentTypeText(argumentType) + typeSeparator + "")
    ensures packageImports.imports
         == match argumentType
            case ArgumentClass(k) => Insert(old(packageImports.imports), ImportOf(k.declaration))
            case Asterix => old(packageImports.imports)
  {
    match argumentType {
      case ArgumentClass(argumentClass) =>
        var rendered := ConvertTypeArgumentToString(GetName(argumentClass), argumentClass, 0, true);
        r := text + rendered;
        r := r + (MarkedNullableAsString(argumentClass) + typeSeparator);
        packageImports.AddTypeImport(argumentClass);
      case Asterix =>
        r := text + ("*" + typeSeparator);
    }
  }

  lemma ArgumentClassImportsStep(before: seq<ImportEntry>, argumentTypes: seq<ArgumentType>, n: nat)
    requires n < |argumentTypes|
    ensures InsertAll(before, ArgumentClassImports(argumentTypes, n + 1))
         == match argumentTypes[n]
            case ArgumentClass(k) => Insert(InsertAll(before, ArgumentClassImports(argumentTypes, n)), ImportOf(k.declaration))
            case Asterix => InsertAll(before, ArgumentClassImports(argumentTypes, n))
  {
    var prior := ArgumentClassImports(argumentTypes, n);
    match argumentTypes[n] {
      case ArgumentClass(k) => InsertAllAppend(before, prior, [ImportOf(k.declaration)]);
      case Asterix => assert prior + [] == prior;
    }
  }

  /** One iteration of the loop at :188-210: the argument at `index` with its
      separator, after the first `index`. */
  method AppendNextArgumentType(ghost listStart: string, argumentTypes: seq<ArgumentType>, index: nat, written: string,
                                packageImports: PackageImports, ghost before: seq<ImportEntry>)
    returns (r: string)
    requires packageImports.Valid() && index < |argumentTypes|
    requires written == listStart + Listed(ArgumentTypeTexts(argumentTypes), ", ", "", index)
    requires packageImports.imports == InsertAll(before, ArgumentClassImports(argumentTypes, index))
    modifies packageImports`imports
    ensures packageImports.Valid()
    ensures r == listStart + Listed(ArgumentTypeTexts(argumentTypes), ", ", "", index + 1)
    ensures packageImports.imports == InsertAll(before, ArgumentClassImports(argumentTypes, index + 1))
  {
    var typeSeparator := ArgumentLineEnding(|argumentTypes| - 1 != index, true);
    ArgumentClassImportsStep(before, argumentTypes, index);
    ListedExtend(listStart, ArgumentTypeTexts(argumentTypes), index, written, typeSeparator);
    r := AppendArgumentType(written, argumentTypes[index], typeSeparator, packageImports);
  }

  /** The argument list of :186-212, appended after `text`. */
  method AppendArgumentTypes(text: string, argumentTypes: seq<ArgumentType>, packageImports: PackageImports)
    returns (r: string)
    requires packageImports.Valid() && argumentTypes != []
    modifies packageImports`imports
    ensures packageImports.Valid()
    ensures r == text + ArgumentListText(argumentTypes)
    ensures packageImports.imports
         == InsertAll(old(packageImports.imports), ArgumentClassImports(argumentTypes, |argumentTypes|))
  {
    r := AppendOpenArgumentList(text, argumentTypes, packageImports);
    BracketedListClosed(text, ArgumentTypeTexts(argumentTypes), r);
    r := r + ">";
  }

  /** The opening bracket and the loop at :187-211. */
  method AppendOpenArgumentList(text: string, argumentTypes: seq<ArgumentType>, packageImports: PackageImports)
    returns (r: string)
    requires packageImports.Valid()
    modifies packageImports`imports
    ensures packageImports.Valid()
    ensures r == text + "<" + Listed(ArgumentTypeTexts(argumentTypes), ", ", "", |argumentTypes|)
    ensures packageImports.imports
         == InsertAll(old(packageImports.imports), ArgumentClassImports(argumentTypes, |argumentTypes|))
  {
    ghost var before := packageImports.imports;
    r := text + "<";
    var argumentTypeIndex := 0;
    while argumentTypeIndex < |argumentTypes|
      invariant 0 <= argumentTypeIndex <= |argumentTypes|
      invariant packageImports.Valid()
      invariant r == text + "<" + Listed(ArgumentTypeTexts(argumentTypes), ", ", "", argumentTypeIndex)
      invariant packageImports.imports == InsertAll(before, ArgumentClassImports(argumentTypes, argumentTypeIndex))
    {
      r := AppendNextArgumentType(text + "<", argumentTypes, argumentTypeIndex, r, packageImports, before);
      argumentTypeIndex := argumentTypeIndex + 1;
    }
  }

  /** `convertMissingArgumentToDeclarationText`
      (MappingFunctionGenerator.kt:155-220). */
  method ConvertMissingArgumentToDeclarationText(isLastIndex: bool, missingArgument: ValueParameter,
                                                 packageImports: PackageImports)
    returns (r: Result<string, Error>)
    requires packageImports.Valid()
    modifies packageImports`imports
    ensures packageImports.Valid()
    ensures r == MissingArgumentDeclaration(missingArgument, isLastIndex)
    ensures packageImports.imports == InsertAll(old(packageImports.imports), DeclarationImports(missingArgument))
  {
    var missingArgumentType := missingArgument.ty;
    var arguments := missingArgumentType.arguments;
    packageImports.AddTypeImport(missingArgumentType);
    ghost var afterType := packageImports.imports;
    assert afterType == InsertAll(old(packageImports.imports), [ImportOf(missingArgumentType.declaration)]);
    var argumentTypes: seq<ArgumentType> := [];
    var j := 0;
    while j < |arguments|
      invariant 0 <= j <= |arguments|
      invariant argumentTypes == ArgumentTypes(arguments)[..j]
      invariant forall k :: 0 <= k < j ==> !arguments[k].Unresolved?
    {
      var ksTypeArgument := arguments[j];
      if ksTypeArgument.Star? {
        argumentTypes := argumentTypes + [Asterix];
      } else if ksTypeArgument.Projection? {
        argumentTypes := argumentTypes + [ArgumentClass(ksTypeArgument.ty)];
      } else {
        assert !Resolvable(arguments);
        assert DeclarationImports(missingArgument) == [ImportOf(missingArgumentType.declaration)] + [];
        return Failure(UnresolvableArgumentType(missingArgument.name));
      }
      j := j + 1;
    }
    assert argumentTypes == ArgumentTypes(arguments);
    var missingArgumentDeclarationText := "\t" + missingArgument.name + ": " + GetName(missingArgumentType);
    if argumentTypes != [] {
      missingArgumentDeclarationText := AppendArgumentTypes(missingArgumentDeclarationText, argumentTypes, packageImports);
      InsertAllAppend(old(packageImports.imports), [ImportOf(missingArgumentType.declaration)],
                      ArgumentClassImports(argumentTypes, |argumentTypes|));
    } else {
      assert ArgumentClassImports(argumentTypes, 0) == [];
      assert [ImportOf(missingArgumentType.declaration)] + [] == [ImportOf(missingArgumentType.declaration)];
      assert ArgumentListText(argumentTypes) == "";
      assert missingArgumentDeclarationText == missingArgumentDeclarationText + ArgumentListText(argumentTypes);
    }
    missingArgumentDeclarationText := missingArgumentDeclarationText + MarkedNullableAsString(missingArgumentType);
    var lineEnding := ArgumentLineEnding(!isLastIndex, false);
    missingArgumentDeclarationText := missingArgumentDeclarationText + lineEnding + "\n";
    r := Success(missingArgumentDeclarationText);
  }

  /** With type arguments, the declaration lists their texts joined by ", "
      between angle brackets, before the parameter's own marker. */
  lemma DeclarationTextIsJoin(missingArgument: ValueParameter, isLastIndex: bool)
    requires missingArgument.ty.arguments != []
    ensures var argumentTypes := ArgumentTypes(missingArgument.ty.arguments);
            DeclarationText(missingArgument, isLastIndex)
            == "\t" + missingArgument.name + ": " + GetName(missingArgument.ty)
               + "<" + Join(ArgumentTypeTexts(argumentTypes), ", ") + ">"
               + MarkedNullableAsString(missingArgument.ty) + ArgumentLineEnding(!isLastIndex, false) + "\n"
  {
    var t := missingArgument.ty;
    var texts := ArgumentTypeTexts(ArgumentTypes(t.arguments));
    var head := "\t" + missingArgument.name + ": " + GetName(t);
    var tail := MarkedNullableAsString(t) + ArgumentLineEnding(!isLastIndex, false) + "\n";
    var joined := Join(texts, ", ");
    BracketedListIsJoin(texts);
    assert DeclarationText(missingArgument, isLastIndex) == head + BracketedList(texts) + tail;
    AppendedInThree(head, "<", joined, ">");
    AppendedInTwo(head + "<" + joined + ">", MarkedNullableAsString(t) + ArgumentLineEnding(!isLastIndex, false), "\n");
    AppendedInTwo(head + "<" + joined + ">", MarkedNullableAsString(t), ArgumentLineEnding(!isLastIndex, false));
  }

  /** A top-level argument class carries its own nullability marker, while
      nothing nested inside it does: its text holds '?' exactly when it is
      nullable, provided no name in it contains '?'. */
  lemma ArgumentClassMarker(k: KType)
    requires NamesAvoid(k, '?')
    ensures '?' in ArgumentTypeText(ArgumentClass(k)) <==> k.isMarkedNullable
  {
    ConvertedWritesNoMarker(GetName(k), k, 0, true);
    var rendered := Rendered(k);
    if k.isMarkedNullable {
      assert ArgumentTypeText(ArgumentClass(k))[|rendered|] == '?';
    } else {
      assert ArgumentTypeText(ArgumentClass(k)) == rendered + "";
    }
  }

  /** A star argument prints as `*`: a non-last nullable `items: List<*>?`
      declares `\titems: List<*>?,`. */
  lemma StarArgumentDeclaration(list: Declaration)
    requires list.simpleName == "List"
    ensures MissingArgumentDeclaration(ValueParameter("items", KType(list, true, [Star]), None, false), false)
         == Success("\titems: List<*>?,\n")
  {
    var p := ValueParameter("items", KType(list, true, [Star]), None, false);
    var argumentTypes := ArgumentTypes(p.ty.arguments);
    assert argumentTypes == [Asterix];
    assert ArgumentTypeTexts(argumentTypes) == ["*"];
    assert Listed(["*"], ", ", "", 1) == "*";
    assert BracketedList(["*"]) == "<*>";
    assert DeclarationText(p, false) == "\titems: List<*>?,\n";
  }
}
