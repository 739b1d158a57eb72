/**
  Immutable descriptors that stand in for the KSP symbol graph: declarations,
  resolved types and their type arguments, type parameters, constructor
  parameters, properties, annotations and class declarations, plus the
  warnings and errors the engine reports to its host.
*/
module Descriptors {

  datatype Option<+T> = None | Some(value: T)

  datatype Result<+R, +E> = Success(value: R) | Failure(error: E)

  /** A declaration as KSP names it. `hasSourceFile` is false for a
      declaration read from a library (its `containingFile` is null). */
  datatype Declaration = Declaration(packageName: string, simpleName: string, hasSourceFile: bool)

  /** A resolved type: its declaration, whether it is marked nullable and its
      type arguments in order. */
  datatype KType = KType(declaration: Declaration, isMarkedNullable: bool, arguments: seq<TypeArgument>)

  /** A type argument: the star projection `*`, a non-star argument whose type
      reference is absent, or a non-star argument with its resolved type. */
  datatype TypeArgument = Star | Unresolved | Projection(ty: KType)

  /** The first upper bound of a type parameter: the text of the bound
      reference as it is printed, and the type it resolves to. */
  datatype UpperBound = UpperBound(text: string, ty: KType)

  datatype TypeParameter = TypeParameter(name: string, firstBound: Option<UpperBound>)

  /** A primary-constructor parameter; `alias` is the string given to its
      `@MapperProperty` annotation, if any. */
  datatype ValueParameter = ValueParameter(name: string, ty: KType, alias: Option<string>, hasDefault: bool)

  /** A property of a class, inherited ones included. */
  datatype Property = Property(name: string, ty: KType, alias: Option<string>)

  datatype Modifier = Data | Open | Abstract | Sealed | Inner | Value | OtherModifier

  datatype AnnotationArgument = TypeValue(ty: KType) | OtherValue

  datatype Annotation = Annotation(shortName: string, arguments: seq<AnnotationArgument>)

  /** A class declaration. `primaryConstructor` is None when the class has no
      primary constructor; `properties` lists all properties (inherited ones
      included) in the order KSP enumerates them. */
  datatype ClassDeclaration = ClassDeclaration(
    declaration: Declaration,
    typeParameters: seq<TypeParameter>,
    primaryConstructor: Option<seq<ValueParameter>>,
    properties: seq<Property>,
    superTypes: seq<KType>,
    modifiers: set<Modifier>,
    annotations: seq<Annotation>)

  /** Non-fatal diagnostics logged through `KSPLogger.warn`. */
  datatype Warning =
    | IncompatibleCandidate(targetParameter: string, sourceProperty: string)
    | NoMappableArgument(sourceClass: string, targetClass: string)

  /** Conditions that stop generation for an annotated class. */
  datatype Error =
    | PrimaryConstructorMissing
    | MapperAnnotationMissing
    | MapperArgumentNotAType
    | MappingTargetNotFound(qualifiedName: string)
    | UnresolvableArgumentType(parameter: string)

  /** An entry of the import collector: (package name, class name). */
  type ImportEntry = (string, string)

  function ImportOf(d: Declaration): ImportEntry
  {
    (d.packageName, d.simpleName)
  }

  /** The parameters of a class's primary constructor, none if it has none. */
  function ConstructorParameters(c: ClassDeclaration): seq<ValueParameter>
  {
    match c.primaryConstructor
    case None => []
    case Some(ps) => ps
  }
}
