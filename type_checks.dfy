/**
  The generator's type-compatibility test: `isKSTypeAssignable` and the
  argument-list comparison `matches` it relies on.
*/
module TypeChecks {
  import opened Descriptors
  import opened Extensions

  /** `List<KSTypeArgument>.matches` (MappingFunctionGenerator.kt:386-407).
      The early return at :387-389 answers whenever both lists are empty or
      both are non-empty; when exactly one is empty the sizes differ, so the
      element-by-element comparison at :393-406 is never reached. */
  function Matches(these: seq<TypeArgument>, others: seq<TypeArgument>): (r: bool)
    ensures r <==> (these == [] <==> others == [])
    ensures these != [] && others != [] ==> r
  {
    if (|these| == 0) == (|others| == 0) then true
    else if |these| != |others| then false
    else assert false; false
  }

  /** `isKSTypeAssignable` (MappingFunctionGenerator.kt:371-384). */
  function IsKSTypeAssignable(source: KType, target: KType, isGenericType: bool): (r: bool)
    ensures source.isMarkedNullable && !target.isMarkedNullable ==> !r
    ensures isGenericType ==> (r <==> !source.isMarkedNullable || target.isMarkedNullable)
    ensures !isGenericType ==>
              (r <==> (!source.isMarkedNullable || target.isMarkedNullable)
                      && QualifiedName(source.declaration) == QualifiedName(target.declaration)
                      && (source.arguments == [] <==> target.arguments == []))
  {
    if source.isMarkedNullable && !target.isMarkedNullable then false
    else if !isGenericType && !CompareByDeclaration(source, target.declaration) then false
    else isGenericType || Matches(source.arguments, target.arguments)
  }

  /** Every type is assignable to itself, in either kind of position. */
  lemma AssignableToItself(t: KType, isGenericType: bool)
    ensures IsKSTypeAssignable(t, t, isGenericType)
  {
  }

  /** Type arguments are compared only for emptiness: `List<Int>` is accepted
      where `List<String>` is expected. */
  lemma ArgumentsOnlyComparedForEmptiness(list: Declaration, intType: KType, stringType: KType)
    requires QualifiedName(intType.declaration) != QualifiedName(stringType.declaration)
    ensures IsKSTypeAssignable(KType(list, false, [Projection(intType)]), KType(list, false, [Projection(stringType)]), false)
  {
  }
}
