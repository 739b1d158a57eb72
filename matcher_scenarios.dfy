/**
  Two concrete runs of the field matcher: the bound branch reaching a bound
  two supertype steps up, and the alias of the sample `MockEntity` record.
*/
module MatcherScenarios {
  import opened Descriptors
  import opened Extensions
  import opened TypeChecks
  import opened FieldMatcher

  function Animal(): Declaration { Declaration("zoo", "Animal", true) }
  function Mammal(): Declaration { Declaration("zoo", "Mammal", true) }
  function Dog(): Declaration { Declaration("zoo", "Dog", true) }

  function Plain(d: Declaration): KType { KType(d, false, []) }

  /** `Animal`, `open class Mammal : Animal`, `class Dog : Mammal`. */
  function Zoo(): seq<ClassDeclaration>
  {
    [ ClassDeclaration(Animal(), [], None, [], [], {Open}, []),
      ClassDeclaration(Mammal(), [], None, [], [Plain(Animal())], {Open}, []),
      ClassDeclaration(Dog(), [], None, [], [Plain(Mammal())], {}, []) ]
  }

  /** `<T : Animal>` on the target class. */
  function PetParameters(): seq<TypeParameter>
  {
    [TypeParameter("T", Some(UpperBound("Animal", Plain(Animal()))))]
  }

  /** The target parameter `pet: T?`. */
  function Pet(): ValueParameter
  {
    ValueParameter("pet", KType(Declaration("", "T", false), true, []), None, false)
  }

  /** Each class of the hierarchy resolves to its own entry. */
  lemma ZooLookup()
    ensures FindClass(Zoo(), QualifiedName(Animal())) == Some(0)
    ensures FindClass(Zoo(), QualifiedName(Mammal())) == Some(1)
    ensures FindClass(Zoo(), QualifiedName(Dog())) == Some(2)
  {
    var env := Zoo();
    assert QualifiedName(Animal())[4] == 'A';
    assert QualifiedName(Mammal())[4] == 'M';
    assert QualifiedName(Dog())[4] == 'D';
    assert env[1..][1..] == [env[2]];
  }

  lemma ZooIsAcyclic()
    ensures Acyclic(Zoo())
  {
    var env := Zoo();
    ZooLookup();
    assert Rank(env, Animal()) == 1 && Rank(env, Mammal()) == 2;
    forall i, k | 0 <= i < |env| && 0 <= k < |env[i].superTypes|
      ensures Rank(env, env[i].superTypes[k].declaration) <= i
    {
      if i == 1 {
        assert env[i].superTypes[k].declaration == Animal();
      } else {
        assert i == 2 && env[i].superTypes[k].declaration == Mammal();
      }
    }
  }

  /** A `Dog` property fills a `T?` parameter bounded by `Animal` through the
      bound branch, with the cast label `Animal?`; an `Animal` property does
      not, since the bound must be a strict supertype, and is taken by the
      plain branch with the label `T?` instead. */
  lemma BoundBranchFollowsSupertypes()
    ensures Acyclic(Zoo())
    ensures Acyclic(Zoo()) ==>
              MatchOf(Zoo(), PetParameters(), Pet(), Property("pet", Plain(Dog()), None))
              == Some(MatchingArgument("pet", "pet", Some("Animal?")))
    ensures Acyclic(Zoo()) ==>
              MatchOf(Zoo(), PetParameters(), Pet(), Property("pet", Plain(Animal()), None))
              == Some(MatchingArgument("pet", "pet", Some("T?")))
  {
    ZooIsAcyclic();
    DogMatchesThroughBound();
    AnimalMatchesPlainly();
  }

  /** `Dog` reaches `Animal` through `Mammal`. */
  lemma DogReachesAnimal()
    requires Acyclic(Zoo())
    ensures ContainsSupertype(Zoo(), Dog(), Animal())
  {
    ZooLookup();
    var env := Zoo();
    assert CompareByQualifiedName(Animal(), env[1].superTypes[0].declaration);
    assert ContainsSupertype(env, Mammal(), Animal());
    assert ContainsSupertype(env, env[2].superTypes[0].declaration, Animal());
  }

  lemma DogMatchesThroughBound()
    requires Acyclic(Zoo())
    ensures MatchOf(Zoo(), PetParameters(), Pet(), Property("pet", Plain(Dog()), None))
         == Some(MatchingArgument("pet", "pet", Some("Animal?")))
  {
    DogReachesAnimal();
    var tps := PetParameters();
    var dog := Property("pet", Plain(Dog()), None);
    assert IsCandidate(Pet(), dog);
    assert ReferencedTypeParameter(tps, Pet().ty) == Some(tps[0]);
    assert UpperBoundDeclaration(Some(tps[0])) == Some(Animal());
    assert IsKSTypeAssignable(dog.ty, Pet().ty, true);
    assert Animal().simpleName + MarkedNullableAsString(Pet().ty) == "Animal?";
    assert Examine(Zoo(), tps, Pet(), dog) == BoundMatch(Animal(), "Animal?");
  }

  lemma AnimalMatchesPlainly()
    requires Acyclic(Zoo())
    ensures MatchOf(Zoo(), PetParameters(), Pet(), Property("pet", Plain(Animal()), None))
         == Some(MatchingArgument("pet", "pet", Some("T?")))
  {
    var env := Zoo();
    ContainsSupertypeIrreflexive(env, Animal());
    var tps := PetParameters();
    assert ReferencedTypeParameter(tps, Pet().ty) == Some(tps[0]);
    assert UpperBoundDeclaration(Some(tps[0])) == Some(Animal());
    assert !ContainsSupertype(env, Plain(Animal()).declaration, Animal());
    assert tps[0].name + MarkedNullableAsString(Pet().ty) == "T?";
    assert Examine(env, tps, Pet(), Property("pet", Plain(Animal()), None)) == PlainMatch(Some("T?"));
  }

  /** The sample record `MockEntity(id: Long, @MapperProperty("name")
      name222: String, dasd: String)` mapped to a record with a `name`
      parameter: the alias makes `name222` the source of `name`. */
  lemma AliasMatchesMockEntity()
    ensures var text := Plain(Declaration("kotlin", "String", false));
            var sources := [Property("id", Plain(Declaration("kotlin", "Long", false)), None),
                            Property("name222", text, Some("name")),
                            Property("dasd", text, None)];
            LastMatch([], [], ValueParameter("name", text, None, false), sources)
            == Some(MatchingArgument("name", "name222", None))
  {
    var text := Plain(Declaration("kotlin", "String", false));
    var sources := [Property("id", Plain(Declaration("kotlin", "Long", false)), None),
                    Property("name222", text, Some("name")),
                    Property("dasd", text, None)];
    assert sources[..2][..1] == sources[..1];
    assert sources[..3][..2] == sources[..2];
    assert sources[..3] == sources;
  }
}
