/**
  The small helpers over declarations and types the generator relies on:
  qualified-name comparison, the recursive supertype search, the nullability
  marker, simple names and annotation lookup.

  The KSP `Resolver` is replaced by a table of known class declarations,
  searched front to back by qualified name.
*/
module Extensions {
  import opened Descriptors

  /** `package + "." + simpleName`, the string `compareByQualifiedName` builds. */
  function QualifiedName(d: Declaration): string
  {
    d.packageName + "." + d.simpleName
  }

  /** `compareByQualifiedName` (Extensions.kt:38-42). */
  predicate CompareByQualifiedName(a: Declaration, b: Declaration)
  {
    QualifiedName(a) == QualifiedName(b)
  }

  /** `compareByDeclaration` (Extensions.kt:35-36): the type's declaration
      compared by qualified name. */
  predicate CompareByDeclaration(t: KType, other: Declaration)
  {
    CompareByQualifiedName(t.declaration, other)
  }

  /** A type matches a declaration exactly when its own declaration has the
      same package and simple name, for simple names without a dot. */
  lemma CompareByDeclarationIff(t: KType, other: Declaration)
    requires '.' !in t.declaration.simpleName && '.' !in other.simpleName
    ensures CompareByDeclaration(t, other)
        <==> t.declaration.packageName == other.packageName && t.declaration.simpleName == other.simpleName
  {
    CompareByQualifiedNameIff(t.declaration, other);
  }

  /** Comparing by qualified name is an equivalence relation. */
  lemma CompareByQualifiedNameIsEquivalence(a: Declaration, b: Declaration, c: Declaration)
    ensures CompareByQualifiedName(a, a)
    ensures CompareByQualifiedName(a, b) ==> CompareByQualifiedName(b, a)
    ensures CompareByQualifiedName(a, b) && CompareByQualifiedName(b, c) ==> CompareByQualifiedName(a, c)
  {
  }

  /** Since a simple name holds no dot, two declarations are equal by
      qualified name exactly when their package names and simple names are
      equal. */
  lemma {:induction false} CompareByQualifiedNameIff(a: Declaration, b: Declaration)
    requires '.' !in a.simpleName && '.' !in b.simpleName
    ensures CompareByQualifiedName(a, b) <==> a.packageName == b.packageName && a.simpleName == b.simpleName
  {
    if CompareByQualifiedName(a, b) {
      var s := QualifiedName(a);
      var x, y := a.simpleName, b.simpleName;
      assert s == QualifiedName(b);
      assert s[|s| - |x|..] == x && s[|s| - |y|..] == y;
      assert s[|s| - |x| - 1] == '.' && s[|s| - |y| - 1] == '.';
      if |x| != |y| {
        assert false;
      }
      assert x == y;
      assert a.packageName == s[..|s| - |x| - 1] == b.packageName;
    }
  }

  /** Index of the first class in `env` whose qualified name is `name`:
      `Resolver.getClassDeclarationByName`. */
  function FindClass(env: seq<ClassDeclaration>, name: string): (r: Option<nat>)
    ensures r.Some? ==> r.value < |env| && QualifiedName(env[r.value].declaration) == name
    ensures r.Some? ==> forall k :: 0 <= k < r.value ==> QualifiedName(env[k].declaration) != name
    ensures r.None? <==> forall k :: 0 <= k < |env| ==> QualifiedName(env[k].declaration) != name
  {
    if env == [] then None
    else if QualifiedName(env[0].declaration) == name then Some(0)
    else match FindClass(env[1..], name)
      case None => None
      case Some(i) => Some(i + 1)
  }

  /** `getClassDeclarationByName` returning the declaration itself. */
  function GetClassDeclarationByName(env: seq<ClassDeclaration>, name: string): (r: Option<ClassDeclaration>)
    ensures r.Some? ==> r.value in env && QualifiedName(r.value.declaration) == name
    ensures r.None? <==> forall c :: c in env ==> QualifiedName(c.declaration) != name
  {
    match FindClass(env, name)
    case None => None
    case Some(i) => Some(env[i])
  }

  /** Position of a declaration's class in `env`, plus one; zero when it does
      not resolve. */
  function Rank(env: seq<ClassDeclaration>, d: Declaration): nat
  {
    match FindClass(env, QualifiedName(d))
    case None => 0
    case Some(i) => i + 1
  }

  /** Supertype hierarchies are acyclic: every direct supertype of a known
      class resolves to a class listed earlier, or to none. */
  ghost predicate Acyclic(env: seq<ClassDeclaration>)
  {
    forall i, k :: 0 <= i < |env| && 0 <= k < |env[i].superTypes| ==> Rank(env, env[i].superTypes[k].declaration) <= i
  }

  /** `containsSupertype` (Extensions.kt:23-33): false when `d` does not
      resolve to a class; otherwise some direct supertype equals `searched` by
      qualified name or recursively contains it. */
  function ContainsSupertype(env: seq<ClassDeclaration>, d: Declaration, searched: Declaration): (r: bool)
    requires Acyclic(env)
    ensures FindClass(env, QualifiedName(d)).None? ==> !r
    decreases Rank(env, d)
  {
    match FindClass(env, QualifiedName(d))
    case None => false
    case Some(i) =>
      exists k :: 0 <= k < |env[i].superTypes| &&
        (CompareByQualifiedName(searched, env[i].superTypes[k].declaration)
         || ContainsSupertype(env, env[i].superTypes[k].declaration, searched))
  }

  /** The search depends on `d` only through its qualified name. */
  lemma ContainsSupertypeByQualifiedName(env: seq<ClassDeclaration>, d: Declaration, e: Declaration, searched: Declaration)
    requires Acyclic(env) && CompareByQualifiedName(d, e)
    ensures ContainsSupertype(env, d, searched) == ContainsSupertype(env, e, searched)
  {
  }

  /** A direct supertype is found. */
  lemma DirectSupertypeIsContained(env: seq<ClassDeclaration>, i: nat, k: nat)
    requires Acyclic(env) && i < |env| && k < |env[i].superTypes|
    requires FindClass(env, QualifiedName(env[i].declaration)) == Some(i)
    ensures ContainsSupertype(env, env[i].declaration, env[i].superTypes[k].declaration)
  {
    var sup := env[i].superTypes[k].declaration;
    assert CompareByQualifiedName(sup, sup);
  }

  /** Whatever is found lies strictly below the class searched from. */
  lemma {:induction false} ContainsSupertypeRanksBelow(env: seq<ClassDeclaration>, d: Declaration, s: Declaration)
    requires Acyclic(env) && ContainsSupertype(env, d, s)
    ensures Rank(env, s) < Rank(env, d)
    decreases Rank(env, d)
  {
    var i := FindClass(env, QualifiedName(d)).value;
    var k :| 0 <= k < |env[i].superTypes| &&
      (CompareByQualifiedName(s, env[i].superTypes[k].declaration)
       || ContainsSupertype(env, env[i].superTypes[k].declaration, s));
    var sup := env[i].superTypes[k].declaration;
    assert Rank(env, sup) <= i;
    if !CompareByQualifiedName(s, sup) {
      ContainsSupertypeRanksBelow(env, sup, s);
    }
  }

  /** The closure is strict: no class is its own supertype. */
  lemma ContainsSupertypeIrreflexive(env: seq<ClassDeclaration>, d: Declaration)
    requires Acyclic(env)
    ensures !ContainsSupertype(env, d, d)
  {
    if ContainsSupertype(env, d, d) {
      ContainsSupertypeRanksBelow(env, d, d);
    }
  }

  /** The closure is transitive. */
  lemma {:induction false} ContainsSupertypeTransitive(env: seq<ClassDeclaration>, a: Declaration, b: Declaration, c: Declaration)
    requires Acyclic(env) && ContainsSupertype(env, a, b) && ContainsSupertype(env, b, c)
    ensures ContainsSupertype(env, a, c)
    decreases Rank(env, a)
  {
    var i := FindClass(env, QualifiedName(a)).value;
    var k :| 0 <= k < |env[i].superTypes| &&
      (CompareByQualifiedName(b, env[i].superTypes[k].declaration)
       || ContainsSupertype(env, env[i].superTypes[k].declaration, b));
    var sup := env[i].superTypes[k].declaration;
    if CompareByQualifiedName(b, sup) {
      ContainsSupertypeByQualifiedName(env, b, sup, c);
    } else {
      ContainsSupertypeTransitive(env, sup, b, c);
    }
    assert ContainsSupertype(env, sup, c);
  }

  /** `markedNullableAsString` (Extensions.kt:44). */
  function MarkedNullableAsString(t: KType): (r: string)
    ensures r == "?" <==> t.isMarkedNullable
    ensures r == "" <==> !t.isMarkedNullable
  {
    if t.isMarkedNullable then "?" else ""
  }

  /** `KSType.getName` (Extensions.kt:8-9): the simple name of the type's
      declaration. */
  function GetName(t: KType): string
  {
    t.declaration.simpleName
  }

  /** Two types whose declarations compare equal have the same simple name,
      whatever their nullability and type arguments. */
  lemma SameDeclarationSameName(t: KType, u: KType)
    requires '.' !in t.declaration.simpleName && '.' !in u.declaration.simpleName
    requires CompareByDeclaration(t, u.declaration)
    ensures GetName(t) == GetName(u)
  {
    CompareByQualifiedNameIff(t.declaration, u.declaration);
  }

  /** `extractAnnotation` (Extensions.kt:14-15): the first annotation whose
      short name is `name`; None where Kotlin's `first` would throw. */
  function ExtractAnnotation(annotations: seq<Annotation>, name: string): (r: Option<Annotation>)
    ensures r.None? <==> forall i :: 0 <= i < |annotations| ==> annotations[i].shortName != name
    ensures r.Some? ==> exists i :: 0 <= i < |annotations| && annotations[i] == r.value && r.value.shortName == name
                          && forall j :: 0 <= j < i ==> annotations[j].shortName != name
  {
    if annotations == [] then None
    else if annotations[0].shortName == name then Some(annotations[0])
    else
      var r := ExtractAnnotation(annotations[1..], name);
      assert r.Some? ==> exists i :: 1 <= i < |annotations| && annotations[i] == r.value && r.value.shortName == name
                          && forall j :: 0 <= j < i ==> annotations[j].shortName != name by {
        if r.Some? {
          var i :| 0 <= i < |annotations| - 1 && annotations[1..][i] == r.value && r.value.shortName == name
                          && forall j :: 0 <= j < i ==> annotations[1..][j].shortName != name;
          assert annotations[i + 1] == r.value;
        }
      }
      r
  }
}
