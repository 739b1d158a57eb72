/**
  `PackageImports`: the import collector both mapping directions share. It
  keeps (package, class) pairs in first-insertion order without duplicates
  (a `LinkedHashSet` in the source) and the set of target-class type
  parameters, whose names are never imported.
*/
module Imports {
  import opened Descriptors

  ghost predicate Distinct(s: seq<ImportEntry>)
  {
    forall i, j :: 0 <= i < j < |s| ==> s[i] != s[j]
  }

  /** Adding one pair to an insertion-ordered set: appended when absent,
      otherwise nothing changes. */
  function Insert(s: seq<ImportEntry>, e: ImportEntry): (r: seq<ImportEntry>)
    ensures Distinct(s) ==> Distinct(r)
    ensures forall x :: x in r <==> x in s || x == e
    ensures |s| <= |r| && r[..|s|] == s
  {
    if e in s then s else s + [e]
  }

  /** Adding pairs one after another. */
  function InsertAll(s: seq<ImportEntry>, es: seq<ImportEntry>): (r: seq<ImportEntry>)
    ensures Distinct(s) ==> Distinct(r)
    ensures forall x :: x in r <==> x in s || x in es
    ensures |s| <= |r| && r[..|s|] == s
  {
    if es == [] then s else Insert(InsertAll(s, es[..|es| - 1]), es[|es| - 1])
  }

  /** Adding the same pair twice leaves the set as one addition left it. */
  lemma InsertIdempotent(s: seq<ImportEntry>, e: ImportEntry)
    ensures Insert(Insert(s, e), e) == Insert(s, e)
  {
  }

  /** Adding a batch that is already present changes nothing. */
  lemma {:induction false} InsertAllPresent(s: seq<ImportEntry>, es: seq<ImportEntry>)
    requires forall x :: x in es ==> x in s
    ensures InsertAll(s, es) == s
  {
    if es != [] {
      InsertAllPresent(s, es[..|es| - 1]);
    }
  }

  /** Adding two batches in turn is adding their concatenation. */
  lemma {:induction false} InsertAllAppend(s: seq<ImportEntry>, a: seq<ImportEntry>, b: seq<ImportEntry>)
    ensures InsertAll(InsertAll(s, a), b) == InsertAll(s, a + b)
  {
    if b != [] {
      InsertAllAppend(s, a, b[..|b| - 1]);
      assert (a + b)[..|a + b| - 1] == a + b[..|b| - 1];
    } else {
      assert a + b == a;
    }
  }

  /** Names of the registered type parameters. */
  function TypeParameterNames(tps: set<TypeParameter>): set<string>
  {
    set tp | tp in tps :: tp.name
  }

  /** One import statement. */
  function ImportStatement(e: ImportEntry): string
  {
    "import " + e.0 + "." + e.1 + "\n"
  }

  /** What `asFormattedImports` has appended after visiting the first `n`
      entries (PackageImports.kt:28-39): an entry whose class name is a
      type-parameter name is skipped; any other gets its statement, and the
      entry at the last index also gets a blank line. */
  function FormattedPrefix(imports: seq<ImportEntry>, names: set<string>, n: nat): string
    requires n <= |imports|
  {
    if n == 0 then ""
    else FormattedPrefix(imports, names, n - 1)
         + (if imports[n - 1].1 in names then ""
            else ImportStatement(imports[n - 1]) + (if |imports| - 1 == n - 1 then "\n" else ""))
  }

  function FormattedImports(imports: seq<ImportEntry>, names: set<string>): string
  {
    FormattedPrefix(imports, names, |imports|)
  }

  /** The entries that are emitted, in stored order: those whose class name
      is not a type-parameter name. */
  function KeptImports(imports: seq<ImportEntry>, names: set<string>): (r: seq<ImportEntry>)
    ensures forall e :: e in r <==> e in imports && e.1 !in names
    ensures |r| <= |imports|
  {
    if imports == [] then []
    else KeptImports(imports[..|imports| - 1], names)
         + (if imports[|imports| - 1].1 in names then [] else [imports[|imports| - 1]])
  }

  function ImportStatements(entries: seq<ImportEntry>): string
  {
    if entries == [] then ""
    else ImportStatements(entries[..|entries| - 1]) + ImportStatement(entries[|entries| - 1])
  }

  lemma ImportStatementsAppend(entries: seq<ImportEntry>, e: ImportEntry)
    ensures ImportStatements(entries + [e]) == ImportStatements(entries) + ImportStatement(e)
  {
    assert (entries + [e])[..|entries|] == entries;
  }

  /** One more stored entry adds its statement exactly when it is kept. */
  lemma KeptStatementsStep(imports: seq<ImportEntry>, names: set<string>, n: nat)
    requires 0 < n <= |imports|
    ensures ImportStatements(KeptImports(imports[..n], names))
         == ImportStatements(KeptImports(imports[..n - 1], names))
            + (if imports[n - 1].1 in names then "" else ImportStatement(imports[n - 1]))
  {
    var prefix := imports[..n];
    assert prefix[..n - 1] == imports[..n - 1];
    assert prefix[n - 1] == imports[n - 1];
    var kept := KeptImports(imports[..n - 1], names);
    if imports[n - 1].1 !in names {
      assert KeptImports(prefix, names) == kept + [imports[n - 1]];
      ImportStatementsAppend(kept, imports[n - 1]);
    } else {
      assert KeptImports(prefix, names) == kept + [];
      assert kept + [] == kept;
    }
  }

  /** One step of the formatting loop, in terms of the kept entries. */
  lemma FormattedPrefixStep(imports: seq<ImportEntry>, names: set<string>, n: nat, before: string)
    requires 0 < n <= |imports|
    requires FormattedPrefix(imports, names, n - 1) == before
    requires ImportStatements(KeptImports(imports[..n], names))
          == before + (if imports[n - 1].1 in names then "" else ImportStatement(imports[n - 1]))
    ensures FormattedPrefix(imports, names, n)
         == ImportStatements(KeptImports(imports[..n], names))
            + (if n == |imports| && imports[n - 1].1 !in names then "\n" else "")
  {
    var entry := imports[n - 1];
    if entry.1 !in names {
      var line := ImportStatement(entry);
      var blank := if n == |imports| then "\n" else "";
      assert FormattedPrefix(imports, names, n) == before + (line + blank);
      assert before + (line + blank) == (before + line) + blank;
    } else {
      assert before + "" == before;
    }
  }

  lemma {:induction false} FormattedPrefixIsKept(imports: seq<ImportEntry>, names: set<string>, n: nat)
    requires n <= |imports|
    ensures FormattedPrefix(imports, names, n)
         == ImportStatements(KeptImports(imports[..n], names))
            + (if n == |imports| && n > 0 && imports[n - 1].1 !in names then "\n" else "")
  {
    if n > 0 {
      FormattedPrefixIsKept(imports, names, n - 1);
      KeptStatementsStep(imports, names, n);
      FormattedPrefixStep(imports, names, n, ImportStatements(KeptImports(imports[..n - 1], names)));
    }
  }

  /** The formatted imports are one statement per kept entry in stored order,
      followed by a blank line only when the last stored entry is itself
      emitted; nothing at all for an empty collector. */
  lemma FormattedImportsShape(imports: seq<ImportEntry>, names: set<string>)
    ensures FormattedImports(imports, names)
         == ImportStatements(KeptImports(imports, names))
            + (if imports != [] && imports[|imports| - 1].1 !in names then "\n" else "")
  {
    FormattedPrefixIsKept(imports, names, |imports|);
    assert imports[..|imports|] == imports;
  }

  class PackageImports {
    var targetClassTypeParameters: set<TypeParameter>
    var imports: seq<ImportEntry>

    ghost predicate Valid()
      reads this
    {
      Distinct(imports)
    }

    constructor ()
      ensures Valid() && imports == [] && targetClassTypeParameters == {}
    {
      targetClassTypeParameters := {};
      imports := [];
    }

    /** `addImport(packageName, className)` (PackageImports.kt:12-14). */
    method AddImport(packageName: string, className: string)
      requires Valid()
      modifies this`imports
      ensures Valid()
      ensures imports == Insert(old(imports), (packageName, className))
    {
      if (packageName, className) !in imports {
        imports := imports + [(packageName, className)];
      }
    }

    /** `addImport(ksType)` (PackageImports.kt:16-22): the pair of the type's
        declaration package and simple name, exactly as `AddImport` adds it. */
    method AddTypeImport(ksType: KType)
      requires Valid()
      modifies this`imports
      ensures Valid()
      ensures imports == Insert(old(imports), (ksType.declaration.packageName, ksType.declaration.simpleName))
    {
      var declaration := ksType.declaration;
      var packageName := declaration.packageName;
      var className := declaration.simpleName;
      if (packageName, className) !in imports {
        imports := imports + [(packageName, className)];
      }
    }

    /** `packageImports.targetClassTypeParameters += ...`
        (MappingFunctionGenerator.kt:26). */
    method AddTypeParameters(typeParameters: seq<TypeParameter>)
      modifies this`targetClassTypeParameters
      ensures targetClassTypeParameters == old(targetClassTypeParameters) + set tp | tp in typeParameters
    {
      targetClassTypeParameters := targetClassTypeParameters + set tp | tp in typeParameters;
    }

    /** `asFormattedImports` (PackageImports.kt:24-42). It only reads. */
    method AsFormattedImports() returns (importText: string)
      ensures importText == FormattedImports(imports, TypeParameterNames(targetClassTypeParameters))
    {
      importText := "";
      var typeParams := set tp | tp in targetClassTypeParameters :: tp.name;
      var index := 0;
      while index < |imports|
        invariant 0 <= index <= |imports|
        invariant importText == FormattedPrefix(imports, typeParams, index)
      {
        var (packageName, className) := imports[index];
        if className !in typeParams {
          importText := importText + "import " + packageName + "." + className + "\n";
          if |imports| - 1 == index {
            importText := importText + "\n";
          }
        }
        index := index + 1;
      }
    }
  }
}
