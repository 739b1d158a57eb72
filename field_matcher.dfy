/**
  The field matcher, `getMatchingAndMissingArguments`
  (MappingFunctionGenerator.kt:222-328): for every target constructor
  parameter it scans all source properties, records the match of the last
  candidate that passed a branch, and otherwise lists the parameter as
  missing unless it has a default value.
*/
module FieldMatcher {
  import opened Descriptors
  import opened Extensions
  import opened TypeChecks
  import opened Imports

  /** `MatchingArgument` (argument/MatchingArgument.kt:3-7): one line of the
      generated constructor call, with the optional "as" cast label. */
  datatype MatchingArgument = MatchingArgument(
    targetClassPropertyName: string,
    sourceClassPropertyName: string,
    targetClassPropertyGenericTypeName: Option<string>)

  /** What examining one source property for one target parameter decides. */
  datatype Verdict =
    | NotCandidate
    | BoundMatch(bound: Declaration, boundLabel: string)
    | PlainMatch(plainLabel: Option<string>)
    | Incompatible

  /** The name test of MappingFunctionGenerator.kt:253-256; an absent alias
      equals no name. */
  predicate IsCandidate(target: ValueParameter, source: Property)
  {
    source.name == target.name || source.alias == Some(target.name) || target.alias == Some(source.name)
  }

  /** The first target-class type parameter named like the target type's
      declaration (MappingFunctionGenerator.kt:260-263). */
  function ReferencedTypeParameter(typeParameters: seq<TypeParameter>, t: KType): (r: Option<TypeParameter>)
    ensures r.Some? ==> r.value in typeParameters && r.value.name == t.declaration.simpleName
    ensures r.None? <==> forall i :: 0 <= i < |typeParameters| ==> typeParameters[i].name != t.declaration.simpleName
  {
    if typeParameters == [] then None
    else if typeParameters[0].name == t.declaration.simpleName then Some(typeParameters[0])
    else ReferencedTypeParameter(typeParameters[1..], t)
  }

  /** The declaration of the referenced parameter's first bound
      (MappingFunctionGenerator.kt:265-270). */
  function UpperBoundDeclaration(referenced: Option<TypeParameter>): Option<Declaration>
  {
    if referenced.Some? && referenced.value.firstBound.Some?
    then Some(referenced.value.firstBound.value.ty.declaration)
    else None
  }

  /** The bound branch's test (MappingFunctionGenerator.kt:265-283): the
      referenced type parameter has a first bound, the source type's class
      has that bound among its supertypes, and the nullability fits. */
  predicate PassesBoundBranch(env: seq<ClassDeclaration>, typeParameters: seq<TypeParameter>,
                              target: ValueParameter, source: Property)
    requires Acyclic(env)
  {
    var bound := UpperBoundDeclaration(ReferencedTypeParameter(typeParameters, target.ty));
    && bound.Some?
    && ContainsSupertype(env, source.ty.declaration, bound.value)
    && IsKSTypeAssignable(source.ty, target.ty, true)
  }

  /** The plain branch's test (MappingFunctionGenerator.kt:296-298):
      assignability, in generic position when the target type names a type
      parameter. */
  predicate PassesPlainBranch(typeParameters: seq<TypeParameter>, target: ValueParameter, source: Property)
  {
    IsKSTypeAssignable(source.ty, target.ty, ReferencedTypeParameter(typeParameters, target.ty).Some?)
  }

  /** One iteration of the scan over source properties
      (MappingFunctionGenerator.kt:245-317): a candidate takes the bound
      branch exactly when it passes its test, otherwise the plain branch
      exactly when it passes that test, and is incompatible when it passes
      neither. */
  function Examine(env: seq<ClassDeclaration>, typeParameters: seq<TypeParameter>,
                   target: ValueParameter, source: Property): (v: Verdict)
    requires Acyclic(env)
    ensures v.NotCandidate? <==> !IsCandidate(target, source)
    ensures v.BoundMatch? <==> IsCandidate(target, source) && PassesBoundBranch(env, typeParameters, target, source)
    ensures v.PlainMatch? <==>
              IsCandidate(target, source) && !PassesBoundBranch(env, typeParameters, target, source)
              && PassesPlainBranch(typeParameters, target, source)
    ensures v.Incompatible? <==>
              IsCandidate(target, source) && !PassesBoundBranch(env, typeParameters, target, source)
              && !PassesPlainBranch(typeParameters, target, source)
    ensures v.BoundMatch? ==>
              && UpperBoundDeclaration(ReferencedTypeParameter(typeParameters, target.ty)) == Some(v.bound)
              && ContainsSupertype(env, source.ty.declaration, v.bound)
              && (!source.ty.isMarkedNullable || target.ty.isMarkedNullable)
              && v.boundLabel == v.bound.simpleName + (if target.ty.isMarkedNullable then "?" else "")
    ensures v.PlainMatch? ==>
              && (v.plainLabel.Some? <==> ReferencedTypeParameter(typeParameters, target.ty).Some?)
              && (v.plainLabel.Some? ==> v.plainLabel.value == target.ty.declaration.simpleName + (if target.ty.isMarkedNullable then "?" else ""))
  {
    if !IsCandidate(target, source) then NotCandidate
    else
      var referenced := ReferencedTypeParameter(typeParameters, target.ty);
      var boundDeclaration := UpperBoundDeclaration(referenced);
      if boundDeclaration.Some?
         && ContainsSupertype(env, source.ty.declaration, boundDeclaration.value)
         && IsKSTypeAssignable(source.ty, target.ty, true)
      then BoundMatch(boundDeclaration.value, boundDeclaration.value.simpleName + MarkedNullableAsString(target.ty))
      else if IsKSTypeAssignable(source.ty, target.ty, referenced.Some?)
      then PlainMatch(if referenced.Some? then Some(referenced.value.name + MarkedNullableAsString(target.ty)) else None)
      else Incompatible
  }

  /** The `MatchingArgument` a verdict records, if any. */
  function AsMatch(target: ValueParameter, source: Property, v: Verdict): Option<MatchingArgument>
  {
    match v
    case BoundMatch(_, boundLabel) => Some(MatchingArgument(target.name, source.name, Some(boundLabel)))
    case PlainMatch(plainLabel) => Some(MatchingArgument(target.name, source.name, plainLabel))
    case _ => None
  }

  /** The match one source property would record on its own: present
      exactly when it is a candidate that passed one of the two branch tests,
      then never a nullable source for a non-null target, and, when the
      target type names no type parameter, only from a source of the same
      class. */
  function MatchOf(env: seq<ClassDeclaration>, typeParameters: seq<TypeParameter>,
                   target: ValueParameter, source: Property): (r: Option<MatchingArgument>)
    requires Acyclic(env)
    ensures r.None? <==>
              !IsCandidate(target, source)
              || (!PassesBoundBranch(env, typeParameters, target, source) && !PassesPlainBranch(typeParameters, target, source))
    ensures r.Some? ==>
              && r.value.targetClassPropertyName == target.name
              && r.value.sourceClassPropertyName == source.name
              && (!source.ty.isMarkedNullable || target.ty.isMarkedNullable)
    ensures r.Some? && ReferencedTypeParameter(typeParameters, target.ty).None? ==>
              IsKSTypeAssignable(source.ty, target.ty, false)
  {
    AsMatch(target, source, Examine(env, typeParameters, target, source))
  }

  /** The match recorded after scanning `sources`: the scan never stops, so a
      later match overwrites an earlier one, while a later candidate that
      fails both branches leaves it in place. */
  function LastMatch(env: seq<ClassDeclaration>, typeParameters: seq<TypeParameter>,
                     target: ValueParameter, sources: seq<Property>): Option<MatchingArgument>
    requires Acyclic(env)
  {
    if sources == [] then None
    else
      match MatchOf(env, typeParameters, target, sources[|sources| - 1])
      case Some(m) => Some(m)
      case None => LastMatch(env, typeParameters, target, sources[..|sources| - 1])
  }

  /** Warnings logged while scanning `sources` for one target parameter
      (MappingFunctionGenerator.kt:309-316). */
  function CandidateWarnings(env: seq<ClassDeclaration>, typeParameters: seq<TypeParameter>,
                             target: ValueParameter, sources: seq<Property>): seq<Warning>
    requires Acyclic(env)
  {
    if sources == [] then []
    else
      var last := sources[|sources| - 1];
      CandidateWarnings(env, typeParameters, target, sources[..|sources| - 1])
      + (if Examine(env, typeParameters, target, last).Incompatible?
         then [IncompatibleCandidate(target.name, last.name)] else [])
  }

  /** Imports added while scanning `sources` for one target parameter: the
      bound's declaration on every bound-branch match, when it has a source
      file (MappingFunctionGenerator.kt:287-292). */
  function CandidateImports(env: seq<ClassDeclaration>, typeParameters: seq<TypeParameter>,
                            target: ValueParameter, sources: seq<Property>): seq<ImportEntry>
    requires Acyclic(env)
  {
    if sources == [] then []
    else
      var last := sources[|sources| - 1];
      var v := Examine(env, typeParameters, target, last);
      CandidateImports(env, typeParameters, target, sources[..|sources| - 1])
      + (if v.BoundMatch? && v.bound.hasSourceFile then [ImportOf(v.bound)] else [])
  }

  /** The matched arguments, in constructor order. */
  function MatchedArguments(env: seq<ClassDeclaration>, typeParameters: seq<TypeParameter>,
                            targets: seq<ValueParameter>, sources: seq<Property>): seq<MatchingArgument>
    requires Acyclic(env)
  {
    if targets == [] then []
    else
      MatchedArguments(env, typeParameters, targets[..|targets| - 1], sources)
      + match LastMatch(env, typeParameters, targets[|targets| - 1], sources)
        case Some(m) => [m]
        case None => []
  }

  /** Parameters with no match and no default, in constructor order. */
  function MissingArguments(env: seq<ClassDeclaration>, typeParameters: seq<TypeParameter>,
                            targets: seq<ValueParameter>, sources: seq<Property>): seq<ValueParameter>
    requires Acyclic(env)
  {
    if targets == [] then []
    else
      var last := targets[|targets| - 1];
      MissingArguments(env, typeParameters, targets[..|targets| - 1], sources)
      + (if LastMatch(env, typeParameters, last, sources).None? && !last.hasDefault then [last] else [])
  }

  /** Parameters with no match but a default: left out of the generated call. */
  function DroppedParameters(env: seq<ClassDeclaration>, typeParameters: seq<TypeParameter>,
                             targets: seq<ValueParameter>, sources: seq<Property>): seq<ValueParameter>
    requires Acyclic(env)
  {
    if targets == [] then []
    else
      var last := targets[|targets| - 1];
      DroppedParameters(env, typeParameters, targets[..|targets| - 1], sources)
      + (if LastMatch(env, typeParameters, last, sources).None? && last.hasDefault then [last] else [])
  }

  function MatcherWarnings(env: seq<ClassDeclaration>, typeParameters: seq<TypeParameter>,
                           targets: seq<ValueParameter>, sources: seq<Property>): seq<Warning>
    requires Acyclic(env)
  {
    if targets == [] then []
    else
      MatcherWarnings(env, typeParameters, targets[..|targets| - 1], sources)
      + CandidateWarnings(env, typeParameters, targets[|targets| - 1], sources)
  }

  function MatcherImports(env: seq<ClassDeclaration>, typeParameters: seq<TypeParameter>,
                          targets: seq<ValueParameter>, sources: seq<Property>): seq<ImportEntry>
    requires Acyclic(env)
  {
    if targets == [] then []
    else
      MatcherImports(env, typeParameters, targets[..|targets| - 1], sources)
      + CandidateImports(env, typeParameters, targets[|targets| - 1], sources)
  }

  /** The last present entry of a sequence of optional matches. */
  function LastPresent(ms: seq<Option<MatchingArgument>>): Option<MatchingArgument>
  {
    if ms == [] then None
    else if ms[|ms| - 1].Some? then ms[|ms| - 1]
    else LastPresent(ms[..|ms| - 1])
  }

  /** `LastPresent` is absent exactly when every entry is, and otherwise is
      an entry after which every entry is absent. */
  lemma {:induction false} LastPresentIsLast(ms: seq<Option<MatchingArgument>>)
    ensures LastPresent(ms).None? <==> forall k :: 0 <= k < |ms| ==> ms[k].None?
    ensures LastPresent(ms).Some? ==>
              exists k :: 0 <= k < |ms| && LastPresent(ms) == ms[k] && forall l :: k < l < |ms| ==> ms[l].None?
  {
    if ms != [] {
      var n := |ms|;
      var prefix := ms[..n - 1];
      LastPresentIsLast(prefix);
      assert forall k :: 0 <= k < n - 1 ==> prefix[k] == ms[k];
      if ms[n - 1].None? && LastPresent(prefix).Some? {
        var k :| 0 <= k < n - 1 && LastPresent(prefix) == prefix[k] && forall l :: k < l < n - 1 ==> prefix[l].None?;
        assert LastPresent(ms) == ms[k];
      }
    }
  }

  /** The match each source property would record on its own, in order. */
  function CandidateMatches(env: seq<ClassDeclaration>, typeParameters: seq<TypeParameter>,
                            target: ValueParameter, sources: seq<Property>): (ms: seq<Option<MatchingArgument>>)
    requires Acyclic(env)
    ensures |ms| == |sources|
    ensures forall k :: 0 <= k < |sources| ==> ms[k] == MatchOf(env, typeParameters, target, sources[k])
  {
    seq(|sources|, k requires 0 <= k < |sources| => MatchOf(env, typeParameters, target, sources[k]))
  }

  /** The scan's match is the last present entry of the candidates' own
      matches. */
  lemma {:induction false} LastMatchIsLastPresent(env: seq<ClassDeclaration>, typeParameters: seq<TypeParameter>,
                                                  target: ValueParameter, sources: seq<Property>)
    requires Acyclic(env)
    ensures LastMatch(env, typeParameters, target, sources) == LastPresent(CandidateMatches(env, typeParameters, target, sources))
  {
    if sources != [] {
      var n := |sources|;
      var prefix := sources[..n - 1];
      LastMatchIsLastPresent(env, typeParameters, target, prefix);
      var ms := CandidateMatches(env, typeParameters, target, sources);
      assert ms[..n - 1] == CandidateMatches(env, typeParameters, target, prefix);
    }
  }

  /** The scan never stops early: the recorded match is the one of the last
      candidate that passed a branch, and there is none exactly when no
      candidate passed. */
  lemma {:induction false} LastMatchIsLastPassingCandidate(env: seq<ClassDeclaration>, typeParameters: seq<TypeParameter>,
                                                           target: ValueParameter, sources: seq<Property>)
    requires Acyclic(env)
    ensures LastMatch(env, typeParameters, target, sources).None?
        <==> forall k :: 0 <= k < |sources| ==> MatchOf(env, typeParameters, target, sources[k]).None?
    ensures LastMatch(env, typeParameters, target, sources).Some? ==>
              exists k :: 0 <= k < |sources|
                && LastMatch(env, typeParameters, target, sources) == MatchOf(env, typeParameters, target, sources[k])
                && forall l :: k < l < |sources| ==> MatchOf(env, typeParameters, target, sources[l]).None?
  {
    var ms := CandidateMatches(env, typeParameters, target, sources);
    LastMatchIsLastPresent(env, typeParameters, target, sources);
    LastPresentIsLast(ms);
  }

  /** A property appended to the scan either records its own match, or, when
      it is not a candidate or fails both branches, leaves the earlier match
      in place; only a failing candidate adds a warning. */
  lemma AppendedCandidate(env: seq<ClassDeclaration>, typeParameters: seq<TypeParameter>,
                          target: ValueParameter, sources: seq<Property>, source: Property)
    requires Acyclic(env)
    ensures MatchOf(env, typeParameters, target, source).Some? ==>
              LastMatch(env, typeParameters, target, sources + [source]) == MatchOf(env, typeParameters, target, source)
    ensures MatchOf(env, typeParameters, target, source).None? ==>
              LastMatch(env, typeParameters, target, sources + [source]) == LastMatch(env, typeParameters, target, sources)
    ensures CandidateWarnings(env, typeParameters, target, sources + [source])
         == CandidateWarnings(env, typeParameters, target, sources)
            + (if IsCandidate(target, source) && MatchOf(env, typeParameters, target, source).None?
               then [IncompatibleCandidate(target.name, source.name)] else [])
  {
    assert (sources + [source])[..|sources|] == sources;
  }

  /** A recorded match names the target parameter and a candidate source
      property, and never feeds a nullable property into a non-null
      parameter. */
  lemma MatchComesFromCandidate(env: seq<ClassDeclaration>, typeParameters: seq<TypeParameter>,
                                target: ValueParameter, sources: seq<Property>)
    requires Acyclic(env) && LastMatch(env, typeParameters, target, sources).Some?
    ensures var m := LastMatch(env, typeParameters, target, sources).value;
            && m.targetClassPropertyName == target.name
            && exists k :: 0 <= k < |sources| && IsCandidate(target, sources[k])
                 && m.sourceClassPropertyName == sources[k].name
                 && (!sources[k].ty.isMarkedNullable || target.ty.isMarkedNullable)
  {
    LastMatchIsLastPassingCandidate(env, typeParameters, target, sources);
  }

  /** Every target parameter lands in exactly one of the matched, missing and
      dropped lists. */
  lemma {:induction false} MatcherPartition(env: seq<ClassDeclaration>, typeParameters: seq<TypeParameter>,
                                            targets: seq<ValueParameter>, sources: seq<Property>)
    requires Acyclic(env)
    ensures |MatchedArguments(env, typeParameters, targets, sources)|
            + |MissingArguments(env, typeParameters, targets, sources)|
            + |DroppedParameters(env, typeParameters, targets, sources)| == |targets|
    ensures forall p :: p in MissingArguments(env, typeParameters, targets, sources) <==>
              p in targets && !p.hasDefault && LastMatch(env, typeParameters, p, sources).None?
    ensures forall p :: p in DroppedParameters(env, typeParameters, targets, sources) <==>
              p in targets && p.hasDefault && LastMatch(env, typeParameters, p, sources).None?
    ensures forall m :: m in MatchedArguments(env, typeParameters, targets, sources) <==>
              exists p :: p in targets && LastMatch(env, typeParameters, p, sources) == Some(m)
  {
    PartitionSizes(env, typeParameters, targets, sources);
    MissingMembers(env, typeParameters, targets, sources);
    DroppedMembers(env, typeParameters, targets, sources);
    MatchedMembers(env, typeParameters, targets, sources);
  }

  lemma {:induction false} PartitionSizes(env: seq<ClassDeclaration>, typeParameters: seq<TypeParameter>,
                                          targets: seq<ValueParameter>, sources: seq<Property>)
    requires Acyclic(env)
    ensures |MatchedArguments(env, typeParameters, targets, sources)|
            + |MissingArguments(env, typeParameters, targets, sources)|
            + |DroppedParameters(env, typeParameters, targets, sources)| == |targets|
  {
    if targets != [] {
      PartitionSizes(env, typeParameters, targets[..|targets| - 1], sources);
    }
  }

  lemma {:induction false} MissingMembers(env: seq<ClassDeclaration>, typeParameters: seq<TypeParameter>,
                                          targets: seq<ValueParameter>, sources: seq<Property>)
    requires Acyclic(env)
    ensures forall p :: p in MissingArguments(env, typeParameters, targets, sources) <==>
              p in targets && !p.hasDefault && LastMatch(env, typeParameters, p, sources).None?
  {
    if targets != [] {
      var prefix := targets[..|targets| - 1];
      MissingMembers(env, typeParameters, prefix, sources);
      assert targets == prefix + [targets[|targets| - 1]];
    }
  }

  lemma {:induction false} DroppedMembers(env: seq<ClassDeclaration>, typeParameters: seq<TypeParameter>,
                                          targets: seq<ValueParameter>, sources: seq<Property>)
    requires Acyclic(env)
    ensures forall p :: p in DroppedParameters(env, typeParameters, targets, sources) <==>
              p in targets && p.hasDefault && LastMatch(env, typeParameters, p, sources).None?
  {
    if targets != [] {
      var prefix := targets[..|targets| - 1];
      DroppedMembers(env, typeParameters, prefix, sources);
      assert targets == prefix + [targets[|targets| - 1]];
    }
  }

  lemma {:induction false} MatchedMembers(env: seq<ClassDeclaration>, typeParameters: seq<TypeParameter>,
                                          targets: seq<ValueParameter>, sources: seq<Property>)
    requires Acyclic(env)
    ensures forall m :: m in MatchedArguments(env, typeParameters, targets, sources) <==>
              exists p :: p in targets && LastMatch(env, typeParameters, p, sources) == Some(m)
  {
    if targets != [] {
      var prefix := targets[..|targets| - 1];
      var last := targets[|targets| - 1];
      MatchedMembers(env, typeParameters, prefix, sources);
      assert targets == prefix + [last];
      forall m
        ensures m in MatchedArguments(env, typeParameters, targets, sources) <==>
                exists p :: p in targets && LastMatch(env, typeParameters, p, sources) == Some(m)
      {
        if exists p :: p in targets && LastMatch(env, typeParameters, p, sources) == Some(m) {
          var p :| p in targets && LastMatch(env, typeParameters, p, sources) == Some(m);
          if p != last {
            assert p in prefix;
          }
        }
      }
    }
  }

  /** Both output lists keep constructor order: matching a concatenation of
      parameter lists concatenates the results. */
  lemma MatcherKeepsOrder(env: seq<ClassDeclaration>, typeParameters: seq<TypeParameter>,
                          front: seq<ValueParameter>, back: seq<ValueParameter>, sources: seq<Property>)
    requires Acyclic(env)
    ensures MatchedArguments(env, typeParameters, front + back, sources)
         == MatchedArguments(env, typeParameters, front, sources) + MatchedArguments(env, typeParameters, back, sources)
    ensures MissingArguments(env, typeParameters, front + back, sources)
         == MissingArguments(env, typeParameters, front, sources) + MissingArguments(env, typeParameters, back, sources)
  {
    MatchedKeepsOrder(env, typeParameters, front, back, sources);
    MissingKeepsOrder(env, typeParameters, front, back, sources);
  }

  lemma {:induction false} MatchedKeepsOrder(env: seq<ClassDeclaration>, typeParameters: seq<TypeParameter>,
                                             front: seq<ValueParameter>, back: seq<ValueParameter>, sources: seq<Property>)
    requires Acyclic(env)
    ensures MatchedArguments(env, typeParameters, front + back, sources)
         == MatchedArguments(env, typeParameters, front, sources) + MatchedArguments(env, typeParameters, back, sources)
  {
    if back == [] {
      assert front + back == front;
    } else {
      var init := back[..|back| - 1];
      MatchedKeepsOrder(env, typeParameters, front, init, sources);
      assert (front + back)[..|front + back| - 1] == front + init;
      assert (front + back)[|front + back| - 1] == back[|back| - 1];
    }
  }

  lemma {:induction false} MissingKeepsOrder(env: seq<ClassDeclaration>, typeParameters: seq<TypeParameter>,
                                             front: seq<ValueParameter>, back: seq<ValueParameter>, sources: seq<Property>)
    requires Acyclic(env)
    ensures MissingArguments(env, typeParameters, front + back, sources)
         == MissingArguments(env, typeParameters, front, sources) + MissingArguments(env, typeParameters, back, sources)
  {
    if back == [] {
      assert front + back == front;
    } else {
      var init := back[..|back| - 1];
      MissingKeepsOrder(env, typeParameters, front, init, sources);
      assert (front + back)[..|front + back| - 1] == front + init;
      assert (front + back)[|front + back| - 1] == back[|back| - 1];
    }
  }

  /** One more source property, in terms of its verdict. */
  lemma ScanStep(env: seq<ClassDeclaration>, typeParameters: seq<TypeParameter>,
                 target: ValueParameter, sources: seq<Property>, j: nat)
    requires Acyclic(env) && j < |sources|
    ensures var v := Examine(env, typeParameters, target, sources[j]);
            && LastMatch(env, typeParameters, target, sources[..j + 1])
               == (if MatchOf(env, typeParameters, target, sources[j]).Some? then MatchOf(env, typeParameters, target, sources[j])
                   else LastMatch(env, typeParameters, target, sources[..j]))
            && CandidateWarnings(env, typeParameters, target, sources[..j + 1])
               == CandidateWarnings(env, typeParameters, target, sources[..j])
                  + (if v.Incompatible? then [IncompatibleCandidate(target.name, sources[j].name)] else [])
            && CandidateImports(env, typeParameters, target, sources[..j + 1])
               == CandidateImports(env, typeParameters, target, sources[..j])
                  + (if v.BoundMatch? && v.bound.hasSourceFile then [ImportOf(v.bound)] else [])
  {
    assert sources[..j + 1][..j] == sources[..j];
    assert sources[..j + 1][j] == sources[j];
  }

  /** The inner scan of `getMatchingAndMissingArguments` for one target
      parameter (MappingFunctionGenerator.kt:237-318): the loop over all
      source properties with its `var matchingArgument`. */
  method ScanSourceProperties(env: seq<ClassDeclaration>, targetClassTypeParameters: seq<TypeParameter>,
                              targetParameter: ValueParameter, sources: seq<Property>,
                              packageImports: PackageImports)
    returns (matchingArgument: Option<MatchingArgument>, warnings: seq<Warning>)
    requires Acyclic(env) && packageImports.Valid()
    modifies packageImports`imports
    ensures packageImports.Valid()
    ensures matchingArgument == LastMatch(env, targetClassTypeParameters, targetParameter, sources)
    ensures warnings == CandidateWarnings(env, targetClassTypeParameters, targetParameter, sources)
    ensures packageImports.imports
         == InsertAll(old(packageImports.imports), CandidateImports(env, targetClassTypeParameters, targetParameter, sources))
  {
    var tps := targetClassTypeParameters;
    ghost var before := packageImports.imports;
    matchingArgument, warnings := None, [];
    var j := 0;
    while j < |sources|
      invariant 0 <= j <= |sources|
      invariant packageImports.Valid()
      invariant matchingArgument == LastMatch(env, tps, targetParameter, sources[..j])
      invariant warnings == CandidateWarnings(env, tps, targetParameter, sources[..j])
      invariant packageImports.imports == InsertAll(before, CandidateImports(env, tps, targetParameter, sources[..j]))
    {
      matchingArgument, warnings :=
        ScanSourceProperty(env, tps, targetParameter, sources, j, matchingArgument, warnings, packageImports, before);
      j := j + 1;
    }
    assert sources[..j] == sources;
  }

  /** One iteration of the scan (MappingFunctionGenerator.kt:245-317): the
      property `sources[j]` examined after the first `j`. */
  method ScanSourceProperty(env: seq<ClassDeclaration>, tps: seq<TypeParameter>, targetParameter: ValueParameter,
                            sources: seq<Property>, j: nat, matchingArgument: Option<MatchingArgument>,
                            warnings: seq<Warning>, packageImports: PackageImports, ghost before: seq<ImportEntry>)
    returns (nextMatchingArgument: Option<MatchingArgument>, nextWarnings: seq<Warning>)
    requires Acyclic(env) && packageImports.Valid() && j < |sources|
    requires matchingArgument == LastMatch(env, tps, targetParameter, sources[..j])
    requires warnings == CandidateWarnings(env, tps, targetParameter, sources[..j])
    requires packageImports.imports == InsertAll(before, CandidateImports(env, tps, targetParameter, sources[..j]))
    modifies packageImports`imports
    ensures packageImports.Valid()
    ensures nextMatchingArgument == LastMatch(env, tps, targetParameter, sources[..j + 1])
    ensures nextWarnings == CandidateWarnings(env, tps, targetParameter, sources[..j + 1])
    ensures packageImports.imports == InsertAll(before, CandidateImports(env, tps, targetParameter, sources[..j + 1]))
  {
    nextMatchingArgument, nextWarnings := matchingArgument, warnings;
    var sourceParameter := sources[j];
    ghost var v := Examine(env, tps, targetParameter, sourceParameter);
    ghost var importsSoFar := CandidateImports(env, tps, targetParameter, sources[..j]);
    ScanStep(env, tps, targetParameter, sources, j);
    if sourceParameter.name == targetParameter.name
       || sourceParameter.alias == Some(targetParameter.name)
       || targetParameter.alias == Some(sourceParameter.name)
    {
      var targetParameterType := targetParameter.ty;
      var sourceParameterType := sourceParameter.ty;
      var referenced := ReferencedTypeParameter(tps, targetParameterType);
      var boundDeclaration := UpperBoundDeclaration(referenced);
      if boundDeclaration.Some?
         && ContainsSupertype(env, sourceParameterType.declaration, boundDeclaration.value)
         && IsKSTypeAssignable(sourceParameterType, targetParameterType, true)
      {
        var bound := boundDeclaration.value;
        assert v == BoundMatch(bound, bound.simpleName + MarkedNullableAsString(targetParameterType));
        if bound.hasSourceFile {
          packageImports.AddImport(bound.packageName, bound.simpleName);
          InsertAllAppend(before, importsSoFar, [ImportOf(bound)]);
        } else {
          assert importsSoFar + [] == importsSoFar;
        }
        nextMatchingArgument := Some(MatchingArgument(
          targetParameter.name, sourceParameter.name,
          Some(bound.simpleName + MarkedNullableAsString(targetParameterType))));
      } else if IsKSTypeAssignable(sourceParameterType, targetParameterType, referenced.Some?) {
        assert v.PlainMatch?;
        assert importsSoFar + [] == importsSoFar;
        nextMatchingArgument := Some(MatchingArgument(
          targetParameter.name, sourceParameter.name,
          if referenced.Some? then Some(referenced.value.name + MarkedNullableAsString(targetParameterType)) else None));
      } else {
        assert v == Incompatible;
        assert importsSoFar + [] == importsSoFar;
        nextWarnings := warnings + [IncompatibleCandidate(targetParameter.name, sourceParameter.name)];
      }
    } else {
      assert v == NotCandidate;
      assert importsSoFar + [] == importsSoFar;
    }
  }

  /** `getMatchingAndMissingArguments` (MappingFunctionGenerator.kt:222-328).
      Warnings are returned instead of logged. */
  method GetMatchingAndMissingArguments(env: seq<ClassDeclaration>, targetClass: ClassDeclaration,
                                        sourceClass: ClassDeclaration,
                                        targetClassTypeParameters: seq<TypeParameter>,
                                        packageImports: PackageImports)
    returns (missingArguments: seq<ValueParameter>, matchingArguments: seq<MatchingArgument>, warnings: seq<Warning>)
    requires Acyclic(env) && packageImports.Valid()
    modifies packageImports`imports
    ensures packageImports.Valid()
    ensures missingArguments
         == MissingArguments(env, targetClassTypeParameters, ConstructorParameters(targetClass), sourceClass.properties)
    ensures matchingArguments
         == MatchedArguments(env, targetClassTypeParameters, ConstructorParameters(targetClass), sourceClass.properties)
    ensures warnings
         == MatcherWarnings(env, targetClassTypeParameters, ConstructorParameters(targetClass), sourceClass.properties)
    ensures packageImports.imports
         == InsertAll(old(packageImports.imports),
                      MatcherImports(env, targetClassTypeParameters, ConstructorParameters(targetClass), sourceClass.properties))
  {
    var tps := targetClassTypeParameters;
    var targets := ConstructorParameters(targetClass);
    var sources := sourceClass.properties;
    ghost var before := packageImports.imports;
    missingArguments, matchingArguments, warnings := [], [], [];
    var i := 0;
    while i < |targets|
      invariant 0 <= i <= |targets|
      invariant packageImports.Valid()
      invariant missingArguments == MissingArguments(env, tps, targets[..i], sources)
      invariant matchingArguments == MatchedArguments(env, tps, targets[..i], sources)
      invariant warnings == MatcherWarnings(env, tps, targets[..i], sources)
      invariant packageImports.imports == InsertAll(before, MatcherImports(env, tps, targets[..i], sources))
    {
      missingArguments, matchingArguments, warnings :=
        MatchTargetParameter(env, tps, targets, sources, i, missingArguments, matchingArguments, warnings,
                             packageImports, before);
      i := i + 1;
    }
    assert targets[..i] == targets;
  }

  /** One iteration of the outer loop (MappingFunctionGenerator.kt:236-325):
      the target parameter `targets[i]` after the first `i`. */
  method MatchTargetParameter(env: seq<ClassDeclaration>, tps: seq<TypeParameter>, targets: seq<ValueParameter>,
                              sources: seq<Property>, i: nat, missingArguments: seq<ValueParameter>,
                              matchingArguments: seq<MatchingArgument>, warnings: seq<Warning>,
                              packageImports: PackageImports, ghost before: seq<ImportEntry>)
    returns (nextMissing: seq<ValueParameter>, nextMatching: seq<MatchingArgument>, nextWarnings: seq<Warning>)
    requires Acyclic(env) && packageImports.Valid() && i < |targets|
    requires missingArguments == MissingArguments(env, tps, targets[..i], sources)
    requires matchingArguments == MatchedArguments(env, tps, targets[..i], sources)
    requires warnings == MatcherWarnings(env, tps, targets[..i], sources)
    requires packageImports.imports == InsertAll(before, MatcherImports(env, tps, targets[..i], sources))
    modifies packageImports`imports
    ensures packageImports.Valid()
    ensures nextMissing == MissingArguments(env, tps, targets[..i + 1], sources)
    ensures nextMatching == MatchedArguments(env, tps, targets[..i + 1], sources)
    ensures nextWarnings == MatcherWarnings(env, tps, targets[..i + 1], sources)
    ensures packageImports.imports == InsertAll(before, MatcherImports(env, tps, targets[..i + 1], sources))
  {
    var targetParameter := targets[i];
    assert targets[..i + 1][..i] == targets[..i];
    assert targets[..i + 1][i] == targetParameter;
    var matchingArgument, scanWarnings := ScanSourceProperties(env, tps, targetParameter, sources, packageImports);
    InsertAllAppend(before, MatcherImports(env, tps, targets[..i], sources),
                    CandidateImports(env, tps, targetParameter, sources));
    nextMissing, nextMatching, nextWarnings := missingArguments, matchingArguments, warnings + scanWarnings;
    if matchingArgument.Some? {
      nextMatching := matchingArguments + [matchingArgument.value];
    } else if !targetParameter.hasDefault {
      nextMissing := missingArguments + [targetParameter];
    }
  }

  /** The scan over the candidates only ever warns about an incompatible
      candidate. */
  lemma {:induction false} CandidateWarningsAreIncompatibilities(env: seq<ClassDeclaration>, typeParameters: seq<TypeParameter>,
                                                                  target: ValueParameter, sources: seq<Property>)
    requires Acyclic(env)
    ensures forall w :: w in CandidateWarnings(env, typeParameters, target, sources) ==> w.IncompatibleCandidate?
  {
    if sources != [] {
      CandidateWarningsAreIncompatibilities(env, typeParameters, target, sources[..|sources| - 1]);
    }
  }

  /** Every warning of the matcher is about an incompatible candidate. */
  lemma {:induction false} MatcherWarningsAreIncompatibilities(env: seq<ClassDeclaration>, typeParameters: seq<TypeParameter>,
                                                               targets: seq<ValueParameter>, sources: seq<Property>)
    requires Acyclic(env)
    ensures forall w :: w in MatcherWarnings(env, typeParameters, targets, sources) ==> w.IncompatibleCandidate?
  {
    if targets != [] {
      MatcherWarningsAreIncompatibilities(env, typeParameters, targets[..|targets| - 1], sources);
      CandidateWarningsAreIncompatibilities(env, typeParameters, targets[|targets| - 1], sources);
    }
  }
}
