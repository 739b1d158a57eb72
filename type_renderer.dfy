/**
  The generic renderer `convertTypeArgumentToString`
  (MappingFunctionGenerator.kt:330-369). The Kotlin code pops type arguments
  from a deque; here the deque is the suffix `owner.arguments[from..]` of the
  type that owns the arguments, so that both recursions visibly shrink.
*/
module TypeRenderer {
  import opened Descriptors
  import opened Extensions
  import opened Text

  /** What `convertTypeArgumentToString(typeText, deque, open)` returns for
      the deque `owner.arguments[from..]`. A star or unresolved argument at the
      head of the deque ends the rendering with the text built so far. */
  function ConvertedTypeArguments(typeText: string, owner: KType, from: nat, open: bool): (r: string)
    requires from <= |owner.arguments|
    ensures |typeText| <= |r| && r[..|typeText|] == typeText
    decreases owner, |owner.arguments| - from
  {
    if from == |owner.arguments| then typeText
    else match owner.arguments[from]
      case Projection(resolved) =>
        var appended := typeText + (if open then "<" else "") + GetName(resolved)
                        + ConvertedTypeArguments("", resolved, 0, true);
        if from + 1 < |owner.arguments|
        then ConvertedTypeArguments(appended + ArgumentLineEnding(true, true), owner, from + 1, false)
        else appended + ">" + ArgumentLineEnding(false, true)
      case _ => typeText
  }

  /** `convertTypeArgumentToString` (MappingFunctionGenerator.kt:330-369). */
  method ConvertTypeArgumentToString(typeText: string, owner: KType, from: nat, shouldAddOpenOperator: bool)
    returns (r: string)
    requires from <= |owner.arguments|
    ensures r == ConvertedTypeArguments(typeText, owner, from, shouldAddOpenOperator)
    decreases owner, |owner.arguments| - from
  {
    if from == |owner.arguments| {
      return typeText;
    }
    var typeParameter := owner.arguments[from];
    if !typeParameter.Projection? {
      return typeText;
    }
    var resolvedTypeParameter := typeParameter.ty;
    var appendedTypeText := typeText;
    if shouldAddOpenOperator {
      appendedTypeText := appendedTypeText + "<";
    } else {
      assert appendedTypeText == typeText + "";
    }
    appendedTypeText := appendedTypeText + GetName(resolvedTypeParameter);
    var nested := ConvertTypeArgumentToString("", resolvedTypeParameter, 0, true);
    appendedTypeText := appendedTypeText + nested;
    var hasNext := from + 1 < |owner.arguments|;
    var typeParamLineEnding := ArgumentLineEnding(hasNext, true);
    if hasNext {
      appendedTypeText := appendedTypeText + typeParamLineEnding;
      r := ConvertTypeArgumentToString(appendedTypeText, owner, from + 1, false);
    } else {
      r := appendedTypeText + ">" + typeParamLineEnding;
      assert typeParamLineEnding == "";
    }
  }

  /** The rendering of a whole type: its simple name followed by its
      arguments. */
  function Rendered(t: KType): string
  {
    ConvertedTypeArguments(GetName(t), t, 0, true)
  }

  /** Every type argument, at every depth, is a resolved projection. */
  ghost predicate FullyResolved(t: KType)
    decreases t
  {
    forall i :: 0 <= i < |t.arguments| ==>
      t.arguments[i].Projection? && FullyResolved(t.arguments[i].ty)
  }

  /** Reference text of a fully resolved type, independent of the deque walk:
      the simple name, then `<A, B, ...>` when there are arguments. */
  function TypeText(t: KType): string
    decreases t, 1
  {
    GetName(t) + ArgumentsText(t)
  }

  function ArgumentsText(t: KType): string
    decreases t, 0
  {
    if t.arguments == [] then ""
    else "<" + Join(ArgumentTexts(t, |t.arguments|), ", ") + ">"
  }

  /** Reference texts of the first `n` arguments; a non-projection renders as
      nothing. */
  function ArgumentTexts(t: KType, n: nat): (r: seq<string>)
    requires n <= |t.arguments|
    ensures |r| == n
    decreases t, 0, n
  {
    if n == 0 then []
    else ArgumentTexts(t, n - 1)
         + [match t.arguments[n - 1] case Projection(a) => TypeText(a) case _ => ""]
  }

  lemma {:induction false} ArgumentTextsPrefix(t: KType, m: nat, n: nat)
    requires m <= n <= |t.arguments|
    ensures ArgumentTexts(t, n)[..m] == ArgumentTexts(t, m)
    decreases n
  {
    if m < n {
      ArgumentTextsPrefix(t, m, n - 1);
      assert ArgumentTexts(t, n)[..n - 1] == ArgumentTexts(t, n - 1);
    }
  }

  /** Joining a list whose first item is `a`. */
  lemma {:induction false} JoinFront(a: string, rest: seq<string>, sep: string)
    requires rest != []
    ensures Join([a] + rest, sep) == a + sep + Join(rest, sep)
    decreases |rest|
  {
    if |rest| == 1 {
      assert [a] + rest == [a, rest[0]];
      assert ([a] + rest)[..1] == [a];
    } else {
      var init := rest[..|rest| - 1];
      var last := rest[|rest| - 1];
      JoinFront(a, init, sep);
      assert ([a] + rest)[..|rest|] == [a] + init;
      assert ([a] + rest)[|rest|] == last;
      assert Join([a] + rest, sep) == Join([a] + init, sep) + sep + last;
      assert Join(rest, sep) == Join(init, sep) + sep + last;
      AppendedInThree(a + sep, Join(init, sep), sep, last);
    }
  }

  /** The reference texts of the arguments from `from` on. */
  function ArgumentTextsFrom(t: KType, from: nat): seq<string>
    requires from <= |t.arguments|
  {
    ArgumentTexts(t, |t.arguments|)[from..]
  }

  /** One step of the walk over a resolved argument. */
  lemma ConvertedStep(typeText: string, t: KType, from: nat, open: bool)
    requires from < |t.arguments| && t.arguments[from].Projection?
    ensures var resolved := t.arguments[from].ty;
            var appended := typeText + (if open then "<" else "") + GetName(resolved)
                            + ConvertedTypeArguments("", resolved, 0, true);
            ConvertedTypeArguments(typeText, t, from, open)
            == if from + 1 < |t.arguments| then ConvertedTypeArguments(appended + ", ", t, from + 1, false)
               else appended + ">"
  {
    assert ArgumentLineEnding(true, true) == ", ";
    assert ArgumentLineEnding(false, true) == "";
  }

  /** The reference text of one argument. */
  lemma ArgumentTextAt(t: KType, i: nat)
    requires i < |t.arguments| && t.arguments[i].Projection?
    ensures ArgumentTexts(t, |t.arguments|)[i] == TypeText(t.arguments[i].ty)
  {
    ArgumentTextsPrefix(t, i + 1, |t.arguments|);
    assert ArgumentTexts(t, |t.arguments|)[i] == ArgumentTexts(t, |t.arguments|)[..i + 1][i];
  }

  /** Joining a suffix of at least two items splits off its first item. */
  lemma JoinSuffix(items: seq<string>, from: nat, sep: string)
    requires from + 1 < |items|
    ensures Join(items[from..], sep) == items[from] + sep + Join(items[from + 1..], sep)
  {
    assert items[from..] == [items[from]] + items[from + 1..];
    JoinFront(items[from], items[from + 1..], sep);
  }

  lemma Regroup(prefix: string, item: string, rest: string, joined: string)
    requires joined == item + ", " + rest
    ensures prefix + item + ", " + "" + rest + ">" == prefix + joined + ">"
  {
  }

  /** The text after the first remaining item is that item, the separator
      and the join of the rest. */
  lemma JoinedAfterHead(prefix: string, texts: seq<string>, from: nat, converted: string)
    requires from + 1 < |texts|
    requires converted == prefix + texts[from] + ", " + "" + Join(texts[from + 1..], ", ") + ">"
    ensures converted == prefix + Join(texts[from..], ", ") + ">"
  {
    JoinSuffix(texts, from, ", ");
    Regroup(prefix, texts[from], Join(texts[from + 1..], ", "), Join(texts[from..], ", "));
  }

  /** For a fully resolved type the deque walk writes, after the text so far,
      the remaining arguments joined by ", " and the closing ">". */
  lemma {:induction false} ConvertedSuffix(typeText: string, t: KType, from: nat, open: bool)
    requires FullyResolved(t) && from < |t.arguments|
    ensures ConvertedTypeArguments(typeText, t, from, open)
         == typeText + (if open then "<" else "") + Join(ArgumentTextsFrom(t, from), ", ") + ">"
    decreases t, |t.arguments| - from, 2
  {
    if from + 1 < |t.arguments| {
      var head := typeText + (if open then "<" else "") + ArgumentTexts(t, |t.arguments|)[from];
      ConvertedSuffix(head + ", ", t, from + 1, false);
      ConvertedSuffixStep(typeText, t, from, open);
    } else {
      ConvertedSuffixLast(typeText, t, from, open);
    }
  }

  /** The walk from a resolved argument that has a successor, given what the
      walk from the successor writes. */
  lemma ConvertedSuffixStep(typeText: string, t: KType, from: nat, open: bool)
    requires FullyResolved(t) && from + 1 < |t.arguments|
    requires var head := typeText + (if open then "<" else "") + ArgumentTexts(t, |t.arguments|)[from];
             ConvertedTypeArguments(head + ", ", t, from + 1, false)
             == head + ", " + "" + Join(ArgumentTextsFrom(t, from + 1), ", ") + ">"
    ensures ConvertedTypeArguments(typeText, t, from, open)
         == typeText + (if open then "<" else "") + Join(ArgumentTextsFrom(t, from), ", ") + ">"
    decreases t, |t.arguments| - from, 1
  {
    var texts := ArgumentTexts(t, |t.arguments|);
    var opening := if open then "<" else "";
    ConvertedResolvedHead(typeText, t, from, open);
    assert ArgumentTextsFrom(t, from) == texts[from..];
    assert ArgumentTextsFrom(t, from + 1) == texts[from + 1..];
    JoinedAfterHead(typeText + opening, texts, from, ConvertedTypeArguments(typeText, t, from, open));
  }

  /** The walk from the last argument, when it is resolved. */
  lemma ConvertedSuffixLast(typeText: string, t: KType, from: nat, open: bool)
    requires FullyResolved(t) && from + 1 == |t.arguments|
    ensures ConvertedTypeArguments(typeText, t, from, open)
         == typeText + (if open then "<" else "") + Join(ArgumentTextsFrom(t, from), ", ") + ">"
    decreases t, |t.arguments| - from, 1
  {
    var texts := ArgumentTexts(t, |t.arguments|);
    ConvertedResolvedHead(typeText, t, from, open);
    assert ArgumentTextsFrom(t, from) == [texts[from]];
    assert Join([texts[from]], ", ") == texts[from];
  }

  /** The walk over a resolved argument of a fully resolved type writes its
      reference text. */
  lemma ConvertedResolvedHead(typeText: string, t: KType, from: nat, open: bool)
    requires FullyResolved(t) && from < |t.arguments|
    ensures var head := typeText + (if open then "<" else "") + ArgumentTexts(t, |t.arguments|)[from];
            ConvertedTypeArguments(typeText, t, from, open)
            == if from + 1 < |t.arguments| then ConvertedTypeArguments(head + ", ", t, from + 1, false) else head + ">"
    decreases t, |t.arguments| - from, 0
  {
    var resolved := t.arguments[from].ty;
    var opening := if open then "<" else "";
    var nested := ConvertedTypeArguments("", resolved, 0, true);
    ArgumentTextAt(t, from);
    ConvertedIsReference(resolved);
    assert nested == ArgumentsText(resolved);
    assert ArgumentTexts(t, |t.arguments|)[from] == GetName(resolved) + nested;
    AppendedInTwo(typeText + opening, GetName(resolved), nested);
    ConvertedStep(typeText, t, from, open);
  }

  /** Rendering the arguments of a fully resolved type yields its reference
      argument text; in particular a type without arguments adds nothing. */
  lemma {:induction false} ConvertedIsReference(t: KType)
    requires FullyResolved(t)
    ensures ConvertedTypeArguments("", t, 0, true) == ArgumentsText(t)
    decreases t, |t.arguments| + 1
  {
    if t.arguments != [] {
      ConvertedSuffix("", t, 0, true);
      assert ArgumentTextsFrom(t, 0) == ArgumentTexts(t, |t.arguments|);
    }
  }

  /** A fully resolved type renders as its reference text. */
  lemma RenderedIsTypeText(t: KType)
    requires FullyResolved(t)
    ensures Rendered(t) == TypeText(t)
  {
    if t.arguments != [] {
      var joined := Join(ArgumentTexts(t, |t.arguments|), ", ");
      ConvertedSuffix(GetName(t), t, 0, true);
      assert ArgumentTextsFrom(t, 0) == ArgumentTexts(t, |t.arguments|);
      assert ArgumentsText(t) == "<" + joined + ">";
      AppendedInThree(GetName(t), "<", joined, ">");
    } else {
      assert Rendered(t) == GetName(t) + "";
    }
  }

  /** No simple name at any depth of `t` contains `c`. */
  ghost predicate NamesAvoid(t: KType, c: char)
    decreases t
  {
    c !in GetName(t)
    && forall i :: 0 <= i < |t.arguments| ==>
         t.arguments[i].Projection? ==> NamesAvoid(t.arguments[i].ty, c)
  }

  /** The renderer never writes a nullability marker of its own: when neither
      the starting text nor any nested name contains '?', nor does the
      result, whatever the nullability of the nested arguments. */
  lemma {:induction false} ConvertedWritesNoMarker(typeText: string, t: KType, from: nat, open: bool)
    requires from <= |t.arguments|
    requires '?' !in typeText
    requires forall i :: 0 <= i < |t.arguments| ==> t.arguments[i].Projection? ==> NamesAvoid(t.arguments[i].ty, '?')
    ensures '?' !in ConvertedTypeArguments(typeText, t, from, open)
    decreases t, |t.arguments| - from
  {
    if from < |t.arguments| && t.arguments[from].Projection? {
      var resolved := t.arguments[from].ty;
      ConvertedWritesNoMarker("", resolved, 0, true);
      var appended := typeText + (if open then "<" else "") + GetName(resolved)
                      + ConvertedTypeArguments("", resolved, 0, true);
      assert '?' !in appended;
      ConvertedStep(typeText, t, from, open);
      if from + 1 < |t.arguments| {
        ConvertedWritesNoMarker(appended + ", ", t, from + 1, false);
      }
    }
  }

  /** A star or unresolved argument at position `k` ends the walk there:
      what was written before it stays, the list is left open after the
      last separator and no closing `>` is written. When `k` is the head of
      the deque the text so far is returned unchanged. */
  lemma {:induction false} NonProjectionStopsRendering(typeText: string, t: KType, from: nat, open: bool, k: nat)
    requires from <= k < |t.arguments| && !t.arguments[k].Projection?
    requires forall j :: from <= j < k ==> t.arguments[j].Projection? && FullyResolved(t.arguments[j].ty)
    ensures ConvertedTypeArguments(typeText, t, from, open)
         == if k == from then typeText
            else typeText + (if open then "<" else "") + Join(ArgumentTexts(t, k)[from..], ", ") + ", "
    decreases |t.arguments| - from
  {
    if from == k {
      StoppedAtHead(typeText, t, from, open);
    } else {
      var resolved := t.arguments[from].ty;
      var head := typeText + (if open then "<" else "") + TypeText(resolved);
      StoppedHead(typeText, t, from, open);
      NonProjectionStopsRendering(head + ", ", t, from + 1, false, k);
      StoppedStep(typeText, t, from, open, k, ConvertedTypeArguments(head + ", ", t, from + 1, false));
    }
  }

  /** A star or unresolved argument at the head of the deque returns the
      text so far. */
  lemma StoppedAtHead(typeText: string, t: KType, from: nat, open: bool)
    requires from < |t.arguments| && !t.arguments[from].Projection?
    ensures ConvertedTypeArguments(typeText, t, from, open) == typeText
  {
  }

  /** The walk over a fully resolved argument that has a successor writes
      its reference text and a separator. */
  lemma StoppedHead(typeText: string, t: KType, from: nat, open: bool)
    requires from + 1 < |t.arguments| && t.arguments[from].Projection? && FullyResolved(t.arguments[from].ty)
    ensures var head := typeText + (if open then "<" else "") + TypeText(t.arguments[from].ty);
            ConvertedTypeArguments(typeText, t, from, open) == ConvertedTypeArguments(head + ", ", t, from + 1, false)
  {
    var resolved := t.arguments[from].ty;
    ConvertedIsReference(resolved);
    AppendedInTwo(typeText + (if open then "<" else ""), GetName(resolved), ArgumentsText(resolved));
    ConvertedStep(typeText, t, from, open);
  }

  /** `NonProjectionStopsRendering` one argument earlier, given the walk
      from the next one. */
  lemma StoppedStep(typeText: string, t: KType, from: nat, open: bool, k: nat, rest: string)
    requires from < k < |t.arguments| && t.arguments[from].Projection?
    requires var head := typeText + (if open then "<" else "") + TypeText(t.arguments[from].ty);
             rest == if k == from + 1 then head + ", "
                     else head + ", " + "" + Join(ArgumentTexts(t, k)[from + 1..], ", ") + ", "
    ensures rest == typeText + (if open then "<" else "") + Join(ArgumentTexts(t, k)[from..], ", ") + ", "
  {
    ArgumentTextBefore(t, from, k);
    JoinedWithOpenTail(typeText + (if open then "<" else ""), ArgumentTexts(t, k), from, rest);
  }

  /** The reference text of a resolved argument among the first `k`. */
  lemma ArgumentTextBefore(t: KType, i: nat, k: nat)
    requires i < k <= |t.arguments| && t.arguments[i].Projection?
    ensures ArgumentTexts(t, k)[i] == TypeText(t.arguments[i].ty)
  {
    ArgumentTextsPrefix(t, i + 1, k);
    assert ArgumentTexts(t, k)[i] == ArgumentTexts(t, k)[..i + 1][i];
  }

  /** The text after the first remaining item, when the list is left open:
      the join of the remaining items and a trailing separator. */
  lemma JoinedWithOpenTail(prefix: string, texts: seq<string>, from: nat, rest: string)
    requires from < |texts|
    requires rest == if from + 1 == |texts| then prefix + texts[from] + ", "
                     else prefix + texts[from] + ", " + "" + Join(texts[from + 1..], ", ") + ", "
    ensures rest == prefix + Join(texts[from..], ", ") + ", "
  {
    if from + 1 == |texts| {
      assert texts[from..] == [texts[from]];
    } else {
      JoinSuffix(texts, from, ", ");
      AppendedInThree(prefix, texts[from], ", ", Join(texts[from + 1..], ", "));
    }
  }

  /** A star after the first argument stops the walk with the list still
      open: `Map<String, *>` renders as `Map<String, `. */
  lemma StarStopsRendering(map_: Declaration, string_: Declaration)
    ensures var t := KType(map_, false, [Projection(KType(string_, false, [])), Star]);
            Rendered(t) == map_.simpleName + "<" + string_.simpleName + ", "
  {
    var text := KType(string_, false, []);
    var t := KType(map_, false, [Projection(text), Star]);
    assert ConvertedTypeArguments("", text, 0, true) == "";
    var appended := map_.simpleName + "<" + string_.simpleName + "";
    assert ConvertedTypeArguments(appended + ", ", t, 1, false) == appended + ", ";
    ConvertedStep(map_.simpleName, t, 0, true);
    assert appended == map_.simpleName + "<" + string_.simpleName;
  }
}
