/**
  String helpers shared by the generator: joining with a separator, and the
  text an indexed `forEachIndexed` loop produces when it appends an item, a
  separator unless the item is the last one, and a terminator.
*/
module Text {

  /** `items` joined by `sep`, as `joinToString(sep)` would write them. */
  function Join(items: seq<string>, sep: string): string
  {
    if items == [] then ""
    else if |items| == 1 then items[0]
    else Join(items[..|items| - 1], sep) + sep + items[|items| - 1]
  }

  /** `getArgumentLineEnding` (MappingFunctionGenerator.kt:429-432): a comma,
      followed by a space when `addSpace`, if another item follows; otherwise
      nothing. */
  function ArgumentLineEnding(hasNextLine: bool, addSpace: bool): (r: string)
    ensures hasNextLine <==> r != ""
    ensures hasNextLine ==> r[0] == ','
  {
    if hasNextLine then "," + (if addSpace then " " else "") else ""
  }

  /** What a loop over the first `n` items has appended when step `k` appends
      `items[k]`, then `sep` unless `k` is the last index of `items`, then
      `terminator`. */
  function Listed(items: seq<string>, sep: string, terminator: string, n: nat): string
    requires n <= |items|
  {
    if n == 0 then ""
    else Listed(items, sep, terminator, n - 1) + items[n - 1]
         + (if n - 1 != |items| - 1 then sep else "") + terminator
  }

  /** Appending two pieces one after the other. */
  lemma AppendedInTwo(start: string, a: string, b: string)
    ensures start + a + b == start + (a + b)
  {
  }

  /** One more step of the loop `Listed` describes. */
  lemma ListedStep(items: seq<string>, sep: string, terminator: string, n: nat)
    requires n < |items|
    requires sep == "," || sep == ", "
    ensures Listed(items, sep, terminator, n + 1)
         == Listed(items, sep, terminator, n) + items[n] + ArgumentLineEnding(n != |items| - 1, sep == ", ") + terminator
  {
  }

  /** Text written so far plus one more step of a comma-space list. */
  lemma ListedExtend(listStart: string, items: seq<string>, n: nat, written: string, separator: string)
    requires n < |items|
    requires written == listStart + Listed(items, ", ", "", n)
    requires separator == ArgumentLineEnding(|items| - 1 != n, true)
    ensures written + (items[n] + separator + "") == listStart + Listed(items, ", ", "", n + 1)
  {
    ListedStep(items, ", ", "", n);
    AppendedInTwo(listStart, Listed(items, ", ", "", n), items[n] + separator + "");
  }

  /** Text written so far plus one more line of a comma-separated block of
      lines. */
  lemma ListedExtendLines(listStart: string, items: seq<string>, n: nat, written: string, lineEnding: string)
    requires n < |items|
    requires written == listStart + Listed(items, ",", "\n", n)
    requires lineEnding == ArgumentLineEnding(|items| - 1 != n, false)
    ensures written + (items[n] + lineEnding + "\n") == listStart + Listed(items, ",", "\n", n + 1)
  {
    ListedStep(items, ",", "\n", n);
    AppendedInTwo(listStart, Listed(items, ",", "\n", n), items[n] + lineEnding + "\n");
  }

  /** Appending three pieces one after the other. */
  lemma AppendedInThree(start: string, a: string, b: string, c: string)
    ensures start + a + b + c == start + (a + b + c)
  {
  }

  /** After a partial run the output is the items so far joined by
      `sep + terminator`, followed by the ending of the last item written. */
  lemma {:induction false} ListedPrefix(items: seq<string>, sep: string, terminator: string, n: nat)
    requires 1 <= n <= |items|
    ensures Listed(items, sep, terminator, n)
         == Join(items[..n], sep + terminator) + (if n == |items| then terminator else sep + terminator)
  {
    if n > 1 {
      ListedPrefix(items, sep, terminator, n - 1);
      assert items[..n][..n - 1] == items[..n - 1];
    }
  }

  /** A comma-space list between angle brackets, or nothing for no items. */
  function BracketedList(items: seq<string>): string
  {
    if items == [] then "" else "<" + Listed(items, ", ", "", |items|) + ">"
  }

  /** Closing the list of a complete run. */
  lemma BracketedListClosed(text: string, items: seq<string>, written: string)
    requires items != []
    requires written == text + "<" + Listed(items, ", ", "", |items|)
    ensures written + ">" == text + BracketedList(items)
  {
    var listed := Listed(items, ", ", "", |items|);
    assert BracketedList(items) == "<" + listed + ">";
    AppendedInThree(text, "<", listed, ">");
  }

  /** A complete run writes the items joined by `sep + terminator` and ends
      with one `terminator`. */
  lemma ListedIsJoin(items: seq<string>, sep: string, terminator: string)
    requires items != []
    ensures Listed(items, sep, terminator, |items|) == Join(items, sep + terminator) + terminator
  {
    ListedPrefix(items, sep, terminator, |items|);
    assert items[..|items|] == items;
  }

  /** A non-empty bracketed list is its items joined by ", ". */
  lemma BracketedListIsJoin(items: seq<string>)
    requires items != []
    ensures BracketedList(items) == "<" + Join(items, ", ") + ">"
  {
    ListedIsJoin(items, ", ", "");
    assert ", " + "" == ", ";
    assert Join(items, ", ") + "" == Join(items, ", ");
  }
}
