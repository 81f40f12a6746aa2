/**
 * Two filters of the code templates (src/Twig/Extension.php): `paramDescription`, which
 * wraps a description for a doc comment by counting characters word by word, and
 * `sortByOptional`, which puts the required parameters first.
 */
module TwigExtension {
  import opened Strings
  import opened Schema

  /** What `paramDescription` puts before a word that overflows the line. */
  const Break: string := "\n     * "

  /** The line width the counter is compared against. */
  const Width: int := 100

  /** The words of each line of a description, each line split at single spaces. */
  function WordLists(paragraphs: seq<string>): seq<seq<string>>
  {
    seq(|paragraphs|, i requires 0 <= i < |paragraphs| => Split(paragraphs[i], " "))
  }

  /** The words of a description: split at newlines, then at single spaces, in reading order. */
  function Words(description: string): seq<string>
  {
    Flatten(WordLists(Split(description, "\n")))
  }

  /** The counter after the first `n` words: it grows by each word's length and goes back to the indentation after a break. */
  function CountAfter(words: seq<string>, indentation: int, n: nat): int
    requires n <= |words|
  {
    if n == 0 then indentation
    else
      var count := CountAfter(words, indentation, n - 1) + |words[n - 1]|;
      if count > Width then indentation else count
  }

  /** Word `k` overflows the line, so a break goes before it. */
  predicate BreaksBefore(words: seq<string>, indentation: int, k: nat)
    requires k < |words|
  {
    CountAfter(words, indentation, k) + |words[k]| > Width
  }

  /** What word `k` adds to the output: a break if it overflows, the word, one space. */
  function Piece(words: seq<string>, indentation: int, k: nat): string
    requires k < |words|
  {
    (if BreaksBefore(words, indentation, k) then Break else "") + words[k] + " "
  }

  /** The output after the first `n` words. */
  function WrappedUpTo(words: seq<string>, indentation: int, n: nat): string
    requires n <= |words|
  {
    if n == 0 then "" else WrappedUpTo(words, indentation, n - 1) + Piece(words, indentation, n - 1)
  }

  /** The output of `paramDescription`. */
  function ParamDescriptionOf(description: string, indentation: int): string
  {
    var words := Words(description);
    WrappedUpTo(words, indentation, |words|)
  }

  /** `paramDescription`: collect the words, then append them one by one, counting characters. */
  method ParamDescription(description: string, indentation: int) returns (r: string)
    ensures r == ParamDescriptionOf(description, indentation)
  {
    var words := CollectWords(description);
    r := Wrap(words, indentation);
  }

  /** The first loop of `paramDescription`: the words of every line, in order. */
  method CollectWords(description: string) returns (words: seq<string>)
    ensures words == Words(description)
  {
    var paragraphs := Split(description, "\n");
    words := [];
    var p := 0;
    while p < |paragraphs|
      invariant 0 <= p <= |paragraphs|
      invariant words == Flatten(WordLists(paragraphs)[..p])
    {
      assert WordLists(paragraphs)[..p + 1] == WordLists(paragraphs)[..p] + [Split(paragraphs[p], " ")];
      FlattenSnoc(WordLists(paragraphs)[..p], Split(paragraphs[p], " "));
      words := words + Split(paragraphs[p], " ");
      p := p + 1;
    }
    assert WordLists(paragraphs)[..|paragraphs|] == WordLists(paragraphs);
  }

  /** The second loop of `paramDescription`: each word and a space, with a break before a word that overflows. */
  method Wrap(words: seq<string>, indentation: int) returns (r: string)
    ensures r == WrappedUpTo(words, indentation, |words|)
  {
    r := "";
    var characterCount := indentation;
    var i := 0;
    while i < |words|
      invariant 0 <= i <= |words|
      invariant r == WrappedUpTo(words, indentation, i)
      invariant characterCount == CountAfter(words, indentation, i)
    {
      characterCount := characterCount + |words[i]|;
      if characterCount > Width {
        r := r + Break + words[i] + " ";
        characterCount := indentation;
      } else {
        r := r + words[i] + " ";
      }
      i := i + 1;
    }
  }

  // ---------------------------------------------------------------- where the breaks go

  /** The sum of the words' lengths; spaces are not counted. */
  function TotalLength(words: seq<string>): nat
  {
    if |words| == 0 then 0 else TotalLength(words[..|words| - 1]) + |words[|words| - 1]|
  }

  /** The index of the first word after the last break among the first `n` words (0 before any break). */
  function LastReset(words: seq<string>, indentation: int, n: nat): (r: nat)
    requires n <= |words|
    ensures r <= n
  {
    if n == 0 then 0
    else if BreaksBefore(words, indentation, n - 1) then n
    else LastReset(words, indentation, n - 1)
  }

  /**
   * The counter is the indentation plus the lengths of the words since the last reset; the
   * word that caused the break is not counted.
   */
  lemma {:induction false} CountSinceReset(words: seq<string>, indentation: int, n: nat)
    requires n <= |words|
    ensures CountAfter(words, indentation, n) ==
            indentation + TotalLength(words[LastReset(words, indentation, n)..n])
  {
    if n > 0 {
      CountSinceReset(words, indentation, n - 1);
      if !BreaksBefore(words, indentation, n - 1) {
        var since := words[LastReset(words, indentation, n - 1)..n];
        assert since[..|since| - 1] == words[LastReset(words, indentation, n - 1)..n - 1];
      }
    }
  }

  /**
   * A break goes before a word exactly when the indentation plus the lengths of the words
   * since the last reset, that word included, exceeds the width.
   */
  lemma BreakRule(words: seq<string>, indentation: int, k: nat)
    requires k < |words|
    ensures BreaksBefore(words, indentation, k) <==>
            indentation + TotalLength(words[LastReset(words, indentation, k)..k + 1]) > Width
  {
    CountSinceReset(words, indentation, k);
    var since := words[LastReset(words, indentation, k)..k + 1];
    assert since[..|since| - 1] == words[LastReset(words, indentation, k)..k];
  }

  /** After a word that fits, the counter is within the width; after a break it is the indentation. */
  lemma {:induction false} CountBound(words: seq<string>, indentation: int, n: nat)
    requires 0 < n <= |words|
    ensures BreaksBefore(words, indentation, n - 1) ==> CountAfter(words, indentation, n) == indentation
    ensures !BreaksBefore(words, indentation, n - 1) ==> CountAfter(words, indentation, n) <= Width
    ensures CountAfter(words, indentation, n) == indentation || CountAfter(words, indentation, n) <= Width
  {
  }

  // ---------------------------------------------------------------- the words are kept

  /** The output from word `k` on, built front to back. */
  function WrappedFrom(words: seq<string>, indentation: int, k: nat, n: nat): string
    requires k <= n <= |words|
    decreases n - k
  {
    if k == n then "" else Piece(words, indentation, k) + WrappedFrom(words, indentation, k + 1, n)
  }

  lemma {:induction false} WrappedFromSnoc(words: seq<string>, indentation: int, k: nat, n: nat)
    requires k <= n < |words|
    ensures WrappedFrom(words, indentation, k, n + 1) == WrappedFrom(words, indentation, k, n) + Piece(words, indentation, n)
    decreases n - k
  {
    if k < n {
      WrappedFromSnoc(words, indentation, k + 1, n);
    }
  }

  lemma {:induction false} WrappedBothWays(words: seq<string>, indentation: int, n: nat)
    requires n <= |words|
    ensures WrappedUpTo(words, indentation, n) == WrappedFrom(words, indentation, 0, n)
  {
    if n > 0 {
      WrappedBothWays(words, indentation, n - 1);
      WrappedFromSnoc(words, indentation, 0, n - 1);
    }
  }

  /** Removing the breaks from one piece keeps its word and its space. */
  lemma PieceBreaksRemoved(words: seq<string>, indentation: int, k: nat, rest: string)
    requires k < |words| && '\n' !in words[k]
    ensures DeleteAll(Piece(words, indentation, k) + rest, Break) == (words[k] + " ") + DeleteAll(rest, Break)
  {
    var kept := (words[k] + " ") + rest;
    assert Break[0] == '\n';
    DeleteAllKeepsLead(words[k] + " ", rest, Break);
    if BreaksBefore(words, indentation, k) {
      assert Piece(words, indentation, k) + rest == Break + kept;
      DeleteAllDropsMarker(kept, Break);
    } else {
      assert Piece(words, indentation, k) + rest == kept;
    }
  }

  /** Removing the breaks from the output of newline-free words leaves the words joined by spaces, plus one space. */
  lemma {:induction false} BreaksRemoved(words: seq<string>, indentation: int, k: nat, n: nat)
    requires k < n <= |words|
    requires forall j :: k <= j < n ==> '\n' !in words[j]
    ensures DeleteAll(WrappedFrom(words, indentation, k, n), Break) == Join(words[k..n], " ") + " "
    decreases n - k
  {
    var rest := WrappedFrom(words, indentation, k + 1, n);
    PieceBreaksRemoved(words, indentation, k, rest);
    if k + 1 == n {
      assert words[k..n] == [words[k]];
    } else {
      BreaksRemoved(words, indentation, k + 1, n);
      assert words[k..n][1..] == words[k + 1..n];
    }
  }

  /** No word contains a newline. */
  lemma WordsHaveNoNewline(description: string)
    ensures forall w :: w in Words(description) ==> '\n' !in w
  {
    var paragraphs := Split(description, "\n");
    SplitCharFree(description, '\n');
    forall w | w in Words(description)
      ensures '\n' !in w
    {
      var i := FlattenMember(WordLists(paragraphs), w);
      SplitChars(paragraphs[i], " ");
      assert paragraphs[i] in paragraphs;
    }
  }

  /** The words, joined by single spaces, are the description with its newlines turned into spaces. */
  lemma WordsJoined(description: string)
    ensures Join(Words(description), " ") == NewlinesToSpaces(description)
  {
    var paragraphs := Split(description, "\n");
    var lists := WordLists(paragraphs);
    JoinFlatten(lists, " ");
    var joined := seq(|lists|, i requires 0 <= i < |lists| => Join(lists[i], " "));
    forall i | 0 <= i < |lists|
      ensures joined[i] == paragraphs[i]
    {
      JoinSplit(paragraphs[i], " ");
    }
    assert joined == paragraphs;
    SplitCharFree(description, '\n');
    NewlinesToSpacesJoin(paragraphs);
    JoinSplit(description, "\n");
  }

  /**
   * Deleting every inserted break from the output of `paramDescription` gives the description
   * with its newlines turned into spaces, followed by one space: every word is emitted, in
   * order, followed by exactly one space.
   */
  lemma ParamDescriptionKeepsWords(description: string, indentation: int)
    ensures DeleteAll(ParamDescriptionOf(description, indentation), Break) == NewlinesToSpaces(description) + " "
  {
    var words := Words(description);
    assert |words| > 0 by {
      FlattenFirst(WordLists(Split(description, "\n")));
    }
    WrappedBothWays(words, indentation, |words|);
    WordsHaveNoNewline(description);
    forall j | 0 <= j < |words|
      ensures '\n' !in words[j]
    {
      assert words[j] in words;
    }
    BreaksRemoved(words, indentation, 0, |words|);
    assert words[0..|words|] == words;
    WordsJoined(description);
  }

  /** An empty description is one empty word: a single space, unless the indentation alone overflows. */
  lemma EmptyDescription(indentation: int)
    requires indentation <= Width
    ensures ParamDescriptionOf("", indentation) == " "
  {
    assert Split("", "\n") == [""];
    assert Split("", " ") == [""];
    assert WordLists([""]) == [[""]];
    assert Flatten([[""]]) == Flatten<string>([]) + [""];
    var words := Words("");
    assert words == [""];
    assert CountAfter(words, indentation, 0) == indentation;
    assert !BreaksBefore(words, indentation, 0);
    assert Piece(words, indentation, 0) == " ";
    assert WrappedUpTo(words, indentation, 1) == WrappedUpTo(words, indentation, 0) + Piece(words, indentation, 0);
  }

  // ---------------------------------------------------------------- flattening

  /** An element of a flattened list comes from one of the lists. */
  lemma {:induction false} FlattenMember<T>(lists: seq<seq<T>>, x: T) returns (i: nat)
    requires x in Flatten(lists)
    ensures i < |lists| && x in lists[i]
    decreases |lists|
  {
    var init := lists[..|lists| - 1];
    if x in Flatten(init) {
      i := FlattenMember(init, x);
    } else {
      i := |lists| - 1;
    }
  }

  /** Flattening lists that are all non-empty gives a non-empty list when there is at least one. */
  lemma {:induction false} FlattenFirst<T>(lists: seq<seq<T>>)
    requires |lists| > 0 && |lists[|lists| - 1]| > 0
    ensures |Flatten(lists)| > 0
  {
  }

  /** Joining the flattened lists is joining each list, then joining the results. */
  lemma {:induction false} JoinFlatten(lists: seq<seq<string>>, sep: string)
    requires forall i :: 0 <= i < |lists| ==> |lists[i]| > 0
    ensures Join(Flatten(lists), sep) == Join(seq(|lists|, i requires 0 <= i < |lists| => Join(lists[i], sep)), sep)
    decreases |lists|
  {
    var joined := seq(|lists|, i requires 0 <= i < |lists| => Join(lists[i], sep));
    if |lists| == 1 {
      assert Flatten(lists) == Flatten(lists[..0]) + lists[0];
      assert Flatten(lists[..0]) == [];
      assert Flatten(lists) == lists[0];
      assert joined == [Join(lists[0], sep)];
    } else if |lists| > 1 {
      var init := lists[..|lists| - 1];
      var last := lists[|lists| - 1];
      JoinFlatten(init, sep);
      var joinedInit := seq(|init|, i requires 0 <= i < |init| => Join(init[i], sep));
      assert joined == joinedInit + [Join(last, sep)];
      FlattenFirst(init);
      JoinAppend(Flatten(init), last, sep);
      JoinAppend(joinedInit, [Join(last, sep)], sep);
    }
  }

  // ---------------------------------------------------------------- sortByOptional

  /** The required entries come before the optional ones. */
  predicate RequiredFirst(parameters: seq<Parameter>)
  {
    forall i, j ::
      0 <= i < |parameters| && 0 <= j < |parameters| && parameters[i].required && !parameters[j].required ==> i < j
  }

  /** The parameters whose `required` flag is `required`, in their input order. */
  function Filtered(parameters: seq<Parameter>, required: bool): (r: seq<Parameter>)
    ensures |r| <= |parameters|
    ensures forall i :: 0 <= i < |r| ==> r[i].required == required
  {
    if |parameters| == 0 then []
    else
      var init := Filtered(parameters[..|parameters| - 1], required);
      var last := parameters[|parameters| - 1];
      assert parameters == parameters[..|parameters| - 1] + [last];
      if last.required == required then init + [last] else init
  }

  /**
   * What the stable `usort` of PHP 8 returns for the comparator `$b['required'] - $a['required']`:
   * the required parameters, then the optional ones, each group in its input order.
   */
  function SortedByOptional(parameters: seq<Parameter>): seq<Parameter>
  {
    Filtered(parameters, true) + Filtered(parameters, false)
  }

  lemma {:induction false} FilteredAppend(xs: seq<Parameter>, ys: seq<Parameter>, required: bool)
    ensures Filtered(xs + ys, required) == Filtered(xs, required) + Filtered(ys, required)
    decreases |ys|
  {
    if |ys| == 0 {
      assert xs + ys == xs;
    } else {
      assert (xs + ys)[..|xs + ys| - 1] == xs + ys[..|ys| - 1];
      FilteredAppend(xs, ys[..|ys| - 1], required);
    }
  }

  /** Every parameter lands in exactly one of the two groups. */
  lemma {:induction false} FilteredPartition(parameters: seq<Parameter>)
    ensures multiset(Filtered(parameters, true)) + multiset(Filtered(parameters, false)) == multiset(parameters)
    decreases |parameters|
  {
    if |parameters| > 0 {
      var init := parameters[..|parameters| - 1];
      assert parameters == init + [parameters[|parameters| - 1]];
      FilteredPartition(init);
    }
  }

  /** Filtering a group again keeps all of it and finds nothing of the other group. */
  lemma {:induction false} FilteredAgain(parameters: seq<Parameter>, required: bool)
    requires forall i :: 0 <= i < |parameters| ==> parameters[i].required == required
    ensures Filtered(parameters, required) == parameters
    ensures Filtered(parameters, !required) == []
    decreases |parameters|
  {
    if |parameters| > 0 {
      var init := parameters[..|parameters| - 1];
      assert parameters == init + [parameters[|parameters| - 1]];
      FilteredAgain(init, required);
    }
  }

  /** The two groups together are as long as the input. */
  lemma FilteredSizes(parameters: seq<Parameter>)
    ensures |Filtered(parameters, true)| + |Filtered(parameters, false)| == |parameters|
  {
    FilteredPartition(parameters);
    assert |multiset(parameters)| == |parameters|;
  }

  /** One more parameter of the input adds it to its group, and no prefix's group outgrows the whole group. */
  lemma FilteredPrefixStep(parameters: seq<Parameter>, i: nat, required: bool)
    requires i < |parameters|
    ensures Filtered(parameters[..i + 1], required)
            == Filtered(parameters[..i], required) + (if parameters[i].required == required then [parameters[i]] else [])
    ensures |Filtered(parameters[..i + 1], required)| <= |Filtered(parameters, required)|
  {
    assert parameters[..i + 1][..i] == parameters[..i];
    FilteredAppend(parameters[..i + 1], parameters[i + 1..], required);
    assert parameters[..i + 1] + parameters[i + 1..] == parameters;
  }

  /** The sort is a permutation: nothing is lost, added or duplicated. */
  lemma SortedPermutation(parameters: seq<Parameter>)
    ensures multiset(SortedByOptional(parameters)) == multiset(parameters)
  {
    FilteredPartition(parameters);
  }

  /** Every required parameter precedes every optional one. */
  lemma SortedRequiredFirst(parameters: seq<Parameter>)
    ensures RequiredFirst(SortedByOptional(parameters))
  {
    var sorted := SortedByOptional(parameters);
    var cut := |Filtered(parameters, true)|;
    assert forall i :: 0 <= i < |sorted| ==> (sorted[i].required <==> i < cut);
  }

  /** The sort is stable: within each group the parameters keep their input order. */
  lemma SortedKeepsGroups(parameters: seq<Parameter>)
    ensures Filtered(SortedByOptional(parameters), true) == Filtered(parameters, true)
    ensures Filtered(SortedByOptional(parameters), false) == Filtered(parameters, false)
  {
    var required := Filtered(parameters, true);
    var optional := Filtered(parameters, false);
    FilteredAppend(required, optional, true);
    FilteredAppend(required, optional, false);
    FilteredAgain(required, true);
    FilteredAgain(optional, false);
  }

  /** A list with the required parameters first is its required group followed by its optional group. */
  lemma {:induction false} RequiredFirstIsGroups(sorted: seq<Parameter>)
    requires RequiredFirst(sorted)
    ensures sorted == Filtered(sorted, true) + Filtered(sorted, false)
    decreases |sorted|
  {
    if |sorted| > 0 {
      var init := sorted[..|sorted| - 1];
      var last := sorted[|sorted| - 1];
      assert sorted == init + [last];
      assert RequiredFirst(init);
      if last.required {
        assert forall i :: 0 <= i < |init| ==> init[i].required;
        FilteredAgain(init, true);
      } else {
        RequiredFirstIsGroups(init);
      }
    }
  }

  /**
   * The result is the only order that puts the required parameters first and keeps each
   * group's input order.
   */
  lemma SortedUnique(parameters: seq<Parameter>, other: seq<Parameter>)
    requires RequiredFirst(other)
    requires Filtered(other, true) == Filtered(parameters, true)
    requires Filtered(other, false) == Filtered(parameters, false)
    ensures other == SortedByOptional(parameters)
  {
    RequiredFirstIsGroups(other);
  }

  /**
   * `sortByOptional`: the stable `usort` of a copy of the parameters, written as two passes
   * that fill the copy with the required parameters and then the optional ones.
   */
  method SortByOptional(parameters: seq<Parameter>) returns (sorted: seq<Parameter>)
    ensures sorted == SortedByOptional(parameters)
    ensures multiset(sorted) == multiset(parameters)
    ensures RequiredFirst(sorted)
  {
    var a := new Parameter[|parameters|](i requires 0 <= i < |parameters| => parameters[i]);
    FilteredSizes(parameters);
    var cut := FillGroup(a, 0, parameters, true);
    var end := FillGroup(a, cut, parameters, false);
    assert a[..] == a[..end] == a[..cut] + a[cut..end];
    sorted := a[..];
    SortedPermutation(parameters);
    SortedRequiredFirst(parameters);
  }

  /** One pass of the sort: the group's parameters, in input order, written into `a` from `start` on. */
  method FillGroup(a: array<Parameter>, start: nat, parameters: seq<Parameter>, required: bool) returns (next: nat)
    requires start + |Filtered(parameters, required)| <= a.Length
    modifies a
    ensures next == start + |Filtered(parameters, required)|
    ensures a[..start] == old(a[..start])
    ensures a[start..next] == Filtered(parameters, required)
  {
    next := start;
    for i := 0 to |parameters|
      invariant next == start + |Filtered(parameters[..i], required)|
      invariant next <= start + |Filtered(parameters, required)|
      invariant a[..start] == old(a[..start])
      invariant a[start..next] == Filtered(parameters[..i], required)
    {
      FilteredPrefixStep(parameters, i, required);
      if parameters[i].required == required {
        a[next] := parameters[i];
        next := next + 1;
      }
    }
    assert parameters[..|parameters|] == parameters;
  }
}
