/**
 * What `getReturnType` (src/Command/GenerateSchemaCommand.php) does with the matches of its
 * seventeen sentence templates against a method's description. The regular-expression
 * matching itself is not modelled: each template's match is given as an optional record
 * of its captures, and the template table records which named groups each template has.
 */
module ReturnTypes {
  import opened Results
  import opened Errors
  import opened Strings
  import opened TypeParser

  /** The named groups of one template: `array`, the link (`objectName`/`objectAnchor`) and `simple`. */
  datatype Template = Template(hasArray: bool, hasLink: bool, hasSimple: bool)

  /** The seventeen templates, in the order they are tried. */
  const Templates: seq<Template> := [
    Template(true, true, false),   // An Array of <link> objects is returned
    Template(false, false, true),  // Returns <em> on success
    Template(false, false, true),  // Returns the new invite link as <em> on success
    Template(false, true, false),  // Returns a <link> (object) (on success).
    Template(false, true, false),  // Returns the uploaded <link> on success
    Template(false, true, false),  // On success, the sent <link> is returned
    Template(true, true, false),   // On success, an array of the sent <link> is returned
    Template(false, true, true),   // ... the edited <link> is returned, otherwise <em> is returned
    Template(false, true, true),   // ... the sent <link> is returned, otherwise <em> is returned
    Template(false, true, false),  // On success, a <link> object is returned
    Template(true, true, false),   // On success, returns an Array of <link> objects
    Template(false, false, true),  // On success, <em> is returned
    Template(false, true, true),   // ... if edited message is sent by the bot, the edited <link> ...
    Template(false, true, false),  // On success, the stopped <link> with the final results is returned
    Template(false, false, true),  // On success, True is returned
    Template(false, true, true),   // ... returns the edited <link>, otherwise returns <em>. Returns an error
    Template(true, true, false)    // On success, returns an <em>Array</em> of <link> objects
  ]

  /** The captures of one successful match (a group the template lacks is never read). */
  datatype Capture = Capture(objectName: string, objectAnchor: string, simple: string)

  /** One optional match per template, in template order. */
  type Matches = seq<Option<Capture>>

  /**
   * The link text used as a type name: the link's text, unless it differs from the anchor
   * ignoring case, in which case the anchor. Either way it agrees with the anchor up to case
   * and is one of the two captures.
   */
  function LinkText(c: Capture): (r: string)
    ensures Lower(r) == Lower(c.objectAnchor)
    ensures r == c.objectName || r == c.objectAnchor
  {
    if Lower(c.objectName) != Lower(c.objectAnchor) then c.objectAnchor else c.objectName
  }

  /**
   * The types one matching template adds: the link's types, then the `simple` group's,
   * each passed through `ucfirst` and `parseType`, every flag set to whether the template
   * has an `array` group. A parse failure is not caught.
   */
  function Contribution(known: set<string>, ns: string, t: Template, c: Capture): (r: Parsed)
    ensures r.Ok? ==> forall e :: e in r.value ==> e.isCollection == t.hasArray
    ensures r.Ok? && (t.hasLink || t.hasSimple) ==> |r.value| > 0
    ensures r.Err? ==> r.error.UndefinedType?
  {
    var linked :- if t.hasLink then ParsedType(known, ns, UcFirst(LinkText(c))) else Ok([]);
    var simple :- if t.hasSimple then ParsedType(known, ns, UcFirst(c.simple)) else Ok([]);
    Ok(WithCollection(linked + simple, t.hasArray))
  }

  /** The types collected from the first `n` templates, in template order; the first failure ends it. */
  function Collected(known: set<string>, ns: string, matches: Matches, n: nat): Parsed
    requires |matches| == |Templates| && n <= |Templates|
  {
    if n == 0 then Ok([])
    else
      var before :- Collected(known, ns, matches, n - 1);
      match matches[n - 1]
      case None => Ok(before)
      case Some(c) =>
        var more :- Contribution(known, ns, Templates[n - 1], c);
        Ok(before + more)
  }

  /** `getReturnType`: all the templates' types, or a failure when none matched. */
  function ReturnTypeOf(known: set<string>, ns: string, matches: Matches): (r: Parsed)
    requires |matches| == |Templates|
    ensures r.Ok? ==> |r.value| > 0
  {
    var all :- Collected(known, ns, matches, |Templates|);
    if |all| == 0 then Err(ReturnTypeNotFound) else Ok(all)
  }

  /** `getReturnType` as the PHP code runs it: a loop over the templates appending each match's types. */
  method GetReturnType(known: set<string>, ns: string, matches: Matches) returns (r: Parsed)
    requires |matches| == |Templates|
    ensures r == ReturnTypeOf(known, ns, matches)
  {
    var matched: seq<TypeEntry> := [];
    var i := 0;
    while i < |Templates|
      invariant 0 <= i <= |Templates|
      invariant Collected(known, ns, matches, i) == Ok(matched)
    {
      if matches[i].Some? {
        var next := AppendMatch(known, ns, matched, Templates[i], matches[i].value);
        if next.Err? {
          FailureSticks(known, ns, matches, i + 1, |Templates|);
          return next;
        }
        matched := next.value;
      }
      i := i + 1;
    }
    if |matched| == 0 {
      return Err(ReturnTypeNotFound);
    }
    return Ok(matched);
  }

  /** The body of the loop for a template that matched: its link's types, then its `simple` group's. */
  method AppendMatch(known: set<string>, ns: string, matched: seq<TypeEntry>, t: Template, c: Capture)
    returns (r: Parsed)
    ensures r == (var more :- Contribution(known, ns, t, c); Ok(matched + more))
  {
    var linked := ParseGroup(known, ns, t.hasLink, UcFirst(LinkText(c)));
    if linked.Err? {
      return linked;
    }
    var simple := ParseGroup(known, ns, t.hasSimple, UcFirst(c.simple));
    if simple.Err? {
      return simple;
    }
    var out := AppendFlagged(matched, linked.value, t.hasArray);
    out := AppendFlagged(out, simple.value, t.hasArray);
    AppendBoth(matched, linked.value, simple.value, t.hasArray);
    ContributionParts(known, ns, t, c, linked.value, simple.value);
    return Ok(out);
  }

  /** One named group's types: parsed when the template has the group, none otherwise. */
  method ParseGroup(known: set<string>, ns: string, present: bool, text: string) returns (r: Parsed)
    ensures r == if present then ParsedType(known, ns, text) else Ok([])
  {
    r := Ok([]);
    if present {
      r := ParseType(known, ns, text);
    }
  }

  /** The innermost loop: each parsed alternative gets the template's flag and is appended. */
  method AppendFlagged(matched: seq<TypeEntry>, types: seq<TypeEntry>, flag: bool) returns (out: seq<TypeEntry>)
    ensures out == matched + WithCollection(types, flag)
  {
    out := matched;
    var j := 0;
    while j < |types|
      invariant 0 <= j <= |types|
      invariant |out| == |matched| + j
      invariant out[..|matched|] == matched
      invariant forall k :: 0 <= k < j ==> out[|matched| + k] == TypeEntry(types[k].name, flag)
    {
      out := out + [TypeEntry(types[j].name, flag)];
      j := j + 1;
    }
  }

  // ---------------------------------------------------------------- lemmas

  /** Appending two groups one after the other appends their concatenation. */
  lemma AppendBoth(matched: seq<TypeEntry>, xs: seq<TypeEntry>, ys: seq<TypeEntry>, flag: bool)
    ensures matched + WithCollection(xs, flag) + WithCollection(ys, flag) == matched + WithCollection(xs + ys, flag)
  {
    WithCollectionAppend(xs, ys, flag);
  }

  /** A template's contribution once both of its groups have parsed. */
  lemma ContributionParts(known: set<string>, ns: string, t: Template, c: Capture, linked: seq<TypeEntry>, simple: seq<TypeEntry>)
    requires (if t.hasLink then ParsedType(known, ns, UcFirst(LinkText(c))) else Ok([])) == Ok(linked)
    requires (if t.hasSimple then ParsedType(known, ns, UcFirst(c.simple)) else Ok([])) == Ok(simple)
    ensures Contribution(known, ns, t, c) == Ok(WithCollection(linked + simple, t.hasArray))
  {
  }

  lemma WithCollectionAppend(xs: seq<TypeEntry>, ys: seq<TypeEntry>, flag: bool)
    ensures WithCollection(xs + ys, flag) == WithCollection(xs, flag) + WithCollection(ys, flag)
  {
  }

  /** Once a template's parse fails, every longer run of the loop fails with the same error. */
  lemma {:induction false} FailureSticks(known: set<string>, ns: string, matches: Matches, n: nat, m: nat)
    requires |matches| == |Templates| && n <= m <= |Templates|
    requires Collected(known, ns, matches, n).Err?
    ensures Collected(known, ns, matches, m) == Collected(known, ns, matches, n)
    decreases m - n
  {
    if n < m {
      FailureSticks(known, ns, matches, n, m - 1);
    }
  }

  /** Every template has a link or a `simple` group, so a template that matches adds at least one type. */
  lemma EveryTemplateCaptures(i: nat)
    requires i < |Templates|
    ensures Templates[i].hasLink || Templates[i].hasSimple
  {
  }

  /** With no template matched so far, nothing is collected. */
  lemma {:induction false} NothingMatchedNothingCollected(known: set<string>, ns: string, matches: Matches, n: nat)
    requires |matches| == |Templates| && n <= |Templates|
    requires forall i :: 0 <= i < n ==> matches[i].None?
    ensures Collected(known, ns, matches, n) == Ok([])
  {
    if n > 0 {
      NothingMatchedNothingCollected(known, ns, matches, n - 1);
    }
  }

  /** Once a template has matched, the collection is either a failure or non-empty. */
  lemma {:induction false} SomeMatchSomething(known: set<string>, ns: string, matches: Matches, n: nat, k: nat)
    requires |matches| == |Templates| && k < n <= |Templates|
    requires matches[k].Some?
    ensures Collected(known, ns, matches, n).Ok? ==> |Collected(known, ns, matches, n).value| > 0
  {
    if n - 1 == k {
      EveryTemplateCaptures(k);
    } else {
      SomeMatchSomething(known, ns, matches, n - 1, k);
    }
  }

  /** "return type does not found" is thrown exactly when no template matched. */
  lemma NotFoundIffNoMatch(known: set<string>, ns: string, matches: Matches)
    requires |matches| == |Templates|
    ensures ReturnTypeOf(known, ns, matches) == Err(ReturnTypeNotFound)
            <==> forall i :: 0 <= i < |matches| ==> matches[i].None?
  {
    if forall i :: 0 <= i < |matches| ==> matches[i].None? {
      NothingMatchedNothingCollected(known, ns, matches, |Templates|);
    } else {
      var k :| 0 <= k < |matches| && matches[k].Some?;
      SomeMatchSomething(known, ns, matches, |Templates|, k);
      NoMissingFromCollected(known, ns, matches, |Templates|);
    }
  }

  /** The collection never fails with "return type does not found": that is only decided at the end. */
  lemma {:induction false} NoMissingFromCollected(known: set<string>, ns: string, matches: Matches, n: nat)
    requires |matches| == |Templates| && n <= |Templates|
    ensures Collected(known, ns, matches, n).Err? ==> Collected(known, ns, matches, n).error.UndefinedType?
  {
    if n > 0 {
      NoMissingFromCollected(known, ns, matches, n - 1);
    }
  }

  /** A matching template whose types cannot be parsed makes the whole call fail: nothing is swallowed. */
  lemma {:induction false} FailuresPropagate(known: set<string>, ns: string, matches: Matches, k: nat, c: Capture)
    requires |matches| == |Templates| && k < |Templates|
    requires matches[k] == Some(c) && Contribution(known, ns, Templates[k], c).Err?
    ensures ReturnTypeOf(known, ns, matches).Err?
    ensures ReturnTypeOf(known, ns, matches).error.UndefinedType?
  {
    assert Collected(known, ns, matches, k + 1).Err?;
    FailureSticks(known, ns, matches, k + 1, |Templates|);
    NoMissingFromCollected(known, ns, matches, |Templates|);
  }

  /** When every matching template has (or lacks) an `array` group, every type's flag says so. */
  lemma {:induction false} FlagsFollowTemplates(known: set<string>, ns: string, matches: Matches, n: nat, flag: bool)
    requires |matches| == |Templates| && n <= |Templates|
    requires forall i :: 0 <= i < n && matches[i].Some? ==> Templates[i].hasArray == flag
    ensures Collected(known, ns, matches, n).Ok? ==>
              forall e :: e in Collected(known, ns, matches, n).value ==> e.isCollection == flag
  {
    if n > 0 {
      FlagsFollowTemplates(known, ns, matches, n - 1, flag);
    }
  }

  /**
   * Every template is tried, not only the first that matches: one more matching template whose
   * types parse inserts exactly those types, at its own place in the template order, into a
   * successful result: after what the earlier templates collected and before what the later ones did.
   */
  lemma {:induction false} AnotherMatchAdds(known: set<string>, ns: string, matches: Matches, k: nat, c: Capture, n: nat)
    requires |matches| == |Templates| && k < n <= |Templates|
    requires matches[k].None? && Contribution(known, ns, Templates[k], c).Ok?
    requires Collected(known, ns, matches, n).Ok?
    ensures var before := Collected(known, ns, matches, k);
            var all := Collected(known, ns, matches, n);
            var more := Collected(known, ns, matches[k := Some(c)], n);
            before.Ok? && more.Ok? && |before.value| <= |all.value| &&
            more.value == before.value + Contribution(known, ns, Templates[k], c).value + all.value[|before.value|..]
  {
    var other := matches[k := Some(c)];
    var extra := Contribution(known, ns, Templates[k], c).value;
    if n - 1 == k {
      InsertedHere(known, ns, matches, k, c);
    } else {
      OkBefore(known, ns, matches, n);
      AnotherMatchAdds(known, ns, matches, k, c, n - 1);
      InsertedStaysInserted(known, ns, matches, other, n, Collected(known, ns, matches, k).value, extra);
    }
  }

  /** The template that newly matches puts its types right after the earlier templates'. */
  lemma InsertedHere(known: set<string>, ns: string, matches: Matches, k: nat, c: Capture)
    requires |matches| == |Templates| && k < |Templates|
    requires matches[k].None? && Contribution(known, ns, Templates[k], c).Ok?
    requires Collected(known, ns, matches, k + 1).Ok?
    ensures var before := Collected(known, ns, matches, k);
            before.Ok? && Collected(known, ns, matches, k + 1) == before &&
            Collected(known, ns, matches[k := Some(c)], k + 1)
              == Ok(before.value + Contribution(known, ns, Templates[k], c).value)
  {
    SamePrefixSameCollected(known, ns, matches, matches[k := Some(c)], k);
  }

  /** A successful collection was successful one template earlier. */
  lemma OkBefore(known: set<string>, ns: string, matches: Matches, n: nat)
    requires |matches| == |Templates| && 0 < n <= |Templates|
    requires Collected(known, ns, matches, n).Ok?
    ensures Collected(known, ns, matches, n - 1).Ok?
  {
  }

  /** One more template, the same in both match lists, keeps `extra` inserted after `before`. */
  lemma {:induction false} InsertedStaysInserted(known: set<string>, ns: string, matches: Matches, other: Matches, n: nat,
                                                 before: seq<TypeEntry>, extra: seq<TypeEntry>)
    requires |matches| == |other| == |Templates| && 0 < n <= |Templates| && other[n - 1] == matches[n - 1]
    requires Collected(known, ns, matches, n).Ok? && Collected(known, ns, other, n - 1).Ok?
    requires |before| <= |Collected(known, ns, matches, n - 1).value|
    requires Collected(known, ns, other, n - 1).value
             == before + extra + Collected(known, ns, matches, n - 1).value[|before|..]
    ensures Collected(known, ns, other, n).Ok? && |before| <= |Collected(known, ns, matches, n).value|
    ensures Collected(known, ns, other, n).value == before + extra + Collected(known, ns, matches, n).value[|before|..]
  {
    var all0 := Collected(known, ns, matches, n - 1).value;
    var more0 := Collected(known, ns, other, n - 1).value;
    match matches[n - 1]
    case None =>
      assert Collected(known, ns, matches, n) == Ok(all0);
      assert Collected(known, ns, other, n) == Ok(more0);
    case Some(d) =>
      var add := Contribution(known, ns, Templates[n - 1], d).value;
      assert Collected(known, ns, matches, n) == Ok(all0 + add);
      assert Collected(known, ns, other, n) == Ok(more0 + add);
      InsertedThenAppended(before, extra, all0, add);
  }

  lemma InsertedThenAppended<T>(before: seq<T>, extra: seq<T>, all: seq<T>, add: seq<T>)
    requires |before| <= |all|
    ensures before + extra + all[|before|..] + add == before + extra + (all + add)[|before|..]
  {
    assert (all + add)[|before|..] == all[|before|..] + add;
  }

  lemma {:induction false} SamePrefixSameCollected(known: set<string>, ns: string, a: Matches, b: Matches, n: nat)
    requires |a| == |b| == |Templates| && n <= |Templates|
    requires a[..n] == b[..n]
    ensures Collected(known, ns, a, n) == Collected(known, ns, b, n)
  {
    if n > 0 {
      assert a[..n - 1] == a[..n][..n - 1];
      assert b[..n - 1] == b[..n][..n - 1];
      assert a[n - 1] == a[..n][n - 1];
      assert b[n - 1] == b[..n][n - 1];
      SamePrefixSameCollected(known, ns, a, b, n - 1);
    }
  }

  /**
   * The link text follows the anchor when the two differ beyond letter case: a link
   * `Messages` to `#message` names the type `Message`.
   */
  lemma AnchorReplacesText(c: Capture)
    requires c.objectName == "Messages" && c.objectAnchor == "message"
    ensures UcFirst(LinkText(c)) == "Message"
  {
    assert |Lower(c.objectName)| != |Lower(c.objectAnchor)|;
  }

  /** A link whose text matches its anchor up to case keeps its text. */
  lemma TextKeptWhenSameAsAnchor(c: Capture)
    requires c.objectName == "Message" && c.objectAnchor == "message"
    ensures UcFirst(LinkText(c)) == "Message"
  {
    assert Lower(c.objectName) == Lower(c.objectAnchor) by {
      assert forall i :: 0 <= i < 7 ==> Lower(c.objectName)[i] == Lower(c.objectAnchor)[i];
    }
  }
}
