/**
 * Properties of the `parseType` grammar (src/Command/GenerateSchemaCommand.php): what each
 * rule produces, which rule wins when several apply, and that a larger set of registered
 * types never breaks a parse that succeeded.
 */
module TypeGrammar {
  import opened Results
  import opened Errors
  import opened Strings
  import opened TypeParser

  /** A single word (no space) triggers neither the `"Array of "` rule nor the union rule. */
  lemma SingleWord(text: string)
    requires ' ' !in text
    ensures !Contains(text, "Array of ") && !Contains(text, " or ") && !Contains(text, " and ")
  {
    MissingChar(text, "Array of ", ' ');
    MissingChar(text, " or ", ' ');
    MissingChar(text, " and ", ' ');
  }

  /** `"Float number"` reaches the literal table: it holds neither `"Array of "`, `" or "` nor `" and "`. */
  lemma FloatNumberNoArrayOf()
    ensures !Contains("Float number", "Array of ")
  {
    MissingChar("Float number", "Array of ", 'y');
  }

  lemma FloatNumberNoAnd()
    ensures !Contains("Float number", " and ")
  {
    MissingChar("Float number", " and ", 'd');
  }

  lemma FloatNumberNoOr()
    ensures !Contains("Float number", " or ")
  {
    assert "Float number" == "Float" + " " + "number";
    assert " or "[1..][2] == ' ';
    TwoWords("Float", "number", " or ");
  }

  /** Two words joined by one space hold no text that starts with a space and has a second one. */
  lemma TwoWords(a: string, b: string, sub: string)
    requires ' ' !in a && ' ' !in b
    requires |sub| > 0 && sub[0] == ' ' && ' ' in sub[1..]
    ensures !Contains(a + " " + b, sub)
  {
    assert a + " " + b == a + (" " + b);
    SkipLead(a, " " + b, sub);
    assert !IsPrefix(sub, " " + b);
    MissingChar(b, sub, ' ');
    assert (" " + b)[1..] == b;
  }

  /** Text that holds neither `"Array of "`, `" or "` nor `" and "` goes to the single-name rules. */
  lemma NameRuleApplies(known: set<string>, ns: string, text: string)
    requires !Contains(text, "Array of ") && !Contains(text, " or ") && !Contains(text, " and ")
    ensures ParsedType(known, ns, text) == NamedType(known, ns, text)
  {
  }

  /** `"Float"` and `"Float number"` are PHP floats. */
  lemma FloatLiterals(known: set<string>, ns: string, text: string)
    requires text == "Float" || text == "Float number"
    ensures ParsedType(known, ns, text) == Ok([TypeEntry("float", false)])
  {
    if text == "Float" {
      SingleWord(text);
    } else {
      FloatNumberNoArrayOf();
      FloatNumberNoAnd();
      FloatNumberNoOr();
    }
    NameRuleApplies(known, ns, text);
  }

  /** `"Integer"` and `"Int"` are PHP ints. */
  lemma IntegerLiterals(known: set<string>, ns: string, text: string)
    requires text == "Integer" || text == "Int"
    ensures ParsedType(known, ns, text) == Ok([TypeEntry("int", false)])
  {
    assert ' ' !in text;
    SingleWord(text);
    NameRuleApplies(known, ns, text);
  }

  /** `"True"` and `"Boolean"` are PHP bools. */
  lemma BooleanLiterals(known: set<string>, ns: string, text: string)
    requires text == "True" || text == "Boolean"
    ensures ParsedType(known, ns, text) == Ok([TypeEntry("bool", false)])
  {
    assert ' ' !in text;
    SingleWord(text);
    NameRuleApplies(known, ns, text);
  }

  /** `"CallbackGame"` and `"Array"` are plain PHP arrays, not collections of a type. */
  lemma ArrayLiterals(known: set<string>, ns: string, text: string)
    requires text == "CallbackGame" || text == "Array"
    ensures ParsedType(known, ns, text) == Ok([TypeEntry("array", false)])
  {
    assert ' ' !in text;
    SingleWord(text);
    NameRuleApplies(known, ns, text);
  }

  /** `"String"` is a PHP string. */
  lemma StringLiteral(known: set<string>, ns: string, text: string)
    requires text == "String"
    ensures ParsedType(known, ns, text) == Ok([TypeEntry("string", false)])
  {
    SingleWord(text);
    NameRuleApplies(known, ns, text);
  }

  /** `"InputFile"` names the abstract file class, never as a collection, whether or not it is registered. */
  lemma InputFileMarker(known: set<string>, ns: string, text: string)
    requires text == "InputFile"
    ensures ParsedType(known, ns, text) == Ok([TypeEntry(ClassName(ns, "InputFileInterface"), false)])
  {
    SingleWord(text);
    NameRuleApplies(known, ns, text);
  }

  /** `"InlineQueryResult"` names the abstract inline-result class. */
  lemma InlineQueryResultMarker(known: set<string>, ns: string, text: string)
    requires text == "InlineQueryResult"
    ensures ParsedType(known, ns, text) == Ok([TypeEntry(ClassName(ns, "AbstractInlineQueryResult"), false)])
  {
    SingleWord(text);
    NameRuleApplies(known, ns, text);
  }

  /** `"InputMessageContent"` names the abstract message-content class. */
  lemma InputMessageContentMarker(known: set<string>, ns: string, text: string)
    requires text == "InputMessageContent"
    ensures ParsedType(known, ns, text) == Ok([TypeEntry(ClassName(ns, "AbstractInputMessageContent"), false)])
  {
    SingleWord(text);
    NameRuleApplies(known, ns, text);
  }

  /**
   * `"PassportElementError"` expands to the class of every listed error type, in table
   * order, none a collection (the entries are given by `TransformEntries`).
   */
  lemma PassportElementErrorExpansion(known: set<string>, ns: string, text: string)
    requires text == "PassportElementError"
    ensures text in Transforms && ParsedType(known, ns, text) == Ok(TransformEntries(known, ns, text))
  {
    SingleWord(text);
    NameRuleApplies(known, ns, text);
    TransformRule(known, ns, text);
  }

  /** `"InputMedia"` expands to the five media input classes, in table order. */
  lemma InputMediaExpansion(known: set<string>, ns: string, text: string)
    requires text == "InputMedia"
    ensures text in Transforms && ParsedType(known, ns, text) == Ok(TransformEntries(known, ns, text))
  {
    SingleWord(text);
    NameRuleApplies(known, ns, text);
    TransformRule(known, ns, text);
  }

  /** The single-name rules send both `TRANSFORMS` names to their expansion. */
  lemma TransformRule(known: set<string>, ns: string, text: string)
    requires text == "PassportElementError" || text == "InputMedia"
    ensures text in Transforms && NamedType(known, ns, text) == Ok(TransformEntries(known, ns, text))
  {
  }

  /**
   * Every name a successful parse produces is a primitive or the class of a registered type,
   * a special marker's class or a `TRANSFORMS` member: nothing unresolved reaches the schema.
   */
  lemma {:induction false} ParsedNamesResolve(known: set<string>, ns: string, text: string)
    ensures var r := ParsedType(known, ns, text);
            r.Ok? ==> forall e :: e in r.value ==> Resolves(known, ns, e.name)
    decreases |text|, 1, 0
  {
    if Contains(text, "Array of ") {
      ArrayOfPieces(text);
      var inner := Split(text, " of ")[1];
      ParsedNamesResolve(known, ns, inner);
      var r := ParsedType(known, ns, inner);
      if r.Ok? {
        var types := WithCollection(r.value, true);
        forall e | e in types
          ensures Resolves(known, ns, e.name)
        {
          var i :| 0 <= i < |types| && types[i] == e;
          assert r.value[i] in r.value;
        }
      }
    } else if Contains(text, " or ") || Contains(text, " and ") {
      UnionPieces(text, Divider(text));
      PiecesNamesResolve(known, ns, Split(text, Divider(text)), |text|);
    } else {
      NamedTypeResolves(known, ns, text);
    }
  }

  /** The single-name rules only produce primitives, marker classes, transform members and registered types. */
  lemma NamedTypeResolves(known: set<string>, ns: string, text: string)
    ensures var r := NamedType(known, ns, text);
            r.Ok? ==> forall e :: e in r.value ==> Resolves(known, ns, e.name)
  {
    if text in Transforms {
      var names := Transforms[text];
      var r := TransformEntries(known, ns, text);
      forall e | e in r
        ensures Resolves(known, ns, e.name)
      {
        var i :| 0 <= i < |r| && r[i] == e;
        assert names[i] in names;
      }
    }
  }

  /** The union loop's merged list resolves because each piece's list does. */
  lemma {:induction false} PiecesNamesResolve(known: set<string>, ns: string, pieces: seq<string>, bound: nat)
    requires forall p :: p in pieces ==> |p| < bound
    ensures var r := ParsedPieces(known, ns, pieces, bound);
            r.Ok? ==> forall e :: e in r.value ==> Resolves(known, ns, e.name)
    decreases bound, 0, |pieces|
  {
    if |pieces| > 0 {
      assert pieces[0] in pieces;
      ParsedNamesResolve(known, ns, pieces[0]);
      PiecesNamesResolve(known, ns, pieces[1..], bound);
    }
  }

  /**
   * Only the `"Array of "` rule sets the collection flag: every alternative of a successful
   * parse is a collection exactly when the text contains `"Array of "`.
   */
  lemma {:induction false} CollectionIffArrayOf(known: set<string>, ns: string, text: string)
    ensures var r := ParsedType(known, ns, text);
            r.Ok? ==> forall e :: e in r.value ==> (e.isCollection <==> Contains(text, "Array of "))
    decreases |text|, 1, 0
  {
    if Contains(text, "Array of ") {
    } else if Contains(text, " or ") || Contains(text, " and ") {
      var pieces := Split(text, Divider(text));
      UnionPieces(text, Divider(text));
      forall i | 0 <= i < |pieces|
        ensures !Contains(pieces[i], "Array of ")
      {
        if Contains(pieces[i], "Array of ") {
          SplitPieceInside(text, Divider(text), pieces[i], "Array of ");
        }
      }
      PiecesNoCollection(known, ns, pieces, |text|);
    } else {
      ArrayOfStringHasArrayOf();
      NamedNoCollection(known, ns, text);
    }
  }

  /** The literal `"Array of String"` is claimed by the `"Array of "` rule before the literal table. */
  lemma ArrayOfStringHasArrayOf()
    ensures Contains("Array of String", "Array of ")
  {
    OccursAt("Array of String", "Array of ", 0);
  }

  /** Apart from the `"Array of String"` literal, the single-name rules never set the flag. */
  lemma NamedNoCollection(known: set<string>, ns: string, text: string)
    requires text != "Array of String"
    ensures var r := NamedType(known, ns, text);
            r.Ok? ==> forall e :: e in r.value ==> !e.isCollection
  {
    if text in Transforms {
      var r := TransformEntries(known, ns, text);
      forall e | e in r
        ensures !e.isCollection
      {
        var i :| 0 <= i < |r| && r[i] == e;
      }
    }
  }

  /** Pieces none of which contains `"Array of "` parse to a union without collections. */
  lemma {:induction false} PiecesNoCollection(known: set<string>, ns: string, pieces: seq<string>, bound: nat)
    requires forall p :: p in pieces ==> |p| < bound
    requires forall i :: 0 <= i < |pieces| ==> !Contains(pieces[i], "Array of ")
    ensures var r := ParsedPieces(known, ns, pieces, bound);
            r.Ok? ==> forall e :: e in r.value ==> !e.isCollection
    decreases bound, 0, |pieces|
  {
    if |pieces| > 0 {
      assert pieces[0] in pieces;
      CollectionIffArrayOf(known, ns, pieces[0]);
      PiecesNoCollection(known, ns, pieces[1..], bound);
    }
  }

  /** Text that none of the rules before the registered-type lookup claims. */
  predicate NoEarlierRule(text: string)
  {
    && !Contains(text, "Array of ") && !Contains(text, " or ") && !Contains(text, " and ")
    && text !in {"Float", "Float number", "Integer", "Int", "True", "Boolean", "CallbackGame", "Array",
                 "String", "Integer or String", "Array of String", "InputFile", "InlineQueryResult",
                 "InputMessageContent", "PassportElementError", "InputMedia"}
  }

  /** The last rule: a registered type name gives its class; any other name is an undefined type. */
  lemma RegisteredOrUndefined(known: set<string>, ns: string, text: string)
    requires NoEarlierRule(text)
    ensures text in known ==> ParsedType(known, ns, text) == Ok([TypeEntry(ClassName(ns, text), false)])
    ensures text !in known ==> ParsedType(known, ns, text) == Err(UndefinedType(text))
  {
    NameRuleApplies(known, ns, text);
    assert text !in Transforms;
  }

  /** The `"Array of "` rule: the second `" of "` piece is parsed and every alternative becomes a collection. */
  lemma ArrayOfRule(known: set<string>, ns: string, text: string)
    requires Contains(text, "Array of ")
    ensures |Split(text, " of ")| >= 2
    ensures var inner := ParsedType(known, ns, Split(text, " of ")[1]);
            var r := ParsedType(known, ns, text);
            && (r.Ok? <==> inner.Ok?)
            && (r.Err? ==> r == inner)
            && (r.Ok? ==> |r.value| == |inner.value|
                          && forall i :: 0 <= i < |r.value| ==> r.value[i] == TypeEntry(inner.value[i].name, true))
  {
    ArrayOfPieces(text);
  }

  /** `"Array of X"` for a single word `X` is `X`'s alternatives as collections. */
  lemma {:induction false} ArrayOfWord(known: set<string>, ns: string, text: string, b: string)
    requires text == "Array of " + b && ' ' !in b
    ensures var inner := ParsedType(known, ns, b);
            ParsedType(known, ns, text) == if inner.Ok? then Ok(WithCollection(inner.value, true)) else inner
  {
    assert text == "Array" + (" of " + b);
    MissingChar(b, " of ", ' ');
    SplitAlone(b, " of ");
    SplitAtSeparator(" of ", b);
    SplitLead("Array", " of " + b, " of ");
    assert Split(text, " of ")[1] == b;
    assert text[0..9] == "Array of ";
    OccursAt(text, "Array of ", 0);
  }

  /**
   * `"Array of String"` (`word` is `"String"`) is taken by the `"Array of "` rule, so its own
   * literal line is never reached; the rule gives the same answer, a collection of strings.
   */
  lemma ArrayOfString(known: set<string>, ns: string, word: string)
    requires word == "String"
    ensures ParsedType(known, ns, "Array of " + word) == Ok([TypeEntry("string", true)])
  {
    assert ' ' !in word;
    ArrayOfWord(known, ns, "Array of " + word, word);
    StringLiteral(known, ns, word);
    assert WithCollection([TypeEntry("string", false)], true) == [TypeEntry("string", true)];
  }

  /**
   * In `"Array of Array of X"` (`word` is `"Array"`) only the second piece, `"Array"`, counts:
   * a collection of plain arrays, whatever `X` is.
   */
  lemma {:induction false} NestedArrayOf(known: set<string>, ns: string, word: string, b: string)
    requires word == "Array"
    ensures ParsedType(known, ns, "Array of " + word + " of " + b) == Ok([TypeEntry("array", true)])
  {
    var text := "Array of " + word + " of " + b;
    var tail := word + " of " + b;
    assert tail == word + (" of " + b);
    assert ' ' !in word;
    SplitAtSeparator(" of ", b);
    SplitLead(word, " of " + b, " of ");
    assert text == word + (" of " + tail);
    SplitAtSeparator(" of ", tail);
    SplitLead(word, " of " + tail, " of ");
    assert Split(text, " of ")[1] == word;
    assert text[0..9] == "Array of ";
    OccursAt(text, "Array of ", 0);
    ArrayLiterals(known, ns, word);
    assert WithCollection([TypeEntry("array", false)], true) == [TypeEntry("array", true)];
  }

  /** Both parses succeed and their alternatives are concatenated, or the first failure is thrown. */
  function Both(x: Parsed, y: Parsed): Parsed
  {
    var xs :- x;
    var ys :- y;
    Ok(xs + ys)
  }

  /** The `"Array of "` rule's result, given the text's second `" of "` piece. */
  lemma ArrayOfPiece(known: set<string>, ns: string, text: string, piece: string)
    requires Contains(text, "Array of ")
    requires |Split(text, " of ")| >= 2 && Split(text, " of ")[1] == piece
    ensures var inner := ParsedType(known, ns, piece);
            ParsedType(known, ns, text) == if inner.Ok? then Ok(WithCollection(inner.value, true)) else inner
  {
  }

  /** A text with a divider and no `"Array of "` is split into its pieces. */
  lemma UnionApplies(known: set<string>, ns: string, text: string)
    requires !Contains(text, "Array of ")
    requires Contains(text, " or ") || Contains(text, " and ")
    ensures forall p :: p in Split(text, Divider(text)) ==> |p| < |text|
    ensures ParsedType(known, ns, text) == ParsedPieces(known, ns, Split(text, Divider(text)), |text|)
  {
    UnionPieces(text, Divider(text));
  }

  /** Two pieces are parsed in order and merged. */
  lemma TwoPieces(known: set<string>, ns: string, a: string, b: string, bound: nat)
    requires |a| < bound && |b| < bound
    ensures ParsedPieces(known, ns, [a, b], bound) == Both(ParsedType(known, ns, a), ParsedType(known, ns, b))
  {
    assert [a, b][0] == a && [a, b][1..] == [b];
    assert [b][0] == b && [b][1..] == [];
    var pb := ParsedType(known, ns, b);
    var last := ParsedPieces(known, ns, [b], bound);
    assert ParsedPieces(known, ns, [], bound) == Ok([]);
    if pb.Ok? {
      assert last == Ok(pb.value + []);
      assert pb.value + [] == pb.value;
    } else {
      assert last == pb;
    }
  }

  /** A word, one divider and a divider-free rest split into exactly those two pieces. */
  lemma SplitAtDivider(a: string, b: string, divider: string)
    requires |divider| > 0 && divider[0] !in a && !Contains(b, divider)
    ensures Split(a + divider + b, divider) == [a, b]
  {
    SplitAlone(b, divider);
    SplitAtSeparator(divider, b);
    var right := Split(divider + b, divider);
    assert right == ["", b];
    SplitLead(a, divider + b, divider);
    assert a + divider + b == a + (divider + b);
    assert a + right[0] == a;
    assert right[1..] == [b];
  }

  /** The divider occurs right after the word. */
  lemma DividerOccurs(a: string, b: string, divider: string)
    ensures Contains(a + divider + b, divider)
  {
    var text := a + divider + b;
    assert text[|a|..|a| + |divider|] == divider;
    OccursAt(text, divider, |a|);
  }

  /**
   * `"A or B"` and `"A and B"` parse as `A`'s alternatives followed by `B`'s, and the first
   * failing piece's error is the result; `" or "` is the divider whenever it occurs.
   */
  lemma UnionRule(known: set<string>, ns: string, a: string, b: string, divider: string)
    requires divider == " or " || divider == " and "
    requires ' ' !in a && !Contains(b, divider)
    requires !Contains(a + divider + b, "Array of ")
    requires divider == " and " ==> !Contains(a + divider + b, " or ")
    ensures ParsedType(known, ns, a + divider + b) == Both(ParsedType(known, ns, a), ParsedType(known, ns, b))
  {
    var text := a + divider + b;
    DividerOccurs(a, b, divider);
    SplitAtDivider(a, b, divider);
    assert Divider(text) == divider;
    UnionApplies(known, ns, text);
    assert a in [a, b] && b in [a, b];
    TwoPieces(known, ns, a, b, |text|);
  }

  /**
   * `"Integer or String"` (`a` is `"Integer"`, `b` is `"String"`) is split by the union rule into
   * an int and a string; its own literal line, which would give a string alone, is never reached.
   */
  lemma IntegerOrString(known: set<string>, ns: string, a: string, b: string)
    requires a == "Integer" && b == "String"
    ensures ParsedType(known, ns, a + " or " + b) == Ok([TypeEntry("int", false), TypeEntry("string", false)])
  {
    assert ' ' !in a && ' ' !in b;
    assert 'y' !in a + " or " + b;
    MissingChar(a + " or " + b, "Array of ", 'y');
    MissingChar(b, " or ", ' ');
    UnionRule(known, ns, a, b, " or ");
    IntegerLiterals(known, ns, a);
    StringLiteral(known, ns, b);
    assert [TypeEntry("int", false)] + [TypeEntry("string", false)] == [TypeEntry("int", false), TypeEntry("string", false)];
  }

  /** `"Array of B"` splits on `" of "` into `"Array"` and `B`. */
  lemma ArrayOfSplit(b: string)
    requires ' ' !in b
    ensures Split("Array of " + b, " of ") == ["Array", b]
  {
    MissingChar(b, " of ", ' ');
    SplitAlone(b, " of ");
    SplitAtSeparator(" of ", b);
    assert "Array of " + b == "Array" + (" of " + b);
    SplitLead("Array", " of " + b, " of ");
    assert "Array" + "" == "Array";
  }

  /** `" Array of B"` splits on `" of "` into `" Array"` and `B`. */
  lemma SpaceArrayOfSplit(b: string)
    requires ' ' !in b
    ensures Split(" Array of " + b, " of ") == [" Array", b]
  {
    var tail := "Array of " + b;
    ArrayOfSplit(b);
    var mid := [' '] + tail;
    assert !IsPrefix(" of ", mid) by { assert mid[1] == 'A'; }
    SplitCons(' ', tail, " of ");
    assert [' '] + "Array" == " Array";
    assert mid == " Array of " + b;
  }

  /** `"or Array of B"` splits on `" of "` into `"or Array"` and `B`. */
  lemma OrWordArrayOfSplit(b: string)
    requires ' ' !in b
    ensures Split("or Array of " + b, " of ") == ["or Array", b]
  {
    var mid := " Array of " + b;
    SpaceArrayOfSplit(b);
    SplitLead("or", mid, " of ");
    assert "or" + " Array" == "or Array";
    assert "or" + mid == "or Array of " + b;
  }

  /** `" or Array of B"` splits on `" of "` into `" or Array"` and `B`. */
  lemma OrArrayOfSplit(b: string)
    requires ' ' !in b
    ensures Split(" or Array of " + b, " of ") == [" or Array", b]
  {
    var tail := "or Array of " + b;
    OrWordArrayOfSplit(b);
    var rest := [' '] + tail;
    assert !IsPrefix(" of ", rest) by { assert rest[2] == 'r'; }
    SplitCons(' ', tail, " of ");
    assert [' '] + "or Array" == " or Array";
    assert rest == " or Array of " + b;
  }

  /** `"A or Array of B"` splits on `" of "` into `"A or Array"` and `B`, and holds `"Array of "`. */
  lemma OrArrayOfPieces(a: string, b: string)
    requires ' ' !in a && ' ' !in b
    ensures Contains(a + " or Array of " + b, "Array of ")
    ensures Split(a + " or Array of " + b, " of ") == [a + " or Array", b]
  {
    var text := a + " or Array of " + b;
    var rest := " or Array of " + b;
    OrArrayOfSplit(b);
    assert text == a + rest;
    SplitLead(a, rest, " of ");
    assert text[|a| + 4..|a| + 13] == "Array of ";
    OccursAt(text, "Array of ", |a| + 4);
  }

  /** In `"A or Array of B"` the `"Array of "` rule fires first: `A` is dropped and `B`'s alternatives become collections. */
  lemma ArrayOfBeatsUnion(known: set<string>, ns: string, a: string, b: string)
    requires ' ' !in a && ' ' !in b
    ensures var pb := ParsedType(known, ns, b);
            ParsedType(known, ns, a + " or Array of " + b) == if pb.Ok? then Ok(WithCollection(pb.value, true)) else pb
  {
    OrArrayOfPieces(a, b);
    ArrayOfPiece(known, ns, a + " or Array of " + b, b);
  }

  /**
   * Registering more types never changes a parse that succeeded: the known-type set only
   * decides whether the last rule throws.
   */
  lemma {:induction false} ParseMonotone(known: set<string>, more: set<string>, ns: string, text: string)
    requires known <= more
    requires ParsedType(known, ns, text).Ok?
    ensures ParsedType(more, ns, text) == ParsedType(known, ns, text)
    decreases |text|, 1, 0
  {
    if Contains(text, "Array of ") {
      ArrayOfPieces(text);
      ParseMonotone(known, more, ns, Split(text, " of ")[1]);
    } else if Contains(text, " or ") || Contains(text, " and ") {
      UnionPieces(text, Divider(text));
      PiecesMonotone(known, more, ns, Split(text, Divider(text)), |text|);
    } else {
      NamedMonotone(known, more, ns, text);
    }
  }

  /** The union loop over more registered types gives the same merged list. */
  lemma {:induction false} PiecesMonotone(known: set<string>, more: set<string>, ns: string, pieces: seq<string>, bound: nat)
    requires known <= more
    requires forall p :: p in pieces ==> |p| < bound
    requires ParsedPieces(known, ns, pieces, bound).Ok?
    ensures ParsedPieces(more, ns, pieces, bound) == ParsedPieces(known, ns, pieces, bound)
    decreases bound, 0, |pieces|
  {
    if |pieces| > 0 {
      assert pieces[0] in pieces;
      ParseMonotone(known, more, ns, pieces[0]);
      PiecesMonotone(known, more, ns, pieces[1..], bound);
    }
  }

  /** The single-name rules over more registered types give the same answer. */
  lemma NamedMonotone(known: set<string>, more: set<string>, ns: string, text: string)
    requires known <= more
    requires NamedType(known, ns, text).Ok?
    ensures NamedType(more, ns, text) == NamedType(known, ns, text)
  {
  }
}
