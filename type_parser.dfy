/**
 * The documentation-cell rules of the schema generator (src/Command/GenerateSchemaCommand.php):
 * the type grammar of `parseType`, the known-type test `isObject`, the class-name
 * builder `getClassName`, the required-ness rules for fields and parameters and the
 * base-class choice of `getParent`.
 *
 * The set of known type names (the keys of `$this->schema['types']` at parsing time)
 * and the namespace constant `GenerateClientCommand::BASE_NAMESPACE_TYPES` are
 * parameters: `known` and `ns`.
 */
module TypeParser {
  import opened Results
  import opened Errors
  import opened Strings

  /** One alternative of a parsed type: a PHP type or class name, and whether it is an array of it. */
  datatype TypeEntry = TypeEntry(name: string, isCollection: bool)

  type Parsed = Result<seq<TypeEntry>, Error>

  /** `TRANSFORMS`: names that stand for a fixed list of concrete types, in table order. */
  const Transforms: map<string, seq<string>> := map[
    "PassportElementError" := PassportElementErrorTypes,
    "InputMedia" := InputMediaTypes
  ]

  /** The types `PassportElementError` stands for. */
  const PassportElementErrorTypes: seq<string> := [
    "PassportElementErrorDataField",
    "PassportElementErrorFrontSide",
    "PassportElementErrorReverseSide",
    "PassportElementErrorSelfie",
    "PassportElementErrorFile",
    "PassportElementErrorFiles",
    "PassportElementErrorTranslationFile",
    "PassportElementErrorTranslationFiles",
    "PassportElementErrorUnspecified"
  ]

  /** The types `InputMedia` stands for. */
  const InputMediaTypes: seq<string> := [
    "InputMediaAnimation",
    "InputMediaDocument",
    "InputMediaAudio",
    "InputMediaPhoto",
    "InputMediaVideo"
  ]

  /** The primitive type names `parseType` can produce. */
  const Primitives: set<string> := {"float", "int", "bool", "array", "string"}

  /** The abstract classes named by the three special markers. */
  const SpecialClasses: set<string> := {"InputFileInterface", "AbstractInlineQueryResult", "AbstractInputMessageContent"}

  /** The namespace part `getClassName` puts in front of a class name. */
  function NamespacePrefix(ns: string): string
  {
    "\\" + ns + "\\"
  }

  /** `getClassName`. */
  function ClassName(ns: string, className: string): (r: string)
    ensures IsPrefix(NamespacePrefix(ns), r) && r[|NamespacePrefix(ns)|..] == className
  {
    NamespacePrefix(ns) + className
  }

  /** `isObject`: true for a registered type name; it never answers false, it throws instead. */
  function IsObject(known: set<string>, text: string): (r: Result<bool, Error>)
    ensures r.Ok? ==> r.value
    ensures r.Ok? <==> text in known
    ensures r.Err? ==> r.error == UndefinedType(text)
  {
    if text in known then Ok(true) else Err(UndefinedType(text))
  }

  /** A class name a parsed type may refer to: a known type, a special marker's class or a transform member. */
  predicate AllowedClass(known: set<string>, c: string)
  {
    c in known || c in SpecialClasses
    || c in PassportElementErrorTypes || c in InputMediaTypes
  }

  /** `name` is a primitive or the class name of an allowed class: nothing unresolved is ever produced. */
  predicate Resolves(known: set<string>, ns: string, name: string)
  {
    name in Primitives
    || (IsPrefix(NamespacePrefix(ns), name) && AllowedClass(known, name[|NamespacePrefix(ns)|..]))
  }

  /** The same alternatives with every collection flag set to `flag`. */
  function WithCollection(types: seq<TypeEntry>, flag: bool): (r: seq<TypeEntry>)
    ensures |r| == |types|
    ensures forall i :: 0 <= i < |r| ==> r[i].name == types[i].name && r[i].isCollection == flag
  {
    seq(|types|, i requires 0 <= i < |types| => TypeEntry(types[i].name, flag))
  }

  /** The `"Array of "` rule keeps the second `' of '`-separated piece, which is shorter than the text. */
  lemma ArrayOfPieces(text: string)
    requires Contains(text, "Array of ")
    ensures |Split(text, " of ")| >= 2
    ensures forall p :: p in Split(text, " of ") ==> |p| < |text|
  {
    ContainsPiece(text, "Array of ", 5, " of ");
    SplitMany(text, " of ");
    SplitShorter(text, " of ");
  }

  /** The union rule's pieces are each shorter than the text. */
  lemma UnionPieces(text: string, divider: string)
    requires |divider| > 0 && Contains(text, divider)
    ensures forall p :: p in Split(text, divider) ==> |p| < |text|
  {
    SplitMany(text, divider);
    SplitShorter(text, divider);
  }

  /** The divider the union rule splits on: `" or "` when present, otherwise `" and "`. */
  function Divider(text: string): string
  {
    if Contains(text, " or ") then " or " else " and "
  }

  /**
   * `parseType`: the type grammar, rule by rule in the source's order. A success is a
   * non-empty list; the only failure is an undefined type name, because `isObject`
   * throws before the `"Unexpected type"` line can be reached.
   */
  function ParsedType(known: set<string>, ns: string, text: string): (r: Parsed)
    ensures r.Ok? ==> |r.value| > 0
    ensures r.Err? ==> r.error.UndefinedType?
    decreases |text|, 1, 0
  {
    if Contains(text, "Array of ") then
      ArrayOfPieces(text);
      var types :- ParsedType(known, ns, Split(text, " of ")[1]);
      Ok(WithCollection(types, true))
    else if Contains(text, " or ") || Contains(text, " and ") then
      UnionPieces(text, Divider(text));
      ParsedPieces(known, ns, Split(text, Divider(text)), |text|)
    else NamedType(known, ns, text)
  }

  /**
   * The rules for a single name, after the two splitting rules: the literal table, the three
   * markers, `TRANSFORMS`, and last the registered types, where an unknown name is undefined.
   */
  function NamedType(known: set<string>, ns: string, text: string): (r: Parsed)
    ensures r.Ok? ==> |r.value| > 0
    ensures r.Err? ==> r.error == UndefinedType(text)
  {
    if text == "Float" || text == "Float number" then Ok([TypeEntry("float", false)])
    else if text == "Integer" || text == "Int" then Ok([TypeEntry("int", false)])
    else if text == "True" || text == "Boolean" then Ok([TypeEntry("bool", false)])
    else if text == "CallbackGame" || text == "Array" then Ok([TypeEntry("array", false)])
    else if text == "String" || text == "Integer or String" then Ok([TypeEntry("string", false)])
    else if text == "Array of String" then Ok([TypeEntry("string", true)])
    else if text == "InputFile" then Ok([TypeEntry(ClassName(ns, "InputFileInterface"), false)])
    else if text == "InlineQueryResult" then Ok([TypeEntry(ClassName(ns, "AbstractInlineQueryResult"), false)])
    else if text == "InputMessageContent" then Ok([TypeEntry(ClassName(ns, "AbstractInputMessageContent"), false)])
    else if text == "PassportElementError" || text == "InputMedia" then Ok(TransformEntries(known, ns, text))
    else
      var isObject :- IsObject(known, text);
      if isObject then Ok([TypeEntry(ClassName(ns, text), false)]) else Err(UnexpectedType(text))
  }

  /** The alternatives of a `TRANSFORMS` expansion, in table order, none a collection. */
  function TransformEntries(known: set<string>, ns: string, text: string): (r: seq<TypeEntry>)
    requires text in Transforms
    ensures |r| == |Transforms[text]| > 0
    ensures forall i :: 0 <= i < |r| ==> r[i] == TypeEntry(ClassName(ns, Transforms[text][i]), false)
  {
    var names := Transforms[text];
    seq(|names|, i requires 0 <= i < |names| => TypeEntry(ClassName(ns, names[i]), false))
  }

  /** The union rule's loop: each piece parsed in turn, the results concatenated, the first failure thrown. */
  function ParsedPieces(known: set<string>, ns: string, pieces: seq<string>, bound: nat): (r: Parsed)
    requires forall p :: p in pieces ==> |p| < bound
    ensures r.Ok? && |pieces| > 0 ==> |r.value| > 0
    ensures r.Err? ==> r.error.UndefinedType?
    decreases bound, 0, |pieces|
  {
    if |pieces| == 0 then Ok([])
    else
      var first :- ParsedType(known, ns, pieces[0]);
      var rest :- ParsedPieces(known, ns, pieces[1..], bound);
      Ok(first + rest)
  }

  /** `xs` put in front of a successful result; a failure passes through. */
  function Prepended(xs: seq<TypeEntry>, r: Parsed): Parsed
  {
    if r.Ok? then Ok(xs + r.value) else r
  }

  /**
   * `parseType` as the PHP code runs it: recursion, a by-reference loop that sets every
   * collection flag, and a loop that collects the union pieces' results before merging them.
   */
  method ParseType(known: set<string>, ns: string, text: string) returns (r: Parsed)
    ensures r == ParsedType(known, ns, text)
    decreases |text|, 3
  {
    if Contains(text, "Array of ") {
      r := ParseArrayOf(known, ns, text);
    } else if Contains(text, " or ") || Contains(text, " and ") {
      r := ParseUnion(known, ns, text);
    } else {
      r := NamedType(known, ns, text);
    }
  }

  /** The `"Array of "` rule: parse the second piece, then set each flag through a by-reference loop. */
  method ParseArrayOf(known: set<string>, ns: string, text: string) returns (r: Parsed)
    requires Contains(text, "Array of ")
    ensures r == ParsedType(known, ns, text)
    decreases |text|, 1
  {
    ArrayOfPieces(text);
    var inner := ParseType(known, ns, Split(text, " of ")[1]);
    if inner.Err? {
      return inner;
    }
    var types := inner.value;
    var i := 0;
    while i < |types|
      invariant 0 <= i <= |types| == |inner.value|
      invariant forall j :: 0 <= j < i ==> types[j] == TypeEntry(inner.value[j].name, true)
      invariant forall j :: i <= j < |types| ==> types[j] == inner.value[j]
    {
      types := types[i := types[i].(isCollection := true)];
      i := i + 1;
    }
    assert types == WithCollection(inner.value, true);
    return Ok(types);
  }

  /** The union rule: split on the divider and parse the pieces. */
  method ParseUnion(known: set<string>, ns: string, text: string) returns (r: Parsed)
    requires !Contains(text, "Array of ")
    requires Contains(text, " or ") || Contains(text, " and ")
    ensures r == ParsedType(known, ns, text)
    decreases |text|, 2
  {
    var divider := if Contains(text, " or ") then " or " else " and ";
    var pieces := Split(text, divider);
    UnionPieces(text, divider);
    r := ParsePieces(known, ns, pieces, |text|);
  }

  /** The loop over the union's pieces: collect each piece's list, then merge them all. */
  method ParsePieces(known: set<string>, ns: string, pieces: seq<string>, ghost bound: nat) returns (r: Parsed)
    requires forall p :: p in pieces ==> |p| < bound
    ensures r == ParsedPieces(known, ns, pieces, bound)
    decreases bound, 1
  {
    var lists: seq<seq<TypeEntry>> := [];
    var i := 0;
    assert pieces[i..] == pieces;
    ghost var all := ParsedPieces(known, ns, pieces, bound);
    assert all.Ok? ==> [] + all.value == all.value;
    while i < |pieces|
      invariant 0 <= i <= |pieces|
      invariant forall p :: p in pieces[i..] ==> |p| < bound
      invariant all == Prepended(Flatten(lists), ParsedPieces(known, ns, pieces[i..], bound))
    {
      var next := ParseNextPiece(known, ns, pieces, i, bound, lists);
      if next.Err? {
        return Err(next.error);
      }
      lists := next.value;
      i := i + 1;
    }
    assert pieces[i..] == [];
    assert Flatten(lists) + [] == Flatten(lists);
    return Ok(Flatten(lists));
  }

  /** The body of the union loop: parse the piece at `i` and add its list to those collected so far. */
  method ParseNextPiece(known: set<string>, ns: string, pieces: seq<string>, i: nat, ghost bound: nat,
                        lists: seq<seq<TypeEntry>>) returns (r: Result<seq<seq<TypeEntry>>, Error>)
    requires i < |pieces| && forall p :: p in pieces ==> |p| < bound
    ensures forall p :: p in pieces[i..] ==> |p| < bound
    ensures forall p :: p in pieces[i + 1..] ==> |p| < bound
    ensures r.Err? ==> Prepended(Flatten(lists), ParsedPieces(known, ns, pieces[i..], bound)) == Err(r.error)
    ensures r.Ok? ==>
              Prepended(Flatten(lists), ParsedPieces(known, ns, pieces[i..], bound))
              == Prepended(Flatten(r.value), ParsedPieces(known, ns, pieces[i + 1..], bound))
    decreases bound, 0
  {
    PiecesStep(known, ns, pieces, i, bound);
    assert pieces[i] in pieces;
    var piece := ParseType(known, ns, pieces[i]);
    if piece.Err? {
      return Err(piece.error);
    }
    PiecesAdvance(known, ns, pieces, i, bound, lists, piece.value);
    return Ok(lists + [piece.value]);
  }

  /** One step of the union loop: the piece at `i` is parsed before the rest. */
  lemma PiecesStep(known: set<string>, ns: string, pieces: seq<string>, i: nat, bound: nat)
    requires i < |pieces| && forall p :: p in pieces ==> |p| < bound
    ensures forall p :: p in pieces[i..] ==> |p| < bound
    ensures forall p :: p in pieces[i + 1..] ==> |p| < bound
    ensures ParsedType(known, ns, pieces[i]).Err? ==>
              ParsedPieces(known, ns, pieces[i..], bound) == ParsedType(known, ns, pieces[i])
    ensures ParsedType(known, ns, pieces[i]).Ok? ==>
              ParsedPieces(known, ns, pieces[i..], bound)
              == Prepended(ParsedType(known, ns, pieces[i]).value, ParsedPieces(known, ns, pieces[i + 1..], bound))
  {
    assert forall p :: p in pieces[i..] ==> p in pieces;
    assert pieces[i..][0] == pieces[i];
    assert pieces[i..][1..] == pieces[i + 1..];
  }

  /** The union loop's invariant carried over one successfully parsed piece. */
  lemma PiecesAdvance(known: set<string>, ns: string, pieces: seq<string>, i: nat, bound: nat,
                      lists: seq<seq<TypeEntry>>, value: seq<TypeEntry>)
    requires i < |pieces| && forall p :: p in pieces ==> |p| < bound
    requires ParsedType(known, ns, pieces[i]) == Ok(value)
    ensures forall p :: p in pieces[i..] ==> |p| < bound
    ensures forall p :: p in pieces[i + 1..] ==> |p| < bound
    ensures Prepended(Flatten(lists), ParsedPieces(known, ns, pieces[i..], bound))
            == Prepended(Flatten(lists + [value]), ParsedPieces(known, ns, pieces[i + 1..], bound))
  {
    PiecesStep(known, ns, pieces, i, bound);
    FlattenSnoc(lists, value);
    PrependedTwice(Flatten(lists), value, ParsedPieces(known, ns, pieces[i + 1..], bound));
  }

  lemma PrependedTwice(xs: seq<TypeEntry>, ys: seq<TypeEntry>, r: Parsed)
    ensures Prepended(xs, Prepended(ys, r)) == Prepended(xs + ys, r)
  {
    if r.Ok? {
      assert xs + (ys + r.value) == (xs + ys) + r.value;
    }
  }

}
