/**
 * The second half of `execute` (src/Command/GenerateSchemaCommand.php): each registered
 * type's fields get their parsed types and their final `required` flag, and the type gets
 * its parent; then each method table becomes a method with its parameters, its description
 * and its return type. The known type names are the keys of the registered types.
 */
module Schema {
  import opened Results
  import opened Errors
  import opened Strings
  import opened OrderedMaps
  import opened TypeParser
  import opened SchemaRules
  import opened ReturnTypes
  import opened Segmenter
  import opened Folds

  datatype Field = Field(name: string, types: seq<TypeEntry>, description: string, required: bool)

  datatype TypeSchema = TypeSchema(name: string, link: string, fields: seq<Field>, descriptions: seq<string>, parent: string)

  datatype Parameter = Parameter(name: string, types: seq<TypeEntry>, required: bool, description: string)

  datatype MethodSchema = MethodSchema(name: string, parameters: seq<Parameter>, returnTypes: seq<TypeEntry>, description: string)

  /** The generated document: the types under their names, and the methods in table order. */
  datatype SchemaDoc = SchemaDoc(types: OrderedMap<TypeSchema>, methods: seq<MethodSchema>)

  /**
   * The regular-expression matching of a method description against the return-type
   * templates; it is a parameter of the model, giving one optional match per template.
   */
  type Matcher = m: string -> Matches | forall description :: |m(description)| == |Templates|
    witness NoMatch

  /** A description that no template matches. */
  function NoMatch(description: string): Matches
  {
    seq(|Templates|, i => None)
  }

  /** The type names `isObject` accepts: the keys of the registered types. */
  function KnownTypes<V>(types: OrderedMap<V>): set<string>
  {
    set k | k in Keys(types)
  }

  /** `isset($this->schema['types'][$text])`: a name is known exactly when the keyed read finds it. */
  lemma KnownTypesAreIsset<V>(types: OrderedMap<V>, text: string)
    ensures text in KnownTypes(types) <==> Get(types, text).Some?
  {
  }

  // ---------------------------------------------------------------- types

  /** A field with its type parsed and its `required` flag recomputed from the description alone. */
  function ResolvedField(known: set<string>, ns: string, f: RawField): Result<Field, Error>
  {
    var types :- ParsedType(known, ns, f.roughType);
    Ok(Field(f.name, types, f.description, FieldRequired(f.description)))
  }

  function FieldStep(known: set<string>, ns: string): RawField -> Result<Field, Error>
  {
    f => ResolvedField(known, ns, f)
  }

  /** A type's fields resolved in order; the first parse failure is the failure. */
  function ResolvedFields(known: set<string>, ns: string, fields: seq<RawField>): Result<seq<Field>, Error>
  {
    MapUpTo(FieldStep(known, ns), fields, 0, |fields|)
  }

  /** A registered type with its fields resolved, then its parent. */
  function ResolvedType(known: set<string>, ns: string, t: RawType): Result<TypeSchema, Error>
  {
    var fields :- ResolvedFields(known, ns, t.fields);
    var parent :- GetParent(ns, t.name);
    Ok(TypeSchema(t.name, t.link, fields, t.descriptions, parent))
  }

  function TypeStep(known: set<string>, ns: string): ((string, RawType)) -> Result<(string, TypeSchema), Error>
  {
    (e: (string, RawType)) => var t :- ResolvedType(known, ns, e.1); Ok((e.0, t))
  }

  /** The registered types resolved in order, each under its key. */
  function ResolvedTypes(known: set<string>, ns: string, types: OrderedMap<RawType>): Result<OrderedMap<TypeSchema>, Error>
  {
    MapUpTo(TypeStep(known, ns), types, 0, |types|)
  }

  // ---------------------------------------------------------------- methods

  /**
   * One parameter row: the type cell is parsed first, then the description cell read and the
   * required-ness decided, the marker cell consulted only when the description does not say
   * "Required"; a missing cell cannot be read.
   */
  function ParameterOf(known: set<string>, ns: string, row: seq<string>): Result<Parameter, Error>
  {
    if |row| < 2 then Err(EmptyNodeList)
    else
      var types :- ParsedType(known, ns, row[1]);
      if |row| < 4 then Err(EmptyNodeList)
      else
        var required :- ParameterRequired(row[3], row[2]);
        Ok(Parameter(row[0], types, required, row[3]))
  }

  function ParameterStep(known: set<string>, ns: string): seq<string> -> Result<Parameter, Error>
  {
    row => ParameterOf(known, ns, row)
  }

  /** A method's parameters: every row after the first, in order. */
  function Parameters(known: set<string>, ns: string, rows: seq<seq<string>>): Result<seq<Parameter>, Error>
  {
    MapUpTo(ParameterStep(known, ns), rows, 1, |rows|)
  }

  /** A method: its parameters, its descriptions joined by newlines, and the return type read from that text. */
  function MethodOf(known: set<string>, ns: string, matcher: Matcher, name: string, node: MethodNode): Result<MethodSchema, Error>
  {
    var parameters :- Parameters(known, ns, node.rows);
    var description := Join(node.descriptions, "\n");
    var returnTypes :- ReturnTypeOf(known, ns, matcher(description));
    Ok(MethodSchema(name, parameters, returnTypes, description))
  }

  function MethodStep(known: set<string>, ns: string, matcher: Matcher): ((string, MethodNode)) -> Result<MethodSchema, Error>
  {
    (e: (string, MethodNode)) => MethodOf(known, ns, matcher, e.0, e.1)
  }

  /** The method tables turned into methods, in registration order. */
  function Methods(known: set<string>, ns: string, matcher: Matcher, nodes: OrderedMap<MethodNode>): Result<seq<MethodSchema>, Error>
  {
    MapUpTo(MethodStep(known, ns, matcher), nodes, 0, |nodes|)
  }

  /** All of `execute` after the documentation is read: registration, then types, then methods. */
  function Generated(ns: string, tables: seq<Table>, matcher: Matcher): Result<SchemaDoc, Error>
  {
    var segments :- Segmented(tables);
    var known := KnownTypes(segments.types);
    var types :- ResolvedTypes(known, ns, segments.types);
    var methods :- Methods(known, ns, matcher, segments.methods);
    Ok(SchemaDoc(types, methods))
  }

  // ---------------------------------------------------------------- the command

  class GenerateSchemaCommand {
    var schema: SchemaDoc

    constructor()
      ensures schema == SchemaDoc([], [])
    {
      schema := SchemaDoc([], []);
    }

    /** `execute` on the given documentation tables: on success the schema is the generated document. */
    method Execute(ns: string, tables: seq<Table>, matcher: Matcher) returns (r: Result<SchemaDoc, Error>)
      modifies this
      ensures r == Generated(ns, tables, matcher)
      ensures r.Ok? ==> schema == r.value
    {
      schema := SchemaDoc([], []);
      var segments := SegmentTables(tables);
      if segments.Err? {
        return Err(segments.error);
      }
      var known := KnownTypes(segments.value.types);
      var types := ResolveTypes(known, ns, segments.value.types);
      if types.Err? {
        return Err(types.error);
      }
      schema := schema.(types := types.value);
      var methods := BuildMethods(known, ns, matcher, segments.value.methods);
      if methods.Err? {
        return Err(methods.error);
      }
      schema := schema.(methods := methods.value);
      return Ok(schema);
    }
  }

  /** The loop over the registered types, rewriting each in place. */
  method ResolveTypes(known: set<string>, ns: string, types: OrderedMap<RawType>) returns (r: Result<OrderedMap<TypeSchema>, Error>)
    ensures r == ResolvedTypes(known, ns, types)
  {
    var resolved: OrderedMap<TypeSchema> := [];
    var i := 0;
    while i < |types|
      invariant 0 <= i <= |types|
      invariant MapUpTo(TypeStep(known, ns), types, 0, i) == Ok(resolved)
    {
      var t := ResolveType(known, ns, types[i].1);
      if t.Err? {
        MapFails(TypeStep(known, ns), types, 0, i, resolved);
        MapFailureSticks(TypeStep(known, ns), types, 0, i + 1, |types|);
        return Err(t.error);
      }
      MapStep(TypeStep(known, ns), types, 0, i, resolved, (types[i].0, t.value));
      resolved := resolved + [(types[i].0, t.value)];
      i := i + 1;
    }
    return Ok(resolved);
  }

  /** One type: its fields, then its parent. */
  method ResolveType(known: set<string>, ns: string, t: RawType) returns (r: Result<TypeSchema, Error>)
    ensures r == ResolvedType(known, ns, t)
  {
    var fields := ResolveFields(known, ns, t.fields);
    if fields.Err? {
      return Err(fields.error);
    }
    var parent := GetParent(ns, t.name);
    if parent.Err? {
      return Err(parent.error);
    }
    return Ok(TypeSchema(t.name, t.link, fields.value, t.descriptions, parent.value));
  }

  /** The loop over one type's fields: parse the type, recompute `required`. */
  method ResolveFields(known: set<string>, ns: string, fields: seq<RawField>) returns (r: Result<seq<Field>, Error>)
    ensures r == ResolvedFields(known, ns, fields)
  {
    var out: seq<Field> := [];
    var i := 0;
    while i < |fields|
      invariant 0 <= i <= |fields|
      invariant MapUpTo(FieldStep(known, ns), fields, 0, i) == Ok(out)
    {
      var field := ResolveField(known, ns, fields[i]);
      if field.Err? {
        MapFails(FieldStep(known, ns), fields, 0, i, out);
        MapFailureSticks(FieldStep(known, ns), fields, 0, i + 1, |fields|);
        return Err(field.error);
      }
      MapStep(FieldStep(known, ns), fields, 0, i, out, field.value);
      out := out + [field.value];
      i := i + 1;
    }
    return Ok(out);
  }

  /** One field: its type parsed, its `required` flag recomputed. */
  method ResolveField(known: set<string>, ns: string, f: RawField) returns (r: Result<Field, Error>)
    ensures r == ResolvedField(known, ns, f)
  {
    var types := ParseType(known, ns, f.roughType);
    if types.Err? {
      return Err(types.error);
    }
    var required := RequiredFlag(f.description);
    return Ok(Field(f.name, types.value, f.description, required));
  }

  /**
   * `stripos('Required', $description) !== false`: scans the word "Required" for a place where
   * the description starts, ignoring case.
   */
  method RequiredFlag(description: string) returns (found: bool)
    ensures found == FieldRequired(description)
  {
    var haystack := Lower(RequiredWord);
    var needle := Lower(description);
    var at := |haystack|;
    found := IsPrefix(needle, haystack[at..]);
    while at > 0
      invariant 0 <= at <= |haystack|
      invariant found == Contains(haystack[at..], needle)
    {
      at := at - 1;
      assert haystack[at..][1..] == haystack[at + 1..];
      found := found || IsPrefix(needle, haystack[at..]);
    }
    assert haystack[0..] == haystack;
  }

  /** The loop over the method tables, in registration order. */
  method BuildMethods(known: set<string>, ns: string, matcher: Matcher, nodes: OrderedMap<MethodNode>) returns (r: Result<seq<MethodSchema>, Error>)
    ensures r == Methods(known, ns, matcher, nodes)
  {
    var methods: seq<MethodSchema> := [];
    var i := 0;
    while i < |nodes|
      invariant 0 <= i <= |nodes|
      invariant MapUpTo(MethodStep(known, ns, matcher), nodes, 0, i) == Ok(methods)
    {
      var m := BuildMethod(known, ns, matcher, nodes[i].0, nodes[i].1);
      assert MethodStep(known, ns, matcher)(nodes[i]) == m;
      if m.Err? {
        MapFails(MethodStep(known, ns, matcher), nodes, 0, i, methods);
        MapFailureSticks(MethodStep(known, ns, matcher), nodes, 0, i + 1, |nodes|);
        return Err(m.error);
      }
      MapStep(MethodStep(known, ns, matcher), nodes, 0, i, methods, m.value);
      methods := methods + [m.value];
      i := i + 1;
    }
    return Ok(methods);
  }

  /** One method: its parameters, its joined description, its return type. */
  method BuildMethod(known: set<string>, ns: string, matcher: Matcher, name: string, node: MethodNode) returns (r: Result<MethodSchema, Error>)
    ensures r == MethodOf(known, ns, matcher, name, node)
  {
    var parameters := CollectParameters(known, ns, node.rows);
    if parameters.Err? {
      return Err(parameters.error);
    }
    var description := Join(node.descriptions, "\n");
    var returnTypes := GetReturnType(known, ns, matcher(description));
    if returnTypes.Err? {
      return Err(returnTypes.error);
    }
    return Ok(MethodSchema(name, parameters.value, returnTypes.value, description));
  }

  /** The row loop for a method's table: the first row is skipped, every other row becomes a parameter. */
  method CollectParameters(known: set<string>, ns: string, rows: seq<seq<string>>) returns (r: Result<seq<Parameter>, Error>)
    ensures r == Parameters(known, ns, rows)
  {
    var parameters: seq<Parameter> := [];
    var rowNumber := 0;
    while rowNumber < |rows|
      invariant 0 <= rowNumber <= |rows|
      invariant MapUpTo(ParameterStep(known, ns), rows, 1, rowNumber) == Ok(parameters)
    {
      if rowNumber == 0 {
        MapSkip(ParameterStep(known, ns), rows, 1, rowNumber);
      } else {
        var p := BuildParameter(known, ns, rows[rowNumber]);
        if p.Err? {
          MapFails(ParameterStep(known, ns), rows, 1, rowNumber, parameters);
          MapFailureSticks(ParameterStep(known, ns), rows, 1, rowNumber + 1, |rows|);
          return Err(p.error);
        }
        MapStep(ParameterStep(known, ns), rows, 1, rowNumber, parameters, p.value);
        parameters := parameters + [p.value];
      }
      rowNumber := rowNumber + 1;
    }
    return Ok(parameters);
  }

  /** One parameter row, its cells read in the source's order. */
  method BuildParameter(known: set<string>, ns: string, row: seq<string>) returns (r: Result<Parameter, Error>)
    ensures r == ParameterOf(known, ns, row)
  {
    if |row| < 2 {
      return Err(EmptyNodeList);
    }
    var types := ParseType(known, ns, row[1]);
    if types.Err? {
      return Err(types.error);
    }
    if |row| < 4 {
      return Err(EmptyNodeList);
    }
    var description := row[3];
    var required := Contains(description, "Required");
    if !required {
      var marker := ParseRequired(row[2]);
      if marker.Err? {
        return Err(marker.error);
      }
      required := marker.value;
    }
    return Ok(Parameter(row[0], types.value, required, description));
  }


  // ---------------------------------------------------------------- lemmas

  /**
   * Resolving a type's fields succeeds exactly when every rough type parses. Each field then
   * keeps its name and description, carries the parse of its rough type, and is required
   * exactly when `stripos` finds the description inside "Required"; the flag the row was
   * first given plays no part.
   */
  lemma FieldsResolved(known: set<string>, ns: string, fields: seq<RawField>)
    ensures ResolvedFields(known, ns, fields).Ok? <==>
              forall i :: 0 <= i < |fields| ==> ParsedType(known, ns, fields[i].roughType).Ok?
    ensures ResolvedFields(known, ns, fields).Ok? ==>
              var out := ResolvedFields(known, ns, fields).value;
              |out| == |fields| &&
              forall i :: 0 <= i < |out| ==>
                out[i] == Field(fields[i].name, ParsedType(known, ns, fields[i].roughType).value,
                                fields[i].description, FieldRequired(fields[i].description))
  {
    MapMeaning(FieldStep(known, ns), fields, 0, |fields|);
  }

  /** A field resolution fails only on an undefined type name. */
  lemma FieldFailureUndefined(known: set<string>, ns: string, fields: seq<RawField>)
    ensures ResolvedFields(known, ns, fields).Err? ==> ResolvedFields(known, ns, fields).error.UndefinedType?
  {
    if ResolvedFields(known, ns, fields).Err? {
      FirstFailure(FieldStep(known, ns), fields, 0, |fields|);
    }
  }

  /**
   * Resolution keeps every type under its key, in registration order, with its own resolved
   * fields and the parent `getParent` chooses for its name.
   */
  lemma TypesResolved(known: set<string>, ns: string, types: OrderedMap<RawType>)
    ensures ResolvedTypes(known, ns, types).Ok? ==>
              var out := ResolvedTypes(known, ns, types).value;
              Keys(out) == Keys(types) &&
              forall i :: 0 <= i < |out| ==>
                out[i].1.name == types[i].1.name &&
                out[i].1.descriptions == types[i].1.descriptions &&
                ResolvedFields(known, ns, types[i].1.fields) == Ok(out[i].1.fields) &&
                GetParent(ns, types[i].1.name) == Ok(out[i].1.parent)
  {
    MapMeaning(TypeStep(known, ns), types, 0, |types|);
  }

  /**
   * Every registered type has an upper-case name, so `getParent` always finds a parent and
   * resolving the registered types can fail only on an undefined type name.
   */
  lemma ParentNeverMissing(known: set<string>, ns: string, types: OrderedMap<RawType>)
    requires TypesNamed(types)
    ensures ResolvedTypes(known, ns, types).Err? ==> ResolvedTypes(known, ns, types).error.UndefinedType?
  {
    var r := ResolvedTypes(known, ns, types);
    if r.Err? {
      FirstFailure(TypeStep(known, ns), types, 0, |types|);
      var i :| 0 <= i < |types| && TypeStep(known, ns)(types[i]) == Err(r.error);
      FieldFailureUndefined(known, ns, types[i].1.fields);
    }
  }

  /**
   * The parameters are the rows after the first, each with at least four cells: the name from
   * the first cell, the parse of the second, the description from the fourth, and required
   * exactly as the description and the marker in the third cell decide.
   */
  lemma ParametersMeaning(known: set<string>, ns: string, rows: seq<seq<string>>)
    ensures Parameters(known, ns, rows).Ok? ==>
              var ps := Parameters(known, ns, rows).value;
              |ps| == (if |rows| == 0 then 0 else |rows| - 1) &&
              forall i :: 0 <= i < |ps| ==>
                |rows[i + 1]| >= 4 &&
                ps[i].name == rows[i + 1][0] &&
                ps[i].description == rows[i + 1][3] &&
                ParsedType(known, ns, rows[i + 1][1]) == Ok(ps[i].types) &&
                ParameterRequired(rows[i + 1][3], rows[i + 1][2]) == Ok(ps[i].required)
  {
    MapMeaning(ParameterStep(known, ns), rows, 1, |rows|);
  }

  /** The first row of a method's table is never read. */
  lemma ParametersSkipFirstRow(known: set<string>, ns: string, rows: seq<seq<string>>, first: seq<string>)
    requires |rows| > 0
    ensures Parameters(known, ns, rows) == Parameters(known, ns, rows[0 := first])
  {
    ReadsOnlyVisited(ParameterStep(known, ns), rows, rows[0 := first], 1, |rows|);
  }

  /**
   * One method per method table, in registration order: named by its heading, described by its
   * descriptions joined with newlines, with the non-empty return type read from that text.
   */
  lemma MethodsMeaning(known: set<string>, ns: string, matcher: Matcher, nodes: OrderedMap<MethodNode>)
    ensures Methods(known, ns, matcher, nodes).Ok? ==>
              var ms := Methods(known, ns, matcher, nodes).value;
              |ms| == |nodes| &&
              forall i :: 0 <= i < |ms| ==>
                && ms[i].name == nodes[i].0
                && ms[i].description == Join(nodes[i].1.descriptions, "\n")
                && Parameters(known, ns, nodes[i].1.rows) == Ok(ms[i].parameters)
                && ReturnTypeOf(known, ns, matcher(ms[i].description)) == Ok(ms[i].returnTypes)
                && |ms[i].returnTypes| > 0
  {
    var r := Methods(known, ns, matcher, nodes);
    if r.Ok? {
      var ms := r.value;
      MapMeaning(MethodStep(known, ns, matcher), nodes, 0, |nodes|);
      forall i | 0 <= i < |ms|
        ensures && ms[i].name == nodes[i].0
                && ms[i].description == Join(nodes[i].1.descriptions, "\n")
                && Parameters(known, ns, nodes[i].1.rows) == Ok(ms[i].parameters)
                && ReturnTypeOf(known, ns, matcher(ms[i].description)) == Ok(ms[i].returnTypes)
                && |ms[i].returnTypes| > 0
      {
        assert MethodOf(known, ns, matcher, nodes[i].0, nodes[i].1) == Ok(ms[i]);
        MethodOfParts(known, ns, matcher, nodes[i].0, nodes[i].1);
      }
    }
  }

  /** One built method: its name, its joined description, its parameters and that description's return type. */
  lemma MethodOfParts(known: set<string>, ns: string, matcher: Matcher, name: string, node: MethodNode)
    ensures MethodOf(known, ns, matcher, name, node).Ok? ==>
              var m := MethodOf(known, ns, matcher, name, node).value;
              && m.name == name
              && m.description == Join(node.descriptions, "\n")
              && Parameters(known, ns, node.rows) == Ok(m.parameters)
              && ReturnTypeOf(known, ns, matcher(m.description)) == Ok(m.returnTypes)
              && |m.returnTypes| > 0
  {
  }

  /**
   * The generated document holds exactly the registered types, under the same keys in the same
   * order, and one method per registered method table.
   */
  lemma GeneratedMeaning(ns: string, tables: seq<Table>, matcher: Matcher)
    ensures Generated(ns, tables, matcher).Ok? ==>
              Segmented(tables).Ok? &&
              Keys(Generated(ns, tables, matcher).value.types) == Keys(Segmented(tables).value.types) &&
              |Generated(ns, tables, matcher).value.methods| == |Segmented(tables).value.methods|
  {
    var segments := Segmented(tables);
    if Generated(ns, tables, matcher).Ok? {
      var known := KnownTypes(segments.value.types);
      TypesResolved(known, ns, segments.value.types);
      MethodsMeaning(known, ns, matcher, segments.value.methods);
    }
  }

  /** `getParent`'s exception is never thrown while generating the schema. */
  lemma NoParentFailure(ns: string, tables: seq<Table>, matcher: Matcher)
    ensures Generated(ns, tables, matcher).Err? ==> !Generated(ns, tables, matcher).error.CannotDetermineParent?
  {
    var segments := Segmented(tables);
    SegmentedFailsOnMissingNodes(tables, |tables|);
    if segments.Ok? {
      var known := KnownTypes(segments.value.types);
      SegmentedTypesNamed(tables, |tables|);
      ParentNeverMissing(known, ns, segments.value.types);
      MethodFailures(known, ns, matcher, segments.value.methods);
    }
  }

  /** Building the methods fails only on a missing cell, an undefined type, a bad marker or a missing return type. */
  lemma MethodFailures(known: set<string>, ns: string, matcher: Matcher, nodes: OrderedMap<MethodNode>)
    ensures Methods(known, ns, matcher, nodes).Err? ==> !Methods(known, ns, matcher, nodes).error.CannotDetermineParent?
  {
    var r := Methods(known, ns, matcher, nodes);
    if r.Err? {
      FirstFailure(MethodStep(known, ns, matcher), nodes, 0, |nodes|);
      var i :| 0 <= i < |nodes| && MethodStep(known, ns, matcher)(nodes[i]) == Err(r.error);
      MethodOfFailure(known, ns, matcher, nodes[i].0, nodes[i].1);
    }
  }

  lemma MethodOfFailure(known: set<string>, ns: string, matcher: Matcher, name: string, node: MethodNode)
    ensures MethodOf(known, ns, matcher, name, node).Err? ==> !MethodOf(known, ns, matcher, name, node).error.CannotDetermineParent?
  {
    if Parameters(known, ns, node.rows).Err? {
      ParametersFailure(known, ns, node.rows);
    } else {
      NoMissingFromCollected(known, ns, matcher(Join(node.descriptions, "\n")), |Templates|);
    }
  }

  /** A parameter row fails on a missing cell, an undefined type or an unexpected required marker. */
  lemma ParameterFailure(known: set<string>, ns: string, row: seq<string>)
    ensures ParameterOf(known, ns, row).Err? ==>
              var e := ParameterOf(known, ns, row).error;
              e == EmptyNodeList || e.UndefinedType? || (|row| >= 4 && e == UnexpectedRequired(row[2]))
  {
  }

  /** The parameter loop fails only as one of its rows does. */
  lemma ParametersFailure(known: set<string>, ns: string, rows: seq<seq<string>>)
    ensures Parameters(known, ns, rows).Err? ==>
              var e := Parameters(known, ns, rows).error;
              e == EmptyNodeList || e.UndefinedType? || e.UnexpectedRequired?
  {
    if Parameters(known, ns, rows).Err? {
      FirstFailure(ParameterStep(known, ns), rows, 1, |rows|);
      var i :| 1 <= i < |rows| && ParameterStep(known, ns)(rows[i]) == Err(Parameters(known, ns, rows).error);
      ParameterFailure(known, ns, rows[i]);
    }
  }
}
