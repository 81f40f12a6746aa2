/**
 * The first half of `execute` (src/Command/GenerateSchemaCommand.php): every documentation
 * table is paired with the nearest `h4` heading before it. A heading starting with an
 * upper-case letter names a type, whose rows become raw fields; any other heading names a
 * method, whose rows are kept for later. The DOM is abstracted: a table comes with the list
 * of its preceding siblings, nearest first, and its `tbody` rows as lists of cell texts.
 */
module Segmenter {
  import opened Results
  import opened Errors
  import opened Strings
  import opened OrderedMaps
  import opened SchemaRules
  import opened Folds

  /** A sibling before a table: an `h4` heading (its text, its link's `href` if it has one, its HTML) or anything else. */
  datatype Sibling = Heading(text: string, link: Option<string>, html: string) | Other(html: string)

  /** A documentation table: the siblings before it, nearest first, and the cell texts of its rows. */
  datatype Table = Table(previous: seq<Sibling>, rows: seq<seq<string>>)

  /** A type's row before its type is parsed; `required` is the flag the row is first given. */
  datatype RawField = RawField(name: string, roughType: string, description: string, required: bool)

  datatype RawType = RawType(name: string, link: string, fields: seq<RawField>, descriptions: seq<string>)

  datatype MethodNode = MethodNode(rows: seq<seq<string>>, descriptions: seq<string>)

  /** What the walk over the tables registers: the types (kept in the schema) and the method tables. */
  datatype Segments = Segments(types: OrderedMap<RawType>, methods: OrderedMap<MethodNode>)

  /** The state of the walk over one table's siblings. */
  datatype Walk = Walk(name: string, descriptions: seq<string>, segments: Segments)

  /** The HTML of some siblings, in the order given. */
  function Htmls(nodes: seq<Sibling>): seq<string>
  {
    seq(|nodes|, i requires 0 <= i < |nodes| => nodes[i].html)
  }

  /** One field row: its first three cells; a row with fewer cells has no third cell to read. */
  function RawFieldOf(row: seq<string>): (r: Result<RawField, Error>)
    ensures r.Ok? <==> |row| >= 3
    ensures r.Err? ==> r.error == EmptyNodeList
  {
    if |row| < 3 then Err(EmptyNodeList)
    else Ok(RawField(row[0], row[1], row[2], NotOptional(row[2])))
  }

  /** A type's fields: every row after the first, in order; the first bad row is the failure. */
  function Fields(rows: seq<seq<string>>): Result<seq<RawField>, Error>
  {
    MapUpTo(RawFieldOf, rows, 1, |rows|)
  }

  /** The link of a type's heading; a heading without a link has no `href` to read. */
  function LinkOf(node: Sibling): (r: Result<string, Error>)
    requires node.Heading?
    ensures r.Ok? <==> node.link.Some?
  {
    if node.link.Some? then Ok(node.link.value) else Err(EmptyNodeList)
  }

  /**
   * One sibling of the walk. The first heading met names the table: a type (its fields read
   * from the rows) when it starts with an upper-case letter, a method otherwise. Every other
   * sibling, and every heading after the name is set, adds its HTML to the descriptions.
   * A heading with empty text registers a method named "" and leaves the name unset.
   */
  function Visit(w: Walk, rows: seq<seq<string>>, node: Sibling): Result<Walk, Error>
  {
    if w.name == "" && node.Heading? then
      if IsUpperStart(node.text) then
        var fields :- Fields(rows);
        var link :- LinkOf(node);
        var t := RawType(node.text, link, fields, w.descriptions);
        Ok(Walk(node.text, w.descriptions, w.segments.(types := Put(w.segments.types, node.text, t))))
      else
        var m := MethodNode(rows, w.descriptions);
        Ok(Walk(node.text, w.descriptions, w.segments.(methods := Put(w.segments.methods, node.text, m))))
    else
      Ok(w.(descriptions := w.descriptions + [node.html]))
  }

  /** The walk over the first `n` siblings before a table. */
  function WalkUpTo(t: Table, segments: Segments, n: nat): Result<Walk, Error>
    requires n <= |t.previous|
  {
    if n == 0 then Ok(Walk("", [], segments))
    else
      var w :- WalkUpTo(t, segments, n - 1);
      Visit(w, t.rows, t.previous[n - 1])
  }

  function TableSegments(t: Table, segments: Segments): Result<Segments, Error>
  {
    var w :- WalkUpTo(t, segments, |t.previous|);
    Ok(w.segments)
  }

  /** The registrations of the first `n` tables, in document order. */
  function SegmentsUpTo(tables: seq<Table>, n: nat): Result<Segments, Error>
    requires n <= |tables|
  {
    if n == 0 then Ok(Segments([], []))
    else
      var before :- SegmentsUpTo(tables, n - 1);
      TableSegments(tables[n - 1], before)
  }

  function Segmented(tables: seq<Table>): Result<Segments, Error>
  {
    SegmentsUpTo(tables, |tables|)
  }

  // ---------------------------------------------------------------- the loops of `execute`

  /** The row loop for a type's table: the first row is skipped, every other row becomes a field. */
  method CollectFields(rows: seq<seq<string>>) returns (r: Result<seq<RawField>, Error>)
    ensures r == Fields(rows)
  {
    var fields: seq<RawField> := [];
    var rowNumber := 0;
    while rowNumber < |rows|
      invariant 0 <= rowNumber <= |rows|
      invariant MapUpTo(RawFieldOf, rows, 1, rowNumber) == Ok(fields)
    {
      if rowNumber == 0 {
        MapSkip(RawFieldOf, rows, 1, rowNumber);
      } else {
        var field := RawFieldOf(rows[rowNumber]);
        if field.Err? {
          MapFails(RawFieldOf, rows, 1, rowNumber, fields);
          MapFailureSticks(RawFieldOf, rows, 1, rowNumber + 1, |rows|);
          return Err(field.error);
        }
        MapStep(RawFieldOf, rows, 1, rowNumber, fields, field.value);
        fields := fields + [field.value];
      }
      rowNumber := rowNumber + 1;
    }
    return Ok(fields);
  }

  /** The walk over one table's preceding siblings, nearest first. */
  method WalkTable(t: Table, segments: Segments) returns (r: Result<Segments, Error>)
    ensures r == TableSegments(t, segments)
  {
    var name := "";
    var descriptions: seq<string> := [];
    var types := segments.types;
    var methods := segments.methods;
    var i := 0;
    while i < |t.previous|
      invariant 0 <= i <= |t.previous|
      invariant WalkUpTo(t, segments, i) == Ok(Walk(name, descriptions, Segments(types, methods)))
    {
      var node := t.previous[i];
      if name == "" && node.Heading? {
        name := node.text;
        if IsUpperStart(name) {
          var fields := CollectFields(t.rows);
          if fields.Err? {
            WalkFailureSticks(t, segments, i + 1, |t.previous|);
            return Err(fields.error);
          }
          if node.link.None? {
            WalkFailureSticks(t, segments, i + 1, |t.previous|);
            return Err(EmptyNodeList);
          }
          types := Put(types, name, RawType(name, node.link.value, fields.value, descriptions));
        } else {
          methods := Put(methods, name, MethodNode(t.rows, descriptions));
        }
      } else {
        descriptions := descriptions + [node.html];
      }
      i := i + 1;
    }
    return Ok(Segments(types, methods));
  }

  /** The loop over every documentation table. */
  method SegmentTables(tables: seq<Table>) returns (r: Result<Segments, Error>)
    ensures r == Segmented(tables)
  {
    var segments := Segments([], []);
    var i := 0;
    while i < |tables|
      invariant 0 <= i <= |tables|
      invariant SegmentsUpTo(tables, i) == Ok(segments)
    {
      var next := WalkTable(tables[i], segments);
      if next.Err? {
        SegmentsFailureSticks(tables, i + 1, |tables|);
        return next;
      }
      segments := next.value;
      i := i + 1;
    }
    return Ok(segments);
  }

  // ---------------------------------------------------------------- lemmas

  lemma {:induction false} WalkFailureSticks(t: Table, segments: Segments, n: nat, m: nat)
    requires n <= m <= |t.previous| && WalkUpTo(t, segments, n).Err?
    ensures WalkUpTo(t, segments, m) == WalkUpTo(t, segments, n)
    decreases m
  {
    if m > n {
      WalkFailureSticks(t, segments, n, m - 1);
    }
  }

  lemma {:induction false} SegmentsFailureSticks(tables: seq<Table>, n: nat, m: nat)
    requires n <= m <= |tables| && SegmentsUpTo(tables, n).Err?
    ensures SegmentsUpTo(tables, m) == SegmentsUpTo(tables, n)
    decreases m
  {
    if m > n {
      SegmentsFailureSticks(tables, n, m - 1);
    }
  }

  /**
   * The fields of a table are its rows after the first, read cell by cell: the name, the rough
   * type and the description, first flagged required unless the description starts with
   * "Optional". They exist exactly when every such row has at least three cells.
   */
  lemma FieldsMeaning(rows: seq<seq<string>>)
    ensures Fields(rows).Ok? <==> forall i :: 1 <= i < |rows| ==> |rows[i]| >= 3
    ensures Fields(rows).Ok? ==>
              var fields := Fields(rows).value;
              |fields| == (if |rows| == 0 then 0 else |rows| - 1) &&
              forall i :: 0 <= i < |fields| ==>
                fields[i] == RawField(rows[i + 1][0], rows[i + 1][1], rows[i + 1][2], !IsPrefix("Optional", rows[i + 1][2]))
  {
    MapMeaning(RawFieldOf, rows, 1, |rows|);
    forall i | 1 <= i < |rows|
      ensures RawFieldOf(rows[i]).Ok? <==> |rows[i]| >= 3
    {
    }
  }

  /** The first row of a table is never read: replacing it changes nothing. */
  lemma FirstRowIgnored(rows: seq<seq<string>>, first: seq<string>)
    requires |rows| > 0
    ensures Fields(rows) == Fields(rows[0 := first])
  {
    ReadsOnlyVisited(RawFieldOf, rows, rows[0 := first], 1, |rows|);
  }

  /** Before any heading, the walk only collects the siblings' HTML, nearest first. */
  lemma {:induction false} NoHeadingYet(t: Table, segments: Segments, k: nat)
    requires k <= |t.previous|
    requires forall j :: 0 <= j < k ==> t.previous[j].Other?
    ensures WalkUpTo(t, segments, k) == Ok(Walk("", Htmls(t.previous[..k]), segments))
  {
    if k > 0 {
      NoHeadingYet(t, segments, k - 1);
      assert Htmls(t.previous[..k]) == Htmls(t.previous[..k - 1]) + [t.previous[k - 1].html];
    }
  }

  /** Once the table is named, the rest of the walk registers nothing more. */
  lemma {:induction false} NamedStays(t: Table, segments: Segments, k: nat, n: nat)
    requires k <= n <= |t.previous|
    requires WalkUpTo(t, segments, k).Ok? && WalkUpTo(t, segments, k).value.name != ""
    ensures WalkUpTo(t, segments, n).Ok?
    ensures WalkUpTo(t, segments, n).value.segments == WalkUpTo(t, segments, k).value.segments
    ensures WalkUpTo(t, segments, n).value.name == WalkUpTo(t, segments, k).value.name
    decreases n
  {
    if n > k {
      NamedStays(t, segments, k, n - 1);
    }
  }

  /**
   * A table whose nearest heading starts with an upper-case letter registers a type under the
   * heading's text, with the table's fields and, as descriptions, the HTML of the siblings
   * between the heading and the table, nearest first; the method tables are untouched.
   */
  lemma NearestHeadingType(t: Table, segments: Segments, k: nat, text: string, link: string, html: string)
    requires k < |t.previous| && t.previous[k] == Heading(text, Some(link), html)
    requires forall j :: 0 <= j < k ==> t.previous[j].Other?
    requires IsUpperStart(text) && Fields(t.rows).Ok?
    ensures TableSegments(t, segments) ==
              Ok(segments.(types := Put(segments.types, text, RawType(text, link, Fields(t.rows).value, Htmls(t.previous[..k])))))
  {
    NoHeadingYet(t, segments, k);
    NamedStays(t, segments, k + 1, |t.previous|);
  }

  /**
   * A table whose nearest heading does not start with an upper-case letter registers its rows
   * as a method under the heading's text; the types are untouched.
   */
  lemma NearestHeadingMethod(t: Table, segments: Segments, k: nat, text: string, html: string)
    requires k < |t.previous| && t.previous[k].Heading? && t.previous[k].text == text
    requires forall j :: 0 <= j < k ==> t.previous[j].Other?
    requires text != "" && !IsUpperStart(text)
    ensures TableSegments(t, segments) ==
              Ok(segments.(methods := Put(segments.methods, text, MethodNode(t.rows, Htmls(t.previous[..k])))))
  {
    NoHeadingYet(t, segments, k);
    NamedStays(t, segments, k + 1, |t.previous|);
  }

  /** A table with no heading before it registers nothing. */
  lemma NoHeadingNothing(t: Table, segments: Segments)
    requires forall j :: 0 <= j < |t.previous| ==> t.previous[j].Other?
    ensures TableSegments(t, segments) == Ok(segments)
  {
    NoHeadingYet(t, segments, |t.previous|);
  }

  /** Every registered type sits under its own name, which starts with an upper-case letter; no name repeats. */
  predicate TypesNamed(types: OrderedMap<RawType>)
  {
    DistinctKeys(types) &&
    forall i :: 0 <= i < |types| ==> types[i].0 == types[i].1.name && IsUpperStart(types[i].0)
  }

  lemma {:induction false} PutNamed(types: OrderedMap<RawType>, t: RawType)
    requires TypesNamed(types) && IsUpperStart(t.name)
    ensures TypesNamed(Put(types, t.name, t))
  {
    PutDistinct(types, t.name, t);
    if |types| > 0 && types[0].0 != t.name {
      PutNamed(types[1..], t);
    }
  }

  lemma {:induction false} WalkKeepsNamed(t: Table, segments: Segments, n: nat)
    requires n <= |t.previous| && TypesNamed(segments.types)
    ensures WalkUpTo(t, segments, n).Ok? ==> TypesNamed(WalkUpTo(t, segments, n).value.segments.types)
  {
    if n > 0 {
      WalkKeepsNamed(t, segments, n - 1);
      var w := WalkUpTo(t, segments, n - 1);
      if w.Ok? && w.value.name == "" && t.previous[n - 1].Heading? && IsUpperStart(t.previous[n - 1].text) {
        var r := WalkUpTo(t, segments, n);
        if r.Ok? {
          var node := t.previous[n - 1];
          PutNamed(w.value.segments.types, RawType(node.text, LinkOf(node).value, Fields(t.rows).value, w.value.descriptions));
        }
      }
    }
  }

  /** However the tables look, every registered type is named by an upper-case key it is stored under. */
  lemma {:induction false} SegmentedTypesNamed(tables: seq<Table>, n: nat)
    requires n <= |tables|
    ensures SegmentsUpTo(tables, n).Ok? ==> TypesNamed(SegmentsUpTo(tables, n).value.types)
  {
    if n > 0 {
      SegmentedTypesNamed(tables, n - 1);
      var before := SegmentsUpTo(tables, n - 1);
      if before.Ok? {
        WalkKeepsNamed(tables[n - 1], before.value, |tables[n - 1].previous|);
      }
    }
  }

  /** The walk over the tables fails only when a row or a heading lacks a cell or link to read. */
  lemma {:induction false} SegmentedFailsOnMissingNodes(tables: seq<Table>, n: nat)
    requires n <= |tables|
    ensures SegmentsUpTo(tables, n).Err? ==> SegmentsUpTo(tables, n).error == EmptyNodeList
  {
    if n > 0 {
      SegmentedFailsOnMissingNodes(tables, n - 1);
      var before := SegmentsUpTo(tables, n - 1);
      if before.Ok? {
        WalkFailsOnMissingNodes(tables[n - 1], before.value, |tables[n - 1].previous|);
      }
    }
  }

  lemma {:induction false} WalkFailsOnMissingNodes(t: Table, segments: Segments, n: nat)
    requires n <= |t.previous|
    ensures WalkUpTo(t, segments, n).Err? ==> WalkUpTo(t, segments, n).error == EmptyNodeList
  {
    if n > 0 {
      WalkFailsOnMissingNodes(t, segments, n - 1);
      if Fields(t.rows).Err? {
        FirstFailure(RawFieldOf, t.rows, 1, |t.rows|);
      }
    }
  }
}
