/**
 * The row-level rules of the schema generator (src/Command/GenerateSchemaCommand.php):
 * the `parseRequired` marker table, the required-ness of method parameters and of type
 * fields, and the base-class choice of `getParent`.
 */
module SchemaRules {
  import opened Results
  import opened Errors
  import opened Strings
  import opened TypeParser

  /** `parseRequired`: the four markers of the "Required" column; anything else is rejected. */
  function ParseRequired(text: string): (r: Result<bool, Error>)
    ensures r.Ok? <==> text == "Yes" || text == "True" || text == "Optional" || text == "No"
    ensures r.Ok? ==> (r.value <==> text == "Yes" || text == "True")
    ensures r.Err? ==> r.error == UnexpectedRequired(text)
  {
    if text == "Yes" then Ok(true)
    else if text == "True" then Ok(true)
    else if text == "Optional" then Ok(false)
    else if text == "No" then Ok(false)
    else Err(UnexpectedRequired(text))
  }

  /**
   * A method parameter is required when its description mentions `"Required"` (case-sensitive);
   * only otherwise is the marker cell consulted, through `parseRequired`.
   */
  function ParameterRequired(description: string, marker: string): (r: Result<bool, Error>)
    ensures Contains(description, "Required") ==> r == Ok(true)
    ensures r.Ok? ==> (r.value <==> Contains(description, "Required") || marker == "Yes" || marker == "True")
    ensures r.Err? <==> !Contains(description, "Required") && ParseRequired(marker).Err?
    ensures r.Err? ==> r.error == UnexpectedRequired(marker)
  {
    if Contains(description, "Required") then Ok(true) else ParseRequired(marker)
  }

  /**
   * The `required` flag a type field ends with: `stripos('Required', $description)`, which asks
   * whether the description occurs, ignoring case, inside the word "Required".
   */
  const RequiredWord: string := "Required"

  predicate FieldRequired(description: string)
  {
    Contains(Lower(RequiredWord), Lower(description))
  }

  /** The flag the rows are first given, discarded later: the description does not start with `"Optional"`. */
  predicate NotOptional(description: string)
  {
    !IsPrefix("Optional", description)
  }

  /** Any description longer than the word "Required" gives a field that is not required. */
  lemma LongDescriptionNotRequired(description: string)
    requires |description| > 8
    ensures !FieldRequired(description)
  {
    if FieldRequired(description) {
      ContainsFits(Lower("Required"), Lower(description));
    }
  }

  /**
   * The first-computed flag is lost: for every long description that does not start with
   * `"Optional"` the final flag disagrees with the one the row was first given.
   */
  lemma OverwrittenRequired(description: string)
    requires |description| > 8 && NotOptional(description)
    ensures FieldRequired(description) != NotOptional(description)
  {
    LongDescriptionNotRequired(description);
  }

  /** A description that is the word "required" in any letter case gives a required field. */
  lemma RequiredWordRequired(description: string)
    requires Lower(description) == "required"
    ensures FieldRequired(description)
  {
    var low := Lower("Required");
    assert low == "required" by {
      assert forall k :: 0 <= k < 8 ==> low[k] == "required"[k];
    }
    assert IsPrefix(Lower(description), low);
  }

  /**
   * `getParent`: inline query results first, then input message contents, then any other
   * name that starts with an upper-case letter; anything else cannot be placed.
   */
  function GetParent(ns: string, name: string): (r: Result<string, Error>)
    ensures r.Ok? <==> IsUpperStart(name)
    ensures r.Ok? ==> r.value in {ClassName(ns, "AbstractInlineQueryResult"),
                                  ClassName(ns, "AbstractInputMessageContent"),
                                  ClassName(ns, "AbstractType")}
    ensures r.Err? ==> r.error == CannotDetermineParent(name)
  {
    if IsPrefix("InlineQueryResult", name) then
      assert name[0] == "InlineQueryResult"[0];
      Ok(ClassName(ns, "AbstractInlineQueryResult"))
    else if IsPrefix("Input", name) && Contains(name, "MessageContent") then
      assert name[0] == "Input"[0];
      Ok(ClassName(ns, "AbstractInputMessageContent"))
    else if IsUpperStart(name) then Ok(ClassName(ns, "AbstractType"))
    else Err(CannotDetermineParent(name))
  }

  /** Every inline query result gets the abstract inline-result parent, whatever follows the prefix. */
  lemma InlineQueryResultParent(ns: string, rest: string)
    ensures GetParent(ns, "InlineQueryResult" + rest) == Ok(ClassName(ns, "AbstractInlineQueryResult"))
  {
    var name := "InlineQueryResult" + rest;
    assert name[..17] == "InlineQueryResult";
  }

  /**
   * `Input…MessageContent…` names get the abstract message-content parent: the inline-result
   * rule cannot claim them, since they differ from `"InlineQueryResult"` at the third letter.
   */
  lemma InputMessageContentParent(ns: string, middle: string, rest: string)
    ensures GetParent(ns, "Input" + middle + "MessageContent" + rest) == Ok(ClassName(ns, "AbstractInputMessageContent"))
  {
    var name := "Input" + middle + "MessageContent" + rest;
    assert name[..5] == "Input";
    assert name[2] == 'p' != "InlineQueryResult"[2];
    var at := 5 + |middle|;
    assert name[at..at + 14] == "MessageContent";
    OccursAt(name, "MessageContent", at);
  }

  /** Any other upper-case name is a plain type. */
  lemma PlainTypeParent(ns: string, name: string)
    requires IsUpperStart(name)
    requires !IsPrefix("InlineQueryResult", name)
    requires !(IsPrefix("Input", name) && Contains(name, "MessageContent"))
    ensures GetParent(ns, name) == Ok(ClassName(ns, "AbstractType"))
  {
  }
}
