# Telegram Bot API schema extraction, modelled in Dafny

This project models the core of GenerateTelegramBotApiSchema.
- `GenerateSchemaCommand` reads the Telegram Bot API documentation page and writes a JSON schema of every type and every method it describes.
- Two Twig filters, `paramDescription` and `sortByOptional`, are used when PHP code is generated from that schema.

The model covers the following:
- **Type grammar (`parseType`).** A table cell such as `Array of PhotoSize` or `Integer or String` becomes a list of `(type name, is collection)` entries, or fails. The rules are tried in the source's order: the `Array of ` split, the ` or `/` and ` union, the primitive literals, the three special markers, the `TRANSFORMS` expansions and the lookup among the registered types (`isObject`). Class names get a namespace prefix (`getClassName`).
- **Smaller rules.** `parseRequired` maps a marker to a boolean. `getParent` chooses a base class. The `required` flag is computed for fields and for parameters.
- **Return types (`getReturnType`).** What happens after the regular expressions have matched: the anchor substitution, `ucfirst`, parsing, the collection flag, and the failure when nothing matched.
- **Segmentation in `execute`.** Each documentation table is paired with the nearest heading above it. The heading is registered as a type (upper-case start) or a method. Description paragraphs are collected, and table rows become fields or parameters, with the first row skipped.
- **Resolution in `execute`.** Then every registered type is resolved: its fields are parsed and its parent is chosen. Then every method is resolved: its parameters are read and its return type is computed. The result is the schema that `execute` stores.
- **The two Twig filters.** `paramDescription` wraps a description for a doc comment by counting characters. `sortByOptional` puts required parameters first.

Module layout:
- `Results`, `Errors`: the result type and the exceptions the PHP code throws.
- `Strings`: `strpos`, `explode`, `implode`, `ucfirst`, `strtolower` and `str_replace`, with their lemmas.
- `OrderedMaps`: PHP's string-keyed arrays.
- `Folds`: the "append each result, stop at the first exception" loop shape.
- `TypeParser`, `TypeGrammar`, `SchemaRules`, `ReturnTypes`: the command's private methods.
- `Segmenter`: the first half of `execute`.
- `Schema`: the class `GenerateSchemaCommand` with its `schema` field and `Execute`, plus the second half of `execute`.
- `TwigExtension`: the two filters.

The model follows PHP 8 semantics throughout: the stable `usort`, `stripos` with an empty needle, and reading past the end of a string.

Each PHP routine that loops or updates state is a Dafny `method` with loops and invariants. Its postcondition ties the result to a specification function. Lemmas state what the source promises about those functions.

## Model

| member | source | states |
|---|---|---|
| TypeParser.ClassName | src/Command/GenerateSchemaCommand.php:269-272 | the class name is the namespace prefix followed by the given name, unchanged |
| TypeParser.IsObject | src/Command/GenerateSchemaCommand.php:278-285 | succeeds, with true, exactly for a registered type name; any other name fails with "Undefined type" for that name |
| TypeParser.WithCollection | src/Command/GenerateSchemaCommand.php:201-203 | the list the by-reference flag loop (run by `ParseArrayOf`) ends with: same length, every entry's name kept, every collection flag equal to the given value |
| TypeParser.ParsedType | src/Command/GenerateSchemaCommand.php:196-267 | a successful parse is never empty; every failure is an "Undefined type" failure (no other exception escapes) |
| TypeParser.NamedType | src/Command/GenerateSchemaCommand.php:220-266 | the rules after the two splits give a non-empty list, or fail with "Undefined type" for exactly the text given |
| TypeParser.TransformEntries | src/Command/GenerateSchemaCommand.php:256-260 | one prefixed, non-collection entry per name of the transform table, in table order |
| TypeParser.ParsedPieces | src/Command/GenerateSchemaCommand.php:211-216 | the union pieces' results, concatenated; non-empty when there is a piece; failures are "Undefined type" |
| TypeParser.ParseType | src/Command/GenerateSchemaCommand.php:196-267 | the recursive method computes exactly the grammar's result |
| TypeParser.ParseArrayOf | src/Command/GenerateSchemaCommand.php:198-206 | the `Array of` branch, with its by-reference flag loop, computes the grammar's result |
| TypeParser.ParseUnion | src/Command/GenerateSchemaCommand.php:208-217 | the union branch computes the grammar's result |
| TypeParser.ParsePieces | src/Command/GenerateSchemaCommand.php:211-216 | the loop over the pieces gives their concatenated results, or the first piece's failure |
| TypeParser.ParseNextPiece | src/Command/GenerateSchemaCommand.php:212-214 | one piece parsed and added keeps the loop's result unchanged, or the piece's failure is the loop's failure |
| TypeGrammar.NameRuleApplies | src/Command/GenerateSchemaCommand.php:198-217 | text with neither `Array of`, ` or ` nor ` and ` reaches the named-type rules |
| TypeGrammar.SingleWord | src/Command/GenerateSchemaCommand.php:198-208 | a text without spaces takes neither split |
| TypeGrammar.FloatLiterals | src/Command/GenerateSchemaCommand.php:220-222 | `Float` and `Float number` give exactly one non-collection `float` |
| TypeGrammar.IntegerLiterals | src/Command/GenerateSchemaCommand.php:224-226 | `Integer` and `Int` give exactly one non-collection `int` |
| TypeGrammar.BooleanLiterals | src/Command/GenerateSchemaCommand.php:228-230 | `True` and `Boolean` give exactly one non-collection `bool` |
| TypeGrammar.ArrayLiterals | src/Command/GenerateSchemaCommand.php:232-234 | `CallbackGame` and `Array` give exactly one non-collection `array` |
| TypeGrammar.StringLiteral | src/Command/GenerateSchemaCommand.php:236-238 | `String` gives exactly one non-collection `string` |
| TypeGrammar.IntegerOrString | src/Command/GenerateSchemaCommand.php:236 | `Integer or String` is taken by the union rule and gives `int` then `string`, never the literal's single `string` |
| TypeGrammar.ArrayOfString | src/Command/GenerateSchemaCommand.php:240-242 | `Array of String` is taken by the `Array of` rule (its result is a collection `string`); the literal test is never reached |
| TypeGrammar.InputFileMarker | src/Command/GenerateSchemaCommand.php:244-246 | `InputFile` gives the prefixed `InputFileInterface`, not a collection |
| TypeGrammar.InlineQueryResultMarker | src/Command/GenerateSchemaCommand.php:248-250 | `InlineQueryResult` gives the prefixed `AbstractInlineQueryResult` |
| TypeGrammar.InputMessageContentMarker | src/Command/GenerateSchemaCommand.php:252-254 | `InputMessageContent` gives the prefixed `AbstractInputMessageContent` |
| TypeGrammar.PassportElementErrorExpansion | src/Command/GenerateSchemaCommand.php:18-28 | `PassportElementError` expands to its nine listed classes, in order, none a collection |
| TypeGrammar.InputMediaExpansion | src/Command/GenerateSchemaCommand.php:29-35 | `InputMedia` expands to its five listed classes, in order, none a collection |
| TypeGrammar.TransformRule | src/Command/GenerateSchemaCommand.php:256-260 | a transform key reaching the named rules expands to its table entries |
| TypeGrammar.RegisteredOrUndefined | src/Command/GenerateSchemaCommand.php:262-266 | a name no earlier rule takes gives exactly its prefixed class when registered, and otherwise "Undefined type" for that text; the "Unexpected type" line is never reached |
| TypeGrammar.ParsedNamesResolve | src/Command/GenerateSchemaCommand.php:196-267 | every name in a successful result is a primitive, a prefixed marker or transform class, or a prefixed registered type |
| TypeGrammar.NamedTypeResolves | src/Command/GenerateSchemaCommand.php:220-266 | the same for the named-type rules |
| TypeGrammar.PiecesNamesResolve | src/Command/GenerateSchemaCommand.php:211-216 | the same for a union's pieces |
| TypeGrammar.CollectionIffArrayOf | src/Command/GenerateSchemaCommand.php:196-267 | only the `Array of` rule sets the collection flag: every entry of a successful parse is a collection exactly when the text contains `Array of ` |
| TypeGrammar.NamedNoCollection | src/Command/GenerateSchemaCommand.php:220-266 | apart from the `Array of String` literal, the named-type rules produce no collection |
| TypeGrammar.PiecesNoCollection | src/Command/GenerateSchemaCommand.php:211-216 | union pieces without `Array of ` give a merged list without collections |
| TypeGrammar.ArrayOfRule | src/Command/GenerateSchemaCommand.php:198-206 | text containing `Array of` parses as the second ` of ` piece: same success, same failure, same names, every flag true |
| TypeGrammar.ArrayOfWord | src/Command/GenerateSchemaCommand.php:198-206 | `Array of X` for one word X is X's result with every flag set |
| TypeGrammar.NestedArrayOf | src/Command/GenerateSchemaCommand.php:198-206 | `Array of Array of X` gives a single collection `array`, whatever X is |
| TypeGrammar.ArrayOfPiece | src/Command/GenerateSchemaCommand.php:199-205 | the `Array of` result is the second piece's result with every flag set |
| TypeGrammar.ArrayOfBeatsUnion | src/Command/GenerateSchemaCommand.php:198-217 | `A or Array of B` drops A: it is B's result with every flag set |
| TypeGrammar.UnionApplies | src/Command/GenerateSchemaCommand.php:208-217 | without `Array of`, a text with ` or ` (preferred) or ` and ` parses as its pieces, each shorter than the text |
| TypeGrammar.TwoPieces | src/Command/GenerateSchemaCommand.php:211-216 | two pieces give the first's entries then the second's, or the first failure |
| TypeGrammar.UnionRule | src/Command/GenerateSchemaCommand.php:208-217 | `a or b` and `a and b` parse as a's entries followed by b's |
| TypeGrammar.ParseMonotone | src/Command/GenerateSchemaCommand.php:278-285 | registering more types never changes a successful parse |
| TypeGrammar.PiecesMonotone | src/Command/GenerateSchemaCommand.php:211-216 | the same for a union's pieces |
| TypeGrammar.NamedMonotone | src/Command/GenerateSchemaCommand.php:262-264 | the same for the named-type rules |
| SchemaRules.ParseRequired | src/Command/GenerateSchemaCommand.php:175-190 | succeeds exactly on `Yes`, `True`, `Optional`, `No`; true exactly on `Yes`/`True`; otherwise "Unexpected required" with the marker |
| SchemaRules.NotOptional | src/Command/GenerateSchemaCommand.php:87-91 | the first `required` flag of a field: its description does not start with `Optional` |
| SchemaRules.FieldRequired | src/Command/GenerateSchemaCommand.php:124 | the final `required` flag of a field: its description occurs in "Required", ignoring case; properties in the lemmas below |
| SchemaRules.ParameterRequired | src/Command/GenerateSchemaCommand.php:145-149 | a description containing `Required` gives true without reading the marker; otherwise the marker decides, and its failure is the result |
| SchemaRules.LongDescriptionNotRequired | src/Command/GenerateSchemaCommand.php:124 | a field description longer than eight characters always ends with `required` false |
| SchemaRules.OverwrittenRequired | src/Command/GenerateSchemaCommand.php:87-124 | for such a description, the final flag differs from the flag first computed from the `Optional` prefix whenever that one was true |
| SchemaRules.RequiredWordRequired | src/Command/GenerateSchemaCommand.php:124 | a description equal to "required" up to case gives `required` true |
| SchemaRules.GetParent | src/Command/GenerateSchemaCommand.php:287-302 | succeeds exactly for names starting with an upper-case letter, with one of the three prefixed base classes; otherwise "Cannot determine parent" for that name |
| SchemaRules.InlineQueryResultParent | src/Command/GenerateSchemaCommand.php:289-291 | names starting `InlineQueryResult` get `AbstractInlineQueryResult` |
| SchemaRules.InputMessageContentParent | src/Command/GenerateSchemaCommand.php:293-295 | names starting `Input` and containing `MessageContent` get `AbstractInputMessageContent` |
| SchemaRules.PlainTypeParent | src/Command/GenerateSchemaCommand.php:297-299 | any other upper-case name gets `AbstractType` |
| ReturnTypes.LinkText | src/Command/GenerateSchemaCommand.php:333-335 | the name used is the link text or the anchor, and it agrees with the anchor up to case |
| ReturnTypes.Contribution | src/Command/GenerateSchemaCommand.php:330-341 | a match's entries all carry its template's array flag; a match contributes at least one entry; failures are "Undefined type" |
| ReturnTypes.Collected | src/Command/GenerateSchemaCommand.php:327-343 | the entries of the first n templates' matches in template order, the first parse failure ending it; its properties are the lemmas below |
| ReturnTypes.ReturnTypeOf | src/Command/GenerateSchemaCommand.php:327-349 | a successful result is never empty |
| ReturnTypes.GetReturnType | src/Command/GenerateSchemaCommand.php:327-349 | the loop over all templates computes the specified result |
| ReturnTypes.AppendMatch | src/Command/GenerateSchemaCommand.php:330-341 | one match appends its link and simple entries, flagged, or fails with their parse failure |
| ReturnTypes.ParseGroup | src/Command/GenerateSchemaCommand.php:331-336 | a group the template has is parsed; an absent group adds nothing |
| ReturnTypes.AppendFlagged | src/Command/GenerateSchemaCommand.php:336-339 | the inner loop appends each parsed entry with the array flag set as the match says |
| ReturnTypes.EveryTemplateCaptures | src/Command/GenerateSchemaCommand.php:308-326 | every template has a link or a simple group |
| ReturnTypes.NothingMatchedNothingCollected | src/Command/GenerateSchemaCommand.php:327-343 | with no match, nothing is collected |
| ReturnTypes.SomeMatchSomething | src/Command/GenerateSchemaCommand.php:327-343 | any match makes a successful collection non-empty |
| ReturnTypes.NotFoundIffNoMatch | src/Command/GenerateSchemaCommand.php:345-347 | "return type does not found" happens exactly when no template matched |
| ReturnTypes.NoMissingFromCollected | src/Command/GenerateSchemaCommand.php:336 | a failure while collecting is always a parse failure |
| ReturnTypes.FailuresPropagate | src/Command/GenerateSchemaCommand.php:336 | a failing parse of any match makes the whole call fail; it is not swallowed |
| ReturnTypes.FlagsFollowTemplates | src/Command/GenerateSchemaCommand.php:337 | when every matched template agrees on the array flag, every entry carries it |
| ReturnTypes.AnotherMatchAdds | src/Command/GenerateSchemaCommand.php:328-343 | every template is tried, not only the first match: one more match whose types parse inserts exactly its entries at its template's place, after the earlier templates' entries and before the later templates' entries |
| ReturnTypes.SamePrefixSameCollected | src/Command/GenerateSchemaCommand.php:328-343 | templates are tried in order: the result so far depends only on the earlier matches |
| ReturnTypes.AnchorReplacesText | src/Command/GenerateSchemaCommand.php:333-336 | link text `Messages` with anchor `message` is parsed as `Message` |
| ReturnTypes.TextKeptWhenSameAsAnchor | src/Command/GenerateSchemaCommand.php:333-336 | link text equal to the anchor up to case is kept, then capitalised |
| OrderedMaps.Get | src/Command/GenerateSchemaCommand.php:280 | the keyed read of a PHP array, as `isset` uses it: a key is found exactly when it is present, with a value stored under it |
| OrderedMaps.Put | src/Command/GenerateSchemaCommand.php:101-113 | the keyed write `$a[$k] = $v`: replaces the entry in place when the key is present, appends otherwise; its properties are the lemmas below |
| OrderedMaps.GetPutSame | src/Command/GenerateSchemaCommand.php:101-106 | reading back a key just assigned gives the assigned value |
| OrderedMaps.GetPutOther | src/Command/GenerateSchemaCommand.php:110-113 | assigning one key leaves every other key's value unchanged |
| OrderedMaps.PutKeys | src/Command/GenerateSchemaCommand.php:110-113 | a present key keeps its position; a new key goes last |
| OrderedMaps.PutReplaces | src/Command/GenerateSchemaCommand.php:101-106 | assigning a present key replaces exactly its entry |
| OrderedMaps.PutDistinct | src/Command/GenerateSchemaCommand.php:101-113 | assignments keep keys distinct |
| Folds.MapMeaning | src/Command/GenerateSchemaCommand.php:82-99 | a row loop succeeds exactly when every visited row does, with one result per visited row, in order |
| Folds.FirstFailure | src/Command/GenerateSchemaCommand.php:137-157 | a row loop's failure is that of the first failing row, every earlier row having succeeded |
| Folds.ReadsOnlyVisited | src/Command/GenerateSchemaCommand.php:83-85 | rows before the starting index are never read |
| Segmenter.RawFieldOf | src/Command/GenerateSchemaCommand.php:86-98 | a row gives a field exactly when it has three cells; a missing cell is the empty-node-list error |
| Segmenter.Fields | src/Command/GenerateSchemaCommand.php:82-99 | the fields of every row but the first, in order; properties in `FieldsMeaning` |
| Segmenter.Visit | src/Command/GenerateSchemaCommand.php:76-118 | one preceding sibling: the first heading names and registers the table, anything before it adds its html; properties in the lemmas below |
| Segmenter.WalkUpTo | src/Command/GenerateSchemaCommand.php:76-118 | the walk over a table's first n preceding siblings, nearest first |
| Segmenter.TableSegments | src/Command/GenerateSchemaCommand.php:72-118 | what one table registers |
| Segmenter.Segmented | src/Command/GenerateSchemaCommand.php:72-119 | what all tables register, in document order; properties in `SegmentedTypesNamed` and `SegmentedFailsOnMissingNodes` |
| Segmenter.LinkOf | src/Command/GenerateSchemaCommand.php:103 | a heading's link is read exactly when it has one |
| Segmenter.CollectFields | src/Command/GenerateSchemaCommand.php:82-99 | the row loop computes the specified fields |
| Segmenter.WalkTable | src/Command/GenerateSchemaCommand.php:76-118 | the walk over a table's preceding siblings computes the specified registrations |
| Segmenter.SegmentTables | src/Command/GenerateSchemaCommand.php:72-119 | the loop over all tables computes the specified registrations |
| Segmenter.FieldsMeaning | src/Command/GenerateSchemaCommand.php:82-99 | fields are read from every row but the first, in order, with name, type text, description and `not Optional` flag, and exactly when those rows are complete |
| Segmenter.FirstRowIgnored | src/Command/GenerateSchemaCommand.php:83-85 | the first row never affects the fields |
| Segmenter.NoHeadingYet | src/Command/GenerateSchemaCommand.php:115-117 | until a heading is met, every sibling's html is collected, nearest first |
| Segmenter.NamedStays | src/Command/GenerateSchemaCommand.php:77 | once a heading has named the table, later siblings register nothing |
| Segmenter.NearestHeadingType | src/Command/GenerateSchemaCommand.php:77-106 | an upper-case nearest heading registers a type with its link, fields and the paragraphs below it, replacing any earlier entry of that name in place |
| Segmenter.NearestHeadingMethod | src/Command/GenerateSchemaCommand.php:109-113 | any other non-empty nearest heading registers a method with its rows and paragraphs |
| Segmenter.NoHeadingNothing | src/Command/GenerateSchemaCommand.php:76-118 | a table with no heading before it registers nothing |
| Segmenter.PutNamed | src/Command/GenerateSchemaCommand.php:79-101 | registering an upper-case name keeps every type name upper-case |
| Segmenter.WalkKeepsNamed | src/Command/GenerateSchemaCommand.php:76-118 | one table's walk keeps that invariant |
| Segmenter.SegmentedTypesNamed | src/Command/GenerateSchemaCommand.php:72-119 | every registered type name starts with an upper-case letter |
| Segmenter.SegmentedFailsOnMissingNodes | src/Command/GenerateSchemaCommand.php:72-119 | segmentation fails only on a missing cell or link |
| Segmenter.WalkFailsOnMissingNodes | src/Command/GenerateSchemaCommand.php:76-118 | the same for one table |
| Schema.GenerateSchemaCommand.constructor | src/Command/GenerateSchemaCommand.php:64-67 | the schema starts with no types and no methods |
| Schema.GenerateSchemaCommand.Execute | src/Command/GenerateSchemaCommand.php:64-169 | computes the specified schema and, on success, stores it in the `schema` field |
| Schema.Generated | src/Command/GenerateSchemaCommand.php:69-169 | the schema `execute` computes: segmentation, then type resolution against the registered names, then the methods; properties in `GeneratedMeaning` and `NoParentFailure` |
| Schema.KnownTypesAreIsset | src/Command/GenerateSchemaCommand.php:280 | the set `isObject` is given (`KnownTypes`) holds exactly the names the keyed read of the types array finds |
| Schema.ResolvedTypes | src/Command/GenerateSchemaCommand.php:121-131 | every registered type resolved in order, the first failure thrown; properties in `TypesResolved` |
| Schema.ResolvedType | src/Command/GenerateSchemaCommand.php:121-130 | one type: its fields resolved, then its parent chosen |
| Schema.ResolvedFields | src/Command/GenerateSchemaCommand.php:122-127 | every field resolved in order; properties in `FieldsResolved` |
| Schema.ResolvedField | src/Command/GenerateSchemaCommand.php:123-125 | one field: type parsed, `required` recomputed by `stripos`, rough type dropped |
| Schema.Parameters | src/Command/GenerateSchemaCommand.php:137-157 | every row but the first turned into a parameter in order; properties in `ParametersMeaning` |
| Schema.ParameterOf | src/Command/GenerateSchemaCommand.php:142-156 | one row: type parsed first, then the description and the required marker read |
| Schema.Methods | src/Command/GenerateSchemaCommand.php:133-169 | every method table turned into a method in order; properties in `MethodsMeaning` |
| Schema.MethodOf | src/Command/GenerateSchemaCommand.php:134-167 | one method: parameters, joined description, return type of that description |
| Schema.ResolveTypes | src/Command/GenerateSchemaCommand.php:121-131 | the loop over registered types computes the specified resolution |
| Schema.ResolveType | src/Command/GenerateSchemaCommand.php:121-130 | one type: fields parsed, then parent chosen |
| Schema.ResolveFields | src/Command/GenerateSchemaCommand.php:122-127 | the by-reference field loop computes the specified fields |
| Schema.ResolveField | src/Command/GenerateSchemaCommand.php:123-125 | one field: type parsed, flag overwritten, rough type dropped |
| Schema.RequiredFlag | src/Command/GenerateSchemaCommand.php:124 | the scan finds the description inside "Required", ignoring case, exactly as specified |
| Schema.BuildMethods | src/Command/GenerateSchemaCommand.php:133-169 | the loop over methods computes the specified list, in registration order |
| Schema.BuildMethod | src/Command/GenerateSchemaCommand.php:134-167 | one method: parameters, joined description, return type |
| Schema.CollectParameters | src/Command/GenerateSchemaCommand.php:137-157 | the row loop computes the specified parameters |
| Schema.BuildParameter | src/Command/GenerateSchemaCommand.php:142-156 | one row: type parsed before the description and marker are read |
| Schema.FieldsResolved | src/Command/GenerateSchemaCommand.php:121-127 | fields resolve exactly when every type text parses, each field keeping name and description with the parsed type and the overwritten flag |
| Schema.FieldFailureUndefined | src/Command/GenerateSchemaCommand.php:123 | a field fails only with "Undefined type" |
| Schema.TypesResolved | src/Command/GenerateSchemaCommand.php:121-130 | resolution keeps the types' keys and order, names and descriptions, with resolved fields and the chosen parent |
| Schema.ParentNeverMissing | src/Command/GenerateSchemaCommand.php:129 | for registered types, resolution never fails with "Cannot determine parent" |
| Schema.ParametersMeaning | src/Command/GenerateSchemaCommand.php:137-157 | one parameter per row but the first, in order, with name, parsed type, required flag and description from its cells |
| Schema.ParametersSkipFirstRow | src/Command/GenerateSchemaCommand.php:138-140 | the first row never affects the parameters |
| Schema.MethodsMeaning | src/Command/GenerateSchemaCommand.php:133-169 | one method per registered name, in order, each with its parameters, its description lines joined by newlines, and the return type of that description |
| Schema.MethodOfParts | src/Command/GenerateSchemaCommand.php:159-167 | a built method is named by its heading and holds its parameters, its description lines joined by newlines and the non-empty return type of that text |
| Schema.GeneratedMeaning | src/Command/GenerateSchemaCommand.php:121-169 | the schema holds exactly the registered type keys, in order, and one method per registered method |
| Schema.NoParentFailure | src/Command/GenerateSchemaCommand.php:129 | the whole command never fails with "Cannot determine parent" |
| Schema.MethodFailures | src/Command/GenerateSchemaCommand.php:133-169 | building methods never fails with "Cannot determine parent" |
| Schema.MethodOfFailure | src/Command/GenerateSchemaCommand.php:134-167 | the same for one method |
| Schema.ParametersFailure | src/Command/GenerateSchemaCommand.php:137-157 | parameters fail only on a missing cell, an undefined type or an unexpected required marker |
| TwigExtension.ParamDescription | src/Twig/Extension.php:36-59 | the filter computes the specified wrapped text |
| TwigExtension.ParamDescriptionOf | src/Twig/Extension.php:36-59 | the filter's output: the words of the description, each followed by a space, with a break before every word that overflows the width; properties in `ParamDescriptionKeepsWords`, `BreakRule` and `CountBound` |
| TwigExtension.Words | src/Twig/Extension.php:38-42 | the words of every line of the description, in order; properties in `WordsJoined` and `WordsHaveNoNewline` |
| TwigExtension.CountAfter | src/Twig/Extension.php:45-53 | the counter after n words; properties in `CountSinceReset` and `CountBound` |
| TwigExtension.BreaksBefore | src/Twig/Extension.php:47-49 | whether a break goes before word k; properties in `BreakRule` |
| TwigExtension.WrappedUpTo | src/Twig/Extension.php:44-54 | the output after n words; properties in `BreaksRemoved` |
| TwigExtension.CollectWords | src/Twig/Extension.php:38-42 | the words of every line, in order |
| TwigExtension.Wrap | src/Twig/Extension.php:44-54 | the counting loop computes the specified output |
| TwigExtension.CountSinceReset | src/Twig/Extension.php:45-53 | the counter is the indentation plus the lengths of the words since the last break, the breaking word not counted |
| TwigExtension.BreakRule | src/Twig/Extension.php:47-49 | a break goes before a word exactly when the indentation plus the lengths since the last reset, that word included, exceed 100 |
| TwigExtension.CountBound | src/Twig/Extension.php:47-53 | after a break the counter is the indentation; after any other word it is at most 100 |
| TwigExtension.WordsJoined | src/Twig/Extension.php:38-42 | the words joined by single spaces are the description with its newlines turned into spaces |
| TwigExtension.WordsHaveNoNewline | src/Twig/Extension.php:38-41 | no word contains a newline |
| TwigExtension.BreaksRemoved | src/Twig/Extension.php:46-53 | deleting the breaks from the output leaves the words joined by single spaces plus one space |
| TwigExtension.ParamDescriptionKeepsWords | src/Twig/Extension.php:38-53 | deleting every inserted break gives the description with newlines as spaces, plus one space: every word, in order, each followed by exactly one space |
| TwigExtension.EmptyDescription | src/Twig/Extension.php:38-53 | an empty description with indentation at most 100 gives a single space |
| TwigExtension.SortByOptional | src/Twig/Extension.php:61-68 | the result is exactly PHP 8's stable `usort` with the comparator `$b['required'] - $a['required']`: the required parameters and then the optional ones, each group in input order; so it is a permutation with every required parameter first |
| TwigExtension.FillGroup | src/Twig/Extension.php:62-64 | one pass writes one group, in input order, after what is already written, leaving that untouched |
| TwigExtension.SortedByOptional | src/Twig/Extension.php:61-68 | the stable result: the required group then the optional group |
| TwigExtension.Filtered | src/Twig/Extension.php:62-64 | one group of parameters in input order; every member has the group's `required` flag, and it is no longer than the input |
| TwigExtension.FilteredPartition | src/Twig/Extension.php:62-64 | every parameter lands in exactly one group |
| TwigExtension.SortedPermutation | src/Twig/Extension.php:61-68 | the sort loses, adds and duplicates nothing |
| TwigExtension.SortedRequiredFirst | src/Twig/Extension.php:62-64 | every required parameter precedes every optional one |
| TwigExtension.SortedKeepsGroups | src/Twig/Extension.php:62-64 | the sort is stable: each group keeps its input order |
| TwigExtension.SortedUnique | src/Twig/Extension.php:62-64 | any order with the required parameters first and each group in input order is the result: the result is the only such order |
| TwigExtension.RequiredFirstIsGroups | src/Twig/Extension.php:62-64 | a list with its required parameters first is its required group followed by its optional group |
| Strings.Split | src/Twig/Extension.php:38 | `explode` always returns at least one piece |
| Strings.JoinSplit | src/Twig/Extension.php:38-41 | joining the pieces of `explode` with the same separator gives back the text |
| Strings.SplitPieceInside | src/Command/GenerateSchemaCommand.php:210 | whatever a piece of `explode` contains, the exploded text contains |

## Left out

- File and network I/O: fetching and caching the documentation, writing the JSON file, `echo`. The model takes the parsed page as input and returns the schema.
- `json_encode` formatting: the schema is a Dafny value.
- The HTML itself and DomCrawler's CSS selectors. The page is a list of tables. Each table has its rows as lists of cell texts and its preceding siblings, nearest first: a heading with its text, optional link and html, or any other node with its html. `html()` is taken as given text.
- Reading a cell or link that is not there throws in DomCrawler. The model reports it as the empty-node-list error.
- The regular expressions of `getReturnType`. The PCRE engine is not modelled. A `Matcher` gives, for each of the seventeen templates in order, whether it matched and its captures. The template table records which named groups each pattern has.
- The method `link` written at line 166 of `GenerateSchemaCommand.php`. It queries a stale node list from line 70, so the modelled method schema has no link.
- `GenerateClientCommand::BASE_NAMESPACE_TYPES`, used by `getClassName`: `GenerateClientCommand.php` is not part of this model, so the prefix is the parameter `ns`.
- `camelize`: a call into Symfony's name converter, whose code is not part of this model.
- The rest of the Twig code generation.
- Schema.GenerateSchemaCommand.Execute: on failure, the model does not describe the partly written `schema` field that the PHP code leaves behind when an exception escapes.
- `usort`'s own sorting algorithm is not modelled. The model gives the result PHP 8's stable `usort` returns with this comparator, computed by two passes over a copy of the parameters. PHP 7's `usort` was not stable, and its order within each group could differ.
- TwigExtension.ParamDescription: counts characters where PHP's `strlen` counts bytes. The two differ for non-ASCII text.
- `ucfirst`, `strtolower` and `stripos` are modelled for ASCII letters only. `ctype_upper` on the first character is an ASCII upper-case test.
- SchemaRules.LongDescriptionNotRequired: is stated only for descriptions longer than eight characters. An empty description is found inside "Required", which is the PHP 8 result for an empty needle; PHP 7 answered differently.
- PHP's conversion of integer-like string keys to integers is not modelled; keys stay strings.
- An empty heading text: PHP 8 emits a warning when it reads the first character, `ctype_upper` of the empty result is false, and a method named "" is registered. The model registers the method and does not model the warning.
- Descriptions are kept in the order `previousAll` walks, nearest first. They are not put back into reading order.
- In `parseType` the `Array of ` test comes before the union test. The model follows the code.
